/** The validation rules of the three WTForms forms in app.py. The `Email()`
    validator is a parameter `isEmail`, and raw request strings reach the
    model already parsed (a date, a time, an integer doctor id). */
module Forms {
  import opened Text
  import opened Domain

  /** `DataRequired()`: the field is present and not only white space. */
  predicate Required(s: String) { Strip(s) != [] }

  datatype LoginForm = LoginForm(email: String, password: String)

  predicate LoginFormValid(f: LoginForm, isEmail: String -> bool) {
    Required(f.email) && isEmail(f.email) && Required(f.password)
  }

  datatype RegisterForm = RegisterForm(fullName: String, email: String, password: String, confirm: String)

  /** full_name: DataRequired, Length(2, 120); email: DataRequired, Email;
      password: DataRequired, Length(min=6); confirm: DataRequired,
      EqualTo("password"). */
  predicate RegisterFormValid(f: RegisterForm, isEmail: String -> bool) {
    && Required(f.fullName) && 2 <= |f.fullName| <= 120
    && Required(f.email) && isEmail(f.email)
    && Required(f.password) && 6 <= |f.password|
    && Required(f.confirm) && f.confirm == f.password
  }

  /** The booking form after parsing: a missing or unparsable date or time
      is `None`. */
  datatype AppointmentForm = AppointmentForm(doctorId: int, date: Option<Date>, time: Option<Time>,
                                             reason: String)

  /** doctor_id: a `SelectField` over `choices`, DataRequired (so not 0);
      date, time: DataRequired; reason: Length(max=255). */
  predicate AppointmentFormValid(f: AppointmentForm, choices: seq<nat>) {
    && f.doctorId != 0 && f.doctorId in choices
    && f.date.Some? && f.time.Some?
    && |f.reason| <= 255
  }
}
