/** The handlers of app.py that change the store, `register` and
    `appointments` on POST, first as functions of the tables they touch and
    then as the methods of the `Store` class that carry them out. */
module Portal {
  import opened Text
  import opened Domain
  import opened Forms
  import opened Queries

  // ---------------------------------------------------------------------
  // Registration (`POST /register`)
  // ---------------------------------------------------------------------

  /** The notices `register` ends with: "Account created!", "Email already
      registered", or "Please correct the errors". */
  datatype RegisterOutcome = Created(userId: nat) | AlreadyRegistered | Rejected

  datatype Registration = Registration(outcome: RegisterOutcome, users: seq<User>)

  /** A `User` as constructed, before `set_password`: no phone, no address,
      no hash yet. */
  function NewUser(id: nat, fullName: String, email: String, now: Moment): User {
    User(id, fullName, email, [], None, None, now)
  }

  /** The user table after `register`: a new row only for a valid form whose
      lower-cased address no user has; the row stores the address
      lower-cased and the hash of the password. */
  function RegisterSpec(users: seq<User>, form: RegisterForm, h: Hasher, isEmail: String -> bool,
                        now: Moment): (r: Registration)
    ensures r.outcome.Rejected? <==> !RegisterFormValid(form, isEmail)
    ensures r.outcome.AlreadyRegistered? <==>
      RegisterFormValid(form, isEmail) && exists u :: u in users && u.email == Lower(form.email)
    ensures !r.outcome.Created? ==> r.users == users
    ensures r.outcome.Created? ==>
      && |r.users| == |users| + 1 && r.users[..|users|] == users
      && var u := r.users[|users|];
         && u.id == r.outcome.userId == |users| + 1
         && u.email == Lower(form.email) && u.fullName == form.fullName
         && (Sound(h) ==> CheckPassword(u, form.password, h))
  {
    if !RegisterFormValid(form, isEmail) then Registration(Rejected, users)
    else if UserWithEmail(users, Lower(form.email)).Some? then Registration(AlreadyRegistered, users)
    else
      var u := SetPassword(NewUser(|users| + 1, form.fullName, Lower(form.email), now), form.password, h);
      assert users + [u] == (users + [u])[..|users|] + [u];
      Registration(Created(u.id), users + [u])
  }

  /** Registration keeps ids numbered and addresses lower-case and unique. */
  lemma RegisterKeepsUsersValid(users: seq<User>, form: RegisterForm, h: Hasher,
                                isEmail: String -> bool, now: Moment)
    requires UsersValid(users)
    ensures UsersValid(RegisterSpec(users, form, h, isEmail, now).users)
  {
    var r := RegisterSpec(users, form, h, isEmail, now);
    if r.outcome.Created? {
      var u := r.users[|users|];
      assert r.users == users + [u];
      AppendUserValid(users, u);
    }
  }

  /** After a successful registration the new account can log in, with the
      address typed in any letter case and the same password. */
  lemma RegisterThenLogin(users: seq<User>, form: RegisterForm, h: Hasher, isEmail: String -> bool,
                          now: Moment, login: LoginForm)
    requires UsersValid(users) && Sound(h)
    requires RegisterSpec(users, form, h, isEmail, now).outcome.Created?
    requires LoginFormValid(login, isEmail)
    requires Lower(login.email) == Lower(form.email) && login.password == form.password
    ensures Login(RegisterSpec(users, form, h, isEmail, now).users, login, h, isEmail)
            == SignedIn(RegisterSpec(users, form, h, isEmail, now).outcome.userId)
  {
    var r := RegisterSpec(users, form, h, isEmail, now);
    var u := r.users[|users|];
    assert r.users == users + [u];
    FindAppended(users, u, Lower(form.email));
  }

  /** Registering an address already taken, in any letter case, is refused
      and leaves the users as they are. */
  lemma RegisterTwiceConflicts(users: seq<User>, form: RegisterForm, again: RegisterForm, h: Hasher,
                               isEmail: String -> bool, now: Moment, later: Moment)
    requires RegisterSpec(users, form, h, isEmail, now).outcome.Created?
    requires RegisterFormValid(again, isEmail) && Lower(again.email) == Lower(form.email)
    ensures var after := RegisterSpec(users, form, h, isEmail, now).users;
      RegisterSpec(after, again, h, isEmail, later) == Registration(AlreadyRegistered, after)
  {
    var after := RegisterSpec(users, form, h, isEmail, now).users;
    assert after[|users|] in after;
  }

  /** Registration changes only the users, and keeps the store valid. */
  lemma RegisterKeepsStoreValid(db: Db, form: RegisterForm, h: Hasher, isEmail: String -> bool,
                                now: Moment)
    requires Valid(db)
    ensures Valid(db.(users := RegisterSpec(db.users, form, h, isEmail, now).users))
  {
    var r := RegisterSpec(db.users, form, h, isEmail, now);
    if r.outcome.Created? {
      var u := r.users[|db.users|];
      assert r.users == db.users + [u];
      AddUserKeepsValid(db, u);
    } else {
      assert db.(users := r.users) == db;
    }
  }

  // ---------------------------------------------------------------------
  // Booking (`POST /appointments`)
  // ---------------------------------------------------------------------

  /** "Appointment booked!", or the form shown again with its errors. */
  datatype BookOutcome = Booked(appointmentId: nat) | BookRejected

  datatype Booking = Booking(outcome: BookOutcome, appointments: seq<Appointment>)

  /** The appointment table after the user `uid` submits the booking form:
      one new row for a valid form, referring to a listed doctor. */
  function BookSpec(appointments: seq<Appointment>, doctors: seq<Doctor>, uid: nat,
                    form: AppointmentForm): (r: Booking)
    ensures r.outcome.Booked? <==> AppointmentFormValid(form, DoctorIds(doctors))
    ensures r.outcome.BookRejected? ==> r.appointments == appointments
    ensures r.outcome.Booked? ==>
      && |r.appointments| == |appointments| + 1 && r.appointments[..|appointments|] == appointments
      && var a := r.appointments[|appointments|];
         && a.id == r.outcome.appointmentId == |appointments| + 1
         && a.userId == uid && a.doctorId == form.doctorId && a.doctorId in DoctorIds(doctors)
         && form.date == Some(a.date) && form.time == Some(a.time)
         && a.reason == form.reason && |a.reason| <= 255
  {
    if !AppointmentFormValid(form, DoctorIds(doctors)) then Booking(BookRejected, appointments)
    else
      var a := Appointment(|appointments| + 1, uid, form.doctorId as nat, form.date.value,
                           form.time.value, form.reason);
      assert (appointments + [a])[..|appointments|] == appointments;
      Booking(Booked(a.id), appointments + [a])
  }

  /** Booking as the signed-in user keeps the store valid: the new row is
      numbered and both of its references resolve. */
  lemma BookKeepsStoreValid(db: Db, uid: nat, form: AppointmentForm)
    requires Valid(db) && uid in UserIds(db.users)
    ensures Valid(db.(appointments := BookSpec(db.appointments, db.doctors, uid, form).appointments))
  {
    var r := BookSpec(db.appointments, db.doctors, uid, form);
    if r.outcome.Booked? {
      var n := |db.appointments|;
      assert r.appointments == db.appointments + [r.appointments[n]];
      forall k | 0 <= k < |r.appointments| ensures r.appointments[k].id == k + 1 {
        if k < n {
          assert r.appointments[k] == db.appointments[k];
        }
      }
    }
  }

  /** A booking shows up in the user's own listing and in no other user's:
      every other listing is unchanged. */
  lemma BookingIsScoped(appointments: seq<Appointment>, doctors: seq<Doctor>, uid: nat,
                        form: AppointmentForm, other: nat)
    requires other != uid
    ensures var r := BookSpec(appointments, doctors, uid, form);
      && AppointmentListing(r.appointments, other) == AppointmentListing(appointments, other)
      && (r.outcome.Booked? ==> r.appointments[|appointments|] in AppointmentListing(r.appointments, uid))
  {
    var r := BookSpec(appointments, doctors, uid, form);
    if r.outcome.Booked? {
      var a := r.appointments[|appointments|];
      assert r.appointments == appointments + [a];
      AppointmentsOfAppend(appointments, [a], other);
      assert AppointmentsOf([a], other) == [] by {
        assert a !in AppointmentsOf([a], other);
      }
      assert AppointmentsOf(r.appointments, other) == AppointmentsOf(appointments, other);
      ListingOfSameRows(r.appointments, appointments, other);
      assert a in r.appointments;
    }
  }

  // ---------------------------------------------------------------------
  // The store
  // ---------------------------------------------------------------------

  /** The database: one sequence per table, which the handlers and the seed
      script append to. */
  class Store {
    var users: seq<User>
    var doctors: seq<Doctor>
    var appointments: seq<Appointment>
    var services: seq<Service>
    var records: seq<MedicalRecord>
    var prescriptions: seq<Prescription>
    var invoices: seq<Invoice>

    function Snapshot(): Db
      reads this
    {
      Db(users, doctors, appointments, services, records, prescriptions, invoices)
    }

    /** `db.create_all()` on a new database: every table empty. */
    constructor ()
      ensures Snapshot() == Db([], [], [], [], [], [], [])
      ensures Valid(Snapshot())
    {
      users, doctors, appointments, services := [], [], [], [];
      records, prescriptions, invoices := [], [], [];
    }

    /** `register`: validate, refuse a taken address, else add the user. */
    method Register(form: RegisterForm, h: Hasher, isEmail: String -> bool, now: Moment)
      returns (outcome: RegisterOutcome)
      requires Valid(Snapshot())
      modifies this
      ensures Valid(Snapshot())
      ensures Registration(outcome, users) == RegisterSpec(old(users), form, h, isEmail, now)
      ensures Snapshot() == old(Snapshot()).(users := users)
    {
      ghost var db := Snapshot();
      RegisterKeepsStoreValid(db, form, h, isEmail, now);
      if !RegisterFormValid(form, isEmail) {
        return Rejected;
      }
      var email := Lower(form.email);
      if UserWithEmail(users, email).Some? {
        return AlreadyRegistered;
      }
      var u := NewUser(|users| + 1, form.fullName, email, now);
      u := SetPassword(u, form.password, h);
      ghost var spec := RegisterSpec(users, form, h, isEmail, now);
      assert spec.users == users + [u];
      users := users + [u];
      outcome := Created(u.id);
      assert Snapshot() == db.(users := spec.users);
    }

    /** `appointments` on POST, for the signed-in user `uid`. */
    method Book(uid: nat, form: AppointmentForm) returns (outcome: BookOutcome)
      requires Valid(Snapshot()) && uid in UserIds(users)
      modifies this
      ensures Valid(Snapshot())
      ensures Booking(outcome, appointments) == BookSpec(old(appointments), doctors, uid, form)
      ensures Snapshot() == old(Snapshot()).(appointments := appointments)
    {
      ghost var db := Snapshot();
      ghost var spec := BookSpec(appointments, doctors, uid, form);
      BookKeepsStoreValid(db, uid, form);
      var choices := DoctorIds(doctors);
      if !AppointmentFormValid(form, choices) {
        return BookRejected;
      }
      var a := Appointment(|appointments| + 1, uid, form.doctorId as nat, form.date.value,
                           form.time.value, form.reason);
      appointments := appointments + [a];
      outcome := Booked(a.id);
      assert Snapshot() == db.(appointments := spec.appointments);
    }
  }
}
