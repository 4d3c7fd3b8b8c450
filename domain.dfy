/** The portal's tables (app.py, the `db.Model` classes) as rows of values,
    the invariants the store keeps, and the password hasher it delegates to. */
module Domain {
  import opened Text

  datatype Option<T> = None | Some(value: T)

  datatype Date = Date(year: int, month: int, day: int)
  datatype Time = Time(hour: int, minute: int)

  /** A date with a time of day; ordered as the pair (date, time). */
  datatype Moment = Moment(date: Date, time: Time)

  /** `a <= b` for the lexicographic order on (year, month, day, hour, minute). */
  predicate AtOrBefore(a: Moment, b: Moment) {
    if a.date.year != b.date.year then a.date.year < b.date.year
    else if a.date.month != b.date.month then a.date.month < b.date.month
    else if a.date.day != b.date.day then a.date.day < b.date.day
    else if a.time.hour != b.time.hour then a.time.hour < b.time.hour
    else a.time.minute <= b.time.minute
  }

  /** AtOrBefore is a total order on moments. */
  lemma MomentOrder(a: Moment, b: Moment, c: Moment)
    ensures AtOrBefore(a, a)
    ensures AtOrBefore(a, b) || AtOrBefore(b, a)
    ensures AtOrBefore(a, b) && AtOrBefore(b, a) ==> a == b
    ensures AtOrBefore(a, b) && AtOrBefore(b, c) ==> AtOrBefore(a, c)
  {
    if AtOrBefore(a, b) && AtOrBefore(b, a) {
      assert a.date == b.date && a.time == b.time;
    }
  }

  datatype User = User(id: nat, fullName: String, email: String, passwordHash: String,
                       phone: Option<String>, address: Option<String>, createdAt: Moment)

  datatype Doctor = Doctor(id: nat, name: String, specialization: String, hospital: String,
                           contact: String, workHours: String, bio: String, photo: String)

  datatype Appointment = Appointment(id: nat, userId: nat, doctorId: nat, date: Date, time: Time,
                                     reason: String)

  datatype Service = Service(id: nat, name: String, description: String, price: int)

  datatype MedicalRecord = MedicalRecord(id: nat, userId: nat, title: String, notes: String,
                                         createdAt: Moment)

  datatype Prescription = Prescription(id: nat, userId: nat, doctorName: String, medication: String,
                                       dosage: String, instructions: String, issuedOn: Date)

  datatype Invoice = Invoice(id: nat, userId: nat, item: String, amount: int, status: String,
                             issuedOn: Date)

  function When(a: Appointment): Moment { Moment(a.date, a.time) }

  /** The whole store: one sequence of rows per table, in insertion order. */
  datatype Db = Db(users: seq<User>, doctors: seq<Doctor>, appointments: seq<Appointment>,
                   services: seq<Service>, records: seq<MedicalRecord>,
                   prescriptions: seq<Prescription>, invoices: seq<Invoice>)

  /** bcrypt, as the two calls the portal makes: `generate_password_hash`
      (with its random salt folded in) and `check_password_hash`. */
  datatype Hasher = Hasher(hash: String -> String, check: (String, String) -> bool)

  /** A hash checks against the password it was made from. */
  ghost predicate Sound(h: Hasher) {
    forall pw :: h.check(h.hash(pw), pw)
  }

  /** bcrypt reads at most the first 72 bytes of a password. */
  const BcryptLimit := 72

  predicate FitsBcrypt(pw: String) {
    Utf8Size(pw) <= BcryptLimit
  }

  /** Among passwords bcrypt reads in full, a hash checks against no other
      password. */
  ghost predicate Binding(h: Hasher) {
    forall pw, other :: FitsBcrypt(pw) && FitsBcrypt(other) && h.check(h.hash(pw), other) ==> other == pw
  }

  /** `User.set_password`: replaces the stored hash and nothing else. */
  function SetPassword(u: User, pw: String, h: Hasher): (r: User)
    ensures r.(passwordHash := u.passwordHash) == u
    ensures Sound(h) ==> CheckPassword(r, pw, h)
    ensures Binding(h) && FitsBcrypt(pw) ==>
      forall other :: FitsBcrypt(other) && CheckPassword(r, other, h) ==> other == pw
  {
    u.(passwordHash := h.hash(pw))
  }

  /** `User.check_password`. */
  predicate CheckPassword(u: User, pw: String, h: Hasher) {
    h.check(u.passwordHash, pw)
  }

  /** The rows of `rows` that satisfy `keep`, in their order (a
      `filter_by` query). */
  function Where<T(==,!new)>(rows: seq<T>, keep: T -> bool): (r: seq<T>)
    ensures |r| <= |rows|
    ensures forall x :: x in r <==> x in rows && keep(x)
  {
    if rows == [] then []
    else
      var init := rows[..|rows| - 1];
      var last := rows[|rows| - 1];
      assert rows == init + [last];
      Where(init, keep) + (if keep(last) then [last] else [])
  }

  /** Where keeps every copy of a kept row and no copy of the others. */
  lemma {:induction false} WhereCounts<T(!new)>(rows: seq<T>, keep: T -> bool)
    ensures forall x :: multiset(Where(rows, keep))[x] == if keep(x) then multiset(rows)[x] else 0
  {
    if rows != [] {
      var init := rows[..|rows| - 1];
      var last := rows[|rows| - 1];
      assert rows == init + [last];
      WhereCounts(init, keep);
    }
  }

  lemma {:induction false} WhereAppend<T(!new)>(rows: seq<T>, extra: seq<T>, keep: T -> bool)
    ensures Where(rows + extra, keep) == Where(rows, keep) + Where(extra, keep)
    decreases |extra|
  {
    if extra == [] {
      assert rows + extra == rows;
    } else {
      var init := extra[..|extra| - 1];
      var last := extra[|extra| - 1];
      var tail := if keep(last) then [last] else [];
      assert rows + extra == (rows + init) + [last];
      assert extra == init + [last];
      calc {
        Where(rows + extra, keep);
        { WhereSnoc(rows + init, last, keep); }
        Where(rows + init, keep) + tail;
        { WhereAppend(rows, init, keep); }
        (Where(rows, keep) + Where(init, keep)) + tail;
        Where(rows, keep) + (Where(init, keep) + tail);
        { WhereSnoc(init, last, keep); }
        Where(rows, keep) + Where(extra, keep);
      }
    }
  }

  /** A filter that keeps every row returns the table unchanged. */
  lemma {:induction false} WhereAll<T(!new)>(rows: seq<T>, keep: T -> bool)
    requires forall k :: 0 <= k < |rows| ==> keep(rows[k])
    ensures Where(rows, keep) == rows
  {
    if rows != [] {
      var init := rows[..|rows| - 1];
      var last := rows[|rows| - 1];
      assert rows == init + [last];
      assert forall k :: 0 <= k < |init| ==> keep(init[k]) by {
        forall k | 0 <= k < |init| ensures keep(init[k]) {
          assert init[k] == rows[k];
        }
      }
      WhereAll(init, keep);
      WhereSnoc(init, last, keep);
    }
  }

  /** Where on a table with one more row at the end. */
  lemma WhereSnoc<T(!new)>(rows: seq<T>, last: T, keep: T -> bool)
    ensures Where(rows + [last], keep) == Where(rows, keep) + if keep(last) then [last] else []
  {
    var all := rows + [last];
    assert all[..|all| - 1] == rows;
  }

  /** The ids of a table's rows, in row order. */
  function Ids<T>(rows: seq<T>, id: T -> nat): (ids: seq<nat>)
    ensures |ids| == |rows| && forall k :: 0 <= k < |rows| ==> ids[k] == id(rows[k])
  {
    seq(|rows|, k requires 0 <= k < |rows| => id(rows[k]))
  }

  function UserIds(users: seq<User>): seq<nat> {
    Ids(users, (u: User) => u.id)
  }

  /** The ids offered by the booking form's doctor `SelectField`. */
  function DoctorIds(doctors: seq<Doctor>): seq<nat> {
    Ids(doctors, (d: Doctor) => d.id)
  }

  /** Every row has as id its position plus one: the ids SQLite hands out
      in a table from which nothing is deleted. */
  predicate Numbered<T>(rows: seq<T>, id: T -> nat) {
    forall k :: 0 <= k < |rows| ==> id(rows[k]) == k + 1
  }

  /** Stored e-mail addresses are lower-case. */
  predicate EmailsNormalised(users: seq<User>) {
    forall k :: 0 <= k < |users| ==> IsLower(users[k].email)
  }

  /** No two users share an e-mail address (the column is `unique=True`). */
  predicate EmailsUnique(users: seq<User>) {
    forall i, j :: 0 <= i < j < |users| ==> users[i].email != users[j].email
  }

  predicate UsersValid(users: seq<User>) {
    Numbered(users, (u: User) => u.id) && EmailsNormalised(users) && EmailsUnique(users)
  }

  /** Each appointment refers to an existing user and an existing doctor. */
  predicate AppointmentsValid(appointments: seq<Appointment>, users: seq<User>, doctors: seq<Doctor>) {
    && Numbered(appointments, (a: Appointment) => a.id)
    && forall a :: a in appointments ==> a.userId in UserIds(users) && a.doctorId in DoctorIds(doctors)
  }

  predicate IsInvoiceStatus(s: String) { s == "Unpaid" || s == "Paid" }

  predicate ServicesValid(services: seq<Service>) {
    Numbered(services, (s: Service) => s.id) && forall s :: s in services ==> s.price >= 0
  }

  predicate RecordsValid(records: seq<MedicalRecord>, users: seq<User>) {
    Numbered(records, (m: MedicalRecord) => m.id) && forall m :: m in records ==> m.userId in UserIds(users)
  }

  predicate PrescriptionsValid(prescriptions: seq<Prescription>, users: seq<User>) {
    && Numbered(prescriptions, (p: Prescription) => p.id)
    && forall p :: p in prescriptions ==> p.userId in UserIds(users)
  }

  predicate InvoicesValid(invoices: seq<Invoice>, users: seq<User>) {
    && Numbered(invoices, (i: Invoice) => i.id)
    && forall i :: i in invoices ==> i.userId in UserIds(users) && IsInvoiceStatus(i.status)
  }

  /** The invariants of the store: numbered rows, normalised and unique
      e-mail addresses, foreign keys that resolve, non-negative service
      prices and invoice statuses from the known set. */
  predicate Valid(db: Db) {
    && UsersValid(db.users)
    && Numbered(db.doctors, (d: Doctor) => d.id)
    && AppointmentsValid(db.appointments, db.users, db.doctors)
    && ServicesValid(db.services)
    && RecordsValid(db.records, db.users)
    && PrescriptionsValid(db.prescriptions, db.users)
    && InvoicesValid(db.invoices, db.users)
  }

  /** Appending rows keeps the ids of the existing ones. */
  lemma IdsGrow(users: seq<User>, doctors: seq<Doctor>, moreUsers: seq<User>, moreDoctors: seq<Doctor>)
    ensures forall x :: x in UserIds(users) ==> x in UserIds(users + moreUsers)
    ensures forall x :: x in DoctorIds(doctors) ==> x in DoctorIds(doctors + moreDoctors)
  {
    forall x | x in UserIds(users) ensures x in UserIds(users + moreUsers) {
      var k :| 0 <= k < |users| && UserIds(users)[k] == x;
      assert UserIds(users + moreUsers)[k] == x;
    }
    forall x | x in DoctorIds(doctors) ensures x in DoctorIds(doctors + moreDoctors) {
      var k :| 0 <= k < |doctors| && DoctorIds(doctors)[k] == x;
      assert DoctorIds(doctors + moreDoctors)[k] == x;
    }
  }

  /** A user whose address no other user has keeps the addresses unique. */
  lemma AppendFreshEmail(users: seq<User>, u: User)
    requires EmailsUnique(users)
    requires forall v :: v in users ==> v.email != u.email
    ensures EmailsUnique(users + [u])
  {
    var all := users + [u];
    forall i, j | 0 <= i < j < |all| ensures all[i].email != all[j].email {
      assert all[i] == users[i];
      if j < |users| {
        assert all[j] == users[j];
      } else {
        assert all[i] in users;
      }
    }
  }

  /** A new user with the next id and a fresh, lower-case address keeps
      the user table valid. */
  lemma AppendUserValid(users: seq<User>, u: User)
    requires UsersValid(users)
    requires u.id == |users| + 1 && IsLower(u.email)
    requires forall v :: v in users ==> v.email != u.email
    ensures UsersValid(users + [u])
  {
    var all := users + [u];
    AppendFreshEmail(users, u);
    assert forall k :: 0 <= k < |users| ==> all[k] == users[k];
  }

  /** ... and the whole store valid. */
  lemma AddUserKeepsValid(db: Db, u: User)
    requires Valid(db)
    requires u.id == |db.users| + 1 && IsLower(u.email)
    requires forall v :: v in db.users ==> v.email != u.email
    ensures Valid(db.(users := db.users + [u]))
  {
    IdsGrow(db.users, db.doctors, [u], []);
    assert db.doctors + [] == db.doctors;
    AppendUserValid(db.users, u);
  }
}
