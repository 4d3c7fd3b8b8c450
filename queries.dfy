/** The read-only handlers of app.py: the login lookup, the doctor directory,
    the dashboard and the listings scoped to the signed-in user. The signed-in
    user is the parameter `uid` (Flask-Login's `current_user.id`). */
module Queries {
  import opened Text
  import opened Domain
  import opened Forms

  /** `User.query.filter_by(email=email).first()`. */
  function UserWithEmail(users: seq<User>, email: String): (r: Option<User>)
    ensures r.None? <==> forall u :: u in users ==> u.email != email
    ensures r.Some? ==> r.value in users && r.value.email == email
  {
    if users == [] then None
    else if users[0].email == email then Some(users[0])
    else UserWithEmail(users[1..], email)
  }

  /** A user appended under an address nobody had is the one found by it. */
  lemma FindAppended(users: seq<User>, u: User, email: String)
    requires forall v :: v in users ==> v.email != email
    requires u.email == email
    ensures UserWithEmail(users + [u], email) == Some(u)
  {
    var found := UserWithEmail(users + [u], email);
    assert u in users + [u];
    assert found.value in users || found.value == u;
  }

  /** Logging in as a user appended under an address nobody had checks
      the password against that user. */
  lemma LoginAppended(users: seq<User>, u: User, form: LoginForm, h: Hasher, isEmail: String -> bool)
    requires LoginFormValid(form, isEmail)
    requires forall v :: v in users ==> v.email != Lower(form.email)
    requires u.email == Lower(form.email)
    ensures Login(users + [u], form, h, isEmail) ==
            if CheckPassword(u, form.password, h) then SignedIn(u.id) else BadCredentials
  {
    FindAppended(users, u, Lower(form.email));
  }

  /** With unique e-mail addresses, a user is identified by its address. */
  lemma SameEmailSameUser(users: seq<User>, u: User, v: User)
    requires EmailsUnique(users)
    requires u in users && v in users && u.email == v.email
    ensures u == v
  {
    var i :| 0 <= i < |users| && users[i] == u;
    var j :| 0 <= j < |users| && users[j] == v;
  }

  /** What the login form leads to: a session for a user, or the
      "Invalid email or password" notice, or the form shown again. */
  datatype LoginOutcome = SignedIn(userId: nat) | BadCredentials | FormRejected

  /** `login` on POST: look the user up by the lower-cased address, then
      check the password against the stored hash. */
  function Login(users: seq<User>, form: LoginForm, h: Hasher, isEmail: String -> bool): (r: LoginOutcome)
    ensures r.FormRejected? <==> !LoginFormValid(form, isEmail)
    ensures r.SignedIn? ==>
      exists u :: u in users && u.id == r.userId && u.email == Lower(form.email)
                  && CheckPassword(u, form.password, h)
  {
    if !LoginFormValid(form, isEmail) then FormRejected
    else
      match UserWithEmail(users, Lower(form.email))
      case None => BadCredentials
      case Some(u) => if CheckPassword(u, form.password, h) then SignedIn(u.id) else BadCredentials
  }

  /** On a store with unique addresses, login succeeds exactly when some user
      has the lower-cased address and the password checks against that
      user's hash. */
  lemma LoginExactly(users: seq<User>, form: LoginForm, h: Hasher, isEmail: String -> bool)
    requires EmailsUnique(users)
    ensures Login(users, form, h, isEmail).SignedIn? <==>
      && LoginFormValid(form, isEmail)
      && exists u :: u in users && u.email == Lower(form.email) && CheckPassword(u, form.password, h)
  {
    if LoginFormValid(form, isEmail) &&
       exists u :: u in users && u.email == Lower(form.email) && CheckPassword(u, form.password, h)
    {
      var u :| u in users && u.email == Lower(form.email) && CheckPassword(u, form.password, h);
      var found := UserWithEmail(users, Lower(form.email));
      SameEmailSameUser(users, u, found.value);
    }
  }

  // ---------------------------------------------------------------------
  // Doctor directory (`/doctors?q=&spec=`)
  // ---------------------------------------------------------------------

  /** The text filter, for an already stripped `q`: empty matches everyone,
      otherwise `lower(name) LIKE %q%` or `lower(hospital) LIKE %q%`. */
  predicate MatchesQuery(d: Doctor, q: String) {
    || q == []
    || Like(Lower(d.name), ContainsPattern(Lower(q)))
    || Like(Lower(d.hospital), ContainsPattern(Lower(q)))
  }

  /** The specialization filter, for an already stripped `spec`. */
  predicate MatchesSpecialization(d: Doctor, spec: String) {
    spec == [] || d.specialization == spec
  }

  predicate Listed(d: Doctor, qArg: String, specArg: String) {
    MatchesQuery(d, Strip(qArg)) && MatchesSpecialization(d, Strip(specArg))
  }

  /** The doctors the directory shows for the raw arguments `q` and `spec`. */
  function SearchDoctors(doctors: seq<Doctor>, qArg: String, specArg: String): (r: seq<Doctor>)
    ensures |r| <= |doctors|
    ensures forall d :: d in r <==> d in doctors && Listed(d, qArg, specArg)
  {
    Where(doctors, (d: Doctor) => Listed(d, qArg, specArg))
  }

  /** With both arguments blank the directory lists every doctor, in order. */
  lemma SearchWithoutFilters(doctors: seq<Doctor>, qArg: String, specArg: String)
    requires IsBlank(qArg) && IsBlank(specArg)
    ensures SearchDoctors(doctors, qArg, specArg) == doctors
  {
    StripBlank(qArg);
    StripBlank(specArg);
    WhereAll(doctors, (d: Doctor) => Listed(d, qArg, specArg));
  }

  /** When the stripped `q` holds no LIKE wildcard, the directory lists
      exactly the doctors whose lower-cased name or hospital contains the
      lower-cased `q` (or everyone, for a blank `q`) and whose specialization
      is the stripped `spec` (or any, for a blank `spec`). */
  lemma SearchMeaning(doctors: seq<Doctor>, qArg: String, specArg: String)
    requires NoWildcards(Lower(Strip(qArg)))
    ensures forall d :: d in SearchDoctors(doctors, qArg, specArg) <==>
      && d in doctors
      && (|| IsBlank(qArg)
          || IsInfix(Lower(Strip(qArg)), Lower(d.name))
          || IsInfix(Lower(Strip(qArg)), Lower(d.hospital)))
      && (IsBlank(specArg) || d.specialization == Strip(specArg))
  {
    var q := Lower(Strip(qArg));
    StripBlank(qArg);
    StripBlank(specArg);
    forall d: Doctor
      ensures MatchesQuery(d, Strip(qArg)) <==>
        IsBlank(qArg) || IsInfix(q, Lower(d.name)) || IsInfix(q, Lower(d.hospital))
    {
      ContainsPatternMeansInfix(Lower(d.name), q);
      ContainsPatternMeansInfix(Lower(d.hospital), q);
    }
  }

  /** The distinct specializations over all doctors, in order of first
      appearance: the filter menu, which ignores `q` and `spec`. */
  function Specializations(doctors: seq<Doctor>): (r: seq<String>)
    ensures forall s :: s in r <==> exists k :: 0 <= k < |doctors| && doctors[k].specialization == s
    ensures forall i, j :: 0 <= i < j < |r| ==> r[i] != r[j]
  {
    if doctors == [] then []
    else
      var init := doctors[..|doctors| - 1];
      var s := doctors[|doctors| - 1].specialization;
      var rest := Specializations(init);
      assert forall k :: 0 <= k < |init| ==> init[k] == doctors[k];
      if s in rest then rest else rest + [s]
  }

  // ---------------------------------------------------------------------
  // Listings scoped to the signed-in user
  // ---------------------------------------------------------------------

  /** The filter `user_id == uid` on appointments. */
  function OwnedBy(uid: nat): Appointment -> bool {
    (a: Appointment) => a.userId == uid
  }

  function AppointmentsOf(appointments: seq<Appointment>, uid: nat): (r: seq<Appointment>)
    ensures forall a :: a in r <==> a in appointments && a.userId == uid
  {
    Where(appointments, OwnedBy(uid))
  }

  /** Appending appointments appends their owner's share to each scope. */
  lemma AppointmentsOfAppend(appointments: seq<Appointment>, extra: seq<Appointment>, uid: nat)
    ensures AppointmentsOf(appointments + extra, uid)
            == AppointmentsOf(appointments, uid) + AppointmentsOf(extra, uid)
  {
    WhereAppend(appointments, extra, OwnedBy(uid));
  }

  /** `/records`: the signed-in user's medical records. */
  function RecordsOf(records: seq<MedicalRecord>, uid: nat): (r: seq<MedicalRecord>)
    ensures forall m :: m in r <==> m in records && m.userId == uid
  {
    Where(records, (m: MedicalRecord) => m.userId == uid)
  }

  /** `/prescriptions`: the signed-in user's prescriptions. */
  function PrescriptionsOf(prescriptions: seq<Prescription>, uid: nat): (r: seq<Prescription>)
    ensures forall p :: p in r <==> p in prescriptions && p.userId == uid
  {
    Where(prescriptions, (p: Prescription) => p.userId == uid)
  }

  /** `/billing`: the signed-in user's invoices. */
  function InvoicesOf(invoices: seq<Invoice>, uid: nat): (r: seq<Invoice>)
    ensures forall i :: i in r <==> i in invoices && i.userId == uid
  {
    Where(invoices, (i: Invoice) => i.userId == uid)
  }

  /** Latest first: non-increasing in (date, time). */
  predicate Descending(xs: seq<Appointment>) {
    forall i, j :: 0 <= i < j < |xs| ==> AtOrBefore(When(xs[j]), When(xs[i]))
  }

  /** Every row of `xs` is at or before `m`. */
  predicate AllAtOrBefore(xs: seq<Appointment>, m: Moment) {
    forall k :: 0 <= k < |xs| ==> AtOrBefore(When(xs[k]), m)
  }

  lemma ConsDescending(x: Appointment, xs: seq<Appointment>)
    requires Descending(xs) && AllAtOrBefore(xs, When(x))
    ensures Descending([x] + xs)
  {
    var r := [x] + xs;
    forall i, j | 0 <= i < j < |r| ensures AtOrBefore(When(r[j]), When(r[i])) {
      assert r[j] == xs[j - 1];
      if i > 0 {
        assert r[i] == xs[i - 1];
      }
    }
  }

  /** A descending list is below its head. */
  lemma BelowHead(xs: seq<Appointment>, m: Moment)
    requires Descending(xs) && xs != [] && AtOrBefore(When(xs[0]), m)
    ensures AllAtOrBefore(xs, m)
  {
    forall j | 0 <= j < |xs| ensures AtOrBefore(When(xs[j]), m) {
      MomentOrder(When(xs[j]), When(xs[0]), m);
    }
  }

  /** Inserting `a` below the head `x` keeps everything below `x`. */
  lemma InsertedBelow(a: Appointment, xs: seq<Appointment>, rest: seq<Appointment>, x: Appointment)
    requires Descending([x] + xs) && AtOrBefore(When(a), When(x))
    requires multiset(rest) == multiset(xs) + multiset{a}
    ensures AllAtOrBefore(rest, When(x))
  {
    forall k | 0 <= k < |rest| ensures AtOrBefore(When(rest[k]), When(x)) {
      assert rest[k] in multiset(rest);
      if rest[k] != a {
        assert rest[k] in multiset(xs);
        var j :| 0 <= j < |xs| && xs[j] == rest[k];
        assert ([x] + xs)[j + 1] == xs[j] && ([x] + xs)[0] == x;
        assert AtOrBefore(When(([x] + xs)[j + 1]), When(([x] + xs)[0]));
      }
    }
  }

  function InsertDescending(a: Appointment, xs: seq<Appointment>): (r: seq<Appointment>)
    requires Descending(xs)
    ensures Descending(r)
    ensures multiset(r) == multiset(xs) + multiset{a}
  {
    if xs == [] then [a]
    else if AtOrBefore(When(xs[0]), When(a)) then
      BelowHead(xs, When(a));
      ConsDescending(a, xs);
      [a] + xs
    else
      assert xs == [xs[0]] + xs[1..];
      var rest := InsertDescending(a, xs[1..]);
      MomentOrder(When(a), When(xs[0]), When(a));
      InsertedBelow(a, xs[1..], rest, xs[0]);
      ConsDescending(xs[0], rest);
      [xs[0]] + rest
  }

  /** The order the ORM query imposes; rows with the same (date, time) are
      kept in one fixed order. */
  function SortDescending(xs: seq<Appointment>): (r: seq<Appointment>)
    ensures Descending(r)
    ensures multiset(r) == multiset(xs)
  {
    if xs == [] then []
    else
      assert xs == [xs[0]] + xs[1..];
      InsertDescending(xs[0], SortDescending(xs[1..]))
  }

  /** `/appointments` on GET: the signed-in user's appointments, latest
      first. */
  function AppointmentListing(appointments: seq<Appointment>, uid: nat): (r: seq<Appointment>)
    ensures Descending(r)
    ensures forall a :: a in r <==> a in appointments && a.userId == uid
  {
    var mine := AppointmentsOf(appointments, uid);
    var r := SortDescending(mine);
    assert forall a :: a in r <==> a in mine by {
      assert forall a :: a in r <==> a in multiset(r);
      assert forall a :: a in mine <==> a in multiset(mine);
    }
    r
  }

  /** The listing holds each of the user's appointments as often as the
      table does, and nothing else. */
  lemma ListingCounts(appointments: seq<Appointment>, uid: nat)
    ensures forall a :: multiset(AppointmentListing(appointments, uid))[a] ==
                        if a.userId == uid then multiset(appointments)[a] else 0
  {
    WhereCounts(appointments, OwnedBy(uid));
  }

  /** A listing depends only on the user's own appointments. */
  lemma ListingOfSameRows(xs: seq<Appointment>, ys: seq<Appointment>, uid: nat)
    requires AppointmentsOf(xs, uid) == AppointmentsOf(ys, uid)
    ensures AppointmentListing(xs, uid) == AppointmentListing(ys, uid)
  {
  }

  function Earliest(xs: seq<Appointment>): (r: Option<Appointment>)
    ensures r.None? <==> xs == []
    ensures r.Some? ==> r.value in xs && forall b :: b in xs ==> AtOrBefore(When(r.value), When(b))
  {
    if xs == [] then None
    else
      match Earliest(xs[1..])
      case None => Some(xs[0])
      case Some(e) =>
        MomentOrder(When(e), When(xs[0]), When(e));
        if AtOrBefore(When(e), When(xs[0])) then
          assert forall b :: b in xs ==> b == xs[0] || b in xs[1..];
          Some(e)
        else
          assert forall b :: b in xs[1..] ==> AtOrBefore(When(xs[0]), When(b)) by {
            forall b | b in xs[1..] ensures AtOrBefore(When(xs[0]), When(b)) {
              MomentOrder(When(xs[0]), When(e), When(b));
            }
          }
          assert forall b :: b in xs ==> b == xs[0] || b in xs[1..];
          Some(xs[0])
  }

  /** The dashboard's `next_appt`: an earliest appointment of the user, past
      ones included, or none when the user has no appointment. */
  function NextAppointment(appointments: seq<Appointment>, uid: nat): (r: Option<Appointment>)
    ensures r.None? <==> forall a :: a in appointments ==> a.userId != uid
    ensures r.Some? ==> r.value in appointments && r.value.userId == uid
    ensures r.Some? ==>
      forall b :: b in appointments && b.userId == uid ==> AtOrBefore(When(r.value), When(b))
  {
    Earliest(AppointmentsOf(appointments, uid))
  }

  /** The last row of a latest-first listing is at or before every row. */
  lemma LastIsEarliest(l: seq<Appointment>)
    requires Descending(l) && l != []
    ensures forall x :: x in l ==> AtOrBefore(When(l[|l| - 1]), When(x))
  {
    forall x | x in l ensures AtOrBefore(When(l[|l| - 1]), When(x)) {
      var i :| 0 <= i < |l| && l[i] == x;
      if i == |l| - 1 {
        MomentOrder(When(x), When(x), When(x));
      }
    }
  }

  /** The next appointment on the dashboard is at the moment of the last
      row of the appointment listing. */
  lemma NextIsLastOfListing(appointments: seq<Appointment>, uid: nat)
    ensures AppointmentListing(appointments, uid) == [] <==> NextAppointment(appointments, uid).None?
    ensures AppointmentListing(appointments, uid) != [] ==>
      var l := AppointmentListing(appointments, uid);
      When(NextAppointment(appointments, uid).value) == When(l[|l| - 1])
  {
    var l := AppointmentListing(appointments, uid);
    var n := NextAppointment(appointments, uid);
    if l != [] {
      assert l[|l| - 1] in l;
      assert n.value in l;
      EarliestIsLast(l, n.value);
    } else if n.Some? {
      assert n.value in l;
    }
  }

  /** In a latest-first listing, an earliest row is at the moment of the
      last row. */
  lemma EarliestIsLast(l: seq<Appointment>, e: Appointment)
    requires Descending(l) && l != [] && e in l
    requires forall b :: b in l ==> AtOrBefore(When(e), When(b))
    ensures When(e) == When(l[|l| - 1])
  {
    var last := l[|l| - 1];
    assert last in l;
    LastIsEarliest(l);
    MomentOrder(When(e), When(last), When(e));
  }

  const DashboardDoctors := 6

  datatype DashboardView = DashboardView(doctors: seq<Doctor>, next: Option<Appointment>)

  /** `/dashboard`: the first six doctors and the next appointment. */
  function Dashboard(db: Db, uid: nat): (v: DashboardView)
    ensures |v.doctors| <= DashboardDoctors
    ensures |v.doctors| == if |db.doctors| < DashboardDoctors then |db.doctors| else DashboardDoctors
    ensures v.doctors == db.doctors[..|v.doctors|]
    ensures v.next == NextAppointment(db.appointments, uid)
  {
    var shown := if |db.doctors| < DashboardDoctors then db.doctors else db.doctors[..DashboardDoctors];
    DashboardView(shown, NextAppointment(db.appointments, uid))
  }
}
