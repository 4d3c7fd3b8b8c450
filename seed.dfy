/** seed.py: a top-to-bottom run of guarded inserts that fills a store with
    a demo account, the doctor directory, the service catalogue and the demo
    account's sample data. */
module Seeding {
  import opened Text
  import opened Domain
  import opened Queries
  import opened Portal

  const DemoEmail: String := "demo@medicare.app"
  const DemoName: String := "Demo User"
  const DemoPassword: String := "Demo@123"
  const SampleDoctorName: String := "Dr. Sarah Johnson"

  datatype DoctorInfo = DoctorInfo(name: String, specialization: String, hospital: String,
                                   contact: String, workHours: String, bio: String, photo: String)

  datatype ServiceInfo = ServiceInfo(name: String, description: String, price: int)

  /** The two lists the script inserts from: doctors and services. */
  datatype Catalogue = Catalogue(doctors: seq<DoctorInfo>, services: seq<ServiceInfo>)

  /** The lists as seed.py writes them. */
  const Script: Catalogue := Catalogue(
    [
      DoctorInfo("Dr. Sarah Johnson", "Cardiology", "Nova Heart Institute", "+1 555-210-7788",
                 "Mon, Wed, Fri — 9:00–17:00",
                 "15+ years treating coronary artery disease and heart failure; preventive cardiology advocate.",
                 "https://randomuser.me/api/portraits/women/44.jpg"),
      DoctorInfo("Dr. Michael Chen", "Neurology", "Cerebra Neuro Center", "+1 555-889-2211",
                 "Tue, Thu — 10:00–18:00",
                 "Board-certified neurologist focused on migraines, epilepsy, and movement disorders.",
                 "https://randomuser.me/api/portraits/men/32.jpg"),
      DoctorInfo("Dr. Emily Williams", "Pediatrics", "Sunrise Children’s Hospital", "+1 555-661-0099",
                 "Mon–Fri — 08:00–16:00",
                 "Primary care for kids, adolescent medicine, and vaccination counseling.",
                 "https://randomuser.me/api/portraits/women/68.jpg"),
      DoctorInfo("Dr. Raj Patel", "Orthopedics", "Motion Ortho Clinic", "+1 555-774-9900",
                 "Mon, Thu — 09:00–17:00",
                 "Sports injuries, knee/hip replacements, and arthroscopy specialist.",
                 "https://randomuser.me/api/portraits/men/56.jpg"),
      DoctorInfo("Dr. Aisha Khan", "Dermatology", "Glow Skin Center", "+1 555-120-3344",
                 "Tue–Sat — 11:00–19:00",
                 "Acne, psoriasis, cosmetic dermatology, and dermoscopy.",
                 "https://randomuser.me/api/portraits/women/12.jpg"),
      DoctorInfo("Dr. Luis Garcia", "Gastroenterology", "Digestive Health Group", "+1 555-221-5566",
                 "Mon–Fri — 09:30–17:30",
                 "Endoscopy, IBS/IBD management, and hepatology.",
                 "https://randomuser.me/api/portraits/men/71.jpg"),
      DoctorInfo("Dr. Hana Suzuki", "Endocrinology", "Metabolic Care Center", "+1 555-998-2233",
                 "Mon, Wed, Fri — 10:00–16:00",
                 "Diabetes, thyroid disorders, and osteoporosis.",
                 "https://randomuser.me/api/portraits/women/28.jpg"),
      DoctorInfo("Dr. Omar Nasser", "Pulmonology", "Lung & Sleep Institute", "+1 555-552-7711",
                 "Tue, Thu — 09:00–17:00",
                 "Asthma, COPD, sleep apnea; certified in sleep medicine.",
                 "https://randomuser.me/api/portraits/men/85.jpg"),
      DoctorInfo("Dr. Sofia Rossi", "Gynecology", "Women’s Wellness Center", "+1 555-330-8899",
                 "Mon–Fri — 10:00–18:00",
                 "Preventive care, fertility counseling, and minimally invasive surgery.",
                 "https://randomuser.me/api/portraits/women/45.jpg")
    ],
    [
      ServiceInfo("General Consultation", "Primary care visits for common ailments and referrals.", 50),
      ServiceInfo("Heart Check", "ECG, lipid profile, and cardiologist review.", 180),
      ServiceInfo("Skin Screening", "Full-body mole check and dermatology consult.", 120),
      ServiceInfo("Diabetes Package", "HbA1c, endocrine consult, and diet plan.", 140)
    ])

  /** No listed service has a negative price. */
  predicate PricesNonNegative(c: Catalogue) {
    forall s :: s in c.services ==> s.price >= 0
  }

  /** The script lists nine doctors, the first of them Dr. Sarah Johnson,
      and four services, none with a negative price. */
  lemma ScriptListing()
    ensures |Script.doctors| == 9 && Script.doctors[0].name == SampleDoctorName
    ensures |Script.services| == 4 && PricesNonNegative(Script)
  {
  }

  /** What the script takes from its surroundings: bcrypt, `date.today()`
      and `datetime.utcnow()`. */
  datatype SeedEnv = SeedEnv(hasher: Hasher, today: Date, now: Moment)

  // ---------------------------------------------------------------------
  // The four steps, as functions of the store
  // ---------------------------------------------------------------------

  function DemoUser(id: nat, env: SeedEnv): (u: User)
    ensures u.id == id && u.email == DemoEmail
    ensures Sound(env.hasher) ==> CheckPassword(u, DemoPassword, env.hasher)
    ensures Binding(env.hasher) ==>
      forall pw :: FitsBcrypt(pw) && CheckPassword(u, pw, env.hasher) ==> pw == DemoPassword
  {
    DemoPasswordFits();
    SetPassword(NewUser(id, DemoName, DemoEmail, env.now), DemoPassword, env.hasher)
  }

  /** Step 1: add the demo user unless some user has its address. */
  function SeedDemoUser(db: Db, env: SeedEnv): (r: Db)
    ensures r == db.(users := r.users)
    ensures UserWithEmail(r.users, DemoEmail).Some?
    ensures UserWithEmail(db.users, DemoEmail).Some? ==> r.users == db.users
    ensures UserWithEmail(db.users, DemoEmail).None? ==>
      r.users == db.users + [DemoUser(|db.users| + 1, env)]
  {
    if UserWithEmail(db.users, DemoEmail).Some? then db
    else
      var u := DemoUser(|db.users| + 1, env);
      assert u in db.users + [u];
      db.(users := db.users + [u])
  }

  function DoctorRow(id: nat, d: DoctorInfo): Doctor {
    Doctor(id, d.name, d.specialization, d.hospital, d.contact, d.workHours, d.bio, d.photo)
  }

  /** `db.session.add(Doctor(**d))` for each `d` in turn. */
  function AddDoctors(doctors: seq<Doctor>, infos: seq<DoctorInfo>): (r: seq<Doctor>)
    ensures |r| == |doctors| + |infos| && doctors <= r
    ensures forall k :: 0 <= k < |infos| ==> r[|doctors| + k] == DoctorRow(|doctors| + k + 1, infos[k])
    decreases |infos|
  {
    if infos == [] then doctors
    else
      var init := infos[..|infos| - 1];
      var rest := AddDoctors(doctors, init);
      assert forall k :: 0 <= k < |init| ==> init[k] == infos[k];
      rest + [DoctorRow(|rest| + 1, infos[|infos| - 1])]
  }

  /** Step 2: the listed doctors, only into an empty table. */
  function SeedDoctors(db: Db, c: Catalogue): (r: Db)
    ensures r == db.(doctors := r.doctors)
    ensures |db.doctors| == 0 ==> r.doctors == AddDoctors([], c.doctors)
    ensures |db.doctors| != 0 ==> r.doctors == db.doctors
  {
    if |db.doctors| == 0 then db.(doctors := AddDoctors(db.doctors, c.doctors)) else db
  }

  function ServiceRow(id: nat, s: ServiceInfo): Service {
    Service(id, s.name, s.description, s.price)
  }

  /** `db.session.add(Service(**s))` for each `s` in turn. */
  function AddServices(services: seq<Service>, infos: seq<ServiceInfo>): (r: seq<Service>)
    ensures |r| == |services| + |infos| && services <= r
    ensures forall k :: 0 <= k < |infos| ==> r[|services| + k] == ServiceRow(|services| + k + 1, infos[k])
    decreases |infos|
  {
    if infos == [] then services
    else
      var init := infos[..|infos| - 1];
      var rest := AddServices(services, init);
      assert forall k :: 0 <= k < |init| ==> init[k] == infos[k];
      rest + [ServiceRow(|rest| + 1, infos[|infos| - 1])]
  }

  /** Step 3: the listed services, only into an empty table. */
  function SeedServices(db: Db, c: Catalogue): (r: Db)
    ensures r == db.(services := r.services)
    ensures |db.services| == 0 ==> r.services == AddServices([], c.services)
    ensures |db.services| != 0 ==> r.services == db.services
  {
    if |db.services| == 0 then db.(services := AddServices(db.services, c.services)) else db
  }

  /** `Doctor.query.filter_by(name=name).first()`. */
  function DoctorNamed(doctors: seq<Doctor>, name: String): (r: Option<Doctor>)
    ensures r.None? <==> forall d :: d in doctors ==> d.name != name
    ensures r.Some? ==> r.value in doctors && r.value.name == name
  {
    if doctors == [] then None
    else if doctors[0].name == name then Some(doctors[0])
    else DoctorNamed(doctors[1..], name)
  }

  /** The texts of the sample rows step 4 adds. */
  const PhysicalTitle: String := "Annual Physical 2024"
  const PhysicalNotes: String := "Normal vitals, BMI 23.1, advised regular exercise."
  const AllergyTitle: String := "Allergy Panel"
  const AllergyNotes: String := "Mild pollen allergy; prescribed antihistamines as needed."
  const SampleMedication: String := "Atorvastatin 10mg"
  const SampleDosage: String := "1 tab daily"
  const SampleInstructions: String := "Take at night."
  const FollowUpReason: String := "Follow-up"
  const SampleInvoiceItem: String := "General Consultation"

  /** The rows step 4 adds for the user `u`: two medical records, a
      prescription, a paid invoice of 50 and, when the doctor exists, a
      follow-up with Dr. Sarah Johnson today at 15:00. */
  function SampleData(db: Db, u: User, env: SeedEnv): (r: Db)
    ensures r.users == db.users && r.doctors == db.doctors && r.services == db.services
    ensures db.records <= r.records && db.prescriptions <= r.prescriptions
    ensures db.invoices <= r.invoices && db.appointments <= r.appointments
  {
    var nr := |db.records|;
    var records := db.records + [
      MedicalRecord(nr + 1, u.id, PhysicalTitle, PhysicalNotes, env.now),
      MedicalRecord(nr + 2, u.id, AllergyTitle, AllergyNotes, env.now)];
    var prescriptions := db.prescriptions + [
      Prescription(|db.prescriptions| + 1, u.id, SampleDoctorName, SampleMedication,
                   SampleDosage, SampleInstructions, env.today)];
    var invoices := db.invoices + [
      Invoice(|db.invoices| + 1, u.id, SampleInvoiceItem, 50, "Paid", env.today)];
    var appointments :=
      match DoctorNamed(db.doctors, SampleDoctorName)
      case None => db.appointments
      case Some(d) => db.appointments + [
        Appointment(|db.appointments| + 1, u.id, d.id, env.today, Time(15, 0), FollowUpReason)];
    db.(records := records, prescriptions := prescriptions, invoices := invoices,
        appointments := appointments)
  }

  /** Step 4: sample data for the demo user, only while that user has no
      medical record. */
  function SeedSampleData(db: Db, env: SeedEnv): (r: Db)
    ensures r.users == db.users && r.doctors == db.doctors && r.services == db.services
    ensures db.records <= r.records && db.prescriptions <= r.prescriptions
    ensures db.invoices <= r.invoices && db.appointments <= r.appointments
  {
    match UserWithEmail(db.users, DemoEmail)
    case None => db
    case Some(u) => if |RecordsOf(db.records, u.id)| == 0 then SampleData(db, u, env) else db
  }

  /** The whole script, inserting from the lists `c`; seed.py itself is
      `SeedSpec(db, env, Script)`. */
  function SeedSpec(db: Db, env: SeedEnv, c: Catalogue): Db {
    SeedSampleData(SeedServices(SeedDoctors(SeedDemoUser(db, env), c), c), env)
  }

  // ---------------------------------------------------------------------
  // What the script promises
  // ---------------------------------------------------------------------

  /** Seeding only appends: every table keeps its rows as a prefix. */
  lemma SeedOnlyInserts(db: Db, env: SeedEnv, c: Catalogue)
    ensures var r := SeedSpec(db, env, c);
      && db.users <= r.users && db.doctors <= r.doctors && db.services <= r.services
      && db.appointments <= r.appointments && db.records <= r.records
      && db.prescriptions <= r.prescriptions && db.invoices <= r.invoices
  {
    var d1 := SeedDemoUser(db, env);
    var d2 := SeedDoctors(d1, c);
    var d3 := SeedServices(d2, c);
    if UserWithEmail(db.users, DemoEmail).None? {
      assert db.users <= d1.users;
    }
    if |d1.doctors| == 0 {
      assert d1.doctors <= d2.doctors;
    }
    if |d2.services| == 0 {
      assert d2.services <= d3.services;
    }
  }

  /** Step 4 leaves the demo user with a medical record. */
  lemma SampleDataLeavesRecord(db: Db, env: SeedEnv)
    requires UserWithEmail(db.users, DemoEmail).Some?
    ensures |RecordsOf(SeedSampleData(db, env).records, UserWithEmail(db.users, DemoEmail).value.id)| != 0
  {
    var u := UserWithEmail(db.users, DemoEmail).value;
    var r := SeedSampleData(db, env);
    if |RecordsOf(db.records, u.id)| == 0 {
      var m := r.records[|db.records|];
      assert m in r.records && m.userId == u.id;
      assert m in RecordsOf(r.records, u.id);
    }
  }

  /** Steps 2 and 3 fill an empty table once: a second run adds nothing. */
  lemma ListsOnce(db: Db, c: Catalogue)
    ensures var r := SeedDoctors(db, c); SeedDoctors(r, c) == r
    ensures var r := SeedServices(db, c); SeedServices(r, c) == r
  {
    if |db.doctors| == 0 && c.doctors == [] {
      assert AddDoctors([], c.doctors) == [];
    }
    if |db.services| == 0 && c.services == [] {
      assert AddServices([], c.services) == [];
    }
  }

  /** Running the script a second time, at any later moment, changes
      nothing: every insert is guarded by a test the first run made false. */
  lemma SeedIdempotent(db: Db, env: SeedEnv, later: SeedEnv, c: Catalogue)
    ensures SeedSpec(SeedSpec(db, env, c), later, c) == SeedSpec(db, env, c)
  {
    var d1 := SeedDemoUser(db, env);
    var d2 := SeedDoctors(d1, c);
    var d3 := SeedServices(d2, c);
    var r := SeedSampleData(d3, env);
    assert SeedDemoUser(r, later) == r;
    ListsOnce(d1, c);
    assert SeedDoctors(r, c) == r;
    ListsOnce(d2, c);
    assert SeedServices(r, c) == r;
    SampleDataLeavesRecord(d3, env);
    assert SeedSampleData(r, later) == r;
  }

  /** After seeding exactly one user has the demo address, provided at most
      one had it before (as the store's unique address column ensures). */
  lemma SeedDemoUserExactlyOnce(db: Db, env: SeedEnv, c: Catalogue)
    requires forall i, j :: 0 <= i < |db.users| && 0 <= j < |db.users| ==>
      db.users[i].email == DemoEmail && db.users[j].email == DemoEmail ==> i == j
    ensures var users := SeedSpec(db, env, c).users;
      && (exists k :: 0 <= k < |users| && users[k].email == DemoEmail)
      && (forall i, j :: 0 <= i < |users| && 0 <= j < |users| ==>
            users[i].email == DemoEmail && users[j].email == DemoEmail ==> i == j)
  {
    var users := SeedSpec(db, env, c).users;
    SeedTables(db, env, c);
    var u := UserWithEmail(users, DemoEmail).value;
    var k :| 0 <= k < |users| && users[k] == u;
    if UserWithEmail(db.users, DemoEmail).None? {
      forall i | 0 <= i < |db.users| ensures users[i].email != DemoEmail {
        assert users[i] == db.users[i];
        assert db.users[i] in db.users;
      }
    }
  }

  /** Each of the first three steps alone decides its own table. */
  lemma SeedTables(db: Db, env: SeedEnv, c: Catalogue)
    ensures SeedSpec(db, env, c).users == SeedDemoUser(db, env).users
    ensures SeedSpec(db, env, c).doctors == SeedDoctors(db, c).doctors
    ensures SeedSpec(db, env, c).services == SeedServices(db, c).services
  {
  }

  /** On an empty doctor table the script adds exactly the listed doctors,
      numbered from 1 in their order; otherwise it leaves the table alone. */
  lemma SeedDoctorsWhenEmpty(db: Db, env: SeedEnv, c: Catalogue)
    ensures |db.doctors| != 0 ==> SeedSpec(db, env, c).doctors == db.doctors
    ensures |db.doctors| == 0 ==>
      var ds := SeedSpec(db, env, c).doctors;
      && |ds| == |c.doctors|
      && forall k :: 0 <= k < |c.doctors| ==> ds[k] == DoctorRow(k + 1, c.doctors[k])
  {
    SeedTables(db, env, c);
    if |db.doctors| == 0 {
      assert SeedSpec(db, env, c).doctors == AddDoctors([], c.doctors);
      DoctorsFromEmpty(c);
    }
  }

  lemma DoctorsFromEmpty(c: Catalogue)
    ensures forall k :: 0 <= k < |c.doctors| ==> AddDoctors([], c.doctors)[k] == DoctorRow(k + 1, c.doctors[k])
  {
    var ds := AddDoctors([], c.doctors);
    forall k | 0 <= k < |c.doctors| ensures ds[k] == DoctorRow(k + 1, c.doctors[k]) {
      assert ds[0 + k] == DoctorRow(0 + k + 1, c.doctors[k]);
    }
  }

  /** On an empty service table the script adds exactly the listed
      services, numbered from 1 in their order, so with the prices listed;
      otherwise it leaves the table alone. */
  lemma SeedServicesWhenEmpty(db: Db, env: SeedEnv, c: Catalogue)
    ensures |db.services| != 0 ==> SeedSpec(db, env, c).services == db.services
    ensures |db.services| == 0 ==>
      var ss := SeedSpec(db, env, c).services;
      && |ss| == |c.services|
      && (forall k :: 0 <= k < |c.services| ==> ss[k] == ServiceRow(k + 1, c.services[k]))
      && (PricesNonNegative(c) ==> forall s :: s in ss ==> s.price >= 0)
  {
    SeedTables(db, env, c);
    if |db.services| == 0 {
      assert SeedSpec(db, env, c).services == AddServices([], c.services);
      ServicesFromEmpty(c);
    }
  }

  lemma ServicesFromEmpty(c: Catalogue)
    ensures forall k :: 0 <= k < |c.services| ==> AddServices([], c.services)[k] == ServiceRow(k + 1, c.services[k])
    ensures PricesNonNegative(c) ==> forall s :: s in AddServices([], c.services) ==> s.price >= 0
  {
    var ss := AddServices([], c.services);
    forall k | 0 <= k < |c.services| ensures ss[k] == ServiceRow(k + 1, c.services[k]) {
      assert ss[0 + k] == ServiceRow(0 + k + 1, c.services[k]);
    }
    if PricesNonNegative(c) {
      forall s | s in ss ensures s.price >= 0 {
        var k :| 0 <= k < |ss| && ss[k] == s;
        assert c.services[k] in c.services;
      }
    }
  }

  /** The sample data goes in exactly when the demo user has no medical
      record yet: two records, one prescription and one paid invoice of 50,
      all the demo user's, plus a follow-up that refers to a doctor named
      Dr. Sarah Johnson when one exists. */
  lemma SeedSampleDataShape(db: Db, env: SeedEnv)
    requires UserWithEmail(db.users, DemoEmail).Some?
    ensures var u := UserWithEmail(db.users, DemoEmail).value;
      var r := SeedSampleData(db, env);
      if |RecordsOf(db.records, u.id)| == 0 then SampleDataShape(db, r, u) else r == db
  {
    var u := UserWithEmail(db.users, DemoEmail).value;
    if |RecordsOf(db.records, u.id)| == 0 {
      SampleDataHasShape(db, u, env);
    }
  }

  /** What step 4 adds for the user `u` to the store `db`, giving `r`. */
  predicate SampleDataShape(db: Db, r: Db, u: User) {
    && |r.records| == |db.records| + 2
    && (forall m :: m in r.records[|db.records|..] ==> m.userId == u.id)
    && |r.prescriptions| == |db.prescriptions| + 1 && r.prescriptions[|db.prescriptions|].userId == u.id
    && |r.invoices| == |db.invoices| + 1
    && r.invoices[|db.invoices|].userId == u.id
    && r.invoices[|db.invoices|].amount == 50 && r.invoices[|db.invoices|].status == "Paid"
    && (|r.appointments| == |db.appointments| + 1 <==> DoctorNamed(db.doctors, SampleDoctorName).Some?)
    && (|r.appointments| == |db.appointments| || |r.appointments| == |db.appointments| + 1)
    && (forall a :: a in r.appointments[|db.appointments|..] ==>
          && a.userId == u.id
          && exists d :: d in r.doctors && d.id == a.doctorId && d.name == SampleDoctorName)
  }

  lemma SampleDataHasShape(db: Db, u: User, env: SeedEnv)
    ensures SampleDataShape(db, SampleData(db, u, env), u)
  {
    var r := SampleData(db, u, env);
    forall a | a in r.appointments[|db.appointments|..]
      ensures a.userId == u.id
      ensures exists d :: d in r.doctors && d.id == a.doctorId && d.name == SampleDoctorName
    {
      var d := DoctorNamed(db.doctors, SampleDoctorName).value;
      assert d in r.doctors;
    }
  }

  /** Seeding keeps every invariant of the store, given lists without a
      negative price. */
  lemma SeedKeepsStoreValid(db: Db, env: SeedEnv, c: Catalogue)
    requires Valid(db) && PricesNonNegative(c)
    ensures Valid(SeedSpec(db, env, c))
  {
    var d1 := SeedDemoUser(db, env);
    DemoUserKeepsValid(db, env);
    var d2 := SeedDoctors(d1, c);
    DoctorsKeepValid(d1, c);
    var d3 := SeedServices(d2, c);
    ServicesKeepValid(d2, c);
    SampleDataKeepsValid(d3, env);
  }

  lemma DoctorsKeepValid(db: Db, c: Catalogue)
    requires Valid(db)
    ensures Valid(SeedDoctors(db, c))
  {
    var r := SeedDoctors(db, c);
    if |db.doctors| == 0 {
      IdsGrow(db.users, db.doctors, [], r.doctors);
      assert r.doctors == db.doctors + r.doctors;
      DoctorsFromEmpty(c);
    }
  }

  lemma ServicesKeepValid(db: Db, c: Catalogue)
    requires Valid(db) && PricesNonNegative(c)
    ensures Valid(SeedServices(db, c))
  {
    var r := SeedServices(db, c);
    if |db.services| == 0 {
      ServicesFromEmpty(c);
    }
  }

  lemma DemoUserKeepsValid(db: Db, env: SeedEnv)
    requires Valid(db)
    ensures Valid(SeedDemoUser(db, env))
  {
    if UserWithEmail(db.users, DemoEmail).None? {
      var u := DemoUser(|db.users| + 1, env);
      DemoEmailIsLower();
      assert forall v :: v in db.users ==> v.email != u.email;
      AddUserKeepsValid(db, u);
      assert SeedDemoUser(db, env) == db.(users := db.users + [u]);
    }
  }

  lemma SampleDataKeepsValid(db: Db, env: SeedEnv)
    requires Valid(db)
    ensures Valid(SeedSampleData(db, env))
  {
    var r := SeedSampleData(db, env);
    if r != db {
      var u := UserWithEmail(db.users, DemoEmail).value;
      var k :| 0 <= k < |db.users| && db.users[k] == u;
      assert UserIds(db.users)[k] == u.id;
      SampleDataValid(db, u, env);
    }
  }

  lemma SampleDataValid(db: Db, u: User, env: SeedEnv)
    requires Valid(db) && u.id in UserIds(db.users)
    ensures Valid(SampleData(db, u, env))
  {
    var r := SampleData(db, u, env);
    assert AppointmentsValid(r.appointments, r.users, r.doctors) by {
      match DoctorNamed(db.doctors, SampleDoctorName)
      case None =>
      case Some(d) =>
        var j :| 0 <= j < |db.doctors| && db.doctors[j] == d;
        assert DoctorIds(db.doctors)[j] == d.id;
        SampleAppointmentValid(db.appointments, db.users, db.doctors, u.id, d.id, env);
    }
    SampleRowsValid(db, u, env);
  }

  /** The records, the prescription and the invoice step 4 adds are
      numbered on and belong to a known user. */
  lemma SampleRowsValid(db: Db, u: User, env: SeedEnv)
    requires RecordsValid(db.records, db.users) && PrescriptionsValid(db.prescriptions, db.users)
    requires InvoicesValid(db.invoices, db.users) && u.id in UserIds(db.users)
    ensures var r := SampleData(db, u, env);
      && RecordsValid(r.records, db.users)
      && PrescriptionsValid(r.prescriptions, db.users)
      && InvoicesValid(r.invoices, db.users)
  {
    var r := SampleData(db, u, env);
    assert forall m :: m in r.records ==> m in db.records || m.userId == u.id;
    assert forall p :: p in r.prescriptions ==> p in db.prescriptions || p.userId == u.id;
  }

  lemma SampleAppointmentValid(appointments: seq<Appointment>, users: seq<User>, doctors: seq<Doctor>,
                               uid: nat, did: nat, env: SeedEnv)
    requires AppointmentsValid(appointments, users, doctors)
    requires uid in UserIds(users) && did in DoctorIds(doctors)
    ensures AppointmentsValid(appointments + [Appointment(|appointments| + 1, uid, did, env.today,
                                                          Time(15, 0), FollowUpReason)], users, doctors)
  {
  }

  /** After seeding a store without a demo account, the demo credentials
      log in (given a sound hasher and an address the validator accepts),
      and with a binding hasher a wrong password bcrypt reads in full does
      not. */
  lemma SeedThenDemoLogin(db: Db, env: SeedEnv, c: Catalogue, isEmail: String -> bool, wrong: String)
    requires UserWithEmail(db.users, DemoEmail).None?
    requires Sound(env.hasher) && isEmail(DemoEmail)
    ensures var users := SeedSpec(db, env, c).users;
      Login(users, Forms.LoginForm(DemoEmail, DemoPassword), env.hasher, isEmail).SignedIn?
    ensures var users := SeedSpec(db, env, c).users;
      Binding(env.hasher) && wrong != DemoPassword && Forms.Required(wrong) && FitsBcrypt(wrong) ==>
        Login(users, Forms.LoginForm(DemoEmail, wrong), env.hasher, isEmail) == BadCredentials
  {
    var u := DemoUser(|db.users| + 1, env);
    assert SeedSpec(db, env, c).users == db.users + [u] by {
      SeedTables(db, env, c);
    }
    DemoLoginAppended(db.users, env, isEmail);
    if Binding(env.hasher) && wrong != DemoPassword && Forms.Required(wrong) && FitsBcrypt(wrong) {
      WrongPasswordAppended(db.users, env, isEmail, wrong);
    }
  }

  lemma DemoLoginAppended(users: seq<User>, env: SeedEnv, isEmail: String -> bool)
    requires UserWithEmail(users, DemoEmail).None?
    requires Sound(env.hasher) && isEmail(DemoEmail)
    ensures Login(users + [DemoUser(|users| + 1, env)], Forms.LoginForm(DemoEmail, DemoPassword), env.hasher,
                  isEmail) == SignedIn(|users| + 1)
  {
    DemoCredentials();
    LoginAppended(users, DemoUser(|users| + 1, env), Forms.LoginForm(DemoEmail, DemoPassword), env.hasher, isEmail);
  }

  lemma WrongPasswordAppended(users: seq<User>, env: SeedEnv, isEmail: String -> bool, wrong: String)
    requires UserWithEmail(users, DemoEmail).None?
    requires Binding(env.hasher) && isEmail(DemoEmail)
    requires wrong != DemoPassword && Forms.Required(wrong) && FitsBcrypt(wrong)
    ensures Login(users + [DemoUser(|users| + 1, env)], Forms.LoginForm(DemoEmail, wrong), env.hasher,
                  isEmail) == BadCredentials
  {
    DemoCredentials();
    LoginAppended(users, DemoUser(|users| + 1, env), Forms.LoginForm(DemoEmail, wrong), env.hasher, isEmail);
  }

  /** The demo address is stored as typed, and both demo credentials pass
      `DataRequired`. */
  lemma DemoCredentials()
    ensures IsLower(DemoEmail) && Lower(DemoEmail) == DemoEmail
    ensures Forms.Required(DemoEmail) && Forms.Required(DemoPassword)
  {
    DemoEmailIsLower();
    NotBlank(DemoEmail);
    NotBlank(DemoPassword);
  }

  /** `Demo@123` is eight ASCII bytes, well within bcrypt's limit. */
  lemma DemoPasswordFits()
    ensures Utf8Size(DemoPassword) == 8 && FitsBcrypt(DemoPassword)
  {
    AsciiUtf8Size(DemoPassword);
  }

  lemma DemoEmailIsLower()
    ensures IsLower(DemoEmail)
  {
    forall i | 0 <= i < |DemoEmail| ensures !IsUpper(DemoEmail[i]) {
    }
  }

  /** A string that starts with a printable character passes
      `DataRequired`. */
  lemma NotBlank(s: String)
    requires s != [] && !IsSpace(s[0])
    ensures Forms.Required(s)
  {
    StripBlank(s);
  }

  // ---------------------------------------------------------------------
  // The script itself
  // ---------------------------------------------------------------------

  /** seed.py, statement by statement, against a store. */
  method Seed(store: Store, env: SeedEnv)
    requires Valid(store.Snapshot())
    modifies store
    ensures store.Snapshot() == SeedSpec(old(store.Snapshot()), env, Script)
    ensures Valid(store.Snapshot())
  {
    ScriptListing();
    RunScript(store, env, Script);
  }

  /** The four steps in order, inserting from the lists `c`. */
  method RunScript(store: Store, env: SeedEnv, c: Catalogue)
    requires Valid(store.Snapshot()) && PricesNonNegative(c)
    modifies store
    ensures store.Snapshot() == SeedSpec(old(store.Snapshot()), env, c)
    ensures Valid(store.Snapshot())
  {
    SeedKeepsStoreValid(store.Snapshot(), env, c);
    CreateDemoUser(store, env);
    AddDoctorDirectory(store, c);
    AddServiceCatalogue(store, c);
    AddSampleData(store, env);
  }

  /** Create demo user. */
  method CreateDemoUser(store: Store, env: SeedEnv)
    modifies store
    ensures store.Snapshot() == SeedDemoUser(old(store.Snapshot()), env)
  {
    if UserWithEmail(store.users, DemoEmail).None? {
      var u := NewUser(|store.users| + 1, DemoName, DemoEmail, env.now);
      u := SetPassword(u, DemoPassword, env.hasher);
      store.users := store.users + [u];
    }
  }

  /** Doctors: the rows go into the session one by one and are committed
      together. */
  method AddDoctorDirectory(store: Store, c: Catalogue)
    modifies store
    ensures store.Snapshot() == SeedDoctors(old(store.Snapshot()), c)
  {
    if |store.doctors| == 0 {
      var infos := c.doctors;
      var added: seq<Doctor> := [];
      var i := 0;
      while i < |infos|
        invariant 0 <= i <= |infos|
        invariant added == AddDoctors([], infos[..i])
      {
        assert infos[..i + 1][..i] == infos[..i];
        added := added + [DoctorRow(|added| + 1, infos[i])];
        i := i + 1;
      }
      assert infos[..i] == infos;
      store.doctors := added;
    }
  }

  /** Services, likewise. */
  method AddServiceCatalogue(store: Store, c: Catalogue)
    modifies store
    ensures store.Snapshot() == SeedServices(old(store.Snapshot()), c)
  {
    if |store.services| == 0 {
      var infos := c.services;
      var added: seq<Service> := [];
      var i := 0;
      while i < |infos|
        invariant 0 <= i <= |infos|
        invariant added == AddServices([], infos[..i])
      {
        assert infos[..i + 1][..i] == infos[..i];
        added := added + [ServiceRow(|added| + 1, infos[i])];
        i := i + 1;
      }
      assert infos[..i] == infos;
      store.services := added;
    }
  }

  /** Sample data tied to the demo user. */
  method AddSampleData(store: Store, env: SeedEnv)
    modifies store
    ensures store.Snapshot() == SeedSampleData(old(store.Snapshot()), env)
  {
    var demo := UserWithEmail(store.users, DemoEmail);
    if demo.Some? && |RecordsOf(store.records, demo.value.id)| == 0 {
      InsertSampleData(store, demo.value, env);
    }
  }

  /** The inserts of step 4 for the user `u`, then the follow-up. */
  method InsertSampleData(store: Store, u: User, env: SeedEnv)
    modifies store
    ensures store.Snapshot() == SampleData(old(store.Snapshot()), u, env)
  {
    var nr := |store.records|;
    store.records := store.records + [
      MedicalRecord(nr + 1, u.id, PhysicalTitle, PhysicalNotes, env.now)];
    store.records := store.records + [
      MedicalRecord(nr + 2, u.id, AllergyTitle, AllergyNotes, env.now)];
    store.prescriptions := store.prescriptions + [
      Prescription(|store.prescriptions| + 1, u.id, SampleDoctorName, SampleMedication,
                   SampleDosage, SampleInstructions, env.today)];
    store.invoices := store.invoices + [
      Invoice(|store.invoices| + 1, u.id, SampleInvoiceItem, 50, "Paid", env.today)];

    // Upcoming appointment
    var d1 := DoctorNamed(store.doctors, SampleDoctorName);
    if d1.Some? {
      store.appointments := store.appointments + [
        Appointment(|store.appointments| + 1, u.id, d1.value.id, env.today, Time(15, 0), FollowUpReason)];
    }
  }
}
