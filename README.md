# MediCare Pro portal: a Dafny model of its domain layer

MediCare Pro is a small Flask patient portal. A patient registers and logs
in, searches the doctor directory, books appointments, and reads their own
appointments, medical records, prescriptions and invoices. The script
`seed.py` fills a fresh database with a demo account, a directory of doctors,
a service catalogue, and sample records for the demo account.

This project models the tables behind those pages and the two programs that
change them: the route handlers of `app.py` and the seed script.

- `text.dfy` (module `Text`): the string operations the handlers rely on.
  - Python's `str.lower()` on ASCII letters.
  - Python's `str.strip()` with Python's white-space set.
  - The SQL `LIKE` match used by the doctor search.
- `domain.dfy` (module `Domain`): the domain data.
  - The seven tables as datatypes, and the store `Db` as one sequence of rows per table.
  - A row's id is its position in its table, counting from 1.
  - bcrypt as a `Hasher` value with a `hash` and a `check` function.
  - The generic `filter_by` query `Where`.
  - The store invariant `Valid`:
    - rows are numbered;
    - addresses are lower-case and unique;
    - foreign keys resolve;
    - service prices are non-negative;
    - invoice statuses come from the known set.
- `forms.dfy` (module `Forms`): the validation rules of the three WTForms forms.
- `queries.dfy` (module `Queries`): the read-only handlers.
  - Login.
  - The doctor directory and its specialization menu.
  - The dashboard.
  - The listings scoped to the signed-in user.
- `portal.dfy` (module `Portal`): the handlers that write, registration and
  booking.
  - Each is first a function of the table it changes, with lemmas about it.
  - Each is then a method of the `Store` class, whose fields are the tables.
  - Each method is proved to produce exactly what the function describes.
- `seed.dfy` (module `Seeding`): the seed script.
  - Its four guarded steps are functions of the store, composed as `SeedSpec`.
  - The method `Seed` runs the same steps on a `Store`. Doctors and services are added in loops, as in the script.
  - The doctor and service lists are a `Catalogue` parameter of the step functions. The constant `Script` holds the lists exactly as `seed.py` writes them, and `Seed` runs the script with `Script`.
  - The comment at `seed.py:14` says ten doctors; the list holds nine, and the model follows the list (`ScriptListing`).

The signed-in user (Flask-Login's `current_user`) is a parameter `uid`. The
clocks `datetime.utcnow()` and `date.today()` are parameters too. The
`Email()` validator is a parameter `isEmail`, and bcrypt is a `Hasher`
parameter. Two properties of a hasher are stated rather than assumed:
`Sound` (a hash checks against its own password) and `Binding` (among
passwords of at most 72 UTF-8 bytes, which bcrypt reads in full, a hash
checks against no other password). Each lemma that needs one of them lists
it as a hypothesis.

## Model

| member | source | states |
|---|---|---|
| Text.Lower | app.py:127 | `email.lower()` maps each character on its own: `A`-`Z` become `a`-`z` and every other character stays; so the result has the same length, no upper-case letter, and equals a string that is already lower-case |
| Text.Strip | app.py:166-167 | `strip()` returns a slice `s[i..j]` of its argument with only white space before `i` and after `j`, and neither starts nor ends with white space: the argument without its leading and trailing white space |
| Text.StripBlank | app.py:169 | a stripped argument is empty exactly when the argument was all white space, so `if q:` skips blank input |
| Text.ContainsPattern | app.py:170 | the pattern `%q%` starts and ends with `%` and holds exactly `q` between them |
| Text.Like | app.py:171 | SQL `s LIKE p` without an escape: `%` matches any run of characters, `_` any one character, every other character itself, and the whole of `s` must be matched |
| Text.ContainsPatternMeansInfix | app.py:170-171 | for a `q` without `%` or `_`, `s LIKE '%q%'` holds exactly when `q` occurs in `s` |
| Domain.MomentOrder | app.py:188 | ordering by (date, time) is a total order: reflexive, total, antisymmetric and transitive |
| Domain.SetPassword | app.py:35-36 | `set_password` changes only the stored hash; with a sound hasher the new password checks, and with a binding hasher, for a password of at most 72 UTF-8 bytes, no other such password checks |
| Domain.CheckPassword | app.py:38-39 | `check_password` asks the hasher's check whether the stored hash matches the given password |
| Text.Utf8Size | app.py:36 | the UTF-8 length bcrypt's 72-byte limit is measured in: between one and four bytes per character |
| Domain.IdsGrow | app.py:22-42 | appending users or doctors keeps every existing user id and doctor id: a primary key, once given, stays in the table |
| Domain.Valid | app.py:21-90 | the store's invariant: ids number each table's rows from 1 (the primary keys), e-mail addresses are lower-case and unique (`unique=True`, with `register` storing them lower-cased), every appointment, record, prescription and invoice refers to an existing user, every appointment to an existing doctor, service prices are non-negative and invoice statuses are `Unpaid` or `Paid` |
| Domain.Where | app.py:199 | `filter_by` returns exactly the rows that satisfy the filter, and no more rows than the table has |
| Domain.WhereCounts | app.py:199 | the filter keeps every copy of a kept row and no copy of any other row |
| Domain.WhereAppend | app.py:199 | filtering a table that has more rows appended is the old answer followed by the filtered new rows |
| Domain.WhereAll | app.py:168 | a filter every row satisfies returns the whole table in order |
| Domain.AppendFreshEmail | app.py:24 | appending a user whose address nobody has keeps addresses unique |
| Domain.AppendUserValid | app.py:24 | appending a user with the next id and a fresh lower-case address keeps the user table valid |
| Domain.AddUserKeepsValid | app.py:141-144 | adding such a user keeps the whole store valid |
| Forms.Required | app.py:100 | `DataRequired()`: the field is not empty once white space is stripped |
| Forms.LoginFormValid | app.py:99-102 | the login form is valid when the address is present and accepted by `Email()` and the password is present |
| Forms.RegisterFormValid | app.py:104-109 | the registration form is valid when the name is present and 2 to 120 characters long, the address is present and accepted by `Email()`, the password is present and at least 6 characters long, and the confirmation is present and equal to the password |
| Forms.AppointmentFormValid | app.py:111-116 | the booking form is valid when the chosen doctor id is one of the offered choices and not 0, a date and a time were given, and the reason has at most 255 characters |
| Queries.UserWithEmail | app.py:127 | the lookup finds nothing exactly when no user has the address; what it finds is a user with that address |
| Queries.FindAppended | app.py:127 | a user appended under an address nobody had is the one the lookup finds |
| Queries.LoginAppended | app.py:127-131 | logging in with the address of a user appended under a fresh address succeeds exactly when the password checks against that user |
| Queries.SameEmailSameUser | app.py:24 | with unique addresses, two users with the same address are the same user |
| Queries.Login | app.py:121-132 | an invalid form is shown again; a session is opened only for a user with the lower-cased address whose hash checks against the password |
| Queries.LoginExactly | app.py:126-131 | with unique addresses, login succeeds exactly when the form is valid and some user has the lower-cased address and a matching hash |
| Queries.SearchDoctors | app.py:163-175 | the directory lists exactly the doctors that pass both filters, and never more doctors than exist |
| Queries.SearchWithoutFilters | app.py:168-175 | with `q` and `spec` both blank, the directory is every doctor, in table order |
| Queries.SearchMeaning | app.py:166-173 | a doctor is listed exactly when its lower-cased name or hospital contains the lower-cased stripped `q` (or `q` is blank) and its specialization equals the stripped `spec` (or `spec` is blank) |
| Queries.Specializations | app.py:174 | the menu holds each specialization of some doctor, and nothing else, without repeats, whatever the filters |
| Queries.AppointmentsOf | app.py:188 | the user's appointments are exactly the rows with that `user_id` |
| Queries.AppointmentsOfAppend | app.py:183-188 | new rows add only their owner's share to each user's appointments |
| Queries.RecordsOf | app.py:199 | `/records` shows exactly the signed-in user's medical records |
| Queries.PrescriptionsOf | app.py:204 | `/prescriptions` shows exactly the signed-in user's prescriptions |
| Queries.InvoicesOf | app.py:209 | `/billing` shows exactly the signed-in user's invoices |
| Queries.InsertDescending | app.py:188 | inserting a row into a latest-first list gives a latest-first list with that row added |
| Queries.SortDescending | app.py:188 | sorting gives a latest-first permutation of its input |
| Queries.AppointmentListing | app.py:188 | `/appointments` shows exactly the signed-in user's appointments, latest (date, time) first |
| Queries.ListingCounts | app.py:188 | the listing holds each of the user's rows as often as the table does and no row of another user |
| Queries.ListingOfSameRows | app.py:188 | the listing depends only on the user's own rows |
| Queries.Earliest | app.py:160 | the first row by (date, time) is absent only for no rows, and otherwise is a row at or before every row |
| Queries.NextAppointment | app.py:160 | `next_appt` is none exactly when the user has no appointment; otherwise it is one of theirs, at or before all of theirs, past ones included |
| Queries.NextIsLastOfListing | app.py:160 | the dashboard's next appointment exists exactly when the listing is non-empty, and it falls at the moment of the listing's last row |
| Queries.Dashboard | app.py:156-161 | the dashboard shows at most six doctors, the first six in table order (all of them when there are fewer), and the next appointment |
| Portal.RegisterSpec | app.py:134-148 | an invalid form adds nothing; an address taken in any letter case adds nothing; otherwise exactly one user is appended, with the next id, the lower-cased address, the name, and a hash that checks against the password |
| Portal.RegisterKeepsUsersValid | app.py:137-144 | registration keeps ids numbered and addresses lower-case and unique |
| Portal.RegisterThenLogin | app.py:141-144 | after a registration, logging in with the same password and the address in any letter case opens a session for the new user |
| Portal.RegisterTwiceConflicts | app.py:138-140 | registering again with the same address in any letter case is refused and leaves the users unchanged |
| Portal.RegisterKeepsStoreValid | app.py:134-148 | registration changes only the users and keeps the store valid |
| Portal.BookSpec | app.py:177-187 | a valid form appends exactly one appointment for the signed-in user, to a doctor offered in the form, the very doctor the form chose, with the chosen date, time and reason of at most 255 characters; otherwise nothing changes |
| Portal.BookKeepsStoreValid | app.py:181-185 | booking as a known user keeps the store valid: the new row's id is next and both foreign keys resolve |
| Portal.BookingIsScoped | app.py:183-188 | a booking shows up in the booking user's listing and leaves every other user's listing unchanged |
| Portal.Store.constructor | seed.py:5 | a fresh store is empty and valid |
| Portal.Store.Register | app.py:134-148 | `register` changes only the users, exactly as `RegisterSpec` says, and keeps the store valid |
| Portal.Store.Book | app.py:179-187 | booking changes only the appointments, exactly as `BookSpec` says, and keeps the store valid |
| Seeding.ScriptListing | seed.py:14-113 | the script lists nine doctors, the first of them Dr. Sarah Johnson, and four services, none with a negative price |
| Seeding.DemoUser | seed.py:9-10 | the demo user has the demo address; with a sound hasher `Demo@123` checks against it, and with a binding hasher no other password of at most 72 UTF-8 bytes does |
| Seeding.SeedDemoUser | seed.py:7-12 | step 1 changes only the users: if some user has the demo address, nothing changes; otherwise the demo user is appended |
| Seeding.AddDoctors | seed.py:102-103 | each listed doctor is appended in order, numbered on from the table's end |
| Seeding.SeedDoctors | seed.py:15-104 | step 2 changes only the doctors, and only when the table is empty |
| Seeding.AddServices | seed.py:114-115 | each listed service is appended in order, numbered on from the table's end |
| Seeding.SeedServices | seed.py:107-116 | step 3 changes only the services, and only when the table is empty |
| Seeding.DoctorNamed | seed.py:130 | the lookup by name finds nothing exactly when no doctor has the name; what it finds is a doctor with that name |
| Seeding.SampleData | seed.py:121-133 | the sample rows leave users, doctors and services alone and only append to the other tables |
| Seeding.SeedSampleData | seed.py:119-135 | step 4 leaves users, doctors and services alone and only appends to the other tables |
| Seeding.SeedOnlyInserts | seed.py:4-135 | seeding never updates or deletes a row: every table keeps its old rows as a prefix |
| Seeding.SampleDataLeavesRecord | seed.py:120-124 | after step 4 the demo user has a medical record |
| Seeding.ListsOnce | seed.py:15 | filling the doctor or service table a second time adds nothing |
| Seeding.SeedIdempotent | seed.py:8-120 | running the script a second time, at any later moment, leaves the store as the first run left it |
| Seeding.SeedDemoUserExactlyOnce | seed.py:8-12 | after seeding, exactly one user has the demo address, given at most one had it before (which the unique address column guarantees) |
| Seeding.SeedTables | seed.py:7-116 | the users, doctors and services after seeding are each decided by their own step alone |
| Seeding.SeedDoctorsWhenEmpty | seed.py:15-104 | on an empty doctor table exactly the listed doctors are added, numbered from 1 in list order; otherwise the table is left alone |
| Seeding.DoctorsFromEmpty | seed.py:102-103 | the k-th doctor added to an empty table is the k-th listed, with id k+1 |
| Seeding.SeedServicesWhenEmpty | seed.py:107-116 | on an empty service table exactly the listed services are added, numbered from 1 in list order, so none has a negative price; otherwise the table is left alone |
| Seeding.ServicesFromEmpty | seed.py:114-115 | the k-th service added to an empty table is the k-th listed, and none has a negative price when none listed has |
| Seeding.SeedSampleDataShape | seed.py:119-133 | step 4 adds the sample rows exactly when the demo user has no medical record |
| Seeding.SampleDataHasShape | seed.py:121-133 | the sample rows are two records, one prescription and one paid invoice of 50, all the demo user's; a follow-up is added exactly when Dr. Sarah Johnson exists, and it refers to her |
| Seeding.SeedKeepsStoreValid | seed.py:7-135 | seeding a valid store from lists without a negative price leaves it valid |
| Seeding.DemoUserKeepsValid | seed.py:8-12 | step 1 keeps the store valid |
| Seeding.DoctorsKeepValid | seed.py:15-104 | step 2 keeps the store valid |
| Seeding.ServicesKeepValid | seed.py:107-116 | step 3 keeps the store valid, given lists without a negative price |
| Seeding.SampleDataKeepsValid | seed.py:119-135 | step 4 keeps the store valid |
| Seeding.SampleDataValid | seed.py:121-133 | the sample rows keep the store valid, including the follow-up's references to the demo user and the doctor |
| Seeding.SampleRowsValid | seed.py:121-127 | the sample record, prescription and invoice rows are numbered on, belong to a known user, and the invoice has a known status |
| Seeding.SampleAppointmentValid | seed.py:132-133 | the follow-up appointment is numbered on and refers to a known user and a known doctor |
| Seeding.SeedThenDemoLogin | seed.py:8-12 | on a store without a demo account, after seeding the demo credentials log in (given a sound hasher and an address the validator accepts); with a binding hasher a wrong password of at most 72 UTF-8 bytes does not |
| Seeding.DemoLoginAppended | seed.py:9-11 | logging in as the appended demo user with `Demo@123` opens a session for that user |
| Seeding.WrongPasswordAppended | seed.py:9-11 | with a binding hasher, any other non-blank password of at most 72 UTF-8 bytes is refused for the appended demo user |
| Seeding.DemoPasswordFits | seed.py:10 | `Demo@123` is eight bytes, within bcrypt's 72-byte limit |
| Seeding.DemoCredentials | seed.py:9-10 | the demo address is already lower-case, and both demo credentials pass `DataRequired` |
| Seeding.SeedSpec | seed.py:7-135 | the whole script: the four guarded steps (demo user, doctors, services, sample data) composed in source order, inserting from the lists `c` |
| Seeding.Seed | seed.py:4-135 | running the script on a valid store does exactly what `SeedSpec` with the script's lists says, and keeps the store valid |
| Seeding.RunScript | seed.py:7-135 | the four steps in order, for any lists without a negative price, do exactly what `SeedSpec` says |
| Seeding.CreateDemoUser | seed.py:7-12 | step 1 on the store is `SeedDemoUser` |
| Seeding.AddDoctorDirectory | seed.py:15-104 | the loop that adds the doctors, then one commit, is `SeedDoctors` |
| Seeding.AddServiceCatalogue | seed.py:107-116 | the loop that adds the services, then one commit, is `SeedServices` |
| Seeding.AddSampleData | seed.py:118-135 | step 4 on the store is `SeedSampleData` |
| Seeding.InsertSampleData | seed.py:121-133 | the sample inserts on the store are `SampleData` |

## Left out

- Flask routing, templates, `flash` messages and redirects are not modelled. Each handler's outcome is a datatype value instead (`Created`, `AlreadyRegistered`, `Rejected`, and so on).
- The `/logout`, `/services` and `/api/doctors` routes are not modelled. They only end the session, show the whole service table, or serialise the doctors as JSON.
- Flask-Login's session handling and `load_user` are not modelled. The signed-in user is a parameter.
- CSRF tokens and the request-parsing part of `validate_on_submit` are not modelled. Forms reach the model as parsed values. A date or time that does not parse is `None`.
- The `Email()` validator is the parameter `isEmail`, because it is library code.
- bcrypt is the `Hasher` parameter and its internals are not modelled: salting, the cost factor, and the UTF-8 decoding of the hash.
- bcrypt reads only the first 72 bytes of a password; depending on the library version a longer password is cut short or refused with an error. `Binding` therefore only speaks of passwords of at most 72 UTF-8 bytes (`FitsBcrypt`), and `Sound` assumes hashing succeeds, so a registration with a longer password that the library refuses is not modelled.
- `Text.Lower`: lowers ASCII letters only, whereas Python's `lower()` also lowers non-ASCII letters.
- The database engine is set in `config.py`, which is not part of this model; the model assumes SQLite. The lines below that mention SQLite rest on that assumption.
- `Text.Like` compares characters exactly. SQLite's `LIKE` also folds ASCII case, but the search lower-cases both sides before matching, so this does not matter for the search.
- Column length limits (`String(120)` and the like) are not modelled, because SQLite does not enforce them. The form validators' limits are modelled.
- Database ids come from the row's position, which matches SQLite's rowid numbering on tables that are never deleted from. Neither program deletes.
- `Queries.Dashboard` shows the first six doctors in table order. `limit(6)` without `ORDER BY` promises neither which six rows nor their order; SQLite's plain table scan returns rows in rowid order, but does not promise to.
- `Queries.SearchWithoutFilters` returns the doctors in table order. `query.all()` without `ORDER BY` promises no order; SQLite's plain scan returns rowid order without promising it. `Queries.SearchDoctors` itself promises only which doctors are listed.
- `Text.Like` gives `%` and `_` in `q` their wildcard meaning, as SQL does. The lemma `Queries.SearchMeaning` assumes `q` holds neither character.
- `Queries.SortDescending` fixes one order among rows with equal (date, time). The database may return such rows in any order. Only the descending order and the multiset of rows are promised.
- `Queries.Specializations` lists the menu in order of first appearance. `DISTINCT` without `ORDER BY` promises no order, so only the membership and the absence of repeats are promised.
- `Queries.Earliest` picks one earliest row. `first()` after `order_by(date, time)` may return any of several rows with equal (date, time); only the moment is promised.
- `Doctor.rating` (a float default of 4.6) is not modelled, because floating point plays no part in any handler.
- A commit is not modelled as its own step. The handlers and the loops of steps 1 to 3 add their rows to the store with one assignment per table at the commit; step 4 (`Seeding.InsertSampleData`) assigns once per `session.add`, before the single commit at the end of the script. The only read in between, the lookup of Sarah Johnson, is of the doctors, which step 4 does not change, so the state at the commit is the same. Session rollback, concurrency and transaction isolation are not modelled.
- `datetime.utcnow()` and `date.today()` are fields of the `SeedEnv` parameter, or `now` parameters, because clocks are I/O.
- `db.create_all()` is modelled only as the empty store that `Store`'s constructor builds. The closing `print("Seed complete.")` and the `__main__` block are not modelled, because they are I/O.
