/** The admission back end: the applications, students, users, notifications
    and attendance collections held in memory by one store object, and the
    request handlers that read and update them (public application and status
    lookup, staff updates, admission of a student, user creation, login and
    the class attendance merge). Identifiers, uuid fragments, the clock, the
    current year and password hashing are passed in by the caller. */
module AdmissionStore {
  import opened Seqs
  import opened Text

  datatype UserRole =
    SuperAdmin | SchoolAdmin | AdmissionOfficer | Teacher |
    FinanceManager | InventoryManager | Parent | StudentRole

  datatype Gender = Male | Female

  datatype Standard = PlayGroup | PreKg | Lkg | Ukg

  datatype Status =
    EnquiryNew | EnquiryHot | EnquiryWarm | EnquiryCold |
    DocumentsPending | DocumentsVerified | PaymentPending |
    Admitted | Rejected | OnHold

  datatype Source =
    Newspapers | SiblingReference | SocialMedia | SchoolBanners |
    FriendsRelatives | Others

  datatype ParentType = Father | Mother | Guardian

  datatype AttendanceStatus = Present | Absent | HalfDay

  /** The string each standard is stored and routed as. */
  function StandardValue(s: Standard): string {
    match s
    case PlayGroup => "play_group"
    case PreKg => "pre_kg"
    case Lkg => "lkg"
    case Ukg => "ukg"
  }

  /** The string each application status is stored as. */
  function StatusValue(s: Status): string {
    match s
    case EnquiryNew => "enquiry_new"
    case EnquiryHot => "enquiry_hot"
    case EnquiryWarm => "enquiry_warm"
    case EnquiryCold => "enquiry_cold"
    case DocumentsPending => "documents_pending"
    case DocumentsVerified => "documents_verified"
    case PaymentPending => "payment_pending"
    case Admitted => "admitted"
    case Rejected => "rejected"
    case OnHold => "on_hold"
  }

  /** Of the stored statuses, only `enquiry_hot` contains `hot`. */
  lemma HotOnlyInEnquiryHot(s: Status)
    ensures Contains(StatusValue(s), "hot") <==> s == EnquiryHot
  {
    match s
    case EnquiryNew => NotContains("enquiry_new", "hot", 'h');
    case EnquiryHot =>
      assert "enquiry_hot" == "enquiry_" + "hot";
      ContainsSuffix("enquiry_", "hot");
    case EnquiryWarm => NotContains("enquiry_warm", "hot", 'h');
    case EnquiryCold => NotContains("enquiry_cold", "hot", 'h');
    case DocumentsPending => NotContains("documents_pending", "hot", 'h');
    case DocumentsVerified => NotContains("documents_verified", "hot", 'h');
    case PaymentPending => NotContains("payment_pending", "hot", 'h');
    case Admitted => NotContains("admitted", "hot", 'h');
    case Rejected => NotContains("rejected", "hot", 'h');
    case OnHold => NotContains("on_hold", "hot", 't');
  }

  /** Of the stored statuses, only `enquiry_warm` contains `warm`. */
  lemma WarmOnlyInEnquiryWarm(s: Status)
    ensures Contains(StatusValue(s), "warm") <==> s == EnquiryWarm
  {
    match s
    case EnquiryNew => NotContains("enquiry_new", "warm", 'a');
    case EnquiryHot => NotContains("enquiry_hot", "warm", 'w');
    case EnquiryWarm =>
      assert "enquiry_warm" == "enquiry_" + "warm";
      ContainsSuffix("enquiry_", "warm");
    case EnquiryCold => NotContains("enquiry_cold", "warm", 'w');
    case DocumentsPending => NotContains("documents_pending", "warm", 'w');
    case DocumentsVerified => NotContains("documents_verified", "warm", 'w');
    case PaymentPending => NotContains("payment_pending", "warm", 'w');
    case Admitted => NotContains("admitted", "warm", 'w');
    case Rejected => NotContains("rejected", "warm", 'w');
    case OnHold => NotContains("on_hold", "warm", 'w');
  }

  /** Of the stored statuses, only `enquiry_cold` contains `cold`. */
  lemma ColdOnlyInEnquiryCold(s: Status)
    ensures Contains(StatusValue(s), "cold") <==> s == EnquiryCold
  {
    match s
    case EnquiryNew => NotContains("enquiry_new", "cold", 'l');
    case EnquiryHot => NotContains("enquiry_hot", "cold", 'l');
    case EnquiryWarm => NotContains("enquiry_warm", "cold", 'l');
    case EnquiryCold =>
      assert "enquiry_cold" == "enquiry_" + "cold";
      ContainsSuffix("enquiry_", "cold");
    case DocumentsPending => NotContains("documents_pending", "cold", 'l');
    case DocumentsVerified => NotContains("documents_verified", "cold", 'l');
    case PaymentPending => NotContains("payment_pending", "cold", 'l');
    case Admitted => NotContains("admitted", "cold", 'l');
    case Rejected => NotContains("rejected", "cold", 'l');
    case OnHold => NotContains("on_hold", "cold", 'c');
  }

  /** An application document. `None` stands for a key the document lacks. */
  datatype Application = Application(
    id: string,
    reference_number: string,
    branch: string,
    student_name: string,
    gender: Gender,
    date_of_birth: string,
    applying_for_class: Standard,
    source: Source,
    parent_type: ParentType,
    parent_name: string,
    mobile: string,
    email: string,
    status: Status,
    remarks: Option<string>,
    admission_number: Option<string>,
    roll_number: Option<string>,
    section: Option<string>,
    academic_year: Option<string>,
    created_at: string,
    updated_at: string)

  datatype Student = Student(
    id: string,
    admission_number: string,
    roll_number: string,
    student_name: string,
    gender: Gender,
    date_of_birth: string,
    current_class: Standard,
    section: string,
    academic_year: string,
    parent_id: string,
    application_id: string,
    is_active: bool,
    created_at: string)

  datatype User = User(
    id: string,
    email: string,
    password_hash: string,
    role: UserRole,
    full_name: string,
    mobile: Option<string>,
    is_active: bool,
    created_at: string,
    updated_at: string)

  datatype Notification = Notification(
    id: string,
    user_id: string,
    title: string,
    message: string,
    is_read: bool,
    created_at: string)

  datatype AttendanceRecord = AttendanceRecord(
    id: string,
    student_id: string,
    date: string,
    status: AttendanceStatus,
    teacher_id: string,
    remarks: Option<string>,
    created_at: string)

  /** An HTTP error response: status code and detail text. */
  datatype HttpError = HttpError(code: nat, detail: string)

  datatype Result<T> = Ok(value: T) | Err(error: HttpError)

  /** A success response carrying only a message. */
  datatype Ack = Ack(message: string)

  /** The public application form; `branch` has a default in the request model. */
  datatype ApplicationRequest = ApplicationRequest(
    branch: string,
    student_name: string,
    gender: Gender,
    date_of_birth: string,
    applying_for_class: Standard,
    source: Source,
    parent_type: ParentType,
    parent_name: string,
    mobile: string,
    email: string)

  const DefaultBranch := "Medavakkam, Chennai"

  datatype CreateResponse = CreateResponse(success: bool, reference_number: string, message: string)

  /** What the public status lookup reveals about an application. */
  datatype StatusView = StatusView(
    reference_number: string,
    student_name: string,
    applying_for_class: Standard,
    status: Status,
    submitted_date: string,
    remarks: string)

  const DefaultRemarks := "We will contact you within 2-3 business days"

  /** A staff update; a `None` field is not sent. */
  datatype UpdateRequest = UpdateRequest(status: Option<Status>, remarks: Option<string>, section: Option<string>)

  datatype AdmitRequest = AdmitRequest(section: string, academic_year: string)

  datatype AdmitResponse = AdmitResponse(
    success: bool,
    message: string,
    admission_number: string,
    roll_number: string,
    parent_email: string,
    parent_default_password: string)

  datatype UserRequest = UserRequest(
    email: string,
    password: string,
    role: UserRole,
    full_name: string,
    mobile: Option<string>)

  /** The user summary a successful login returns (the token is not modelled). */
  datatype LoginView = LoginView(id: string, email: string, role: UserRole, full_name: string)

  datatype ClassAttendanceEntry = ClassAttendanceEntry(student: Student, attendance: Option<AttendanceRecord>)

  const NotFound := HttpError(404, "Application not found")
  const InvalidCredentials := HttpError(401, "Invalid credentials")
  const AccountInactive := HttpError(401, "Account is inactive")

  // ---------------------------------------------------------------------
  // Identifier formats

  /** Python's `s[:n]`. */
  function Take(s: string, n: nat): (r: string)
    ensures |r| <= n && IsPrefix(r, s)
    ensures |s| >= n ==> |r| == n
    ensures |s| <= n ==> r == s
  {
    if |s| <= n then s else s[..n]
  }

  /** `{prefix}-{year}-{uuid[:6].upper()}`: the shape shared by reference
      numbers (prefix `KSIS`) and admission numbers (prefix `ADM`). */
  function PrefixedNumber(prefix: string, year: nat, uuid: string): (r: string)
    ensures IsPrefix(prefix + "-" + NatToString(year) + "-", r)
    ensures |r| <= |prefix + "-" + NatToString(year) + "-"| + 6
  {
    prefix + "-" + NatToString(year) + "-" + Upper(Take(uuid, 6))
  }

  /** The zero-padded sequence field of a roll number. */
  function SeqField(n: nat): (r: string)
    ensures |r| >= 3 && AllDigits(r) && DigitsValue(r) == n
    ensures |NatToString(n)| >= 3 ==> r == NatToString(n)
  {
    NatToStringValue(n);
    ZFillValue(NatToString(n), 3);
    ZFill(NatToString(n), 3)
  }

  /** `{year}-{standard.upper()}-{section.upper()}-{str(seq).zfill(3)}`. */
  function RollNumber(year: nat, standard: string, section: string, n: nat): (r: string)
    ensures r == Join([NatToString(year), Upper(standard), Upper(section), SeqField(n)], "-")
    ensures IsPrefix(NatToString(year) + "-", r)
    ensures LastField(r, '-') == SeqField(n)
  {
    Join4(NatToString(year), Upper(standard), Upper(section), SeqField(n), "-");
    LastFieldAfter(NatToString(year) + "-" + Upper(standard) + "-" + Upper(section), '-', SeqField(n));
    NatToString(year) + "-" + Upper(standard) + "-" + Upper(section) + "-" + SeqField(n)
  }

  lemma UpperKeepsDash(s: string)
    ensures ('-' in Upper(s)) <==> ('-' in s)
  {
    if '-' in s {
      var k :| 0 <= k < |s| && s[k] == '-';
      assert Upper(s)[k] == '-';
    }
  }

  /** The roll number is the four fields joined by '-', and splits back into
      them whenever the standard and section contain no '-'. */
  lemma RollNumberFields(year: nat, standard: string, section: string, n: nat)
    requires '-' !in standard && '-' !in section
    ensures var fields := [NatToString(year), Upper(standard), Upper(section), SeqField(n)];
            RollNumber(year, standard, section, n) == Join(fields, "-") &&
            Split(RollNumber(year, standard, section, n), '-') == fields
  {
    var fields := [NatToString(year), Upper(standard), Upper(section), SeqField(n)];
    Join4(NatToString(year), Upper(standard), Upper(section), SeqField(n), "-");
    UpperKeepsDash(standard);
    UpperKeepsDash(section);
    assert forall k :: 0 <= k < |fields| ==> '-' !in fields[k];
    SplitJoin(fields, '-');
  }

  /** The sequence field of a roll number reads back as the sequence number:
      at least three digits, never truncated. */
  lemma RollNumberSequence(year: nat, standard: string, section: string, n: nat)
    ensures var f := LastField(RollNumber(year, standard, section, n), '-');
            f == SeqField(n) && |f| >= 3 && AllDigits(f) && DigitsValue(f) == n
  {
    LastFieldAfter(NatToString(year) + "-" + Upper(standard) + "-" + Upper(section), '-', SeqField(n));
  }

  /** `RollNumberSequence` for a roll number given by name. */
  lemma RollReadsBack(roll: string, year: nat, standard: string, section: string, n: nat)
    requires roll == RollNumber(year, standard, section, n)
    ensures AllDigits(LastField(roll, '-')) && DigitsValue(LastField(roll, '-')) == n
  {
    RollNumberSequence(year, standard, section, n);
  }

  /** Different sequence numbers give different roll numbers. */
  lemma RollNumbersDistinct(year: nat, standard: string, section: string, n: nat, m: nat)
    requires n != m
    ensures RollNumber(year, standard, section, n) != RollNumber(year, standard, section, m)
  {
    RollNumberSequence(year, standard, section, n);
    RollNumberSequence(year, standard, section, m);
  }

  // ---------------------------------------------------------------------
  // Record construction

  /** The document stored for a public application. */
  function NewApplication(req: ApplicationRequest, year: nat, uuid: string, id: string, now: string): (r: Application)
    ensures r.status == EnquiryNew
    ensures IsPrefix("KSIS-" + NatToString(year) + "-", r.reference_number)
    ensures r.id == id && r.created_at == now && r.updated_at == now
    ensures r.branch == req.branch && r.student_name == req.student_name && r.gender == req.gender &&
            r.date_of_birth == req.date_of_birth && r.applying_for_class == req.applying_for_class &&
            r.source == req.source && r.parent_type == req.parent_type &&
            r.parent_name == req.parent_name && r.mobile == req.mobile && r.email == req.email
    ensures r.remarks.None? && r.admission_number.None? && r.roll_number.None? &&
            r.section.None? && r.academic_year.None?
  {
    Application(id, PrefixedNumber("KSIS", year, uuid), req.branch, req.student_name, req.gender,
                req.date_of_birth, req.applying_for_class, req.source, req.parent_type,
                req.parent_name, req.mobile, req.email, EnquiryNew,
                None, None, None, None, None, now, now)
  }

  /** A staff update: each field sent overwrites the stored one, `updated_at`
      is refreshed, and nothing else changes. */
  function Patch(a: Application, req: UpdateRequest, now: string): (r: Application)
    ensures r.status == (if req.status.Some? then req.status.value else a.status)
    ensures r.remarks == (if req.remarks.Some? then req.remarks else a.remarks)
    ensures r.section == (if req.section.Some? then req.section else a.section)
    ensures r.updated_at == now
    ensures r.(status := a.status, remarks := a.remarks, section := a.section, updated_at := a.updated_at) == a
  {
    a.(status := if req.status.Some? then req.status.value else a.status,
       remarks := if req.remarks.Some? then req.remarks else a.remarks,
       section := if req.section.Some? then req.section else a.section,
       updated_at := now)
  }

  /** The application after admission. */
  function MarkAdmitted(a: Application, admission: string, roll: string, req: AdmitRequest, now: string): (r: Application)
    ensures r.status == Admitted
    ensures r.admission_number == Some(admission) && r.roll_number == Some(roll)
    ensures r.section == Some(req.section) && r.academic_year == Some(req.academic_year)
    ensures r.updated_at == now
    ensures r.(status := a.status, admission_number := a.admission_number, roll_number := a.roll_number,
               section := a.section, academic_year := a.academic_year, updated_at := a.updated_at) == a
  {
    a.(status := Admitted, admission_number := Some(admission), roll_number := Some(roll),
       section := Some(req.section), academic_year := Some(req.academic_year), updated_at := now)
  }

  /** The student record created from an application. */
  function AdmittedStudent(id: string, a: Application, req: AdmitRequest, admission: string, roll: string,
                           parentId: string, now: string): (r: Student)
    ensures InSection(a.applying_for_class, req.section, req.academic_year)(r)
    ensures r.is_active && r.parent_id == parentId && r.application_id == a.id
    ensures r.admission_number == admission && r.roll_number == roll
    ensures r.student_name == a.student_name && r.gender == a.gender && r.date_of_birth == a.date_of_birth
  {
    Student(id, admission, roll, a.student_name, a.gender, a.date_of_birth, a.applying_for_class,
            req.section, req.academic_year, parentId, a.id, true, now)
  }

  /** The default password of a parent account created in `year`. */
  function DefaultPassword(year: nat): (r: string)
    ensures IsPrefix("parent", r) && r[6..] == NatToString(year)
  {
    "parent" + NatToString(year)
  }

  /** The parent account created on a first admission. */
  function ParentAccount(id: string, a: Application, year: nat, hash: string -> string, now: string): (r: User)
    ensures r.id == id && r.email == a.email && r.role == Parent && r.is_active
    ensures r.password_hash == hash(DefaultPassword(year))
    ensures r.full_name == a.parent_name && r.mobile == Some(a.mobile)
  {
    User(id, a.email, hash(DefaultPassword(year)), Parent, a.parent_name, Some(a.mobile), true, now, now)
  }

  /** The notification telling the parent about the admission. */
  function AdmissionNotice(id: string, parentId: string, studentName: string, roll: string, email: string,
                           now: string): (r: Notification)
    ensures r.id == id && r.user_id == parentId && r.title == "Admission Confirmed!" && !r.is_read
    ensures r.created_at == now
  {
    Notification(id, parentId, "Admission Confirmed!",
                 "Congratulations! " + studentName + " has been admitted. Roll Number: " + roll +
                 ". Login credentials sent to " + email,
                 false, now)
  }

  /** The notification names the student, the roll number and the email the
      credentials go to. */
  lemma AdmissionNoticeMentions(id: string, parentId: string, studentName: string, roll: string,
                                email: string, now: string)
    ensures var m := AdmissionNotice(id, parentId, studentName, roll, email, now).message;
            Contains(m, studentName) && Contains(m, roll) && Contains(m, email)
  {
    var a := "Congratulations! ";
    var b := a + studentName + " has been admitted. Roll Number: ";
    var c := b + roll + ". Login credentials sent to ";
    var m := c + email;
    assert m == AdmissionNotice(id, parentId, studentName, roll, email, now).message;
    assert m[|a|..|a| + |studentName|] == studentName;
    ContainsAt(m, studentName, |a|);
    assert m[|b|..|b| + |roll|] == roll;
    ContainsAt(m, roll, |b|);
    assert m[|c|..|c| + |email|] == email;
    ContainsAt(m, email, |c|);
  }

  /** The account created by an administrator. */
  function NewUser(req: UserRequest, id: string, hash: string -> string, now: string): (r: User)
    ensures r.id == id && r.email == req.email && r.role == req.role && r.is_active
    ensures r.password_hash == hash(req.password)
    ensures r.full_name == req.full_name && r.mobile == req.mobile
  {
    User(id, req.email, hash(req.password), req.role, req.full_name, req.mobile, true, now, now)
  }

  // ---------------------------------------------------------------------
  // Queries

  function HasId(id: string): Application -> bool {
    (a: Application) => a.id == id
  }

  function HasEmail(email: string): User -> bool {
    (u: User) => u.email == email
  }

  function Tracks(reference: string, dob: string): Application -> bool {
    (a: Application) => a.reference_number == reference && a.date_of_birth == dob
  }

  /** Students counted for a roll sequence: same class, section and year. */
  function InSection(standard: Standard, section: string, year: string): Student -> bool {
    (s: Student) => s.current_class == standard && s.section == section && s.academic_year == year
  }

  /** Active students of a class and section, as routed by strings. */
  function InClass(standard: string, section: string): Student -> bool {
    (s: Student) => StandardValue(s.current_class) == standard && s.section == section && s.is_active
  }

  function OnDate(date: string): AttendanceRecord -> bool {
    (r: AttendanceRecord) => r.date == date
  }

  /** What the public lookup shows for one application. */
  function View(a: Application): (r: StatusView)
    ensures r.reference_number == a.reference_number && r.student_name == a.student_name
    ensures r.applying_for_class == a.applying_for_class && r.status == a.status
    ensures r.submitted_date == a.created_at
    ensures a.remarks.None? ==> r.remarks == DefaultRemarks
    ensures a.remarks.Some? ==> r.remarks == a.remarks.value
  {
    StatusView(a.reference_number, a.student_name, a.applying_for_class, a.status, a.created_at,
               a.remarks.GetOr(DefaultRemarks))
  }

  /** The public status lookup: succeeds only when some application matches
      both the reference number and the date of birth. */
  function StatusLookup(apps: seq<Application>, reference: string, dob: string): (r: Result<StatusView>)
    ensures r.Err? <==> forall k :: 0 <= k < |apps| ==>
                          apps[k].reference_number != reference || apps[k].date_of_birth != dob
    ensures r.Err? ==> r.error == NotFound
    ensures r.Ok? ==> exists k :: 0 <= k < |apps| && apps[k].reference_number == reference &&
                                  apps[k].date_of_birth == dob && r.value == View(apps[k])
  {
    match Find(apps, Tracks(reference, dob))
    case None => Err(NotFound)
    case Some(a) => Ok(View(a))
  }

  /** A submitted application can be looked up with its reference number and
      date of birth, and shows status `enquiry_new` and the default remarks,
      unless an earlier application already answers to the same pair. */
  lemma SubmittedIsTrackable(apps: seq<Application>, req: ApplicationRequest, year: nat, uuid: string,
                             id: string, now: string)
    requires var a := NewApplication(req, year, uuid, id, now);
             FirstIndex(apps, Tracks(a.reference_number, req.date_of_birth)).None?
    ensures var a := NewApplication(req, year, uuid, id, now);
            StatusLookup(apps + [a], a.reference_number, req.date_of_birth) ==
              Ok(StatusView(a.reference_number, req.student_name, req.applying_for_class,
                            EnquiryNew, now, DefaultRemarks))
  {
    var a := NewApplication(req, year, uuid, id, now);
    FirstIndexAppend(apps, a, Tracks(a.reference_number, req.date_of_birth));
  }

  /** Login: the first user with the email must exist, the password must
      verify against its hash, and the account must be active. */
  function LoginCheck(users: seq<User>, email: string, password: string,
                      verify: (string, string) -> bool): (r: Result<LoginView>)
    ensures FirstIndex(users, HasEmail(email)).None? ==> r == Err(InvalidCredentials)
    ensures r.Ok? <==> FirstIndex(users, HasEmail(email)).Some? &&
                       users[FirstIndex(users, HasEmail(email)).value].is_active &&
                       verify(password, users[FirstIndex(users, HasEmail(email)).value].password_hash)
    ensures r.Ok? ==> var u := users[FirstIndex(users, HasEmail(email)).value];
                      r.value == LoginView(u.id, u.email, u.role, u.full_name)
    ensures FirstIndex(users, HasEmail(email)).Some? &&
            !verify(password, users[FirstIndex(users, HasEmail(email)).value].password_hash) ==>
              r == Err(InvalidCredentials)
    ensures r.Err? ==> r.error == InvalidCredentials || r.error == AccountInactive
    ensures r == Err(AccountInactive) ==> !users[FirstIndex(users, HasEmail(email)).value].is_active
    ensures FirstIndex(users, HasEmail(email)).Some? &&
            verify(password, users[FirstIndex(users, HasEmail(email)).value].password_hash) &&
            !users[FirstIndex(users, HasEmail(email)).value].is_active ==>
              r == Err(AccountInactive)
    ensures r.Ok? ==> r.value.email == email
  {
    match FirstIndex(users, HasEmail(email))
    case None => Err(InvalidCredentials)
    case Some(i) =>
      var u := users[i];
      if !verify(password, u.password_hash) then Err(InvalidCredentials)
      else if !u.is_active then Err(AccountInactive)
      else Ok(LoginView(u.id, u.email, u.role, u.full_name))
  }

  /** No two users share an email. */
  predicate UniqueEmails(users: seq<User>) {
    forall i, j :: 0 <= i < j < |users| ==> users[i].email != users[j].email
  }

  /** The parent-account rule of an admission: reuse the first user with the
      application's email, otherwise append a new parent account. Returns the
      new user list and the parent id. */
  function ResolveParent(users: seq<User>, a: Application, newId: string, year: nat,
                         hash: string -> string, now: string): (r: (seq<User>, string))
    ensures FirstIndex(users, HasEmail(a.email)).Some? ==>
              r == (users, users[FirstIndex(users, HasEmail(a.email)).value].id)
    ensures FirstIndex(users, HasEmail(a.email)).None? ==>
              r == (users + [ParentAccount(newId, a, year, hash, now)], newId)
    ensures UniqueEmails(users) ==> UniqueEmails(r.0)
  {
    match FirstIndex(users, HasEmail(a.email))
    case Some(i) => (users, users[i].id)
    case None => (users + [ParentAccount(newId, a, year, hash, now)], newId)
  }

  /** A parent account created by an admission logs in with the default
      password that the admission response returns, provided the hash
      verifies its own input. */
  lemma NewParentCanLogIn(users: seq<User>, a: Application, newId: string, year: nat,
                          hash: string -> string, verify: (string, string) -> bool, now: string)
    requires FirstIndex(users, HasEmail(a.email)).None?
    requires verify(DefaultPassword(year), hash(DefaultPassword(year)))
    ensures LoginCheck(ResolveParent(users, a, newId, year, hash, now).0, a.email, DefaultPassword(year), verify) ==
              Ok(LoginView(newId, a.email, Parent, a.parent_name))
  {
    FirstIndexAppend(users, ParentAccount(newId, a, year, hash, now), HasEmail(a.email));
  }

  /** A second admission for the same parent email creates no account and
      reuses the parent id of the first. */
  lemma ParentReused(users: seq<User>, a: Application, b: Application, id1: string, id2: string,
                     year1: nat, year2: nat, hash: string -> string, now1: string, now2: string)
    requires a.email == b.email
    ensures var (u1, p1) := ResolveParent(users, a, id1, year1, hash, now1);
            ResolveParent(u1, b, id2, year2, hash, now2) == (u1, p1)
  {
    var p := HasEmail(a.email);
    if FirstIndex(users, p).None? {
      FirstIndexAppend(users, ParentAccount(id1, a, year1, hash, now1), p);
    }
  }

  /** Admitting one student raises the count of its class/section/year by
      one, so the next admission there gets the next sequence number, and
      leaves the count of every other section alone. */
  lemma AdmitAdvancesSequence(students: seq<Student>, id: string, a: Application, req: AdmitRequest,
                              admission: string, roll: string, parentId: string, now: string,
                              standard: Standard, section: string, year: string)
    ensures var s := AdmittedStudent(id, a, req, admission, roll, parentId, now);
            Count(students + [s], InSection(standard, section, year)) ==
              Count(students, InSection(standard, section, year)) +
              (if standard == a.applying_for_class && section == req.section && year == req.academic_year
               then 1 else 0)
  {
    CountAppend(students, AdmittedStudent(id, a, req, admission, roll, parentId, now),
                InSection(standard, section, year));
  }

  /** After an admission the application is still the first one with its id
      and is `admitted`, so admitting it again is refused. */
  lemma AdmittedStaysFound(apps: seq<Application>, i: nat, id: string, admission: string, roll: string,
                           req: AdmitRequest, now: string)
    requires i < |apps| && FirstIndex(apps, HasId(id)) == Some(i)
    ensures var m := MarkAdmitted(apps[i], admission, roll, req, now);
            FirstIndex(apps[i := m], HasId(id)) == Some(i) && apps[i := m][i].status == Admitted
  {
    FirstIndexUpdate(apps, i, MarkAdmitted(apps[i], admission, roll, req, now), HasId(id));
  }

  /** A staff update keeps the record's id, so later lookups by id find it
      at the same place. */
  lemma PatchStaysFound(apps: seq<Application>, i: nat, id: string, req: UpdateRequest, now: string)
    requires i < |apps| && FirstIndex(apps, HasId(id)) == Some(i)
    ensures FirstIndex(apps[i := Patch(apps[i], req, now)], HasId(id)) == Some(i)
  {
    FirstIndexUpdate(apps, i, Patch(apps[i], req, now), HasId(id));
  }

  /** The attendance record of a student on a date: the last one in the
      collection, as a dictionary built in order keeps the last write. */
  function LatestRecord(records: seq<AttendanceRecord>, studentId: string): (r: Option<AttendanceRecord>)
    ensures r.None? <==> forall k :: 0 <= k < |records| ==> records[k].student_id != studentId
    ensures r.Some? ==> exists k :: 0 <= k < |records| && records[k] == r.value &&
                                    r.value.student_id == studentId &&
                                    forall j :: k < j < |records| ==> records[j].student_id != studentId
  {
    if records == [] then None
    else if records[|records| - 1].student_id == studentId then Some(records[|records| - 1])
    else LatestRecord(records[..|records| - 1], studentId)
  }

  /** A record appended at the end is the latest for its student and for
      nobody else. */
  lemma LatestRecordSnoc(records: seq<AttendanceRecord>, x: AttendanceRecord, studentId: string)
    ensures LatestRecord(records + [x], studentId) ==
              if x.student_id == studentId then Some(x) else LatestRecord(records, studentId)
  {
    assert (records + [x])[..|records|] == records;
  }

  /** `m` maps each student to the last of `records` written for it. */
  ghost predicate Indexes(m: map<string, AttendanceRecord>, records: seq<AttendanceRecord>) {
    forall sid :: (sid in m) == LatestRecord(records, sid).Some? &&
                  (sid in m ==> m[sid] == LatestRecord(records, sid).value)
  }

  /** Writing one more record keeps the index exact. */
  lemma IndexesSnoc(m: map<string, AttendanceRecord>, records: seq<AttendanceRecord>, x: AttendanceRecord)
    requires Indexes(m, records)
    ensures Indexes(m[x.student_id := x], records + [x])
  {
    forall sid {
      LatestRecordSnoc(records, x, sid);
    }
  }

  /** `{rec["student_id"]: rec for rec in records}`: each student mapped to
      the last record written for it. */
  method IndexByStudent(records: seq<AttendanceRecord>) returns (m: map<string, AttendanceRecord>)
    ensures forall sid :: (sid in m) == LatestRecord(records, sid).Some?
    ensures forall sid :: sid in m ==> m[sid] == LatestRecord(records, sid).value
  {
    m := map[];
    var i := 0;
    while i < |records|
      invariant 0 <= i <= |records|
      invariant Indexes(m, records[..i])
    {
      assert records[..i + 1] == records[..i] + [records[i]];
      IndexesSnoc(m, records[..i], records[i]);
      m := m[records[i].student_id := records[i]];
      i := i + 1;
    }
    assert records[..i] == records;
  }

  /** The class roster paired, student by student and in order, with the
      latest attendance record of each. */
  function ClassEntries(roster: seq<Student>, records: seq<AttendanceRecord>): (r: seq<ClassAttendanceEntry>)
    ensures |r| == |roster|
    ensures forall k :: 0 <= k < |r| ==>
              r[k] == ClassAttendanceEntry(roster[k], LatestRecord(records, roster[k].id))
  {
    if roster == [] then []
    else
      var n := |roster| - 1;
      ClassEntries(roster[..n], records) + [ClassAttendanceEntry(roster[n], LatestRecord(records, roster[n].id))]
  }

  /** The merge loop of the class attendance query: one entry per roster
      student, looked up in the records indexed by student. */
  method MergeAttendance(roster: seq<Student>, records: seq<AttendanceRecord>)
    returns (r: seq<ClassAttendanceEntry>)
    ensures r == ClassEntries(roster, records)
  {
    var byStudent := IndexByStudent(records);
    r := [];
    var j := 0;
    while j < |roster|
      invariant 0 <= j <= |roster|
      invariant r == ClassEntries(roster[..j], records)
    {
      var sid := roster[j].id;
      assert (sid in byStudent) == LatestRecord(records, sid).Some?;
      assert roster[..j + 1][..j] == roster[..j];
      r := r + [ClassAttendanceEntry(roster[j], if sid in byStudent then Some(byStudent[sid]) else None)];
      j := j + 1;
    }
    assert roster[..j] == roster;
  }

  /** The collections an admission may change. */
  datatype Collections = Collections(
    applications: seq<Application>,
    students: seq<Student>,
    users: seq<User>,
    notifications: seq<Notification>)

  /** The roll number an admission issues: the next sequence number of the
      application's class, section and year. */
  function NextRollNumber(students: seq<Student>, a: Application, req: AdmitRequest, year: nat): (r: string)
    ensures IsPrefix(NatToString(year) + "-", r)
    ensures var f := LastField(r, '-');
            AllDigits(f) &&
            DigitsValue(f) == Count(students, InSection(a.applying_for_class, req.section, req.academic_year)) + 1
  {
    var n := Count(students, InSection(a.applying_for_class, req.section, req.academic_year)) + 1;
    var roll := RollNumber(year, StandardValue(a.applying_for_class), req.section, n);
    RollReadsBack(roll, year, StandardValue(a.applying_for_class), req.section, n);
    roll
  }

  /** A successful admission of the application at `i`: the new collections
      and the response. */
  function Admission(c: Collections, i: nat, req: AdmitRequest, year: nat, admissionUuid: string,
                     parentId: string, studentId: string, noticeId: string,
                     hash: string -> string, now: string): (r: (Collections, AdmitResponse))
    requires i < |c.applications|
    ensures |r.0.applications| == |c.applications| && r.0.applications[i].status == Admitted
    ensures |r.0.students| == |c.students| + 1 && r.0.students[|c.students|].roll_number == r.1.roll_number
    ensures r.1.success && IsPrefix("ADM-" + NatToString(year) + "-", r.1.admission_number)
  {
    var a := c.applications[i];
    var admission := PrefixedNumber("ADM", year, admissionUuid);
    assert "ADM" + "-" + NatToString(year) + "-" == "ADM-" + NatToString(year) + "-";
    var roll := NextRollNumber(c.students, a, req, year);
    var parent := ResolveParent(c.users, a, parentId, year, hash, now);
    (Collections(
       c.applications[i := MarkAdmitted(a, admission, roll, req, now)],
       c.students + [AdmittedStudent(studentId, a, req, admission, roll, parent.1, now)],
       parent.0,
       c.notifications + [AdmissionNotice(noticeId, parent.1, a.student_name, roll, a.email, now)]),
     AdmitResponse(true, "Student admitted successfully", admission, roll, a.email, DefaultPassword(year)))
  }

  /** A successful admission appends exactly one student and one
      notification and changes no application but the admitted one. */
  lemma {:induction false} AdmissionAppends(c: Collections, i: nat, req: AdmitRequest, year: nat,
                                            admissionUuid: string, parentId: string, studentId: string,
                                            noticeId: string, hash: string -> string, now: string)
    requires i < |c.applications|
    ensures var d := Admission(c, i, req, year, admissionUuid, parentId, studentId, noticeId, hash, now).0;
            |d.students| == |c.students| + 1 && d.students[..|c.students|] == c.students &&
            |d.notifications| == |c.notifications| + 1 && d.notifications[..|c.notifications|] == c.notifications &&
            |d.applications| == |c.applications| &&
            forall k :: 0 <= k < |c.applications| && k != i ==> d.applications[k] == c.applications[k]
  {
    var d := Admission(c, i, req, year, admissionUuid, parentId, studentId, noticeId, hash, now).0;
    assert d.students[..|c.students|] == c.students;
    assert d.notifications[..|c.notifications|] == c.notifications;
  }

  /** The admitted application, the new student and the response agree on
      the admission number, the roll number (the next one of the class,
      section and year), the section and the year. */
  lemma AdmissionAgrees(c: Collections, i: nat, req: AdmitRequest, year: nat,
                        admissionUuid: string, parentId: string, studentId: string,
                        noticeId: string, hash: string -> string, now: string)
    requires i < |c.applications|
    ensures var (d, resp) := Admission(c, i, req, year, admissionUuid, parentId, studentId, noticeId, hash, now);
            var s := d.students[|c.students|];
            var m := d.applications[i];
            m.status == Admitted && m.id == c.applications[i].id && s.application_id == m.id &&
            resp.roll_number == NextRollNumber(c.students, c.applications[i], req, year) &&
            m.roll_number == Some(s.roll_number) && s.roll_number == resp.roll_number &&
            m.admission_number == Some(s.admission_number) && s.admission_number == resp.admission_number &&
            m.section == Some(s.section) && m.academic_year == Some(s.academic_year) &&
            resp.parent_email == c.applications[i].email && resp.parent_default_password == DefaultPassword(year)
  {
  }

  /** The new student and its notification point to a user that has the
      application's email. */
  lemma {:induction false} AdmissionParentLinked(c: Collections, i: nat, req: AdmitRequest, year: nat,
                                                 admissionUuid: string, parentId: string, studentId: string,
                                                 noticeId: string, hash: string -> string, now: string)
    requires i < |c.applications|
    ensures var d := Admission(c, i, req, year, admissionUuid, parentId, studentId, noticeId, hash, now).0;
            var s := d.students[|c.students|];
            d.notifications[|c.notifications|].user_id == s.parent_id &&
            exists k :: 0 <= k < |d.users| && d.users[k].id == s.parent_id && d.users[k].email == c.applications[i].email
  {
    var d := Admission(c, i, req, year, admissionUuid, parentId, studentId, noticeId, hash, now).0;
    var found := FirstIndex(c.users, HasEmail(c.applications[i].email));
    if found.Some? {
      assert d.users[found.value].email == c.applications[i].email;
    } else {
      assert d.users[|c.users|].email == c.applications[i].email;
    }
  }

  /** `POST /applications/{id}/admit` on the collections. An unknown id gives
      404 and an application already `admitted` gives 400, both changing
      nothing; an application in any other status is admitted. */
  function Admit(c: Collections, id: string, req: AdmitRequest, year: nat, admissionUuid: string,
                 parentId: string, studentId: string, noticeId: string,
                 hash: string -> string, now: string): (r: (Result<AdmitResponse>, Collections))
    ensures FirstIndex(c.applications, HasId(id)).None? ==> r == (Err(NotFound), c)
    ensures FirstIndex(c.applications, HasId(id)).Some? &&
            c.applications[FirstIndex(c.applications, HasId(id)).value].status == Admitted ==>
              r == (Err(HttpError(400, "Student already admitted")), c)
    ensures FirstIndex(c.applications, HasId(id)).Some? &&
            c.applications[FirstIndex(c.applications, HasId(id)).value].status != Admitted ==>
              var (d, resp) := Admission(c, FirstIndex(c.applications, HasId(id)).value, req, year,
                                         admissionUuid, parentId, studentId, noticeId, hash, now);
              r == (Ok(resp), d)
  {
    match FirstIndex(c.applications, HasId(id))
    case None => (Err(NotFound), c)
    case Some(i) =>
      if c.applications[i].status == Admitted then (Err(HttpError(400, "Student already admitted")), c)
      else
        var (d, resp) := Admission(c, i, req, year, admissionUuid, parentId, studentId, noticeId, hash, now);
        (Ok(resp), d)
  }

  /** The collections, with the operations of the back end on them. */
  class Store {
    var applications: seq<Application>
    var students: seq<Student>
    var users: seq<User>
    var notifications: seq<Notification>
    var attendance: seq<AttendanceRecord>

    constructor ()
      ensures applications == [] && students == [] && users == [] && notifications == [] && attendance == []
    {
      applications := [];
      students := [];
      users := [];
      notifications := [];
      attendance := [];
    }

    /** `POST /public/application`. */
    method CreateApplication(req: ApplicationRequest, year: nat, uuid: string, id: string, now: string)
      returns (r: CreateResponse)
      modifies this
      ensures applications == old(applications) + [NewApplication(req, year, uuid, id, now)]
      ensures r == CreateResponse(true, PrefixedNumber("KSIS", year, uuid), "Application submitted successfully")
      ensures students == old(students) && users == old(users) &&
              notifications == old(notifications) && attendance == old(attendance)
    {
      var a := NewApplication(req, year, uuid, id, now);
      applications := applications + [a];
      r := CreateResponse(true, a.reference_number, "Application submitted successfully");
    }

    /** `POST /public/application/status`. */
    function CheckApplicationStatus(reference: string, dob: string): (r: Result<StatusView>)
      reads this
      ensures r.Err? <==> FirstIndex(applications, Tracks(reference, dob)).None?
      ensures r.Ok? ==> r.value == View(applications[FirstIndex(applications, Tracks(reference, dob)).value])
    {
      StatusLookup(applications, reference, dob)
    }

    /** `PATCH /applications/{id}`: the first application with the id is
      patched; the answer is 404 both for an unknown id and for an update
      that leaves the stored document as it was. */
    method UpdateApplication(id: string, req: UpdateRequest, now: string) returns (r: Result<Ack>)
      modifies this
      ensures FirstIndex(old(applications), HasId(id)).None? ==>
                r == Err(NotFound) && applications == old(applications)
      ensures FirstIndex(old(applications), HasId(id)).Some? ==>
                var i := FirstIndex(old(applications), HasId(id)).value;
                var p := Patch(old(applications)[i], req, now);
                if p == old(applications)[i] then r == Err(NotFound) && applications == old(applications)
                else r == Ok(Ack("Application updated")) && applications == old(applications)[i := p]
      ensures students == old(students) && users == old(users) &&
              notifications == old(notifications) && attendance == old(attendance)
    {
      var found := FirstIndex(applications, HasId(id));
      if found.None? {
        return Err(NotFound);
      }
      var i := found.value;
      var p := Patch(applications[i], req, now);
      if p == applications[i] {
        return Err(NotFound);
      }
      applications := applications[i := p];
      r := Ok(Ack("Application updated"));
    }

    /** `POST /applications/{id}/admit`. */
    method AdmitStudent(id: string, req: AdmitRequest, year: nat, admissionUuid: string,
                        parentId: string, studentId: string, noticeId: string,
                        hash: string -> string, now: string)
      returns (r: Result<AdmitResponse>)
      modifies this
      ensures (r, Collections(applications, students, users, notifications)) ==
              Admit(Collections(old(applications), old(students), old(users), old(notifications)), id, req,
                    year, admissionUuid, parentId, studentId, noticeId, hash, now)
      ensures attendance == old(attendance)
    {
      var out := Admit(Collections(applications, students, users, notifications), id, req, year,
                       admissionUuid, parentId, studentId, noticeId, hash, now);
      r := out.0;
      applications, students, users, notifications :=
        out.1.applications, out.1.students, out.1.users, out.1.notifications;
    }

    /** `POST /admin/users`: only super and school administrators may create
      users, and an email already in use is refused. */
    method CreateUser(caller: UserRole, req: UserRequest, id: string, hash: string -> string, now: string)
      returns (r: Result<Ack>)
      modifies this
      ensures caller != SuperAdmin && caller != SchoolAdmin ==>
                r == Err(HttpError(403, "Not authorized")) && unchanged(this)
      ensures (caller == SuperAdmin || caller == SchoolAdmin) && FirstIndex(old(users), HasEmail(req.email)).Some? ==>
                r == Err(HttpError(400, "Email already exists")) && unchanged(this)
      ensures (caller == SuperAdmin || caller == SchoolAdmin) && FirstIndex(old(users), HasEmail(req.email)).None? ==>
                r == Ok(Ack("User created successfully")) && users == old(users) + [NewUser(req, id, hash, now)] &&
                applications == old(applications) && students == old(students) &&
                notifications == old(notifications) && attendance == old(attendance)
      ensures UniqueEmails(old(users)) ==> UniqueEmails(users)
    {
      if caller != SuperAdmin && caller != SchoolAdmin {
        return Err(HttpError(403, "Not authorized"));
      }
      if FirstIndex(users, HasEmail(req.email)).Some? {
        return Err(HttpError(400, "Email already exists"));
      }
      users := users + [NewUser(req, id, hash, now)];
      r := Ok(Ack("User created successfully"));
    }

    /** `POST /auth/login`. */
    function Login(email: string, password: string, verify: (string, string) -> bool): (r: Result<LoginView>)
      reads this
      ensures r.Ok? ==> exists k :: 0 <= k < |users| && users[k].email == email && users[k].is_active &&
                                   verify(password, users[k].password_hash) && r.value.id == users[k].id
      ensures FirstIndex(users, HasEmail(email)).None? ==> r == Err(InvalidCredentials)
      ensures r == LoginCheck(users, email, password, verify)
    {
      LoginCheck(users, email, password, verify)
    }

    /** `GET /attendance/class/{standard}/{section}/{date}`: every active
      student of the class with the attendance record of the date, the last
      record written for a student winning. */
    method GetClassAttendance(standard: string, section: string, date: string)
      returns (r: seq<ClassAttendanceEntry>)
      ensures r == ClassEntries(Filter(students, InClass(standard, section)), Filter(attendance, OnDate(date)))
    {
      r := MergeAttendance(Filter(students, InClass(standard, section)), Filter(attendance, OnDate(date)));
    }
  }
}
