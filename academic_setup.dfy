/** The academic set-up screen of the administrator: the code generated
    for a new standard from its display name, the create and edit requests
    for standards, the status toggle, the teacher lookup and the standard
    options of the section form. */
module AcademicSetup {
  import opened Seqs
  import opened Text

  // ---------------------------------------------------------------------
  // Standard codes

  /** The characters a standard code may hold: `[a-z0-9_]`. */
  predicate IsCodeChar(c: char) {
    'a' <= c <= 'z' || '0' <= c <= '9' || c == '_'
  }

  /** `replace(/\s+/g, '_')`: every maximal run of white space becomes one
      '_' (emitted at the last character of the run). */
  function CollapseSpace(s: string): (r: string)
    ensures |r| <= |s|
  {
    if s == [] then []
    else if IsJsSpace(s[0]) then
      if |s| > 1 && IsJsSpace(s[1]) then CollapseSpace(s[1..]) else "_" + CollapseSpace(s[1..])
    else [s[0]] + CollapseSpace(s[1..])
  }

  /** A run of white space followed by something that does not start with
      white space collapses to a single '_'. */
  lemma {:induction false} CollapseRun(w: string, b: string)
    requires w != [] && AllSpace(w)
    requires b == [] || !IsJsSpace(b[0])
    ensures CollapseSpace(w + b) == "_" + CollapseSpace(b)
  {
    assert (w + b)[1..] == w[1..] + b;
    if |w| > 1 {
      assert AllSpace(w[1..]) by {
        forall k | 0 <= k < |w[1..]| ensures IsJsSpace(w[1..][k]) {
          assert w[1..][k] == w[k + 1];
        }
      }
      assert (w + b)[1] == w[1];
      CollapseRun(w[1..], b);
    } else {
      assert w[1..] + b == b;
    }
  }

  /** Characters other than white space pass through unchanged. */
  lemma CollapseKeeps(c: char, b: string)
    requires !IsJsSpace(c)
    ensures CollapseSpace([c] + b) == [c] + CollapseSpace(b)
  {
    assert ([c] + b)[1..] == b;
  }

  /** A string without white space is left as it is. */
  lemma {:induction false} CollapseNoSpace(s: string)
    requires forall k :: 0 <= k < |s| ==> !IsJsSpace(s[k])
    ensures CollapseSpace(s) == s
  {
    if s != [] {
      CollapseNoSpace(s[1..]);
    }
  }

  /** Lower-casing a string with no upper-case letter changes nothing. */
  lemma LowerNoUpper(s: string)
    requires forall k :: 0 <= k < |s| ==> !('A' <= s[k] <= 'Z')
    ensures Lower(s) == s
  {
  }

  /** The code generated on creating a standard: the display name lower-
      cased, white-space runs turned into '_', and every character outside
      `[a-z0-9_]` deleted. */
  function StandardCode(displayName: string): (r: string)
    ensures forall k :: 0 <= k < |r| ==> IsCodeChar(r[k])
    ensures |r| <= |displayName|
  {
    Filter(CollapseSpace(Lower(displayName)), IsCodeChar)
  }

  /** A generated code is its own code. */
  lemma StandardCodeIdempotent(displayName: string)
    ensures StandardCode(StandardCode(displayName)) == StandardCode(displayName)
  {
    var c := StandardCode(displayName);
    LowerNoUpper(c);
    CollapseNoSpace(c);
    FilterAll(c, IsCodeChar);
  }

  /** Deleting keeps exactly the allowed characters of the collapsed, lower-
      cased name: none of them is replaced. */
  lemma StandardCodeKeepsAllowed(displayName: string, c: char)
    ensures c in StandardCode(displayName) <==> c in CollapseSpace(Lower(displayName)) && IsCodeChar(c)
  {
  }

  // ---------------------------------------------------------------------
  // Requests on standards

  datatype Standard = Standard(
    id: string,
    name: string,
    display_name: string,
    code: string,
    age_range: Option<string>,
    description: Option<string>,
    is_active: bool)

  datatype StandardForm = StandardForm(
    name: string,
    display_name: string,
    code: string,
    age_range: string,
    description: string)

  const EmptyStandardForm := StandardForm("", "", "", "", "")

  /** The body of a create request. */
  datatype NewStandard = NewStandard(name: string, display_name: string, code: string,
                                     age_range: string, description: string)

  /** The body of an edit request: only these three fields are sent. */
  datatype StandardEdit = StandardEdit(display_name: string, age_range: string, description: string)

  datatype StandardRequest =
    | CreateStandard(body: NewStandard)
    | UpdateStandard(id: string, edit: StandardEdit)

  /** `handleEditStandard`: the form filled from the standard, a missing age
      range or description as ''. */
  function EditForm(s: Standard): (r: StandardForm)
    ensures r.name == s.name && r.display_name == s.display_name && r.code == s.code
    ensures r.age_range == s.age_range.GetOr("") && r.description == s.description.GetOr("")
  {
    StandardForm(s.name, s.display_name, s.code, s.age_range.GetOr(""), s.description.GetOr(""))
  }

  /** `handleCreateOrUpdateStandard`: an edit sends display name, age range
      and description to the edited standard and nothing else; a create
      sends the generated code as both name and code. */
  function SaveStandard(form: StandardForm, editing: Option<Standard>): (r: StandardRequest)
    ensures editing.Some? ==>
              r == UpdateStandard(editing.value.id, StandardEdit(form.display_name, form.age_range, form.description))
    ensures editing.None? ==>
              r.CreateStandard? && r.body.name == r.body.code &&
              r.body.code == StandardCode(form.display_name) && r.body.display_name == form.display_name &&
              r.body.age_range == form.age_range && r.body.description == form.description
  {
    match editing
    case Some(s) => UpdateStandard(s.id, StandardEdit(form.display_name, form.age_range, form.description))
    case None =>
      var code := StandardCode(form.display_name);
      CreateStandard(NewStandard(code, form.display_name, code, form.age_range, form.description))
  }

  /** Opening a standard for edit and saving it unchanged sends back its own
      display name and its age range and description, defaulted to ''. */
  lemma EditUnchangedSendsOwnFields(s: Standard)
    ensures SaveStandard(EditForm(s), Some(s)) ==
              UpdateStandard(s.id, StandardEdit(s.display_name, s.age_range.GetOr(""), s.description.GetOr("")))
  {
  }

  /** The form after a save: empty again when the request succeeded, kept when
      it failed. */
  function AfterSave(form: StandardForm, succeeded: bool): (r: StandardForm)
    ensures succeeded ==> r.name == "" && r.display_name == "" && r.code == "" && r.age_range == "" && r.description == ""
    ensures !succeeded ==> r == form
  {
    if succeeded then EmptyStandardForm else form
  }

  /** The body of the status toggle. */
  datatype StatusPatch = StatusPatch(id: string, is_active: bool)

  /** `handleToggleStandardStatus`: the negation of the current status. */
  function ToggleStatus(s: Standard): (r: StatusPatch)
    ensures r.id == s.id && r.is_active != s.is_active
  {
    StatusPatch(s.id, !s.is_active)
  }

  // ---------------------------------------------------------------------
  // Teachers

  datatype UserEntry = UserEntry(id: string, role: string, full_name: string)

  function IsTeacher(u: UserEntry): bool {
    u.role == "teacher"
  }

  /** The teacher list: the users with role `teacher`, in order. */
  function Teachers(users: seq<UserEntry>): (r: seq<UserEntry>)
    ensures forall u :: u in r <==> u in users && u.role == "teacher"
  {
    Filter(users, IsTeacher)
  }

  function HasUserId(id: string): UserEntry -> bool {
    (u: UserEntry) => u.id == id
  }

  /** `getTeacherName`: the full name of the first teacher with the id, or
      nothing when there is none or its name is empty (falsy). */
  function TeacherName(teachers: seq<UserEntry>, id: string): (r: Option<string>)
    ensures r.Some? ==>
              (r.value != "" &&
               exists k :: 0 <= k < |teachers| && teachers[k].id == id && teachers[k].full_name == r.value &&
                           forall j :: 0 <= j < k ==> teachers[j].id != id)
    ensures (forall k :: 0 <= k < |teachers| ==> teachers[k].id != id) ==> r.None?
    ensures forall k :: 0 <= k < |teachers| && teachers[k].id == id &&
                        (forall j :: 0 <= j < k ==> teachers[j].id != id) ==>
                          r == (if teachers[k].full_name == "" then None else Some(teachers[k].full_name))
  {
    match FirstIndex(teachers, HasUserId(id))
    case None => None
    case Some(i) => if teachers[i].full_name == "" then None else Some(teachers[i].full_name)
  }

  // ---------------------------------------------------------------------
  // Standard options of the section form

  datatype SelectOption = SelectOption(value: string, text: string)

  /** The four options shown when no standard exists at all. */
  const BuiltInOptions := [SelectOption("play_group", "Play Group"), SelectOption("pre_kg", "Pre KG"),
                           SelectOption("lkg", "LKG"), SelectOption("ukg", "UKG")]

  /** One option per active standard, in order. */
  function ActiveOptions(standards: seq<Standard>): (r: seq<SelectOption>)
    ensures |r| <= |standards|
    ensures forall o :: o in r <==> exists s :: s in standards && s.is_active && o == SelectOption(s.code, s.display_name)
  {
    if standards == [] then []
    else
      var rest := ActiveOptions(standards[1..]);
      assert forall s :: s in standards[1..] ==> s in standards;
      assert forall s :: s in standards ==> s == standards[0] || s in standards[1..];
      if standards[0].is_active then [SelectOption(standards[0].code, standards[0].display_name)] + rest
      else rest
  }

  /** The standard select of the section form: the active standards, and
      the built-in four only when the list of standards is empty. When
      standards exist but none is active, there are no options. */
  function StandardOptions(standards: seq<Standard>): (r: seq<SelectOption>)
    ensures standards == [] ==> r == BuiltInOptions
    ensures standards != [] ==> r == ActiveOptions(standards)
  {
    ActiveOptions(standards) + (if standards == [] then BuiltInOptions else [])
  }
}
