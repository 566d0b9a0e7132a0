/** The teacher assignment screen: the section choices of the assignment
    form, the default academic year, the form's reset rules and the teacher
    names shown in the assignment table. */
module TeacherAssignment {
  import opened Seqs
  import AcademicSetup

  datatype AcademicYear = AcademicYear(id: string, year: string, is_active: bool)

  datatype Section = Section(id: string, standard: string, section_name: string, academic_year: string)

  datatype AssignmentForm = AssignmentForm(
    teacher_id: string,
    standard: string,
    section: string,
    academic_year: string,
    is_class_teacher: bool)

  const InitialForm := AssignmentForm("", "", "", "", false)

  function ForClassAndYear(standard: string, year: string): Section -> bool {
    (s: Section) => s.standard == standard && s.academic_year == year
  }

  /** `sectionsForForm`: exactly the sections of the form's standard and
      academic year, in their order. */
  function SectionsForForm(sections: seq<Section>, form: AssignmentForm): (r: seq<Section>)
    ensures forall s :: s in r <==> s in sections && s.standard == form.standard && s.academic_year == form.academic_year
  {
    Filter(sections, ForClassAndYear(form.standard, form.academic_year))
  }

  function IsActiveYear(y: AcademicYear): bool {
    y.is_active
  }

  /** `defaultYear`: the year of the first active academic year when it is
      not empty, otherwise the year of the first academic year, otherwise ''. */
  function DefaultYear(years: seq<AcademicYear>): (r: string)
    ensures var first := FirstIndex(years, IsActiveYear);
            first.Some? && years[first.value].year != "" ==> r == years[first.value].year
    ensures var first := FirstIndex(years, IsActiveYear);
            first.None? || years[first.value].year == "" ==> r == (if years == [] then "" else years[0].year)
  {
    var active := match Find(years, IsActiveYear) case Some(y) => y.year case None => "";
    if active != "" then active
    else if years != [] then years[0].year
    else ""
  }

  /** Choosing an academic year clears the section and changes nothing else. */
  function SelectYear(form: AssignmentForm, year: string): (r: AssignmentForm)
    ensures r.academic_year == year && r.section == ""
    ensures r.teacher_id == form.teacher_id && r.standard == form.standard
    ensures r.is_class_teacher == form.is_class_teacher
  {
    form.(academic_year := year, section := "")
  }

  /** Choosing a standard clears the section and changes nothing else. */
  function SelectStandard(form: AssignmentForm, standard: string): (r: AssignmentForm)
    ensures r.standard == standard && r.section == ""
    ensures r.teacher_id == form.teacher_id && r.academic_year == form.academic_year
    ensures r.is_class_teacher == form.is_class_teacher
  {
    form.(standard := standard, section := "")
  }

  /** Opening the modal keeps a chosen academic year and otherwise fills in
      the default year; nothing else changes. */
  function OpenModal(form: AssignmentForm, defaultYear: string): (r: AssignmentForm)
    ensures form.academic_year != "" ==> r == form
    ensures form.academic_year == "" ==> r == form.(academic_year := defaultYear)
  {
    form.(academic_year := if form.academic_year != "" then form.academic_year else defaultYear)
  }

  /** Opening the modal a second time changes nothing more. */
  lemma OpenModalIdempotent(form: AssignmentForm, defaultYear: string)
    ensures OpenModal(OpenModal(form, defaultYear), defaultYear) == OpenModal(form, defaultYear)
  {
  }

  /** The form after a successful assignment: cleared, with the default
      year; after a failure it is kept. */
  function AfterSubmit(form: AssignmentForm, defaultYear: string, succeeded: bool): (r: AssignmentForm)
    ensures succeeded ==> r == InitialForm.(academic_year := defaultYear)
    ensures !succeeded ==> r == form
  {
    if succeeded then AssignmentForm("", "", "", if defaultYear != "" then defaultYear else "", false)
    else form
  }

  /** After a successful assignment the next opening of the modal starts
      from the default year. */
  lemma NextAssignmentStartsFromDefault(form: AssignmentForm, years: seq<AcademicYear>)
    ensures OpenModal(AfterSubmit(form, DefaultYear(years), true), DefaultYear(years)).academic_year == DefaultYear(years)
  {
  }

  /** `getTeacherName` of the assignment table: the full name of the first
      teacher with the id, and 'Unknown' when there is none or the name is
      empty. */
  function TeacherLabel(teachers: seq<AcademicSetup.UserEntry>, id: string): (r: string)
    ensures (forall k :: 0 <= k < |teachers| ==> teachers[k].id != id) ==> r == "Unknown"
    ensures forall k :: 0 <= k < |teachers| && teachers[k].id == id && teachers[k].full_name != "" &&
                        (forall j :: 0 <= j < k ==> teachers[j].id != id) ==>
                          r == teachers[k].full_name
    ensures forall k :: 0 <= k < |teachers| && teachers[k].id == id && teachers[k].full_name == "" &&
                        (forall j :: 0 <= j < k ==> teachers[j].id != id) ==>
                          r == "Unknown"
    ensures r != ""
    ensures r == "Unknown" || exists k :: 0 <= k < |teachers| && teachers[k].id == id && teachers[k].full_name == r &&
                                          forall j :: 0 <= j < k ==> teachers[j].id != id
  {
    AcademicSetup.TeacherName(teachers, id).GetOr("Unknown")
  }
}
