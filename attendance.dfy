/** The teacher's attendance sheet: the students of the teacher, one mark
    per student id, and the bulk request that submits the marks. */
module Attendance {
  import opened Seqs

  datatype ClassStudent = ClassStudent(id: string, current_class: string, section: string)

  datatype AttendanceEntry = AttendanceEntry(student_id: string, status: string, remarks: string)

  datatype BulkRequest = BulkRequest(date: string, standard: string, section: string,
                                     attendance_list: seq<AttendanceEntry>)

  /** Some student of the list has the id. */
  predicate Listed(students: seq<ClassStudent>, id: string) {
    exists k :: 0 <= k < |students| && students[k].id == id
  }

  /** The marks of `forEach(student => m[student.id] = 'present')` over an
      empty object: exactly the listed ids, each `present`. */
  method PresentMarks(students: seq<ClassStudent>) returns (m: map<string, string>)
    ensures forall id :: id in m <==> Listed(students, id)
    ensures forall id :: id in m ==> m[id] == "present"
  {
    m := map[];
    var i := 0;
    while i < |students|
      invariant 0 <= i <= |students|
      invariant forall id :: id in m <==> Listed(students[..i], id)
      invariant forall id :: id in m ==> m[id] == "present"
    {
      assert forall id :: Listed(students[..i + 1], id) <==> Listed(students[..i], id) || id == students[i].id by {
        forall id ensures Listed(students[..i + 1], id) <==> Listed(students[..i], id) || id == students[i].id {
          if Listed(students[..i + 1], id) {
            var k :| 0 <= k < i + 1 && students[..i + 1][k].id == id;
            if k < i {
              assert students[..i][k] == students[..i + 1][k];
            }
          }
          if Listed(students[..i], id) {
            var k :| 0 <= k < i && students[..i][k].id == id;
            assert students[..i + 1][k] == students[..i][k];
          }
          assert students[..i + 1][i] == students[i];
        }
      }
      m := m[students[i].id := "present"];
      i := i + 1;
    }
    assert students[..i] == students;
  }

  /** The status submitted for a student: its mark, `present` when it has
      none or the mark is empty. */
  function StatusOf(marks: map<string, string>, id: string): (r: string)
    ensures id in marks && marks[id] != "" ==> r == marks[id]
    ensures id !in marks || marks[id] == "" ==> r == "present"
  {
    if id in marks && marks[id] != "" then marks[id] else "present"
  }

  /** The submitted list: one entry per student, in list order, with empty
      remarks. */
  function AttendanceList(students: seq<ClassStudent>, marks: map<string, string>): (r: seq<AttendanceEntry>)
    ensures |r| == |students|
    ensures forall k :: 0 <= k < |r| ==>
              r[k] == AttendanceEntry(students[k].id, StatusOf(marks, students[k].id), "")
  {
    if students == [] then []
    else [AttendanceEntry(students[0].id, StatusOf(marks, students[0].id), "")] +
         AttendanceList(students[1..], marks)
  }

  /** Marks that put every listed student `present` submit `present` for
      everyone. */
  lemma PresentMarksSubmitPresent(students: seq<ClassStudent>, marks: map<string, string>)
    requires forall id :: id in marks ==> marks[id] == "present"
    ensures forall k :: 0 <= k < |students| ==> AttendanceList(students, marks)[k].status == "present"
  {
  }

  /** Changing the mark of one student changes the submitted status of the
      students with that id and no other entry. */
  lemma ChangeAffectsOnlyThatStudent(students: seq<ClassStudent>, marks: map<string, string>, id: string,
                                     status: string)
    requires status != ""
    ensures var before := AttendanceList(students, marks);
            var after := AttendanceList(students, marks[id := status]);
            |after| == |before| &&
            forall k :: 0 <= k < |after| ==>
              (students[k].id == id ==> after[k].status == status) &&
              (students[k].id != id ==> after[k] == before[k])
  {
  }

  /** The attendance screen. */
  class AttendanceSheet {
    var date: string
    var students: seq<ClassStudent>
    var marks: map<string, string>

    constructor (today: string)
      ensures date == today && students == [] && marks == map[]
    {
      date := today;
      students := [];
      marks := map[];
    }

    /** `loadStudents`: on success the students loaded and every one of them
        marked `present`; on failure nothing changes. */
    method LoadStudents(loaded: Option<seq<ClassStudent>>)
      modifies this
      ensures loaded.None? ==> students == old(students) && marks == old(marks)
      ensures loaded.Some? ==> students == loaded.value
      ensures loaded.Some? ==> forall id :: id in marks <==> Listed(loaded.value, id)
      ensures loaded.Some? ==> forall id :: id in marks ==> marks[id] == "present"
      ensures date == old(date)
    {
      if loaded.Some? {
        students := loaded.value;
        marks := PresentMarks(loaded.value);
      }
    }

    /** `handleAttendanceChange`: the mark of one student; every other mark
        stays. */
    method ChangeAttendance(id: string, status: string)
      modifies this
      ensures marks == old(marks)[id := status]
      ensures students == old(students) && date == old(date)
    {
      marks := marks[id := status];
    }

    /** `markAllPresent`: the marks replaced by exactly the current students,
        each `present`; marks of students no longer listed are dropped. */
    method MarkAllPresent()
      modifies this
      ensures forall id :: id in marks <==> Listed(students, id)
      ensures forall id :: id in marks ==> marks[id] == "present"
      ensures students == old(students) && date == old(date)
    {
      marks := PresentMarks(students);
    }

    /** The request of `handleSubmit`: the date, the class and section of the
        first student (`lkg` and `A` when there is none or they are empty),
        and the attendance list. */
    function SubmitRequest(): (r: BulkRequest)
      reads this
      ensures r.date == date
      ensures students == [] ==> r.standard == "lkg" && r.section == "A"
      ensures students != [] && students[0].current_class == "" ==> r.standard == "lkg"
      ensures students != [] && students[0].section == "" ==> r.section == "A"
      ensures students != [] && students[0].current_class != "" ==> r.standard == students[0].current_class
      ensures students != [] && students[0].section != "" ==> r.section == students[0].section
      ensures r.attendance_list == AttendanceList(students, marks)
    {
      var standard := if students != [] && students[0].current_class != "" then students[0].current_class else "lkg";
      var section := if students != [] && students[0].section != "" then students[0].section else "A";
      BulkRequest(date, standard, section, AttendanceList(students, marks))
    }
  }
}
