/** `app/reports/ManageStudents.tsx`: the "Manage Students" panel of the reports
    page, which keeps its own local student list and changes it on the client. */
module ManageStudentsPanel {
  import opened Seqs
  import opened StudentList

  /** The panel's state: the local list, the add form, the student being edited and the
      two dialogs. */
  class Panel {
    var students: seq<SampleStudent>
    var newStudent: StudentForm
    var editingStudent: Option<SampleStudent>
    var isAddDialogOpen: bool
    var isEditDialogOpen: bool

    constructor ()
      ensures students == SampleStudents() && newStudent == EmptyForm() && editingStudent == None
      ensures !isAddDialogOpen && !isEditDialogOpen
    {
      students := SampleStudents();
      newStudent := EmptyForm();
      editingStudent := None;
      isAddDialogOpen := false;
      isEditDialogOpen := false;
    }

    /** `handleAddStudent`: a complete form appends one student with id = length + 1 after
        every existing one, then clears the form and closes the dialog; an incomplete form
        leaves list, form and dialog as they were. */
    method HandleAddStudent()
      modifies this
      ensures FormComplete(old(newStudent)) ==>
        && |students| == |old(students)| + 1
        && students[..|old(students)|] == old(students)
        && students[|old(students)|] == SampleStudent(|old(students)| + 1, old(newStudent).name,
                                                      old(newStudent).rollNumber, old(newStudent).team)
        && newStudent == EmptyForm() && !isAddDialogOpen
      ensures !FormComplete(old(newStudent)) ==>
        students == old(students) && newStudent == old(newStudent) && isAddDialogOpen == old(isAddDialogOpen)
      ensures editingStudent == old(editingStudent) && isEditDialogOpen == old(isEditDialogOpen)
    {
      if FormComplete(newStudent) {
        AddedSpec(students, newStudent);
        students := Added(students, newStudent);
        newStudent := EmptyForm();
        isAddDialogOpen := false;
      }
    }

    /** `handleEditStudent`: a complete edit replaces exactly the students with its id and
        closes the dialog; otherwise nothing changes. */
    method HandleEditStudent()
      modifies this
      ensures EditComplete(old(editingStudent)) ==>
        && |students| == |old(students)|
        && (forall i :: 0 <= i < |students| ==>
              students[i] == if old(students)[i].id == old(editingStudent).value.id
                             then old(editingStudent).value else old(students)[i])
        && !isEditDialogOpen
      ensures !EditComplete(old(editingStudent)) ==>
        students == old(students) && isEditDialogOpen == old(isEditDialogOpen)
      ensures newStudent == old(newStudent) && isAddDialogOpen == old(isAddDialogOpen)
      ensures editingStudent == old(editingStudent)
    {
      if EditComplete(editingStudent) {
        students := Edited(students, editingStudent.value);
        isEditDialogOpen := false;
      }
    }

    /** `handleDeleteStudent`: when the user confirms, every student with that id goes and
        the others stay, in order. */
    method HandleDeleteStudent(studentId: int, confirmed: bool)
      modifies this`students
      ensures confirmed ==> students == Deleted(old(students), studentId)
      ensures confirmed ==> forall i :: 0 <= i < |students| ==> students[i].id != studentId
      ensures confirmed ==> IsSubsequence(students, old(students))
      ensures !confirmed ==> students == old(students)
    {
      if confirmed {
        DeletedSpec(students, studentId, SampleStudent(studentId, "", "", ""));
        students := Deleted(students, studentId);
      }
    }
  }
}
