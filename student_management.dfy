/** The student tab of the admin page (src/components/StudentManagementTab.tsx): the next
    student number offered when the add dialog opens, the rows the add and edit dialogs
    write, and the dialog state the handlers leave behind. The hosted tables, the photo
    store and the toast are outside the model: the fetched student numbers, the class list,
    the outcome of an upload and of a write are inputs. */
module StudentManagement {
  import opened Common
  import opened JsNumbers

  /** `StudentForm`, the state of either dialog's fields. */
  datatype StudentForm = StudentForm(
    fullName: string, classId: string, departmentId: string,
    dateOfBirth: string, photoUrl: string, phoneNumber: string)

  /** `initialFormState` */
  const InitialForm := StudentForm("", "", "", "", "", "")

  /** A `classes` row, as far as the dialogs read it. */
  datatype ClassRow = ClassRow(id: string, departmentId: Option<string>)

  /** A `students` row as the table lists it. */
  datatype StudentRow = StudentRow(
    id: string, studentId: string, fullName: string, classId: string, departmentId: string,
    dateOfBirth: Option<string>, photoUrl: Option<string>, phoneNumber: Option<string>)

  /** The columns an insert or an update writes. */
  datatype StudentRecord = StudentRecord(
    fullName: string, classId: string, departmentId: string,
    dateOfBirth: Option<string>, phoneNumber: Option<string>, photoUrl: Option<string>)

  /** The photo a dialog may carry: no file chosen, a file stored under a public address, or
      a file the store refused. */
  datatype Upload = NoFile | Uploaded(publicUrl: string) | UploadFailed

  /** Why a handler reported an error. */
  datatype Failure = MissingName | PhotoRejected | WriteRejected

  /** The toast a handler shows. */
  datatype Toast = NoToast | SuccessToast | ErrorToast(reason: Failure)

  /** `parseInt(id) || 0`: an id without leading digits counts as 0. */
  function ParsedId(id: string): int
  {
    JsParseInt(id).GetOr(0)
  }

  /** `Math.max(...ids.map(id => parseInt(id) || 0))` */
  function MaxParsed(ids: seq<string>): (m: int)
    requires |ids| > 0
    ensures forall i | 0 <= i < |ids| :: ParsedId(ids[i]) <= m
    ensures exists i | 0 <= i < |ids| :: ParsedId(ids[i]) == m
  {
    if |ids| == 1 then ParsedId(ids[0])
    else
      var rest := MaxParsed(ids[1..]);
      assert forall i | 1 <= i < |ids| :: ids[i] == ids[1..][i - 1];
      Max(ParsedId(ids[0]), rest)
  }

  /** `getNextStudentId` over the numbers the query returned (`None` when it returned no data). */
  function NextStudentId(ids: Option<seq<string>>): string
  {
    if ids.None? || |ids.value| == 0 then "100"
    else IntToString(Max(MaxParsed(ids.value) + 1, 100))
  }

  /** A candidate for the next number: at least 100 and above every number in use. */
  predicate Admissible(ids: Option<seq<string>>, k: int)
  {
    k >= 100 && (ids.Some? ==> forall i | 0 <= i < |ids.value| :: k > ParsedId(ids.value[i]))
  }

  /** The next number reads back as the least admissible integer; with no students it is
      "100". */
  lemma NextStudentIdFacts(ids: Option<seq<string>>)
    ensures ids.None? || |ids.value| == 0 ==> NextStudentId(ids) == "100"
    ensures JsParseInt(NextStudentId(ids)).Some?
    ensures Admissible(ids, JsParseInt(NextStudentId(ids)).value)
    ensures forall k | Admissible(ids, k) :: JsParseInt(NextStudentId(ids)).value <= k
  {
    if ids.None? || |ids.value| == 0 {
      IntToStringParsesBack(100);
      assert IntToString(100) == "100";
    } else {
      IntToStringParsesBack(Max(MaxParsed(ids.value) + 1, 100));
    }
  }

  /** `classes.find(c => c.id === classId)` */
  function Find(classes: seq<ClassRow>, classId: string): (r: Option<ClassRow>)
    ensures r.Some? ==> r.value in classes && r.value.id == classId
    ensures r.None? ==> forall c | c in classes :: c.id != classId
  {
    if |classes| == 0 then None
    else if classes[0].id == classId then Some(classes[0])
    else Find(classes[1..], classId)
  }

  /** `classes?.find(c => c.id === classId)`: nothing while the class list is not loaded. */
  function SelectedClass(classes: Option<seq<ClassRow>>, classId: string): Option<ClassRow>
  {
    if classes.None? then None else Find(classes.value, classId)
  }

  /** `selectedClass?.department_id || form.department_id` */
  function DepartmentFor(classes: Option<seq<ClassRow>>, form: StudentForm): string
  {
    var c := SelectedClass(classes, form.classId);
    if c.Some? && c.value.departmentId.Some? && c.value.departmentId.value != "" then c.value.departmentId.value
    else form.departmentId
  }

  /** `s || null` */
  function OrNull(s: string): Option<string>
  {
    if s == "" then None else Some(s)
  }

  /** The columns `handleAddStudent` inserts (beside `student_id`). */
  function NewStudentRecord(form: StudentForm, classes: Option<seq<ClassRow>>, photoUrl: Option<string>): StudentRecord
  {
    StudentRecord(form.fullName, form.classId, DepartmentFor(classes, form),
                  OrNull(form.dateOfBirth), OrNull(form.phoneNumber), photoUrl)
  }

  /** The columns `handleUpdateStudent` writes: the photo is always a string, the one the
      dialog holds unless a new file was stored. */
  function UpdateRecord(form: StudentForm, classes: Option<seq<ClassRow>>, photoUrl: string): StudentRecord
  {
    StudentRecord(form.fullName, form.classId, DepartmentFor(classes, form),
                  OrNull(form.dateOfBirth), OrNull(form.phoneNumber), Some(photoUrl))
  }

  /** The photo `handleUpdateStudent` writes: the stored file's address, else the current one. */
  function UpdatedPhoto(form: StudentForm, upload: Upload): string
  {
    if upload.Uploaded? then upload.publicUrl else form.photoUrl
  }

  /** `s || ""` */
  function OrEmpty(s: Option<string>): string
  {
    if s.Some? then s.value else ""
  }

  /** The form `handleEditClick` fills from a listed student. */
  function FormOf(s: StudentRow): StudentForm
  {
    StudentForm(s.fullName, s.classId, s.departmentId, OrEmpty(s.dateOfBirth), OrEmpty(s.photoUrl), OrEmpty(s.phoneNumber))
  }

  /** What both dialogs write: the department is the chosen class's when it has one and the
      form's otherwise, and an empty date of birth or phone number becomes null. */
  lemma RecordFacts(form: StudentForm, classes: Option<seq<ClassRow>>, photoUrl: Option<string>)
    ensures var c := SelectedClass(classes, form.classId);
      var r := NewStudentRecord(form, classes, photoUrl);
      (c.Some? && c.value.departmentId.Some? && c.value.departmentId.value != "" ==> r.departmentId == c.value.departmentId.value)
      && (c.None? || c.value.departmentId.None? || c.value.departmentId.value == "" ==> r.departmentId == form.departmentId)
      && (r.dateOfBirth.None? <==> form.dateOfBirth == "")
      && (r.dateOfBirth.Some? ==> r.dateOfBirth.value == form.dateOfBirth)
      && (r.phoneNumber.None? <==> form.phoneNumber == "")
      && (r.phoneNumber.Some? ==> r.phoneNumber.value == form.phoneNumber)
      && r.fullName == form.fullName && r.classId == form.classId && r.photoUrl == photoUrl
    ensures UpdateRecord(form, classes, form.photoUrl) == NewStudentRecord(form, classes, Some(form.photoUrl))
  {
  }

  /** Saving the edit dialog untouched writes back what was listed: the name, class, date of
      birth and phone number of the student, and their photo unless a new file was stored;
      only a missing photo comes back as the empty string. */
  lemma UnchangedEditWritesBack(s: StudentRow, classes: Option<seq<ClassRow>>, upload: Upload)
    requires s.dateOfBirth != Some("") && s.phoneNumber != Some("")
    ensures var r := UpdateRecord(FormOf(s), classes, UpdatedPhoto(FormOf(s), upload));
      r.fullName == s.fullName && r.classId == s.classId
      && r.dateOfBirth == s.dateOfBirth && r.phoneNumber == s.phoneNumber
      && (!upload.Uploaded? ==> r.photoUrl == Some(OrEmpty(s.photoUrl)))
      && (upload.Uploaded? ==> r.photoUrl == Some(upload.publicUrl))
  {
  }

  /** The tab's state: the two dialogs, their forms and photo previews, the student being
      edited and the number offered to the next new student. */
  class StudentManagementTab {
    var isAddDialogOpen: bool
    var isEditDialogOpen: bool
    var editingStudentId: Option<string>
    var editingStudentIdString: string
    var isCreating: bool
    var nextStudentId: string
    var newStudent: StudentForm
    var editStudent: StudentForm
    var photoPreview: Option<string>
    var editPhotoPreview: Option<string>

    constructor()
      ensures !isAddDialogOpen && !isEditDialogOpen && editingStudentId.None? && editingStudentIdString == ""
      ensures !isCreating && nextStudentId == "Loading..."
      ensures newStudent == InitialForm && editStudent == InitialForm
      ensures photoPreview.None? && editPhotoPreview.None?
    {
      isAddDialogOpen := false;
      isEditDialogOpen := false;
      editingStudentId := None;
      editingStudentIdString := "";
      isCreating := false;
      nextStudentId := "Loading...";
      newStudent := InitialForm;
      editStudent := InitialForm;
      photoPreview := None;
      editPhotoPreview := None;
    }

    /** The add dialog's `onOpenChange`: opening it fetches the next number (`ids` is what
        the query returned). */
    method OpenAddDialog(open: bool, ids: Option<seq<string>>)
      modifies this`isAddDialogOpen, this`nextStudentId
      ensures isAddDialogOpen == open
      ensures nextStudentId == if open then NextStudentId(ids) else old(nextStudentId)
    {
      isAddDialogOpen := open;
      if open {
        nextStudentId := NextStudentId(ids);
      }
    }

    /** `handleAddStudent`. Without a name it only reports the error. Otherwise it stores the
        photo, if any, then inserts the record under the offered number; `inserted` is whether
        the database accepted it. Success closes the dialog and empties the form; a failure
        leaves both as they were. `sent` is the row offered to the database, if any. */
    method HandleAddStudent(classes: Option<seq<ClassRow>>, upload: Upload, inserted: bool)
      returns (sent: Option<(string, StudentRecord)>, toast: Toast)
      modifies this`isAddDialogOpen, this`newStudent, this`photoPreview, this`isCreating
      ensures old(newStudent.fullName) == "" ==>
        sent.None? && toast == ErrorToast(MissingName)
        && isAddDialogOpen == old(isAddDialogOpen) && newStudent == old(newStudent)
        && photoPreview == old(photoPreview) && isCreating == old(isCreating)
      ensures old(newStudent.fullName) != "" ==>
        sent == (if upload.UploadFailed? then None
                 else Some((nextStudentId, NewStudentRecord(old(newStudent), classes, if upload.Uploaded? then Some(upload.publicUrl) else None))))
        && !isCreating
        && (sent.Some? && inserted ==> toast == SuccessToast && !isAddDialogOpen && newStudent == InitialForm && photoPreview.None?)
        && (sent.None? ==> toast == ErrorToast(PhotoRejected))
        && (sent.Some? && !inserted ==> toast == ErrorToast(WriteRejected))
        && (sent.None? || !inserted ==>
              isAddDialogOpen == old(isAddDialogOpen) && newStudent == old(newStudent) && photoPreview == old(photoPreview))
    {
      if newStudent.fullName == "" {
        return None, ErrorToast(MissingName);
      }
      isCreating := true;
      var photoUrl: Option<string> := None;
      if upload.UploadFailed? {
        sent, toast := None, ErrorToast(PhotoRejected);
      } else {
        if upload.Uploaded? {
          photoUrl := Some(upload.publicUrl);
        }
        sent := Some((nextStudentId, NewStudentRecord(newStudent, classes, photoUrl)));
        if inserted {
          toast := SuccessToast;
          isAddDialogOpen := false;
          newStudent := InitialForm;
          photoPreview := None;
        } else {
          toast := ErrorToast(WriteRejected);
        }
      }
      isCreating := false;
    }

    /** `handleEditClick`: the edit dialog opens on the student, missing optional fields shown
        as empty. */
    method HandleEditClick(s: StudentRow)
      modifies this`editingStudentId, this`editingStudentIdString, this`editStudent, this`editPhotoPreview, this`isEditDialogOpen
      ensures editingStudentId == Some(s.id) && editingStudentIdString == s.studentId
      ensures editStudent == FormOf(s) && editPhotoPreview == Some(OrEmpty(s.photoUrl))
      ensures isEditDialogOpen
    {
      editingStudentId := Some(s.id);
      editingStudentIdString := s.studentId;
      editStudent := FormOf(s);
      editPhotoPreview := Some(editStudent.photoUrl);
      isEditDialogOpen := true;
    }

    /** `handleUpdateStudent`. With no student being edited it does nothing. Otherwise it
        stores the new photo, if any, and updates the edited student's row; `updated` is
        whether the database accepted it. Success closes the dialog and forgets the student;
        a failure leaves the dialog as it was. `sent` is the row id and columns written. */
    method HandleUpdateStudent(classes: Option<seq<ClassRow>>, upload: Upload, updated: bool)
      returns (sent: Option<(string, StudentRecord)>, toast: Toast)
      modifies this`isEditDialogOpen, this`editingStudentId, this`editStudent, this`editPhotoPreview, this`isCreating
      ensures old(editingStudentId).None? || old(editingStudentId).value == "" ==>
        sent.None? && toast == NoToast
        && isEditDialogOpen == old(isEditDialogOpen) && editingStudentId == old(editingStudentId)
        && editStudent == old(editStudent) && editPhotoPreview == old(editPhotoPreview) && isCreating == old(isCreating)
      ensures old(editingStudentId).Some? && old(editingStudentId).value != "" ==>
        sent == (if upload.UploadFailed? then None
                 else Some((old(editingStudentId).value, UpdateRecord(old(editStudent), classes, UpdatedPhoto(old(editStudent), upload)))))
        && !isCreating
        && (sent.Some? && updated ==>
              toast == SuccessToast && !isEditDialogOpen && editingStudentId.None? && editStudent == InitialForm && editPhotoPreview.None?)
        && (sent.None? ==> toast == ErrorToast(PhotoRejected))
        && (sent.Some? && !updated ==> toast == ErrorToast(WriteRejected))
        && (sent.None? || !updated ==>
              isEditDialogOpen == old(isEditDialogOpen) && editingStudentId == old(editingStudentId)
              && editStudent == old(editStudent) && editPhotoPreview == old(editPhotoPreview))
    {
      if editingStudentId.None? || editingStudentId.value == "" {
        return None, NoToast;
      }
      isCreating := true;
      if upload.UploadFailed? {
        sent, toast := None, ErrorToast(PhotoRejected);
      } else {
        var photoUrl := editStudent.photoUrl;
        if upload.Uploaded? {
          photoUrl := upload.publicUrl;
        }
        sent := Some((editingStudentId.value, UpdateRecord(editStudent, classes, photoUrl)));
        if updated {
          toast := SuccessToast;
          isEditDialogOpen := false;
          editingStudentId := None;
          editStudent := InitialForm;
          editPhotoPreview := None;
        } else {
          toast := ErrorToast(WriteRejected);
        }
      }
      isCreating := false;
    }
  }
}
