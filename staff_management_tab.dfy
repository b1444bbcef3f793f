/** The staff tab of the admin page (src/components/StaffManagementTab.tsx): the split of
    the staff list into teachers awaiting approval and approved teachers, which sections it
    shows, and the assignment dialog. The mutations it triggers are those of
    `StaffManagement`; what the tab sends is returned as a request. */
module StaffManagementTab {
  import opened Common
  import opened StaffManagement

  /** `!!s.is_approved` */
  predicate IsApproved(s: StaffEntry)
  {
    s.profile.isApproved == Some(true)
  }

  predicate IsPending(s: StaffEntry)
  {
    !IsApproved(s)
  }

  /** `staff?.filter(s => !s.is_approved) || []` */
  function PendingTeachers(staff: Option<seq<StaffEntry>>): seq<StaffEntry>
  {
    if staff.None? then [] else Filter(staff.value, IsPending)
  }

  /** `staff?.filter(s => s.is_approved) || []` */
  function ApprovedTeachers(staff: Option<seq<StaffEntry>>): seq<StaffEntry>
  {
    if staff.None? then [] else Filter(staff.value, IsApproved)
  }

  /** The two lists split the staff: every entry lands in exactly one of them, as often as it
      occurs, pending entries being those whose approval is false or null. */
  lemma Partition(staff: Option<seq<StaffEntry>>)
    ensures staff.None? ==> PendingTeachers(staff) == [] && ApprovedTeachers(staff) == []
    ensures staff.Some? ==>
      |PendingTeachers(staff)| + |ApprovedTeachers(staff)| == |staff.value|
      && multiset(PendingTeachers(staff)) + multiset(ApprovedTeachers(staff)) == multiset(staff.value)
    ensures forall s :: s in PendingTeachers(staff) <==> staff.Some? && s in staff.value && s.profile.isApproved != Some(true)
    ensures forall s :: s in ApprovedTeachers(staff) <==> staff.Some? && s in staff.value && s.profile.isApproved == Some(true)
  {
    if staff.Some? {
      FilterSplit(staff.value, IsPending, IsApproved);
      forall s: StaffEntry
        ensures (s in Filter(staff.value, IsPending) <==> s in staff.value && IsPending(s))
             && (s in Filter(staff.value, IsApproved) <==> s in staff.value && IsApproved(s))
      {
        FilterMembers(staff.value, IsPending, s);
        FilterMembers(staff.value, IsApproved, s);
      }
    }
  }

  /** Which parts of the tab are drawn. */
  datatype Sections = Sections(pendingCard: bool, noApprovedMessage: bool, approvedCount: nat)

  /** The render decision once the staff query is no longer loading. */
  function SectionsOf(staff: Option<seq<StaffEntry>>): (r: Sections)
    ensures r.pendingCard <==> staff.Some? && exists s | s in staff.value :: s.profile.isApproved != Some(true)
    ensures r.noApprovedMessage <==> r.approvedCount == 0
    ensures r.approvedCount == |ApprovedTeachers(staff)|
  {
    var pending := PendingTeachers(staff);
    Partition(staff);
    assert |pending| > 0 ==> pending[0] in pending;
    var approved := ApprovedTeachers(staff);
    Sections(|pending| > 0, |approved| == 0, |approved|)
  }

  /** Approving a teacher moves every staff entry of that profile to the approved list and
      leaves every other entry where it was. */
  lemma {:induction false} ApproveMovesEntry(profiles: seq<Profile>, classes: seq<ClassRow>, subjects: seq<ClassSubjectRow>,
                                             profileId: string, approved: bool)
    ensures var staff := Some(Join(SetApproval(profiles, profileId, approved), classes, subjects));
      var before := Some(Join(profiles, classes, subjects));
      forall i | 0 <= i < |staff.value| ::
        (staff.value[i].profile.id == profileId ==>
          (staff.value[i] in ApprovedTeachers(staff) <==> approved)
          && (staff.value[i] in PendingTeachers(staff) <==> !approved))
        && (staff.value[i].profile.id != profileId ==>
          staff.value[i].profile == profiles[i]
          && (staff.value[i] in ApprovedTeachers(staff) <==> before.value[i] in ApprovedTeachers(before)))
  {
    var staff := Join(SetApproval(profiles, profileId, approved), classes, subjects);
    var before := Join(profiles, classes, subjects);
    assert forall i | 0 <= i < |staff| :: staff[i].profile == SetApproval(profiles, profileId, approved)[i];
    assert forall i | 0 <= i < |before| :: before[i].profile == profiles[i];
    ApprovalPlacement(staff, before, profileId, approved);
  }

  /** The same for any two staff lists whose profiles differ by one approval decision. */
  lemma ApprovalPlacement(staff: seq<StaffEntry>, before: seq<StaffEntry>, profileId: string, approved: bool)
    requires |staff| == |before|
    requires forall i | 0 <= i < |staff| ::
      staff[i].profile == if before[i].profile.id == profileId then before[i].profile.(isApproved := Some(approved)) else before[i].profile
    ensures forall i | 0 <= i < |staff| ::
        (staff[i].profile.id == profileId ==>
          (staff[i] in ApprovedTeachers(Some(staff)) <==> approved)
          && (staff[i] in PendingTeachers(Some(staff)) <==> !approved))
        && (staff[i].profile.id != profileId ==>
          staff[i].profile == before[i].profile
          && (staff[i] in ApprovedTeachers(Some(staff)) <==> before[i] in ApprovedTeachers(Some(before))))
  {
    forall i | 0 <= i < |staff|
      ensures (staff[i].profile.id == profileId ==>
          (staff[i] in ApprovedTeachers(Some(staff)) <==> approved)
          && (staff[i] in PendingTeachers(Some(staff)) <==> !approved))
        && (staff[i].profile.id != profileId ==>
          staff[i].profile == before[i].profile
          && (staff[i] in ApprovedTeachers(Some(staff)) <==> before[i] in ApprovedTeachers(Some(before))))
    {
      EntryPlacement(staff, i);
      EntryPlacement(before, i);
    }
  }

  /** An entry lands in the approved list exactly when its approval is true, and in the
      pending list otherwise. */
  lemma EntryPlacement(staff: seq<StaffEntry>, i: int)
    requires 0 <= i < |staff|
    ensures staff[i] in ApprovedTeachers(Some(staff)) <==> staff[i].profile.isApproved == Some(true)
    ensures staff[i] in PendingTeachers(Some(staff)) <==> staff[i].profile.isApproved != Some(true)
  {
    FilterMembers(staff, IsApproved, staff[i]);
    FilterMembers(staff, IsPending, staff[i]);
  }

  /** Which assignment the dialog makes. */
  datatype DialogType = SubjectDialog | ClassDialog

  /** What choosing an option sends. */
  datatype Request =
    | AssignSubject(teacherId: string, classSubjectId: string)
    | AssignClassSponsor(teacherId: string, classId: string)

  class StaffManagementTab {
    var selectedTeacher: Option<string>
    var dialogOpen: bool
    var dialogType: Option<DialogType>

    constructor()
      ensures selectedTeacher.None? && !dialogOpen && dialogType.None?
    {
      selectedTeacher := None;
      dialogOpen := false;
      dialogType := None;
    }

    /** `openDialog` */
    method OpenDialog(teacherId: string, kind: DialogType)
      modifies this
      ensures selectedTeacher == Some(teacherId) && dialogType == Some(kind) && dialogOpen
    {
      selectedTeacher := Some(teacherId);
      dialogType := Some(kind);
      dialogOpen := true;
    }

    /** The dialog's own close control (`onOpenChange`). */
    method SetDialogOpen(value: bool)
      modifies this`dialogOpen
      ensures dialogOpen == value
    {
      dialogOpen := value;
    }

    /** Whether the dialog shows its selector: a type and a teacher are set. */
    predicate SelectorShown()
      reads this
    {
      dialogType.Some? && selectedTeacher.Some? && selectedTeacher.value != ""
    }

    /** Choosing an option in the selector: the assignment of that row to the selected
        teacher is sent, of the kind the dialog was opened for, and the dialog closes. */
    method Choose(id: string) returns (request: Request)
      requires SelectorShown()
      modifies this`dialogOpen
      ensures !dialogOpen
      ensures dialogType == Some(SubjectDialog) ==> request == AssignSubject(selectedTeacher.value, id)
      ensures dialogType == Some(ClassDialog) ==> request == AssignClassSponsor(selectedTeacher.value, id)
    {
      if dialogType.value == SubjectDialog {
        request := AssignSubject(selectedTeacher.value, id);
      } else {
        request := AssignClassSponsor(selectedTeacher.value, id);
      }
      dialogOpen := false;
    }
  }
}
