/** The registration state of the portal: the registered classes, their grade
    records, the confirmation modal with the action it is holding, and the
    transient notification. Registering and unregistering only take effect
    once the modal is confirmed. */
module App {
  import opened Seqs
  import opened Types
  import CourseCatalog

  /** The grade record a new registration starts with: every field "N/A". */
  const EmptyRecord := GradeData(Str("N/A"), Str("N/A"), Str("N/A"), Str("N/A"))

  /** The callback the modal holds, as data: what OK will do. */
  datatype PendingAction =
    | RegisterAction(cls: ClassData)
    | UnregisterAction(classId: string, courseName: string)

  /** No course code is registered twice. */
  predicate UniqueCodes(registered: seq<ClassData>)
  {
    forall i, j :: 0 <= i < j < |registered| ==> registered[i].courseCode != registered[j].courseCode
  }

  /** `prev => [...prev, { ...cls, assignments: [] }]`. */
  function WithClass(registered: seq<ClassData>, cls: ClassData): (r: seq<ClassData>)
    ensures |r| == |registered| + 1 && r[..|registered|] == registered
    ensures r[|registered|] == cls.(assignments := Some([]))
  {
    registered + [cls.(assignments := Some([]))]
  }

  function KeepOtherCodes(classId: string): ClassData -> bool
  {
    (c: ClassData) => c.courseCode != classId
  }

  /** `prev => prev.filter(cls => cls.courseCode !== classId)`. */
  function WithoutCode(registered: seq<ClassData>, classId: string): (r: seq<ClassData>)
    ensures forall c :: c in r <==> c in registered && c.courseCode != classId
    ensures forall c :: multiset(r)[c] == if c.courseCode != classId then multiset(registered)[c] else 0
    ensures IsSubsequence(r, registered)
    ensures !HasCourse(r, classId)
  {
    FilterIsSubsequence(registered, KeepOtherCodes(classId));
    FilterCounts(registered, KeepOtherCodes(classId));
    Filter(registered, KeepOtherCodes(classId))
  }

  /** `{ ...prev, [code]: all "N/A" }`. */
  function GradesWith(grades: Grades, code: string): (r: Grades)
    ensures code in r && r[code] == EmptyRecord
    ensures forall k :: k != code ==> (k in r <==> k in grades) && (k in grades ==> r[k] == grades[k])
  {
    grades[code := EmptyRecord]
  }

  /** A copy of `prev` with `delete newGrades[classId]`. */
  function GradesWithout(grades: Grades, classId: string): (r: Grades)
    ensures classId !in r
    ensures forall k :: k != classId ==> (k in r <==> k in grades) && (k in grades ==> r[k] == grades[k])
  {
    grades - {classId}
  }

  /** Position `i` holds the first registration of `classId`. */
  predicate IsFirstWithCode(registered: seq<ClassData>, classId: string, i: int)
  {
    0 <= i < |registered| && registered[i].courseCode == classId &&
    forall k :: 0 <= k < i ==> registered[k].courseCode != classId
  }

  /** The position `find` stops at. */
  function FirstIndex(registered: seq<ClassData>, classId: string): (r: Option<nat>)
    ensures r.None? <==> !HasCourse(registered, classId)
    ensures r.Some? ==> IsFirstWithCode(registered, classId, r.value)
  {
    if registered == [] then None
    else if registered[0].courseCode == classId then Some(0)
    else match FirstIndex(registered[1..], classId)
      case None => None
      case Some(i) => Some(i + 1)
  }

  /** `registeredClasses.find(cls => cls.courseCode === classId)`: the first
      match, or `undefined`. */
  function FindByCode(registered: seq<ClassData>, classId: string): (r: Option<ClassData>)
    ensures r.None? <==> !HasCourse(registered, classId)
    ensures r.Some? ==> exists i :: IsFirstWithCode(registered, classId, i) && registered[i] == r.value
  {
    match FirstIndex(registered, classId)
    case None => None
    case Some(i) => Some(registered[i])
  }

  /** Registering a code that is not registered keeps the codes unique. */
  lemma {:induction false} RegisterKeepsCodesUnique(registered: seq<ClassData>, cls: ClassData)
    requires UniqueCodes(registered)
    requires !CourseCatalog.RegisterDisabled(registered, cls)
    ensures UniqueCodes(WithClass(registered, cls))
  {
    var r := WithClass(registered, cls);
    forall i, j | 0 <= i < j < |r| ensures r[i].courseCode != r[j].courseCode {
      if j == |registered| {
        assert r[i] == registered[i];
      }
    }
  }

  /** Unregistering keeps the codes unique. */
  lemma {:induction false} UnregisterKeepsCodesUnique(registered: seq<ClassData>, classId: string)
    requires UniqueCodes(registered)
    ensures UniqueCodes(WithoutCode(registered, classId))
  {
    SubsequenceUnique(WithoutCode(registered, classId), registered);
  }

  lemma {:induction false} SubsequenceUnique(r: seq<ClassData>, s: seq<ClassData>)
    requires IsSubsequence(r, s) && UniqueCodes(s)
    ensures UniqueCodes(r)
    decreases |s|
  {
    if r != [] && s != [] {
      assert UniqueCodes(s[1..]);
      if r[0] == s[0] {
        SubsequenceUnique(r[1..], s[1..]);
        forall j | 0 < j < |r| ensures r[0].courseCode != r[j].courseCode {
          SubsequenceMember(r[1..], s[1..], j - 1);
          var k :| 0 <= k < |s[1..]| && s[1..][k] == r[j];
          assert s[k + 1] == r[j];
        }
      } else {
        SubsequenceUnique(r, s[1..]);
      }
    }
  }

  lemma {:induction false} SubsequenceMember<T>(r: seq<T>, s: seq<T>, j: nat)
    requires IsSubsequence(r, s) && j < |r|
    ensures r[j] in s
    decreases |s|
  {
    if r[0] == s[0] {
      if j > 0 {
        SubsequenceMember(r[1..], s[1..], j - 1);
      }
    } else {
      SubsequenceMember(r, s[1..], j);
    }
  }

  /** Removing a code that was never added, or was just added, gives the
      registrations back. */
  lemma {:induction false} WithoutAbsentCode(registered: seq<ClassData>, classId: string)
    requires !HasCourse(registered, classId)
    ensures WithoutCode(registered, classId) == registered
  {
    FilterAll(registered, KeepOtherCodes(classId));
  }

  /** Registering a fresh code and then unregistering it restores both the
      registered classes and the grade records. */
  lemma {:induction false} RegisterThenUnregister(registered: seq<ClassData>, grades: Grades, cls: ClassData)
    requires !CourseCatalog.RegisterDisabled(registered, cls) && cls.courseCode !in grades
    ensures WithoutCode(WithClass(registered, cls), cls.courseCode) == registered
    ensures GradesWithout(GradesWith(grades, cls.courseCode), cls.courseCode) == grades
  {
    var code := cls.courseCode;
    FilterAppend(registered, [cls.(assignments := Some([]))], KeepOtherCodes(code));
    WithoutAbsentCode(registered, code);
    assert Filter([cls.(assignments := Some([]))], KeepOtherCodes(code)) == [];
  }

  /** The component state the handlers update. */
  class Portal {
    var registeredClasses: seq<ClassData>
    var grades: Grades
    var isConfirmModalOpen: bool
    var confirmMessage: string
    var onConfirmCallback: Option<PendingAction>
    var notificationMessage: string
    var showNotification: bool

    /** The state invariant the handlers keep: codes are unique, and an open
        modal never holds a registration of a code already registered. */
    ghost predicate Valid()
      reads this
    {
      UniqueCodes(registeredClasses) &&
      (isConfirmModalOpen && onConfirmCallback.Some? && onConfirmCallback.value.RegisterAction? ==>
        !CourseCatalog.RegisterDisabled(registeredClasses, onConfirmCallback.value.cls))
    }

    /** The initial state: nothing registered, no grades, modal closed. */
    constructor()
      ensures Valid()
      ensures registeredClasses == [] && grades == map[]
      ensures !isConfirmModalOpen && confirmMessage == "" && onConfirmCallback.None?
      ensures notificationMessage == "" && !showNotification
    {
      registeredClasses := [];
      grades := map[];
      isConfirmModalOpen := false;
      confirmMessage := "";
      onConfirmCallback := None;
      notificationMessage := "";
      showNotification := false;
    }

    /** `showConfirmation`: stores the message and the action and opens the modal. */
    method ShowConfirmation(message: string, action: PendingAction)
      modifies this
      ensures confirmMessage == message && onConfirmCallback == Some(action) && isConfirmModalOpen
      ensures registeredClasses == old(registeredClasses) && grades == old(grades)
      ensures notificationMessage == old(notificationMessage) && showNotification == old(showNotification)
    {
      confirmMessage := message;
      onConfirmCallback := Some(action);
      isConfirmModalOpen := true;
    }

    /** `showTransientNotification`, without the timer that hides it again. */
    method ShowTransientNotification(message: string)
      modifies this
      ensures notificationMessage == message && showNotification
      ensures registeredClasses == old(registeredClasses) && grades == old(grades)
      ensures isConfirmModalOpen == old(isConfirmModalOpen) && confirmMessage == old(confirmMessage)
      ensures onConfirmCallback == old(onConfirmCallback)
    {
      notificationMessage := message;
      showNotification := true;
    }

    /** `handleRegister`: an already registered code only gets a notice;
        otherwise the registration waits in the modal. Nothing is registered yet. */
    method HandleRegister(classToRegister: ClassData)
      requires Valid()
      modifies this
      ensures Valid()
      ensures registeredClasses == old(registeredClasses) && grades == old(grades)
      ensures CourseCatalog.RegisterDisabled(old(registeredClasses), classToRegister) ==>
        notificationMessage == "You are already registered for " + classToRegister.courseName + "." &&
        showNotification &&
        isConfirmModalOpen == old(isConfirmModalOpen) && confirmMessage == old(confirmMessage) &&
        onConfirmCallback == old(onConfirmCallback)
      ensures !CourseCatalog.RegisterDisabled(old(registeredClasses), classToRegister) ==>
        isConfirmModalOpen && onConfirmCallback == Some(RegisterAction(classToRegister)) &&
        confirmMessage == "Are you sure you want to register for " + classToRegister.courseName + "?" &&
        notificationMessage == old(notificationMessage) && showNotification == old(showNotification)
    {
      if CourseCatalog.RegisterDisabled(registeredClasses, classToRegister) {
        ShowTransientNotification("You are already registered for " + classToRegister.courseName + ".");
        return;
      }
      ShowConfirmation("Are you sure you want to register for " + classToRegister.courseName + "?",
                       RegisterAction(classToRegister));
    }

    /** `handleUnregister`: a code that is not registered changes nothing;
        otherwise the removal waits in the modal. */
    method HandleUnregister(classId: string)
      requires Valid()
      modifies this
      ensures Valid()
      ensures registeredClasses == old(registeredClasses) && grades == old(grades)
      ensures notificationMessage == old(notificationMessage) && showNotification == old(showNotification)
      ensures FindByCode(old(registeredClasses), classId).None? ==>
        isConfirmModalOpen == old(isConfirmModalOpen) && confirmMessage == old(confirmMessage) &&
        onConfirmCallback == old(onConfirmCallback)
      ensures FindByCode(old(registeredClasses), classId).Some? ==>
        var name := FindByCode(old(registeredClasses), classId).value.courseName;
        isConfirmModalOpen && onConfirmCallback == Some(UnregisterAction(classId, name)) &&
        confirmMessage == "Are you sure you want to unregister from " + name + "?"
    {
      var classToUnregister := FindByCode(registeredClasses, classId);
      if classToUnregister.None? {
        return;
      }
      ShowConfirmation("Are you sure you want to unregister from " + classToUnregister.value.courseName + "?",
                       UnregisterAction(classId, classToUnregister.value.courseName));
    }

    /** The stored callbacks of `handleRegister` and `handleUnregister`. */
    method Perform(action: PendingAction)
      modifies this
      ensures action.RegisterAction? ==>
        registeredClasses == WithClass(old(registeredClasses), action.cls) &&
        grades == GradesWith(old(grades), action.cls.courseCode) &&
        notificationMessage == "Successfully registered for " + action.cls.courseName + "!"
      ensures action.UnregisterAction? ==>
        registeredClasses == WithoutCode(old(registeredClasses), action.classId) &&
        grades == GradesWithout(old(grades), action.classId) &&
        notificationMessage == "Successfully unregistered from " + action.courseName + "."
      ensures showNotification
      ensures isConfirmModalOpen == old(isConfirmModalOpen) && confirmMessage == old(confirmMessage)
      ensures onConfirmCallback == old(onConfirmCallback)
    {
      match action
      case RegisterAction(cls) =>
        registeredClasses := WithClass(registeredClasses, cls);
        grades := GradesWith(grades, cls.courseCode);
        ShowTransientNotification("Successfully registered for " + cls.courseName + "!");
      case UnregisterAction(classId, courseName) =>
        registeredClasses := WithoutCode(registeredClasses, classId);
        grades := GradesWithout(grades, classId);
        ShowTransientNotification("Successfully unregistered from " + courseName + ".");
    }

    /** `handleConfirmAction`: closes the modal and runs the stored action once.
        The action stays stored. */
    method HandleConfirmAction()
      requires Valid()
      modifies this
      ensures old(isConfirmModalOpen) ==> Valid()
      ensures !isConfirmModalOpen && onConfirmCallback == old(onConfirmCallback)
      ensures confirmMessage == old(confirmMessage)
      ensures old(onConfirmCallback).None? ==>
        registeredClasses == old(registeredClasses) && grades == old(grades) &&
        notificationMessage == old(notificationMessage) && showNotification == old(showNotification)
      ensures old(onConfirmCallback).Some? && old(onConfirmCallback).value.RegisterAction? ==>
        var cls := old(onConfirmCallback).value.cls;
        registeredClasses == WithClass(old(registeredClasses), cls) &&
        grades == GradesWith(old(grades), cls.courseCode) &&
        notificationMessage == "Successfully registered for " + cls.courseName + "!" && showNotification
      ensures old(onConfirmCallback).Some? && old(onConfirmCallback).value.UnregisterAction? ==>
        var action := old(onConfirmCallback).value;
        registeredClasses == WithoutCode(old(registeredClasses), action.classId) &&
        grades == GradesWithout(old(grades), action.classId) &&
        notificationMessage == "Successfully unregistered from " + action.courseName + "." && showNotification
    {
      ghost var wasOpen := isConfirmModalOpen;
      isConfirmModalOpen := false;
      if onConfirmCallback.Some? {
        var action := onConfirmCallback.value;
        ghost var before := registeredClasses;
        Perform(action);
        if wasOpen {
          match action
          case RegisterAction(cls) => RegisterKeepsCodesUnique(before, cls);
          case UnregisterAction(classId, _) => UnregisterKeepsCodesUnique(before, classId);
        }
      }
    }

    /** `handleCancelAction`: closes the modal and drops the stored action;
        nothing else changes. */
    method HandleCancelAction()
      requires Valid()
      modifies this
      ensures Valid()
      ensures !isConfirmModalOpen && onConfirmCallback.None?
      ensures registeredClasses == old(registeredClasses) && grades == old(grades)
      ensures confirmMessage == old(confirmMessage)
      ensures notificationMessage == old(notificationMessage) && showNotification == old(showNotification)
    {
      isConfirmModalOpen := false;
      onConfirmCallback := None;
    }
  }
}
