/**
 * The add-student form of the admin screens: five required text inputs. A
 * valid submit hands a new student, with no guardians and a fresh pickup
 * token, to `onAdd`, empties the form and calls `onClose`; an invalid one
 * raises an alert and changes nothing else.
 */
module AddStudentModal {
  import opened Wrappers
  import opened Text
  import opened PickupToken
  import opened AdminForms

  datatype Relationship = Mother | Father | Grandparent | Other

  datatype Guardian = Guardian(
    id: string,
    name: string,
    relationship: Relationship,
    phone: string,
    email: Option<string>,
    photoIdUrl: Option<string>,
    approved: bool)

  datatype NewStudent = NewStudent(
    id: string,
    firstName: string,
    lastName: string,
    grade: string,
    className: string,
    rollNumber: string,
    photoUrl: string,
    guardians: seq<Guardian>,
    qrCode: string,
    createdAt: int,
    updatedAt: int)

  datatype FormEvent = Alert(message: string) | OnAdd(student: NewStudent) | OnClose

  /**
   * The record a valid submit hands to `onAdd`: the inputs as given, the
   * class section as `class`, no guardians, and a pickup token issued at
   * `now` with the random `suffix`.
   */
  function StudentRecord(id: string, firstName: string, lastName: string, grade: string,
                         classSection: string, rollNumber: string, avatar: nat, now: nat,
                         suffix: string): (r: NewStudent)
    requires avatar < 70
    ensures r.guardians == [] && r.className == classSection
    ensures r.firstName == firstName && r.lastName == lastName && r.grade == grade &&
            r.rollNumber == rollNumber && r.id == id
    ensures ParseToken(r.qrCode) == Some(TokenParts(now, suffix))
    ensures r.photoUrl == AvatarUrl(avatar) && r.createdAt == now && r.updatedAt == now
  {
    ParseMakeToken(now, suffix);
    NewStudent(id, firstName, lastName, grade, classSection, rollNumber, AvatarUrl(avatar), [],
               MakeToken(now, suffix), now, now)
  }

  class StudentForm {
    var firstName: string
    var lastName: string
    var grade: string
    var classSection: string
    var rollNumber: string
    /** Alerts and callbacks, oldest first. */
    var events: seq<FormEvent>

    /** The five inputs in the order the guard tests them. */
    function Fields(): seq<string>
      reads this
    {
      [firstName, lastName, grade, classSection, rollNumber]
    }

    constructor ()
      ensures AllEmpty(Fields()) && events == []
    {
      firstName := "";
      lastName := "";
      grade := "";
      classSection := "";
      rollNumber := "";
      events := [];
    }

    /**
     * handleSubmit: a missing input raises the alert and leaves the form
     * as it is; otherwise `onAdd` receives the new student, all five inputs
     * are emptied, and `onClose` follows. The id, avatar number, clock
     * reading and token suffix are parameters.
     */
    method HandleSubmit(id: string, avatar: nat, now: nat, suffix: string)
      requires avatar < 70
      modifies this
      ensures !AllFilled(old(Fields())) ==>
                events == old(events) + [Alert(FillRequiredMessage)] && Fields() == old(Fields())
      ensures AllFilled(old(Fields())) ==>
                events == old(events) +
                          [OnAdd(StudentRecord(id, old(firstName), old(lastName), old(grade), old(classSection),
                                               old(rollNumber), avatar, now, suffix)), OnClose] &&
                AllEmpty(Fields())
    {
      if !AllFilled([firstName, lastName, grade, classSection, rollNumber]) {
        events := events + [Alert(FillRequiredMessage)];
        return;
      }
      var newStudent := StudentRecord(id, firstName, lastName, grade, classSection, rollNumber, avatar, now, suffix);
      events := events + [OnAdd(newStudent)];
      firstName := "";
      lastName := "";
      grade := "";
      classSection := "";
      rollNumber := "";
      events := events + [OnClose];
    }
  }

  /** Every input of the form is the empty string. */
  predicate AllEmpty(fields: seq<string>) {
    forall i :: 0 <= i < |fields| ==> fields[i] == ""
  }

  /**
   * A successful submit empties the form, so pressing submit again at once
   * adds only the missing-fields alert: the same student is never handed to
   * `onAdd` twice.
   */
  method SubmitTwice(form: StudentForm, id1: string, avatar1: nat, now1: nat, suffix1: string,
                     id2: string, avatar2: nat, now2: nat, suffix2: string)
    requires avatar1 < 70 && avatar2 < 70
    requires AllFilled(form.Fields())
    modifies form
    ensures form.events == old(form.events) +
              [OnAdd(StudentRecord(id1, old(form.firstName), old(form.lastName), old(form.grade),
                                   old(form.classSection), old(form.rollNumber), avatar1, now1, suffix1)),
               OnClose, Alert(FillRequiredMessage)]
    ensures AllEmpty(form.Fields())
  {
    form.HandleSubmit(id1, avatar1, now1, suffix1);
    assert form.Fields()[0] == "";
    form.HandleSubmit(id2, avatar2, now2, suffix2);
  }
}
