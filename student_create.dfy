/**
 * The create-student handler: the three required fields must be truthy; the
 * new item is ACTIVE with null / empty defaults for the optional fields; it
 * is inserted only if no item with its `studentId` exists. A thrown error,
 * including the failed insert condition, is a 500. Whether the write
 * succeeds is a parameter; the two ISO clock readings are parameters.
 */
module StudentCreate {
  import opened Wrappers
  import opened Backend

  /** The parsed request body. */
  datatype CreateBody = CreateBody(
    studentId: Option<string>,
    name: Option<string>,
    institutionId: Option<string>,
    photoUrl: Option<string>,
    grade: Option<string>,
    parentIds: Option<seq<string>>)

  predicate HasRequiredFields(b: CreateBody) {
    Truthy(b.studentId) && Truthy(b.name) && Truthy(b.institutionId)
  }

  const MissingFields: Response := Response(400, Message("Missing required fields: studentId, name, institutionId"))
  const ServerError: Response := Response(500, Message("Internal Server Error"))

  /** `field || null`: a falsy string becomes null. */
  function OrNull(field: Option<string>): (r: Option<string>)
    ensures r.Some? <==> Truthy(field)
    ensures r.Some? ==> r == field
  {
    if Truthy(field) then field else None
  }

  /**
   * The item the handler builds: always ACTIVE, carrying the given id,
   * institution and name; a falsy photo URL or grade is null, missing
   * parent ids are the empty list.
   */
  function NewStudentItem(b: CreateBody, createdAt: string, updatedAt: string): (item: StudentItem)
    requires HasRequiredFields(b)
    ensures item.status == ActiveStatus
    ensures item.studentId == b.studentId.value && item.institutionId == b.institutionId.value
    ensures item.name == b.name.value
    ensures (item.photoUrl == None <==> !Truthy(b.photoUrl)) && (item.grade == None <==> !Truthy(b.grade))
    ensures b.parentIds.None? ==> item.parentIds == []
    ensures b.parentIds.Some? ==> item.parentIds == b.parentIds.value
  {
    StudentItem(b.studentId.value, b.institutionId.value, b.name.value, OrNull(b.photoUrl),
                ActiveStatus, OrNull(b.grade),
                if b.parentIds.Some? then b.parentIds.value else [],
                createdAt, updatedAt)
  }

  /**
   * handler. The log table is outside the frame. A bad body, missing
   * fields, an existing id or a failed write leave the students table as it
   * was; a success adds exactly the new id and answers 201 with it.
   */
  method Handler(db: Database, body: Option<CreateBody>, createdAt: string, updatedAt: string, putOk: bool)
    returns (resp: Response)
    requires db.Valid()
    modifies db`students
    ensures db.Valid()
    ensures body.None? ==> resp == ServerError && db.students == old(db.students)
    ensures body.Some? && !HasRequiredFields(body.value) ==>
              resp == MissingFields && db.students == old(db.students)
    ensures body.Some? && HasRequiredFields(body.value) ==>
              var id := body.value.studentId.value;
              && (id in old(db.students) || !putOk ==> resp == ServerError && db.students == old(db.students))
              && (id !in old(db.students) && putOk ==>
                    resp == Response(201, Created("Student created successfully", id)) &&
                    db.students == old(db.students)[id := NewStudentItem(body.value, createdAt, updatedAt)] &&
                    db.students.Keys == old(db.students).Keys + {id})
    ensures forall id :: id in old(db.students) ==> id in db.students && db.students[id] == old(db.students)[id]
  {
    if body.None? {
      return ServerError;
    }
    var b := body.value;
    if !HasRequiredFields(b) {
      return MissingFields;
    }
    var studentId := b.studentId.value;
    var item := NewStudentItem(b, createdAt, updatedAt);
    if studentId in db.students || !putOk {
      return ServerError;
    }
    db.students := db.students[studentId := item];
    return Response(201, Created("Student created successfully", studentId));
  }
}
