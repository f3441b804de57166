/**
 * The scan-verification handler: the QR payload is taken as the student id,
 * the student is read from the students table, and a scan of a known student
 * is logged (denied for a student whose status is not ACTIVE, an entry
 * otherwise) before the answer is returned. A thrown error anywhere is a 500.
 * Whether the table read and the log write succeed are parameters; the ISO
 * clock reading is `timestamp`.
 */
module ScanVerify {
  import opened Wrappers
  import opened Backend

  /** The parsed request body `{ qrPayload, gateId, scannerId }`. */
  datatype ScanBody = ScanBody(qrPayload: Option<string>, gateId: string, scannerId: Option<string>)

  const InternalError: Response := Response(500, Message("Internal Error"))
  const InvalidPayload: Response := Response(400, Message("Invalid payload"))
  const NotFound: Response := Response(404, Decision("DENIED", "Student not found"))
  const Suspended: Response := Response(403, Decision("DENIED", "Card Suspended"))

  /** logAttempt: one put into the log table under `LOG#timestamp` / `STUDENT#studentId`. */
  method LogAttempt(db: Database, studentId: string, action: string, reason: string,
                    gateId: string, timestamp: string, putOk: bool) returns (ok: bool)
    requires db.Valid()
    modifies db`logs
    ensures db.Valid()
    ensures ok == putOk
    ensures db.logs == if putOk
                       then old(db.logs)[LogKeyFor(timestamp, studentId) :=
                                         NewLogItem(studentId, action, reason, gateId, timestamp)]
                       else old(db.logs)
  {
    if !putOk {
      return false;
    }
    var item := NewLogItem(studentId, action, reason, gateId, timestamp);
    db.logs := db.logs[LogKeyFor(timestamp, studentId) := item];
    return true;
  }

  /**
   * handler. The students table is outside the frame: it is only read. A
   * missing body, a missing or empty payload, an unknown student and a
   * failed read write no log entry; a known student gets exactly one entry
   * (DENIED / 'Student Suspended' unless ACTIVE, ENTRY / 'Success' when
   * ACTIVE) before the 403 or 200 answer, and a failed write answers 500.
   */
  method Handler(db: Database, body: Option<ScanBody>, timestamp: string, getOk: bool, putOk: bool)
    returns (resp: Response)
    requires db.Valid()
    modifies db`logs
    ensures db.Valid()
    ensures body.None? ==> resp == InternalError && db.logs == old(db.logs)
    ensures body.Some? && !Truthy(body.value.qrPayload) ==> resp == InvalidPayload && db.logs == old(db.logs)
    ensures body.Some? && Truthy(body.value.qrPayload) ==>
              var id := body.value.qrPayload.value;
              var gate := body.value.gateId;
              && (!getOk ==> resp == InternalError && db.logs == old(db.logs))
              && (getOk && id !in db.students ==> resp == NotFound && db.logs == old(db.logs))
              && (getOk && id in db.students && db.students[id].status != ActiveStatus ==>
                    db.logs == (if putOk then old(db.logs)[LogKeyFor(timestamp, id) :=
                                  NewLogItem(id, "DENIED", "Student Suspended", gate, timestamp)]
                                else old(db.logs)) &&
                    resp == (if putOk then Suspended else InternalError))
              && (getOk && id in db.students && db.students[id].status == ActiveStatus ==>
                    var s := db.students[id];
                    db.logs == (if putOk then old(db.logs)[LogKeyFor(timestamp, id) :=
                                  NewLogItem(id, "ENTRY", "Success", gate, timestamp)]
                                else old(db.logs)) &&
                    resp == (if putOk then Response(200, Allowed(s.name, s.photoUrl, s.grade))
                             else InternalError))
  {
    if body.None? {
      return InternalError;
    }
    var studentId := body.value.qrPayload;
    if !Truthy(studentId) {
      return InvalidPayload;
    }
    var id := studentId.value;
    if !getOk {
      return InternalError;
    }
    if id !in db.students {
      return NotFound;
    }
    var student := db.students[id];
    if student.status != ActiveStatus {
      var ok := LogAttempt(db, id, "DENIED", "Student Suspended", body.value.gateId, timestamp, putOk);
      if !ok {
        return InternalError;
      }
      return Suspended;
    }
    var ok := LogAttempt(db, id, "ENTRY", "Success", body.value.gateId, timestamp, putOk);
    if !ok {
      return InternalError;
    }
    return Response(200, Allowed(student.name, student.photoUrl, student.grade));
  }
}
