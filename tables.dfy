/**
 * The serverless backend's data: the students table keyed by `studentId`,
 * the access-log table keyed by the pair (`pk`, `sk`), and the HTTP
 * responses its handlers return. Both tables are maps; a put stores an item
 * under its key, replacing whatever was there.
 */
module Backend {
  import opened Wrappers

  datatype StudentItem = StudentItem(
    studentId: string,
    institutionId: string,
    name: string,
    photoUrl: Option<string>,
    status: string,
    grade: Option<string>,
    parentIds: seq<string>,
    createdAt: string,
    updatedAt: string)

  datatype LogKey = LogKey(pk: string, sk: string)

  datatype LogItem = LogItem(
    pk: string,
    sk: string,
    studentId: string,
    action: string,
    reason: string,
    gateId: string,
    timestamp: string)

  /** A JavaScript-truthy string field of a request body: present and not empty. */
  predicate Truthy(field: Option<string>) {
    field.Some? && field.value != ""
  }

  const ActiveStatus: string := "ACTIVE"
  const LogPkPrefix: string := "LOG#"
  const StudentSkPrefix: string := "STUDENT#"

  /** The log-table key of a scan: `LOG#${timestamp}` and `STUDENT#${studentId}`. */
  function LogKeyFor(timestamp: string, studentId: string): LogKey
  {
    LogKey(LogPkPrefix + timestamp, StudentSkPrefix + studentId)
  }

  /**
   * Distinct scans get distinct log keys unless they share both the ISO
   * timestamp and the student: the key determines both.
   */
  lemma LogKeyInjective(t1: string, s1: string, t2: string, s2: string)
    requires LogKeyFor(t1, s1) == LogKeyFor(t2, s2)
    ensures t1 == t2 && s1 == s2
  {
    var k1, k2 := LogKeyFor(t1, s1), LogKeyFor(t2, s2);
    assert t1 == k1.pk[|LogPkPrefix|..];
    assert t2 == k2.pk[|LogPkPrefix|..];
    assert s1 == k1.sk[|StudentSkPrefix|..];
    assert s2 == k2.sk[|StudentSkPrefix|..];
  }

  /** The item logAttempt writes. */
  function NewLogItem(studentId: string, action: string, reason: string, gateId: string, timestamp: string): (item: LogItem)
    ensures LogKey(item.pk, item.sk) == LogKeyFor(item.timestamp, item.studentId)
    ensures item.studentId == studentId && item.action == action && item.reason == reason
    ensures item.gateId == gateId && item.timestamp == timestamp
  {
    var key := LogKeyFor(timestamp, studentId);
    LogItem(key.pk, key.sk, studentId, action, reason, gateId, timestamp)
  }

  datatype ResponseBody =
    | Message(message: string)
    | Decision(status: string, reason: string)
    | Allowed(name: string, photoUrl: Option<string>, grade: Option<string>)
    | Created(message: string, studentId: string)

  datatype Response = Response(statusCode: int, body: ResponseBody)

  class Database {
    var students: map<string, StudentItem>
    var logs: map<LogKey, LogItem>

    /** Every item is stored under the key its own attributes determine. */
    ghost predicate Valid()
      reads this
    {
      (forall id :: id in students ==> students[id].studentId == id) &&
      (forall k :: k in logs ==> k == LogKey(logs[k].pk, logs[k].sk) &&
                                 k == LogKeyFor(logs[k].timestamp, logs[k].studentId))
    }

    constructor (initialStudents: map<string, StudentItem>)
      requires forall id :: id in initialStudents ==> initialStudents[id].studentId == id
      ensures Valid() && students == initialStudents && logs == map[]
    {
      students := initialStudents;
      logs := map[];
    }
  }
}
