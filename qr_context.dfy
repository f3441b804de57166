/**
 * The pickup-token lifecycle of the student app: the provider holds the one
 * current token record and the pickup log, issues a token (15 minutes of
 * validity, fixed subject fields), decides at start-up whether the stored
 * record can be reused, validates a presented token string against the
 * current record, and prepends pickup-log entries (newest first).
 *
 * Time is the JavaScript millisecond clock, passed in as `now`; the random
 * token suffix and log id are parameters; the device storage slot
 * '@accesscard_qr_code' is the field `stored`, and whether a read or write of
 * it fails is a parameter.
 */
module QRContext {
  import opened Wrappers
  import opened PickupToken

  /** 15 minutes, the shift `setMinutes(getMinutes() + 15)` applies, in milliseconds. */
  const ValidityMs: nat := 15 * 60 * 1000

  /** The fixed subject every issued token is bound to. */
  const SubjectStudentId: string := "2024-A-145"
  const SubjectStudentName: string := "Emma Johnson"
  const SubjectGuardianName: string := "Sarah Johnson"
  const SubjectGate: string := "Main Gate A"

  datatype QRCodeData = QRCodeData(
    token: string,
    studentId: string,
    studentName: string,
    guardianName: string,
    gate: string,
    expiresAt: int,
    isValid: bool)

  datatype PickupStatus = Approved | Denied

  datatype PickupLog = PickupLog(
    id: string,
    studentName: string,
    guardianName: string,
    gate: string,
    timestamp: int,
    status: PickupStatus,
    qrToken: string)

  /** What a caller hands to addPickupLog: a log entry without id and timestamp. */
  datatype PickupLogInput = PickupLogInput(
    studentName: string,
    guardianName: string,
    gate: string,
    status: PickupStatus,
    qrToken: string)

  /** `{ valid: boolean; data?: QRCodeData }`. */
  datatype Validation = Validation(valid: bool, data: Option<QRCodeData>)

  /** The record generateQRCode builds at clock reading `now` with random suffix `suffix`. */
  function NewQRCode(now: nat, suffix: string): (q: QRCodeData)
    ensures ParseToken(q.token) == Some(TokenParts(now, suffix))
    ensures q.expiresAt - now == ValidityMs
    ensures q.isValid
    ensures q.studentId == SubjectStudentId && q.studentName == SubjectStudentName
    ensures q.guardianName == SubjectGuardianName && q.gate == SubjectGate
  {
    ParseMakeToken(now, suffix);
    QRCodeData(MakeToken(now, suffix), SubjectStudentId, SubjectStudentName,
               SubjectGuardianName, SubjectGate, now + ValidityMs, true)
  }

  /**
   * validateQRCode: the presented string is accepted exactly when there is a
   * current record, its token is the same string, and the clock has not
   * passed its expiry (a check at exactly `expiresAt` still succeeds). On
   * success the data returned is the current record; on failure there is none.
   */
  function ValidateQRCode(current: Option<QRCodeData>, token: string, now: int): (r: Validation)
    ensures r.valid <==> current.Some? && current.value.token == token && now <= current.value.expiresAt
    ensures r.valid ==> r.data == current
    ensures !r.valid ==> r.data == None
  {
    if current.None? then Validation(false, None)
    else if current.value.token != token then Validation(false, None)
    else if now > current.value.expiresAt then Validation(false, None)
    else Validation(true, current)
  }

  /** loadQRCode keeps the stored record exactly when it was read, exists, and has not expired. */
  predicate ReusesStored(stored: Option<QRCodeData>, readOk: bool, now: int) {
    readOk && stored.Some? && now <= stored.value.expiresAt
  }

  /** The entry addPickupLog builds from its input, a fresh id and the clock reading. */
  function LogEntry(entry: PickupLogInput, id: string, now: int): (e: PickupLog)
  {
    PickupLog(id, entry.studentName, entry.guardianName, entry.gate, now, entry.status, entry.qrToken)
  }

  /** The log is ordered most recent first. */
  predicate NewestFirst(logs: seq<PickupLog>) {
    forall i, j :: 0 <= i < j < |logs| ==> logs[j].timestamp <= logs[i].timestamp
  }

  class QRProvider {
    var currentQRCode: Option<QRCodeData>
    var pickupLogs: seq<PickupLog>
    /** The record held in device storage under '@accesscard_qr_code'. */
    var stored: Option<QRCodeData>

    /** A provider before its mount effect ran: no current record, an empty log. */
    constructor (storedRecord: Option<QRCodeData>)
      ensures currentQRCode == None && pickupLogs == [] && stored == storedRecord
    {
      currentQRCode := None;
      pickupLogs := [];
      stored := storedRecord;
    }

    /**
     * generateQRCode: the new record replaces the current one whatever
     * happens to the storage write; a failed write is swallowed and leaves
     * the storage slot as it was.
     */
    method GenerateQRCode(now: nat, suffix: string, writeOk: bool)
      modifies this
      ensures currentQRCode == Some(NewQRCode(now, suffix))
      ensures stored == if writeOk then currentQRCode else old(stored)
      ensures pickupLogs == old(pickupLogs)
    {
      var qrData := NewQRCode(now, suffix);
      currentQRCode := Some(qrData);
      if writeOk {
        stored := Some(qrData);
      }
    }

    /**
     * loadQRCode: reuse the stored record when it could be read and has not
     * expired; otherwise (nothing stored, expired, read or parse error)
     * issue a fresh token.
     */
    method LoadQRCode(now: nat, suffix: string, readOk: bool, writeOk: bool)
      modifies this
      ensures ReusesStored(old(stored), readOk, now) ==>
                currentQRCode == old(stored) && stored == old(stored)
      ensures !ReusesStored(old(stored), readOk, now) ==>
                currentQRCode == Some(NewQRCode(now, suffix)) &&
                stored == (if writeOk then currentQRCode else old(stored))
      ensures pickupLogs == old(pickupLogs)
    {
      if readOk && stored.Some? {
        var qrData := stored.value;
        if now > qrData.expiresAt {
          GenerateQRCode(now, suffix, writeOk);
        } else {
          currentQRCode := Some(qrData);
        }
      } else {
        GenerateQRCode(now, suffix, writeOk);
      }
    }

    /**
     * addPickupLog: exactly one entry goes in front, the earlier entries
     * follow unchanged and in order, and a log kept newest first stays so
     * when the clock has not gone back.
     */
    method AddPickupLog(entry: PickupLogInput, id: string, now: int)
      modifies this`pickupLogs
      ensures pickupLogs == [LogEntry(entry, id, now)] + old(pickupLogs)
      ensures NewestFirst(old(pickupLogs)) &&
              (old(pickupLogs) == [] || old(pickupLogs)[0].timestamp <= now) ==>
                NewestFirst(pickupLogs)
    {
      var newLog := LogEntry(entry, id, now);
      pickupLogs := [newLog] + pickupLogs;
    }
  }

  /**
   * Every token issued at `issuedAt` is accepted at any time up to and
   * including its expiry, 15 minutes later, and rejected at every later time.
   */
  lemma IssuedTokenWindow(issuedAt: nat, suffix: string, now: int)
    ensures var q := NewQRCode(issuedAt, suffix);
      ValidateQRCode(Some(q), q.token, now).valid <==> now <= issuedAt + ValidityMs
  {
  }

  /**
   * Issuing a new token supersedes the old one: once the current record is a
   * token issued at another clock reading or with another suffix, the
   * earlier token string is rejected, even before its own expiry.
   */
  lemma SupersededTokenRejected(ms1: nat, suffix1: string, ms2: nat, suffix2: string, now: int)
    requires ms1 != ms2 || suffix1 != suffix2
    ensures !ValidateQRCode(Some(NewQRCode(ms2, suffix2)), NewQRCode(ms1, suffix1).token, now).valid
  {
    if MakeToken(ms1, suffix1) == MakeToken(ms2, suffix2) {
      MakeTokenInjective(ms1, suffix1, ms2, suffix2);
    }
  }

  /** Validation fails closed when no token was ever issued. */
  lemma NoCurrentTokenRejected(token: string, now: int)
    ensures ValidateQRCode(None, token, now) == Validation(false, None)
  {
  }

  /** Prepending an entry at least as recent as the head keeps the log newest first. */
  lemma {:induction false} PrependKeepsNewestFirst(logs: seq<PickupLog>, e: PickupLog)
    requires NewestFirst(logs)
    requires logs == [] || logs[0].timestamp <= e.timestamp
    ensures NewestFirst([e] + logs)
  {
    var r := [e] + logs;
    forall i, j | 0 <= i < j < |r|
      ensures r[j].timestamp <= r[i].timestamp
    {
      if i == 0 && j > 1 {
        assert r[j] == logs[j - 1];
        assert logs[j - 1].timestamp <= logs[0].timestamp;
      }
    }
  }

  /** The decimal rendering of 1000, digit by digit. */
  lemma DecimalOf1000()
    ensures Text.Decimal(1000) == "1000"
  {
    assert Text.Decimal(1) == "1";
    assert Text.Decimal(10) == Text.Decimal(1) + ['0'];
    assert Text.Decimal(100) == Text.Decimal(10) + ['0'];
    assert Text.Decimal(1000) == Text.Decimal(100) + ['0'];
  }

  /**
   * An example: a token issued at clock reading 1000 with suffix
   * "abcd" is the string "PICKUP-1000-abcd"; it is accepted ten minutes
   * later and at the exact expiry instant, and rejected one second after it.
   */
  lemma ExampleTokenLifecycle()
    ensures NewQRCode(1000, "abcd").token == "PICKUP-1000-abcd"
    ensures ValidateQRCode(Some(NewQRCode(1000, "abcd")), "PICKUP-1000-abcd", 1000 + 600000).valid
    ensures ValidateQRCode(Some(NewQRCode(1000, "abcd")), "PICKUP-1000-abcd", 1000 + ValidityMs).valid
    ensures !ValidateQRCode(Some(NewQRCode(1000, "abcd")), "PICKUP-1000-abcd", 1000 + ValidityMs + 1000).valid
  {
    DecimalOf1000();
    var q := NewQRCode(1000, "abcd");
    assert q.token == TokenPrefix + "1000" + "-" + "abcd";
    assert q.token == "PICKUP-1000-abcd";
    assert q.expiresAt == 1000 + ValidityMs;
  }
}
