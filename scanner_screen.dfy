/**
 * The scanner screen of the security app: a latch (`scanned`) and a result
 * (`scanResult`). A scan, while the latch is open, closes it and looks the
 * scanned string up among the known students by exact `qrCode` match;
 * reset opens the latch and clears the result.
 */
module ScannerScreen {
  import opened Wrappers

  datatype Guardian = Guardian(name: string, relationship: string, approved: bool)

  datatype Student = Student(
    id: string,
    firstName: string,
    lastName: string,
    grade: string,
    className: string,
    guardians: seq<Guardian>,
    qrCode: string,
    photoUrl: Option<string>)

  /** The student fixture the screen searches. */
  const MockStudents: seq<Student> := [
    Student("1", "Emma", "Johnson", "3", "A",
            [Guardian("Sarah Johnson", "Mother", true), Guardian("Mike Johnson", "Father", true)],
            "PICKUP-123456-EMMA", Some("https://i.pravatar.cc/150?img=5")),
    Student("2", "Liam", "Williams", "5", "B",
            [Guardian("Robert Williams", "Father", true), Guardian("Uncle Bob", "Uncle", false)],
            "PICKUP-654321-LIAM", Some("https://i.pravatar.cc/150?img=11"))
  ]

  const NotFoundMessage: string := "Invalid QR Code or Student Not Found"

  datatype ScanResult = ScanSuccess(student: Student) | ScanError(message: string)

  /** Some student carries exactly `data` as its QR code. */
  predicate HasQrCode(students: seq<Student>, data: string) {
    exists i :: 0 <= i < |students| && students[i].qrCode == data
  }

  /** `students.find(s => s.qrCode === data)`: the first student whose code is `data`, if any. */
  method FindStudent(students: seq<Student>, data: string) returns (r: Option<Student>)
    ensures r.Some? <==> HasQrCode(students, data)
    ensures r.Some? ==> exists i :: 0 <= i < |students| && students[i] == r.value &&
                                    r.value.qrCode == data &&
                                    forall j :: 0 <= j < i ==> students[j].qrCode != data
  {
    var i := 0;
    while i < |students|
      invariant 0 <= i <= |students|
      invariant forall j :: 0 <= j < i ==> students[j].qrCode != data
    {
      if students[i].qrCode == data {
        return Some(students[i]);
      }
      i := i + 1;
    }
    return None;
  }

  /** The result a handled scan of `data` shows, given the lookup outcome. */
  function ResultFor(found: Option<Student>): (r: ScanResult)
    ensures found.Some? ==> r == ScanSuccess(found.value)
    ensures found.None? ==> r == ScanError(NotFoundMessage)
  {
    if found.Some? then ScanSuccess(found.value) else ScanError(NotFoundMessage)
  }

  /**
   * `r` is what a handled scan of `data` shows: a success carrying the first
   * student whose code is exactly `data`, or the not-found error when none is.
   */
  predicate IsResultFor(students: seq<Student>, data: string, r: ScanResult) {
    (r.ScanSuccess? <==> HasQrCode(students, data)) &&
    (r.ScanError? ==> r.message == NotFoundMessage) &&
    (r.ScanSuccess? ==>
       exists i :: 0 <= i < |students| && students[i] == r.student &&
                   students[i].qrCode == data &&
                   forall j :: 0 <= j < i ==> students[j].qrCode != data)
  }

  /** The description above pins the result down: two results for the same scan are equal. */
  lemma IsResultForUnique(students: seq<Student>, data: string, r1: ScanResult, r2: ScanResult)
    requires IsResultFor(students, data, r1) && IsResultFor(students, data, r2)
    ensures r1 == r2
  {
    if r1.ScanSuccess? {
      var i1 :| 0 <= i1 < |students| && students[i1] == r1.student && students[i1].qrCode == data &&
                forall j :: 0 <= j < i1 ==> students[j].qrCode != data;
      var i2 :| 0 <= i2 < |students| && students[i2] == r2.student && students[i2].qrCode == data &&
                forall j :: 0 <= j < i2 ==> students[j].qrCode != data;
      assert i1 == i2;
    }
  }

  class Scanner {
    const students: seq<Student>
    var scanned: bool
    var scanResult: Option<ScanResult>
    /** How many results have been produced since the last reset. */
    ghost var resultsSinceReset: nat

    /** At most one result between two resets; the latch is closed exactly when one was produced. */
    ghost predicate Valid()
      reads this
    {
      resultsSinceReset <= 1 &&
      (scanned <==> resultsSinceReset == 1) &&
      (scanned <==> scanResult.Some?)
    }

    constructor ()
      ensures Valid() && students == MockStudents && !scanned && scanResult == None
    {
      students := MockStudents;
      scanned := false;
      scanResult := None;
      resultsSinceReset := 0;
    }

    /**
     * handleBarCodeScanned: a closed latch ignores the scan; an open one
     * closes, and the result is a success carrying the first student with
     * exactly this code, or the not-found error.
     */
    method HandleBarCodeScanned(data: string)
      requires Valid()
      modifies this
      ensures Valid()
      ensures old(scanned) ==> scanned && scanResult == old(scanResult) &&
                                 resultsSinceReset == old(resultsSinceReset)
      ensures !old(scanned) ==> scanned && scanResult.Some? && IsResultFor(students, data, scanResult.value)
    {
      if scanned {
        return;
      }
      scanned := true;
      var student := FindStudent(students, data);
      scanResult := Some(ResultFor(student));
      resultsSinceReset := resultsSinceReset + 1;
    }

    /**
     * The camera's `onBarcodeScanned` prop: the handler is detached while
     * the latch is closed, so a delivered scan reaches it only when open.
     */
    method OnBarcodeScanned(data: string)
      requires Valid()
      modifies this
      ensures Valid()
      ensures old(scanned) ==> scanned && scanResult == old(scanResult) &&
                                 resultsSinceReset == old(resultsSinceReset)
      ensures !old(scanned) ==> scanned && resultsSinceReset == 1 && scanResult.Some? &&
                                  IsResultFor(students, data, scanResult.value)
    {
      if !scanned {
        HandleBarCodeScanned(data);
      }
    }

    /** handleReset: the latch opens and the result is cleared. */
    method HandleReset()
      requires Valid()
      modifies this
      ensures Valid()
      ensures !scanned && scanResult == None && resultsSinceReset == 0
    {
      scanned := false;
      scanResult := None;
      resultsSinceReset := 0;
    }
  }

  /**
   * A reset followed by any number of scans produces exactly one result,
   * and it is the result for the first scan: the later ones are ignored.
   */
  method ScansBetweenResets(sc: Scanner, scans: seq<string>)
    requires sc.Valid() && scans != []
    modifies sc
    ensures sc.Valid() && sc.scanned && sc.resultsSinceReset == 1
    ensures sc.scanResult.Some? && IsResultFor(sc.students, scans[0], sc.scanResult.value)
  {
    sc.HandleReset();
    var k := 0;
    while k < |scans|
      invariant 0 <= k <= |scans|
      invariant sc.Valid()
      invariant k == 0 ==> !sc.scanned
      invariant k > 0 ==> sc.scanned && sc.scanResult.Some? &&
                          IsResultFor(sc.students, scans[0], sc.scanResult.value)
    {
      sc.OnBarcodeScanned(scans[k]);
      k := k + 1;
    }
  }
}
