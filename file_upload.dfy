/**
 * The PDF upload widget: a list of file records, each driven by its own
 * 500 ms interval through uploading and processing to completed, with the
 * number of extracted questions drawn at random on completion.
 */
module FileUpload {
  import opened Wrappers

  /** Period of the progress interval started for each dropped file. */
  const IntervalMs: nat := 500
  /** The interval is cleared this long after it was started. */
  const ClearAfterMs: nat := 10000
  /** `Math.floor(Math.random() * 30)` lies in 0 .. 29 ... */
  const ExtractedSpread: nat := 30
  /** ... and 20 is added to it. */
  const MinExtracted: nat := 20
  /** The start link needs this many extracted questions. */
  const StartThreshold: nat := 40

  const UploadStep: nat := 10
  const ProcessStep: nat := 15
  const Full: nat := 100

  datatype Status = Uploading | Processing | Completed | Error

  /** The dropped `File` is represented by its name. */
  datatype UploadedFile = UploadedFile(
    name: string,
    id: string,
    status: Status,
    progress: nat,
    extractedQuestions: Option<nat>)

  /** The states a record can be in: progress moves in steps of 10 while uploading and 15 while processing. */
  predicate WellFormed(f: UploadedFile) {
    match f.status
    case Uploading => f.progress <= Full && f.progress % UploadStep == 0 && f.extractedQuestions == None
    case Processing => f.progress <= 105 && f.progress % ProcessStep == 0 && f.extractedQuestions == None
    case Completed => f.progress == Full && f.extractedQuestions.Some?
                      && MinExtracted <= f.extractedQuestions.value < MinExtracted + ExtractedSpread
    case Error => true
  }

  predicate AllWellFormed(files: seq<UploadedFile>) {
    forall i :: 0 <= i < |files| ==> WellFormed(files[i])
  }

  // ---------------------------------------------------------------------------
  // Dropping files
  // ---------------------------------------------------------------------------

  /** A record as `onDrop` creates it. */
  function Fresh(name: string, id: string): UploadedFile {
    UploadedFile(name, id, Uploading, 0, None)
  }

  /** The records for the accepted files, with the ids drawn for them. */
  function NewRecords(accepted: seq<string>, ids: seq<string>): (r: seq<UploadedFile>)
    requires |accepted| == |ids|
    ensures |r| == |accepted| && AllWellFormed(r)
    ensures forall i :: 0 <= i < |r| ==>
              r[i].name == accepted[i] && r[i].id == ids[i] && r[i].status == Uploading
              && r[i].progress == 0 && r[i].extractedQuestions == None
  {
    seq(|accepted|, i requires 0 <= i < |accepted| => Fresh(accepted[i], ids[i]))
  }

  // ---------------------------------------------------------------------------
  // One firing of a file's interval
  // ---------------------------------------------------------------------------

  /**
   * The `map` callback for the record being simulated. `draw` stands for
   * `Math.floor(Math.random() * 30)`, used only when processing ends.
   */
  function Advance(f: UploadedFile, draw: nat): (r: UploadedFile)
    requires draw < ExtractedSpread
    ensures r.name == f.name && r.id == f.id
    ensures f.status == Completed || f.status == Error ==> r == f
    ensures WellFormed(f) ==> WellFormed(r)
    ensures f.status != Completed && r.status == Completed ==> r.extractedQuestions == Some(MinExtracted + draw)
  {
    if f.progress < Full && f.status == Uploading then f.(progress := f.progress + UploadStep)
    else if f.progress >= Full && f.status == Uploading then f.(status := Processing, progress := 0)
    else if f.status == Processing && f.progress < Full then f.(progress := f.progress + ProcessStep)
    else if f.status == Processing && f.progress >= Full then
      f.(status := Completed, progress := Full, extractedQuestions := Some(MinExtracted + draw))
    else f
  }

  /** `prev.map(...)`: advance the records whose id is `fileId`, keep every other record as it is. */
  function StepAll(files: seq<UploadedFile>, fileId: string, draw: nat): (r: seq<UploadedFile>)
    requires draw < ExtractedSpread
    ensures |r| == |files|
    ensures forall i :: 0 <= i < |files| && files[i].id != fileId ==> r[i] == files[i]
    ensures forall i :: 0 <= i < |files| && files[i].id == fileId ==> r[i] == Advance(files[i], draw)
    ensures AllWellFormed(files) ==> AllWellFormed(r)
    decreases |files|
  {
    if files == [] then []
    else
      var f := files[0];
      [if f.id == fileId then Advance(f, draw) else f] + StepAll(files[1..], fileId, draw)
  }

  /** The record after `n` firings of its interval. */
  function Iterate(f: UploadedFile, n: nat, draw: nat): (r: UploadedFile)
    requires draw < ExtractedSpread
    decreases n
  {
    if n == 0 then f else Advance(Iterate(f, n - 1, draw), draw)
  }

  /** Firings from a fresh record to a completed one; also the on-schedule firings before the clear. */
  const StepsToComplete: nat := 19

  /** Where a fresh record is after `k` firings, for `k` up to completion. */
  function Phase(name: string, id: string, k: nat, draw: nat): UploadedFile
    requires k <= StepsToComplete
  {
    if k <= 10 then UploadedFile(name, id, Uploading, UploadStep * k, None)
    else if k < StepsToComplete then UploadedFile(name, id, Processing, ProcessStep * (k - 11), None)
    else UploadedFile(name, id, Completed, Full, Some(MinExtracted + draw))
  }

  /**
   * A fresh record climbs 0, 10, .., 100 while uploading, turns to processing
   * at 0, climbs 15, 30, .., 105, and completes at the 19th firing.
   */
  lemma {:induction false} FreshTrajectory(name: string, id: string, k: nat, draw: nat)
    requires k <= StepsToComplete && draw < ExtractedSpread
    ensures Iterate(Fresh(name, id), k, draw) == Phase(name, id, k, draw)
    decreases k
  {
    if k > 0 {
      FreshTrajectory(name, id, k - 1, draw);
    }
  }

  /** Completed is terminal: any further firings leave the record as it is. */
  lemma {:induction false} CompletedStays(f: UploadedFile, n: nat, draw: nat)
    requires f.status == Completed && draw < ExtractedSpread
    ensures Iterate(f, n, draw) == f
    decreases n
  {
    if n > 0 {
      CompletedStays(f, n - 1, draw);
    }
  }

  lemma {:induction false} IterateAdd(f: UploadedFile, m: nat, n: nat, draw: nat)
    requires draw < ExtractedSpread
    ensures Iterate(Iterate(f, m, draw), n, draw) == Iterate(f, m + n, draw)
    decreases n
  {
    if n > 0 {
      IterateAdd(f, m, n - 1, draw);
    }
  }

  /**
   * A fresh record is completed after exactly 19 firings, with 20 + draw
   * questions, and stays so. The last clause is the nominal count only: 19
   * firings fall before the clear at 10 s when the interval fires on
   * schedule, and then those 19 firings complete the record. Timers may fire
   * late, and the clear itself is not modelled.
   */
  lemma FreshCompletesInTime(name: string, id: string, n: nat, draw: nat)
    requires draw < ExtractedSpread
    ensures (Iterate(Fresh(name, id), n, draw).status == Completed) <==> n >= StepsToComplete
    ensures n >= StepsToComplete ==>
              Iterate(Fresh(name, id), n, draw).extractedQuestions == Some(MinExtracted + draw)
    ensures StepsToComplete == (ClearAfterMs - 1) / IntervalMs
  {
    if n <= StepsToComplete {
      FreshTrajectory(name, id, n, draw);
    } else {
      var done := Iterate(Fresh(name, id), StepsToComplete, draw);
      FreshTrajectory(name, id, StepsToComplete, draw);
      IterateAdd(Fresh(name, id), StepsToComplete, n - StepsToComplete, draw);
      CompletedStays(done, n - StepsToComplete, draw);
    }
  }

  // ---------------------------------------------------------------------------
  // Removing a file
  // ---------------------------------------------------------------------------

  /** `prev.filter(file => file.id !== fileId)`. */
  function Without(files: seq<UploadedFile>, fileId: string): (r: seq<UploadedFile>)
    ensures |r| <= |files|
    ensures forall i :: 0 <= i < |r| ==> r[i].id != fileId
    ensures forall x :: multiset(r)[x] == if x.id == fileId then 0 else multiset(files)[x]
    decreases |files|
  {
    if files == [] then []
    else
      var rest := Without(files[1..], fileId);
      assert files == [files[0]] + files[1..];
      if files[0].id == fileId then rest else [files[0]] + rest
  }

  /** Removal works record by record, so the kept records stay in their original order. */
  lemma {:induction false} WithoutConcat(a: seq<UploadedFile>, b: seq<UploadedFile>, fileId: string)
    ensures Without(a + b, fileId) == Without(a, fileId) + Without(b, fileId)
    decreases |a|
  {
    if a != [] {
      assert (a + b)[0] == a[0] && (a + b)[1..] == a[1..] + b;
      WithoutConcat(a[1..], b, fileId);
    } else {
      assert a + b == b;
    }
  }

  /** Removing an id no record has changes nothing. */
  lemma {:induction false} WithoutAbsent(files: seq<UploadedFile>, fileId: string)
    requires forall i :: 0 <= i < |files| ==> files[i].id != fileId
    ensures Without(files, fileId) == files
    decreases |files|
  {
    if files != [] {
      WithoutAbsent(files[1..], fileId);
    }
  }

  // ---------------------------------------------------------------------------
  // Extracted questions and the start link
  // ---------------------------------------------------------------------------

  /** `totalQuestions`: the extracted counts of the completed records, a missing count read as 0. */
  function TotalQuestions(files: seq<UploadedFile>): nat
    decreases |files|
  {
    if files == [] then 0
    else
      (if files[0].status == Completed then files[0].extractedQuestions.GetOr(0) else 0)
      + TotalQuestions(files[1..])
  }

  /** The start link is rendered when at least 40 questions were extracted. */
  predicate StartShown(files: seq<UploadedFile>) {
    TotalQuestions(files) >= StartThreshold
  }

  function CompletedCount(files: seq<UploadedFile>): nat
    decreases |files|
  {
    if files == [] then 0
    else (if files[0].status == Completed then 1 else 0) + CompletedCount(files[1..])
  }

  lemma {:induction false} TotalConcat(a: seq<UploadedFile>, b: seq<UploadedFile>)
    ensures TotalQuestions(a + b) == TotalQuestions(a) + TotalQuestions(b)
    decreases |a|
  {
    if a != [] {
      assert (a + b)[0] == a[0] && (a + b)[1..] == a[1..] + b;
      TotalConcat(a[1..], b);
    } else {
      assert a + b == b;
    }
  }

  lemma {:induction false} TotalOfNewRecords(accepted: seq<string>, ids: seq<string>)
    requires |accepted| == |ids|
    ensures TotalQuestions(NewRecords(accepted, ids)) == 0
    decreases |accepted|
  {
    if accepted != [] {
      assert NewRecords(accepted, ids)[1..] == NewRecords(accepted[1..], ids[1..]);
      TotalOfNewRecords(accepted[1..], ids[1..]);
    }
  }

  /** Dropping files does not change the total: new records are still uploading. */
  lemma DropKeepsTotal(files: seq<UploadedFile>, accepted: seq<string>, ids: seq<string>)
    requires |accepted| == |ids|
    ensures TotalQuestions(files + NewRecords(accepted, ids)) == TotalQuestions(files)
  {
    TotalConcat(files, NewRecords(accepted, ids));
    TotalOfNewRecords(accepted, ids);
  }

  /** A firing never lowers the total: completed records are kept and only completions add to it. */
  lemma {:induction false} StepKeepsOrRaisesTotal(files: seq<UploadedFile>, fileId: string, draw: nat)
    requires draw < ExtractedSpread
    ensures TotalQuestions(StepAll(files, fileId, draw)) >= TotalQuestions(files)
    decreases |files|
  {
    if files != [] {
      var r := StepAll(files, fileId, draw);
      assert r[1..] == StepAll(files[1..], fileId, draw);
      StepKeepsOrRaisesTotal(files[1..], fileId, draw);
    }
  }

  /** Removing records never raises the total. */
  lemma {:induction false} RemoveKeepsOrLowersTotal(files: seq<UploadedFile>, fileId: string)
    ensures TotalQuestions(Without(files, fileId)) <= TotalQuestions(files)
    decreases |files|
  {
    if files != [] {
      RemoveKeepsOrLowersTotal(files[1..], fileId);
    }
  }

  /** Every completed well-formed record contributes between 20 and 49 questions. */
  lemma {:induction false} TotalBounds(files: seq<UploadedFile>)
    requires AllWellFormed(files)
    ensures MinExtracted * CompletedCount(files) <= TotalQuestions(files)
    ensures TotalQuestions(files) <= (MinExtracted + ExtractedSpread - 1) * CompletedCount(files)
    decreases |files|
  {
    if files != [] {
      TotalBounds(files[1..]);
    }
  }

  /** Two completed files always open the start link; none never does. */
  lemma StartGate(files: seq<UploadedFile>)
    requires AllWellFormed(files)
    ensures CompletedCount(files) >= 2 ==> StartShown(files)
    ensures CompletedCount(files) == 0 ==> !StartShown(files)
  {
    TotalBounds(files);
  }

  // ---------------------------------------------------------------------------
  // The widget's state
  // ---------------------------------------------------------------------------

  class Uploader {
    var uploadedFiles: seq<UploadedFile>

    ghost predicate Valid()
      reads this
    {
      AllWellFormed(uploadedFiles)
    }

    constructor ()
      ensures Valid() && uploadedFiles == []
    {
      uploadedFiles := [];
    }

    /** `onDrop`: append a fresh record per accepted file, after the existing ones. */
    method Drop(accepted: seq<string>, ids: seq<string>)
      requires Valid() && |accepted| == |ids|
      modifies this
      ensures Valid()
      ensures uploadedFiles == old(uploadedFiles) + NewRecords(accepted, ids)
      ensures uploadedFiles[..|old(uploadedFiles)|] == old(uploadedFiles)
    {
      uploadedFiles := uploadedFiles + NewRecords(accepted, ids);
    }

    /** One firing of the interval started for `fileId`. */
    method IntervalFired(fileId: string, draw: nat)
      requires Valid() && draw < ExtractedSpread
      modifies this
      ensures Valid()
      ensures uploadedFiles == StepAll(old(uploadedFiles), fileId, draw)
    {
      uploadedFiles := StepAll(uploadedFiles, fileId, draw);
    }

    /** `removeFile`. */
    method RemoveFile(fileId: string)
      requires Valid()
      modifies this
      ensures Valid()
      ensures uploadedFiles == Without(old(uploadedFiles), fileId)
    {
      var r := Without(uploadedFiles, fileId);
      assert forall i :: 0 <= i < |r| ==> r[i] in multiset(uploadedFiles);
      uploadedFiles := r;
    }
  }
}
