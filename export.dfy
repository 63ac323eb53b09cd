/**
 * `ExportAsync`: the export job is submitted, a poll loop waits for it to
 * finish, then (when a file format was asked for) the artifact is downloaded
 * into a temporary file in 32 KiB reads with throttled progress, extracted into
 * the target folder, and the temporary file is deleted on a best-effort basis.
 */
module Export {
  import opened Wrappers
  import opened Streams
  import opened Frames
  import opened Loader
  import ApiClient
  import Text

  /** `TaskStatus` of a job; `Running` stands for every non-terminal value. */
  datatype TaskStatus = Running | RanToCompletion | Faulted | Canceled

  datatype JobStatus = JobStatus(status: TaskStatus, progress: real, result: Option<JsonValue>, exceptionMessage: Option<string>)

  /** One turn of the poll loop: the cancellation token fires during the
      one-second wait, the status query fails with `error`, or the job's
      status arrives. */
  datatype Poll = CancelRequested | PollFailed(error: ApiClient.ApiError) | Polled(job: JobStatus)

  datatype Stage = ExportStage | DownloadStage | ExtractStage

  /** One call of the progress callback: the value and the stage message
      ("export", "download" or "extract"). */
  datatype Report = Report(value: real, stage: Stage)

  /** How the poll loop ends. `StillRunning` means the observed polls ran out
      before the job finished: the client would go on polling. */
  datatype PollEnd =
    | Finished(artifactId: string)
    | JobCanceled
    | JobFaulted(message: Option<string>)
    | WaitCanceled
    | StatusFailed(error: ApiClient.ApiError)
    | StillRunning

  /** A downloaded artifact: its Content-Length as parsed to a 32-bit integer
      (None when missing or unparsable), and its body. */
  datatype Artifact = Artifact(contentLength: Option<Int32>, stream: Stream)

  datatype ExportOutcome =
    | Done
    | SubmitFailed(error: ApiClient.ApiError)
    | JobWasCanceled                     // "The job has been cancelled."
    | JobFailed(message: Option<string>) // "The job has failed. Reason: ..."
    | Cancelled                          // the cancellation token fired during a wait
    | StatusQueryFailed(error: ApiClient.ApiError) // the status query threw
    | Pending                            // the job had not finished within the observed polls
    | DownloadFailed(error: ApiClient.ApiError)
    | ExtractFailed

  /** Everything a call leaves behind: how it ended, the progress reports, the
      artifact it downloaded, what it wrote to the temporary file, and whether
      that file is still on disk afterwards. */
  datatype ExportRun = ExportRun(
    outcome: ExportOutcome,
    reports: seq<Report>,
    downloaded: Option<string>,
    tempFile: Option<seq<byte>>,
    tempRemains: bool)

  const BufferSize: nat := 32768

  /** Only a completed job with a string result ends the wait successfully. */
  predicate HasArtifact(job: JobStatus) {
    job.status == RanToCompletion && job.result.Some? && job.result.value.JString?
  }

  /** The progress report a poll that does not end the loop makes, if any. */
  function JobReport(job: JobStatus): seq<Report> {
    if job.progress < 1.0 then [Report(job.progress, ExportStage)] else []
  }

  /** The poll loop: how it ends and the job progress it reports on the way. */
  function PollSpec(polls: seq<Poll>): (r: (PollEnd, seq<Report>))
    ensures |r.1| <= |polls|
    ensures r.0.StillRunning? ==> forall i :: 0 <= i < |polls| ==> !Terminal(polls[i])
  {
    if polls == [] then (StillRunning, [])
    else match polls[0]
      case CancelRequested => (WaitCanceled, [])
      case PollFailed(e) => (StatusFailed(e), [])
      case Polled(job) =>
        if job.status == Canceled then (JobCanceled, [])
        else if job.status == Faulted then (JobFaulted(job.exceptionMessage), [])
        else if HasArtifact(job) then (Finished(job.result.value.text), [])
        else
          var rest := PollSpec(polls[1..]);
          (rest.0, JobReport(job) + rest.1)
  }

  /** A poll that ends the loop. */
  predicate Terminal(p: Poll) {
    !p.Polled? || p.job.status == Canceled || p.job.status == Faulted || HasArtifact(p.job)
  }

  /** How a terminal poll ends the loop. */
  function EndOf(p: Poll): PollEnd
    requires Terminal(p)
  {
    if p.CancelRequested? then WaitCanceled
    else if p.PollFailed? then StatusFailed(p.error)
    else if p.job.status == Canceled then JobCanceled
    else if p.job.status == Faulted then JobFaulted(p.job.exceptionMessage)
    else Finished(p.job.result.value.text)
  }

  /** The reports of a run of polls none of which ends the loop. */
  function Reported(polls: seq<Poll>): seq<Report>
    requires forall i :: 0 <= i < |polls| ==> !Terminal(polls[i])
  {
    if polls == [] then []
    else assert !Terminal(polls[0]); JobReport(polls[0].job) + Reported(polls[1..])
  }

  /** The first terminal poll decides how the loop ends, and the polls before it
      report their progress in order. */
  lemma {:induction false} FirstTerminalDecides(polls: seq<Poll>, i: nat)
    requires i < |polls| && Terminal(polls[i])
    requires forall j :: 0 <= j < i ==> !Terminal(polls[j])
    ensures PollSpec(polls) == (EndOf(polls[i]), Reported(polls[..i]))
    decreases i
  {
    if i > 0 {
      FirstTerminalDecides(polls[1..], i - 1);
      assert polls[1..][..i - 1] == polls[..i][1..];
    }
  }

  /** Without a terminal poll the loop has not ended when the polls run out. */
  lemma {:induction false} NoTerminalKeepsWaiting(polls: seq<Poll>)
    requires forall j :: 0 <= j < |polls| ==> !Terminal(polls[j])
    ensures PollSpec(polls) == (StillRunning, Reported(polls))
    decreases |polls|
  {
    if polls != [] {
      NoTerminalKeepsWaiting(polls[1..]);
    }
  }

  /** Every report of the poll loop is an "export" report below 1. */
  lemma {:induction false} PollReportsBelowOne(polls: seq<Poll>)
    ensures forall i :: 0 <= i < |PollSpec(polls).1| ==>
              PollSpec(polls).1[i].stage == ExportStage && PollSpec(polls).1[i].value < 1.0
    decreases |polls|
  {
    if polls != [] && polls[0].Polled? {
      PollReportsBelowOne(polls[1..]);
    }
  }

  /** The sizes of the successive reads the copy loop makes through its
      32 KiB buffer, up to the end of the stream. */
  function ReadSizes(s: Stream): (r: seq<nat>)
    ensures forall i :: 0 <= i < |r| ==> 0 < r[i] <= BufferSize
    decreases |s|, if s == [] then 0 else |s[0]|
  {
    var next := ReadChunk(s, BufferSize);
    if |next.0| == 0 then [] else [|next.0|] + ReadSizes(next.1)
  }

  function Sum(sizes: seq<nat>): nat {
    if sizes == [] then 0 else sizes[0] + Sum(sizes[1..])
  }

  /** The reads cover the whole stream. */
  lemma {:induction false} ReadSizesCover(s: Stream)
    ensures Sum(ReadSizes(s)) == |Concat(s)|
    decreases |s|, if s == [] then 0 else |s[0]|
  {
    var next := ReadChunk(s, BufferSize);
    ReadKeepsOrder(s, BufferSize);
    if |next.0| > 0 {
      ReadSizesCover(next.1);
      assert ([|next.0|] + ReadSizes(next.1))[1..] == ReadSizes(next.1);
    }
  }

  /** The report after a read that brought the count to `consumed`: only when
      the threshold has passed, the length is known and not yet reached. */
  function DownloadReport(elapsed: bool, consumed: nat, length: Option<Int32>): seq<Report> {
    if elapsed && length.Some? && consumed < length.value
    then [Report(consumed as real / length.value as real, DownloadStage)] else []
  }

  /** The reports the copy loop makes for reads of the given sizes, starting at
      the read numbered `k` with `consumed` bytes already copied. `elapsed(k)`
      says whether, at read `k`, more than the threshold has passed since the
      stopwatch was last restarted. */
  function SizeReports(sizes: seq<nat>, k: nat, consumed: nat, length: Option<Int32>, elapsed: nat -> bool): seq<Report> {
    if sizes == [] then []
    else
      var c := consumed + sizes[0];
      DownloadReport(elapsed(k), c, length) + SizeReports(sizes[1..], k + 1, c, length, elapsed)
  }

  /** The reports of copying the stream `s` from its start. */
  function CopyReports(s: Stream, length: Option<Int32>, elapsed: nat -> bool): seq<Report> {
    SizeReports(ReadSizes(s), 0, 0, length, elapsed)
  }

  predicate Positive(sizes: seq<nat>) {
    forall i :: 0 <= i < |sizes| ==> sizes[i] > 0
  }

  /** Reports of the download stage, all below 1. */
  predicate Downloads(r: seq<Report>) {
    forall i :: 0 <= i < |r| ==> r[i].stage == DownloadStage && r[i].value < 1.0
  }

  predicate Above(r: seq<Report>, low: real) {
    forall i :: 0 <= i < |r| ==> low < r[i].value
  }

  predicate Increasing(r: seq<Report>) {
    forall i, j :: 0 <= i < j < |r| ==> r[i].value < r[j].value
  }

  lemma AboveAppend(a: seq<Report>, b: seq<Report>, low: real, high: real)
    requires Above(a, low) && Above(b, high) && low <= high
    ensures Above(a + b, low)
  {
  }

  lemma IncreasingAppend(a: seq<Report>, b: seq<Report>, high: real)
    requires Increasing(a) && Increasing(b) && Above(b, high)
    requires forall i :: 0 <= i < |a| ==> a[i].value <= high
    ensures Increasing(a + b)
  {
    forall i, j | 0 <= i < j < |a + b|
      ensures (a + b)[i].value < (a + b)[j].value
    {
      if j < |a| {
      } else if i >= |a| {
        assert (a + b)[i] == b[i - |a|];
      } else {
        assert (a + b)[j] == b[j - |a|];
      }
    }
  }

  lemma DownloadsAppend(a: seq<Report>, b: seq<Report>)
    requires Downloads(a) && Downloads(b)
    ensures Downloads(a + b)
  {
  }

  /** The report after one read, if any, is a "download" report below 1 and
      above the share copied before that read. */
  lemma DownloadReportBounded(elapsed: bool, consumed: nat, c: nat, length: Option<Int32>)
    requires consumed < c
    ensures var h := DownloadReport(elapsed, c, length);
            && Downloads(h) && |h| <= 1
            && (h != [] ==> length.Some? && c < length.value
                            && h[0].value == c as real / length.value as real
                            && Above(h, consumed as real / length.value as real))
  {
    if DownloadReport(elapsed, c, length) != [] {
      var len := length.value as real;
      DivLess(consumed as real, c as real, len);
      DivAtMostOne(c as real, len);
    }
  }

  /** Every report of the copy loop is a "download" report below 1. */
  lemma {:induction false} ReportsBelowOne(sizes: seq<nat>, k: nat, consumed: nat, length: Option<Int32>, elapsed: nat -> bool)
    requires Positive(sizes)
    ensures Downloads(SizeReports(sizes, k, consumed, length, elapsed))
  {
    if sizes != [] {
      var c := consumed + sizes[0];
      ReportsBelowOne(sizes[1..], k + 1, c, length, elapsed);
      DownloadReportBounded(elapsed(k), consumed, c, length);
      DownloadsAppend(DownloadReport(elapsed(k), c, length), SizeReports(sizes[1..], k + 1, c, length, elapsed));
    }
  }

  /** Download reports need a known length, and each lies above the share
      already copied. */
  lemma {:induction false} ReportsBounded(sizes: seq<nat>, k: nat, consumed: nat, length: Option<Int32>, elapsed: nat -> bool)
    requires Positive(sizes)
    ensures var r := SizeReports(sizes, k, consumed, length, elapsed);
            r != [] ==> length.Some? && consumed < length.value
                        && Above(r, consumed as real / length.value as real)
  {
    if sizes != [] {
      var c := consumed + sizes[0];
      ReportsBounded(sizes[1..], k + 1, c, length, elapsed);
      DownloadReportBounded(elapsed(k), consumed, c, length);
      var head := DownloadReport(elapsed(k), c, length);
      var tail := SizeReports(sizes[1..], k + 1, c, length, elapsed);
      if tail != [] {
        var len := length.value as real;
        DivLess(consumed as real, c as real, len);
        AboveAppend(head, tail, consumed as real / len, c as real / len);
      }
    }
  }

  /** The download reports strictly increase. */
  lemma {:induction false} ReportsIncrease(sizes: seq<nat>, k: nat, consumed: nat, length: Option<Int32>, elapsed: nat -> bool)
    requires Positive(sizes)
    ensures Increasing(SizeReports(sizes, k, consumed, length, elapsed))
  {
    if sizes != [] {
      var c := consumed + sizes[0];
      ReportsIncrease(sizes[1..], k + 1, c, length, elapsed);
      ReportsBounded(sizes[1..], k + 1, c, length, elapsed);
      DownloadReportBounded(elapsed(k), consumed, c, length);
      var head := DownloadReport(elapsed(k), c, length);
      var tail := SizeReports(sizes[1..], k + 1, c, length, elapsed);
      if tail == [] {
        assert head + tail == head;
      } else {
        IncreasingAppend(head, tail, c as real / length.value as real);
      }
    }
  }

  /** With the stopwatch restarted, a download whose threshold passes at every
      read and whose length is not reached before the end is reported at every
      read. */
  lemma {:induction false} ReportsEveryRead(sizes: seq<nat>, k: nat, consumed: nat, length: Int32, elapsed: nat -> bool)
    requires forall j :: elapsed(j)
    requires consumed + Sum(sizes) < length
    ensures |SizeReports(sizes, k, consumed, Some(length), elapsed)| == |sizes|
  {
    if sizes != [] {
      ReportsEveryRead(sizes[1..], k + 1, consumed + sizes[0], length, elapsed);
    }
  }

  /** The copy loop as written: the check of the stopwatch is followed by
      `Reset`, which stops it at zero, so once a check has fired (`running`
      false) no later check does. `elapsed(k)` says whether, at read `k`, more
      than the threshold has passed since the stopwatch was started. */
  function SizeReportsAsWritten(sizes: seq<nat>, k: nat, consumed: nat, length: Option<Int32>, elapsed: nat -> bool, running: bool): seq<Report> {
    if sizes == [] then []
    else
      var c := consumed + sizes[0];
      var fires := running && elapsed(k);
      DownloadReport(fires, c, length) + SizeReportsAsWritten(sizes[1..], k + 1, c, length, elapsed, running && !fires)
  }

  /** As written, a download makes at most one progress report before the
      final one, however many reads it takes. */
  lemma {:induction false} AsWrittenReportsAtMostOnce(sizes: seq<nat>, k: nat, consumed: nat, length: Option<Int32>, elapsed: nat -> bool, running: bool)
    ensures |SizeReportsAsWritten(sizes, k, consumed, length, elapsed, running)| <= (if running then 1 else 0)
  {
    if sizes != [] {
      var fires := running && elapsed(k);
      AsWrittenReportsAtMostOnce(sizes[1..], k + 1, consumed + sizes[0], length, elapsed, running && !fires);
    }
  }

  /** Three one-byte chunks are read one at a time. */
  lemma ThreeReads()
    ensures ReadSizes([[1], [2], [3]]) == [1, 1, 1]
  {
    var s: Stream := [[1], [2], [3]];
    var s1: Stream := [[2], [3]];
    var s2: Stream := [[3]];
    assert s2[1..] == [];
    assert ReadChunk(s2, BufferSize).1 == [];
    assert ReadSizes(s2) == [1];
    assert s1[1..] == s2;
    assert ReadChunk(s1, BufferSize).1 == s2;
    assert ReadSizes(s1) == [1, 1];
    assert s[1..] == s1;
    assert ReadChunk(s, BufferSize).1 == s1;
  }

  /** A 3-byte artifact with a Content-Length of 3, delivered in three
      one-byte reads, each after the threshold has passed: as written only the
      first read is reported, while restarting the stopwatch reports both reads
      that leave the length unreached. */
  lemma StopwatchResetCounterexample()
    ensures var s: Stream := [[1], [2], [3]];
            && ReadSizes(s) == [1, 1, 1]
            && |SizeReportsAsWritten(ReadSizes(s), 0, 0, Some(3), k => true, true)| == 1
            && CopyReports(s, Some(3), k => true)
               == [Report(1.0 / 3.0, DownloadStage), Report(2.0 / 3.0, DownloadStage)]
  {
    ThreeReads();
    var always: nat -> bool := k => true;
    assert SizeReports([1], 2, 2, Some(3), always) == [];
    assert SizeReports([1, 1], 1, 1, Some(3), always) == [Report(2.0 / 3.0, DownloadStage)];
    assert SizeReportsAsWritten([1], 2, 2, Some(3), always, false) == [];
    assert SizeReportsAsWritten([1, 1], 1, 1, Some(3), always, false) == [];
  }

  /** The copy loop's invariant carried over one read: what was written and
      reported so far, followed by what is still to come, makes up the totals
      `bytes` and `reports`. */
  lemma CopyAdvance(s: Stream, chunk: seq<byte>, rest: Stream, k: nat, consumed: nat, length: Option<Int32>,
                    elapsed: nat -> bool, written: seq<byte>, copied: seq<Report>, bytes: seq<byte>, reports: seq<Report>,
                    written': seq<byte>, consumed': nat, copied': seq<Report>)
    requires chunk == ReadChunk(s, BufferSize).0 && rest == ReadChunk(s, BufferSize).1 && chunk != []
    requires written + Concat(s) == bytes
    requires copied + SizeReports(ReadSizes(s), k, consumed, length, elapsed) == reports
    requires written' == written + chunk && consumed' == consumed + |chunk|
    requires copied' == copied + DownloadReport(elapsed(k), consumed', length)
    ensures written' + Concat(rest) == bytes
    ensures copied' + SizeReports(ReadSizes(rest), k + 1, consumed', length, elapsed) == reports
  {
    ReadKeepsOrder(s, BufferSize);
    SizesStep(s);
    var head := DownloadReport(elapsed(k), consumed', length);
    var later := SizeReports(ReadSizes(rest), k + 1, consumed', length, elapsed);
    ReportsStep(ReadSizes(s), k, consumed, length, elapsed);
    Text.Associative(written, chunk, Concat(rest));
    Text.Associative(copied, head, later);
  }

  /** A read that gets something is the first of the stream's reads. */
  lemma SizesStep(s: Stream)
    requires s != []
    ensures ReadSizes(s) == [|ReadChunk(s, BufferSize).0|] + ReadSizes(ReadChunk(s, BufferSize).1)
  {
  }

  lemma ReportsStep(sizes: seq<nat>, k: nat, consumed: nat, length: Option<Int32>, elapsed: nat -> bool)
    requires sizes != []
    ensures SizeReports(sizes, k, consumed, length, elapsed)
            == DownloadReport(elapsed(k), consumed + sizes[0], length) + SizeReports(sizes[1..], k + 1, consumed + sizes[0], length, elapsed)
  {
  }

  /** Reports as the caller sees them: none without a callback. */
  function Shown(notify: bool, r: seq<Report>): seq<Report> {
    if notify then r else []
  }

  /** The whole call. `submitError` is the failure of the job submission, if
      any; `download` stands for the artifact endpoint; `extractOk` and
      `deleteOk` say whether unzipping and deleting the temporary file work. */
  function ExportSpec(submitError: Option<ApiClient.ApiError>, polls: seq<Poll>, fileFormat: Option<string>,
                      download: string -> Result<Artifact, ApiClient.ApiError>, elapsed: nat -> bool,
                      extractOk: bool, deleteOk: bool, notify: bool): (r: ExportRun)
    ensures !notify ==> r.reports == []
    ensures r.outcome.SubmitFailed? <==> submitError.Some?
    ensures r.tempFile.Some? ==> r.outcome == Done || r.outcome == ExtractFailed
  {
    if submitError.Some? then ExportRun(SubmitFailed(submitError.value), [], None, None, false)
    else AfterWait(PollSpec(polls).0, PollSpec(polls).1, fileFormat, download, elapsed, extractOk, deleteOk, notify)
  }

  /** What follows the poll loop, which ended with `end` after reporting `waited`. */
  function AfterWait(end: PollEnd, waited: seq<Report>, fileFormat: Option<string>,
                     download: string -> Result<Artifact, ApiClient.ApiError>, elapsed: nat -> bool,
                     extractOk: bool, deleteOk: bool, notify: bool): ExportRun
  {
    match end
    case WaitCanceled => ExportRun(Cancelled, Shown(notify, waited), None, None, false)
    case StatusFailed(e) => ExportRun(StatusQueryFailed(e), Shown(notify, waited), None, None, false)
    case JobCanceled => ExportRun(JobWasCanceled, Shown(notify, waited), None, None, false)
    case JobFaulted(m) => ExportRun(JobFailed(m), Shown(notify, waited), None, None, false)
    case StillRunning => ExportRun(Pending, Shown(notify, waited), None, None, false)
    case Finished(id) =>
      var exported := waited + [Report(1.0, ExportStage)];
      if fileFormat.None? then ExportRun(Done, Shown(notify, exported), None, None, false)
      else match download(id)
        case Err(e) => ExportRun(DownloadFailed(e), Shown(notify, exported), Some(id), None, false)
        case Ok(artifact) => AfterDownload(id, exported, artifact, elapsed, extractOk, deleteOk, notify)
  }

  /** Copying the artifact `id` into the temporary file, extracting it and
      deleting the file, after the reports `exported`. */
  function AfterDownload(id: string, exported: seq<Report>, artifact: Artifact, elapsed: nat -> bool,
                         extractOk: bool, deleteOk: bool, notify: bool): ExportRun
  {
    var copied := CopyReports(artifact.stream, artifact.contentLength, elapsed);
    var fetched := exported + copied + [Report(1.0, DownloadStage)];
    var file := Concat(artifact.stream);
    if extractOk then ExportRun(Done, Shown(notify, fetched + [Report(1.0, ExtractStage)]), Some(id), Some(file), !deleteOk)
    else ExportRun(ExtractFailed, Shown(notify, fetched), Some(id), Some(file), !deleteOk)
  }

  /** The position of a stage in the export sequence. */
  function Rank(s: Stage): nat {
    match s
    case ExportStage => 0
    case DownloadStage => 1
    case ExtractStage => 2
  }

  predicate StagesInOrder(r: seq<Report>) {
    forall i, j :: 0 <= i < j < |r| ==> Rank(r[i].stage) <= Rank(r[j].stage)
  }

  /** A sequence all of whose reports have one stage is in order. */
  lemma OneStage(r: seq<Report>, st: Stage)
    requires forall i :: 0 <= i < |r| ==> r[i].stage == st
    ensures StagesInOrder(r)
  {
  }

  lemma AppendInOrder(a: seq<Report>, b: seq<Report>, st: Stage)
    requires StagesInOrder(a) && StagesInOrder(b)
    requires forall i :: 0 <= i < |a| ==> Rank(a[i].stage) <= Rank(st)
    requires forall i :: 0 <= i < |b| ==> Rank(st) <= Rank(b[i].stage)
    ensures StagesInOrder(a + b)
  {
    forall i, j | 0 <= i < j < |a + b|
      ensures Rank((a + b)[i].stage) <= Rank((a + b)[j].stage)
    {
      if i < |a| && j >= |a| {
        assert (a + b)[i] == a[i];
        assert (a + b)[j] == b[j - |a|];
      }
    }
  }

  /** The reports of the download and extraction stages follow those of the
      export stage. */
  lemma DownloadStagesInOrder(id: string, exported: seq<Report>, artifact: Artifact, elapsed: nat -> bool,
                              extractOk: bool, deleteOk: bool, notify: bool)
    requires forall i :: 0 <= i < |exported| ==> exported[i].stage == ExportStage
    ensures StagesInOrder(AfterDownload(id, exported, artifact, elapsed, extractOk, deleteOk, notify).reports)
  {
    var copied := CopyReports(artifact.stream, artifact.contentLength, elapsed);
    ReportsBelowOne(ReadSizes(artifact.stream), 0, 0, artifact.contentLength, elapsed);
    var downloads := copied + [Report(1.0, DownloadStage)];
    OneStage(exported, ExportStage);
    OneStage(downloads, DownloadStage);
    AppendInOrder(exported, downloads, DownloadStage);
    assert exported + copied + [Report(1.0, DownloadStage)] == exported + downloads;
    AppendInOrder(exported + downloads, [Report(1.0, ExtractStage)], ExtractStage);
  }

  /** Whatever happens, the reports never go back to an earlier stage: export
      progress, then download progress, then extraction. */
  lemma ExportStagesInOrder(submitError: Option<ApiClient.ApiError>, polls: seq<Poll>, fileFormat: Option<string>,
                            download: string -> Result<Artifact, ApiClient.ApiError>, elapsed: nat -> bool,
                            extractOk: bool, deleteOk: bool, notify: bool)
    ensures StagesInOrder(ExportSpec(submitError, polls, fileFormat, download, elapsed, extractOk, deleteOk, notify).reports)
  {
    var (end, waited) := PollSpec(polls);
    PollReportsBelowOne(polls);
    OneStage(waited, ExportStage);
    var exported := waited + [Report(1.0, ExportStage)];
    OneStage(exported, ExportStage);
    if submitError.None? && end.Finished? && fileFormat.Some? && download(end.artifactId).Ok? {
      DownloadStagesInOrder(end.artifactId, exported, download(end.artifactId).value, elapsed, extractOk, deleteOk, notify);
    }
  }

  /** Appending download reports and the two closing reports keeps the single
      "export" report at 1 single, and the closing reports come last. */
  lemma ClosingReports(exported: seq<Report>, copied: seq<Report>)
    requires multiset(exported)[Report(1.0, ExportStage)] == 1
    requires Downloads(copied)
    ensures var all := exported + copied + [Report(1.0, DownloadStage)] + [Report(1.0, ExtractStage)];
            && multiset(all)[Report(1.0, ExportStage)] == 1
            && |all| >= 2 && all[|all| - 2..] == [Report(1.0, DownloadStage), Report(1.0, ExtractStage)]
  {
    var top := Report(1.0, ExportStage);
    var last := [Report(1.0, DownloadStage)] + [Report(1.0, ExtractStage)];
    NotIn(copied, top);
    NotIn(last, top);
    var all := exported + copied + [Report(1.0, DownloadStage)] + [Report(1.0, ExtractStage)];
    assert all == (exported + copied) + last;
    assert multiset(exported + copied) == multiset(exported) + multiset(copied);
    assert multiset(all) == multiset(exported + copied) + multiset(last);
    assert all[|all| - 2..] == last;
  }

  /** After a completed download: the temporary file holds the artifact's bytes,
      the one "export" report at 1 stays the only one, and with a callback the
      last two reports are the completed download and the completed extraction. */
  lemma DownloadCompletes(id: string, exported: seq<Report>, artifact: Artifact, elapsed: nat -> bool,
                          deleteOk: bool, notify: bool)
    requires multiset(exported)[Report(1.0, ExportStage)] == 1
    ensures var run := AfterDownload(id, exported, artifact, elapsed, true, deleteOk, notify);
            && run.outcome == Done
            && run.tempFile == Some(Concat(artifact.stream))
            && (notify ==> multiset(run.reports)[Report(1.0, ExportStage)] == 1)
            && (notify ==> |run.reports| >= 2 && run.reports[|run.reports| - 2..] == [Report(1.0, DownloadStage), Report(1.0, ExtractStage)])
  {
    var copied := CopyReports(artifact.stream, artifact.contentLength, elapsed);
    ReportsBelowOne(ReadSizes(artifact.stream), 0, 0, artifact.contentLength, elapsed);
    ClosingReports(exported, copied);
  }

  /** With a file format, a call ends in `Done` only through a finished job,
      a successful download and a successful extraction. */
  lemma DoneAfterDownload(submitError: Option<ApiClient.ApiError>, polls: seq<Poll>, fileFormat: Option<string>,
                          download: string -> Result<Artifact, ApiClient.ApiError>, elapsed: nat -> bool,
                          extractOk: bool, deleteOk: bool, notify: bool)
    requires fileFormat.Some?
    requires ExportSpec(submitError, polls, fileFormat, download, elapsed, extractOk, deleteOk, notify).outcome == Done
    ensures submitError.None? && PollSpec(polls).0.Finished? && extractOk
    ensures download(PollSpec(polls).0.artifactId).Ok?
    ensures ExportSpec(submitError, polls, fileFormat, download, elapsed, extractOk, deleteOk, notify)
            == AfterDownload(PollSpec(polls).0.artifactId, PollSpec(polls).1 + [Report(1.0, ExportStage)],
                             download(PollSpec(polls).0.artifactId).value, elapsed, extractOk, deleteOk, notify)
  {
  }

  /** A completed export with a file format: the job's artifact is the one
      downloaded, the temporary file holds its bytes, "export" reaches 1 exactly
      once, and with a callback the last two reports are the completed download
      and the completed extraction. */
  lemma ExportCompletes(submitError: Option<ApiClient.ApiError>, polls: seq<Poll>, fileFormat: Option<string>,
                        download: string -> Result<Artifact, ApiClient.ApiError>, elapsed: nat -> bool,
                        extractOk: bool, deleteOk: bool, notify: bool)
    requires fileFormat.Some?
    requires ExportSpec(submitError, polls, fileFormat, download, elapsed, extractOk, deleteOk, notify).outcome == Done
    ensures PollSpec(polls).0.Finished? && download(PollSpec(polls).0.artifactId).Ok? && extractOk
    ensures var run := ExportSpec(submitError, polls, fileFormat, download, elapsed, extractOk, deleteOk, notify);
            && run.downloaded == Some(PollSpec(polls).0.artifactId)
            && run.tempFile == Some(Concat(download(PollSpec(polls).0.artifactId).value.stream))
            && (notify ==> multiset(run.reports)[Report(1.0, ExportStage)] == 1)
            && (notify ==> |run.reports| >= 2 && run.reports[|run.reports| - 2..] == [Report(1.0, DownloadStage), Report(1.0, ExtractStage)])
            && run.tempRemains == !deleteOk
  {
    DoneAfterDownload(submitError, polls, fileFormat, download, elapsed, extractOk, deleteOk, notify);
    var (end, waited) := PollSpec(polls);
    var top := Report(1.0, ExportStage);
    PollReportsBelowOne(polls);
    NotIn(waited, top);
    assert multiset(waited + [top]) == multiset(waited) + multiset{top};
    DownloadCompletes(end.artifactId, waited + [top], download(end.artifactId).value, elapsed, deleteOk, notify);
  }

  lemma NotIn(r: seq<Report>, x: Report)
    requires forall i :: 0 <= i < |r| ==> r[i] != x
    ensures multiset(r)[x] == 0
  {
  }

  /** A failed or cancelled job, a cancelled wait, a failing status query and
      a missing file format download nothing and leave no temporary file. */
  lemma NothingDownloadedUnlessAsked(submitError: Option<ApiClient.ApiError>, polls: seq<Poll>, fileFormat: Option<string>,
                                     download: string -> Result<Artifact, ApiClient.ApiError>, elapsed: nat -> bool,
                                     extractOk: bool, deleteOk: bool, notify: bool)
    ensures var run := ExportSpec(submitError, polls, fileFormat, download, elapsed, extractOk, deleteOk, notify);
            && (run.downloaded.Some? <==> submitError.None? && PollSpec(polls).0.Finished? && fileFormat.Some?)
            && (run.tempFile.Some? ==> run.downloaded.Some?)
            && (run.tempRemains ==> run.tempFile.Some? && !deleteOk)
            && (submitError.None? && PollSpec(polls).0.JobFaulted? ==> run.outcome == JobFailed(PollSpec(polls).0.message))
            && (submitError.None? && PollSpec(polls).0.StatusFailed? ==> run.outcome == StatusQueryFailed(PollSpec(polls).0.error))
  {
  }

  /** The wait loop: one turn per poll until the wait is cancelled, the status
      query fails, or the job is cancelled, fails or completes with an artifact id (or the observed polls run out). */
  method WaitForJob(polls: seq<Poll>, notify: bool) returns (end: PollEnd, reports: seq<Report>)
    ensures end == PollSpec(polls).0
    ensures reports == Shown(notify, PollSpec(polls).1)
  {
    reports := [];
    ghost var waited: seq<Report> := [];
    var i := 0;
    assert polls[0..] == polls;
    assert waited + PollSpec(polls).1 == PollSpec(polls).1;
    while i < |polls|
      invariant 0 <= i <= |polls|
      invariant PollSpec(polls[i..]).0 == PollSpec(polls).0
      invariant waited + PollSpec(polls[i..]).1 == PollSpec(polls).1
      invariant reports == Shown(notify, waited)
    {
      assert polls[i..][1..] == polls[i + 1..];
      assert waited + [] == waited;
      var poll := polls[i];
      if poll.CancelRequested? {
        return WaitCanceled, reports;
      } else if poll.PollFailed? {
        return StatusFailed(poll.error), reports;
      }
      var job := poll.job;
      if job.status == Canceled {
        return JobCanceled, reports;
      } else if job.status == Faulted {
        return JobFaulted(job.exceptionMessage), reports;
      } else if job.status == RanToCompletion {
        if job.result.Some? && job.result.value.JString? {
          return Finished(job.result.value.text), reports;
        }
      }
      assert PollSpec(polls[i..]) == (PollSpec(polls[i + 1..]).0, JobReport(job) + PollSpec(polls[i + 1..]).1);
      if job.progress < 1.0 {
        waited := waited + JobReport(job);
        if notify {
          reports := reports + [Report(job.progress, ExportStage)];
        }
      }
      i := i + 1;
    }
    assert polls[i..] == [];
    end := StillRunning;
  }

  /** The copy into the temporary file: 32 KiB reads through a buffer, with a
      progress report whenever the stopwatch threshold has passed and the
      length is known and not yet reached. */
  method CopyToFile(artifact: Artifact, elapsed: nat -> bool, notify: bool) returns (written: seq<byte>, reports: seq<Report>)
    ensures written == Concat(artifact.stream)
    ensures reports == Shown(notify, CopyReports(artifact.stream, artifact.contentLength, elapsed))
  {
    var length := artifact.contentLength;
    var buffer := new byte[BufferSize];
    written := [];
    reports := [];
    var consumed: nat := 0;
    var k: nat := 0;
    ghost var copied: seq<Report> := [];
    ghost var total := CopyReports(artifact.stream, length, elapsed);
    var stream := artifact.stream;
    assert written + Concat(stream) == Concat(artifact.stream);
    assert copied + SizeReports(ReadSizes(stream), k, consumed, length, elapsed) == total;
    while true
      invariant written + Concat(stream) == Concat(artifact.stream)
      invariant copied + SizeReports(ReadSizes(stream), k, consumed, length, elapsed) == total
      invariant reports == Shown(notify, copied)
      decreases |Concat(artifact.stream)| - |written|
    {
      ghost var (before, reported, from, done) := (written, copied, consumed, stream);
      var count, rest := Read(stream, buffer, 0);
      if count == 0 {
        break;
      }
      var got := buffer[..count];
      written := written + got;
      consumed := consumed + |got|;
      if elapsed(k) {
        // the stopwatch restarts here
        if length.Some? && consumed < length.value {
          if notify {
            reports := reports + [Report(consumed as real / length.value as real, DownloadStage)];
          }
        }
      }
      copied := copied + DownloadReport(elapsed(k), consumed, length);
      CopyAdvance(done, got, rest, k, from, length, elapsed, before, reported, Concat(artifact.stream), total,
                  written, consumed, copied);
      stream := rest;
      k := k + 1;
    }
    assert stream == [];
    assert written + [] == written;
    assert copied + [] == copied;
  }

  /** `ExportAsync` from the submission on. `polls` are the turns of the wait
      loop as they happen; `reports` are the callback's calls (none when
      `notify` is false). */
  method Export(submitError: Option<ApiClient.ApiError>, polls: seq<Poll>, fileFormat: Option<string>,
                download: string -> Result<Artifact, ApiClient.ApiError>, elapsed: nat -> bool,
                extractOk: bool, deleteOk: bool, notify: bool)
    returns (outcome: ExportOutcome, reports: seq<Report>, downloaded: Option<string>, tempFile: Option<seq<byte>>, tempRemains: bool)
    ensures ExportRun(outcome, reports, downloaded, tempFile, tempRemains)
            == ExportSpec(submitError, polls, fileFormat, download, elapsed, extractOk, deleteOk, notify)
  {
    reports := [];
    downloaded := None;
    tempFile := None;
    tempRemains := false;
    if submitError.Some? {
      outcome := SubmitFailed(submitError.value);
      return;
    }
    var end;
    end, reports := WaitForJob(polls, notify);
    match end {
      case WaitCanceled => outcome := Cancelled; return;
      case StatusFailed(e) => outcome := StatusQueryFailed(e); return;
      case JobCanceled => outcome := JobWasCanceled; return;
      case JobFaulted(m) => outcome := JobFailed(m); return;
      case StillRunning => outcome := Pending; return;
      case Finished(_) =>
    }
    var id := end.artifactId;
    if notify {
      reports := reports + [Report(1.0, ExportStage)];
    }
    if fileFormat.None? {
      outcome := Done;
      return;
    }

    downloaded := Some(id);
    var response := download(id);
    if response.Err? {
      outcome := DownloadFailed(response.error);
      return;
    }
    var written, copied := CopyToFile(response.value, elapsed, notify);
    tempFile := Some(written);
    reports := reports + copied;
    if notify {
      reports := reports + [Report(1.0, DownloadStage)];
    }

    // extract, then delete the temporary file, ignoring a failure to delete
    if extractOk {
      if notify {
        reports := reports + [Report(1.0, ExtractStage)];
      }
      outcome := Done;
    } else {
      outcome := ExtractFailed;
    }
    tempRemains := !deleteOk;
  }
}
