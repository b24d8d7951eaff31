/** Jobs at work: one pass over a list of reading jobs, and a whole transfer driven
    through a sending and a receiving job. */
module TransferRuns {
  import opened FileTransfer
  import opened TransferProtocol

  // ----------------------------------------------------------------------
  // One pass over the reading jobs
  // ----------------------------------------------------------------------

  /** The jobs whose id is not in a set, in their order. */
  function Keep(jobs: seq<TransferJob>, gone: set<int>): seq<TransferJob> {
    if jobs == [] then []
    else
      var n := |jobs| - 1;
      Keep(jobs[..n], gone) + (if jobs[n].id in gone then [] else [jobs[n]])
  }

  lemma {:induction false} KeepTwice(jobs: seq<TransferJob>, a: set<int>, b: set<int>)
    ensures Keep(Keep(jobs, a), b) == Keep(jobs, a + b)
  {
    if jobs != [] {
      var n := |jobs| - 1;
      var front := Keep(jobs[..n], a);
      KeepTwice(jobs[..n], a, b);
      if jobs[n].id !in a {
        assert (front + [jobs[n]])[..|front|] == front;
      } else {
        assert front + [] == front;
        assert Keep(jobs[..n], a + b) + [] == Keep(jobs[..n], a + b);
      }
    }
  }

  lemma {:induction false} KeepAll(jobs: seq<TransferJob>)
    ensures Keep(jobs, {}) == jobs
  {
    if jobs != [] {
      KeepAll(jobs[..|jobs| - 1]);
    }
  }

  /** A job stays exactly if its id is not among those to go. */
  lemma {:induction false} Kept(jobs: seq<TransferJob>, gone: set<int>, job: TransferJob)
    ensures job in Keep(jobs, gone) <==> job in jobs && job.id !in gone
  {
    if jobs != [] {
      Kept(jobs[..|jobs| - 1], gone, job);
      assert jobs == jobs[..|jobs| - 1] + [jobs[|jobs| - 1]];
    }
  }

  method RemoveJob(id: int, jobs: seq<TransferJob>) returns (kept: seq<TransferJob>)
    ensures kept == Keep(jobs, {id})
  {
    kept := [];
    for i := 0 to |jobs|
      invariant kept == Keep(jobs[..i], {id})
    {
      assert jobs[..i + 1][..i] == jobs[..i];
      if jobs[i].id != id {
        kept := kept + [jobs[i]];
      }
    }
    assert jobs[..|jobs|] == jobs;
  }

  predicate JobSkipped(j: Job) {
    j.skipped && |j.files| == 1
  }

  /** What a pass sends on behalf of one job. */
  function PassMessages(z: Zstd, source: Files, fault: Fault, j: Job): seq<Message> {
    if j.isLastJob then []
    else
      var o := ReadStep(z, source, fault, j);
      (if o.digest then [DigestMessage(j.id, o.job.fileNum)] else [])
      + (match o.result
         case Failed => [ErrorMessage(j.id, o.job.fileNum)]
         case Sent(block) => [BlockMessage(block)]
         case Nothing =>
           if !Completed(o.job) then []
           else if JobSkipped(o.job) then [ErrorMessage(j.id, o.job.fileNum)]
           else [DoneMessage(j.id, o.job.fileNum)])
  }

  /** What a pass sends for a job, after any run of it: nothing for one left from an earlier
      session; the digest or the block that its read gives; an error when the read fails.
      When it is dropped that is its end, which is an error exactly for a job of a single
      file that was skipped last. */
  lemma PassReports(z: Zstd, source: Files, fault: Fault, j0: Job, acts: seq<Act>)
    requires FreshJob(j0) && !j0.skipped
    ensures var j := SendRun(z, source, j0, acts).job;
            var o := ReadStep(z, source, fault, j);
            var sent := PassMessages(z, source, fault, j);
            if j0.isLastJob then sent == [] && AfterPass(z, source, fault, j) == j
            else
              && AfterPass(z, source, fault, j) == o.job
              && sent == match o.result
                         case Sent(block) => [BlockMessage(block)]
                         case Failed => [ErrorMessage(j0.id, o.job.fileNum)]
                         case Nothing =>
                           if o.digest then [DigestMessage(j0.id, j.fileNum)]
                           else if !Dropped(z, source, fault, j) then []
                           else if |j0.files| == 1 && SkippedLast(z, source, j0, acts)
                           then [ErrorMessage(j0.id, j.fileNum)]
                           else [DoneMessage(j0.id, j.fileNum)]
  {
    SkippedIff(z, source, j0, acts);
    FlagsRun(z, source, j0, acts);
    hide SendRun, SkippedLast, Pack, NextChunk, JoinPath;
  }

  /** What a pass sends on behalf of the first `n` jobs. */
  function AllMessages(z: Zstd, source: Files, faults: seq<Fault>, jobs: seq<Job>, n: nat): seq<Message>
    requires n <= |faults| == |jobs|
  {
    if n == 0 then []
    else AllMessages(z, source, faults, jobs, n - 1) + PassMessages(z, source, faults[n - 1], jobs[n - 1])
  }

  function AfterPass(z: Zstd, source: Files, fault: Fault, j: Job): Job {
    if j.isLastJob then j else ReadStep(z, source, fault, j).job
  }

  /** The ids of those of the first `n` jobs that a pass finds complete. */
  function FinishedIds(z: Zstd, source: Files, faults: seq<Fault>, jobs: seq<Job>, n: nat): set<int>
    requires n <= |faults| == |jobs|
  {
    set i | 0 <= i < n && !jobs[i].isLastJob && Dropped(z, source, faults[i], jobs[i]) :: jobs[i].id
  }

  function Models(jobs: seq<TransferJob>): (models: seq<Job>)
    reads jobs
    ensures |models| == |jobs|
    ensures forall i :: 0 <= i < |jobs| ==> models[i] == jobs[i].Model()
  {
    if jobs == [] then [] else Models(jobs[..|jobs| - 1]) + [jobs[|jobs| - 1].Model()]
  }

  predicate Readable(j: Job) {
    j.file.Reading? ==> j.file.pos <= |j.file.content|
  }

  /** What a pass does with one job. */
  method HandleJob(z: Zstd, source: Files, fault: Fault, job: TransferJob, stream: Stream) returns (finished: bool)
    requires Readable(job.Model())
    modifies job, stream
    ensures job.Model() == AfterPass(z, source, fault, old(job.Model())) && Readable(job.Model())
    ensures stream.sent == old(stream.sent) + PassMessages(z, source, fault, old(job.Model()))
    ensures finished <==> !old(job.Model()).isLastJob && Dropped(z, source, fault, old(job.Model()))
  {
    hide ReadStep, Completed, JobSkipped;
    if job.isLastJob {
      return false;
    }
    ghost var sent := stream.sent;
    var r := job.Read(z, source, fault, stream);
    match r {
      case Failed =>
        stream.Send(ErrorMessage(job.id, job.fileNum));
        return false;
      case Sent(block) =>
        stream.Send(BlockMessage(block));
        return false;
      case Nothing =>
        finished := ReportDone(job, stream);
    }
  }

  /** What a job without a block to send reports, if it is complete. */
  method ReportDone(job: TransferJob, stream: Stream) returns (completed: bool)
    modifies stream
    ensures completed == Completed(job.Model())
    ensures stream.sent == old(stream.sent)
                           + if !completed then []
                             else if JobSkipped(job.Model()) then [ErrorMessage(job.id, job.fileNum)]
                             else [DoneMessage(job.id, job.fileNum)]
  {
    hide Completed;
    completed := job.JobCompleted();
    if completed {
      if job.fileSkipped && |job.files| == 1 {
        stream.Send(ErrorMessage(job.id, job.fileNum));
      } else {
        stream.Send(DoneMessage(job.id, job.fileNum));
      }
    }
  }

  function IdSet(ids: seq<int>): set<int> {
    if ids == [] then {} else IdSet(ids[..|ids| - 1]) + {ids[|ids| - 1]}
  }

  lemma IdSetStep(ids: seq<int>, id: int)
    ensures IdSet(ids + [id]) == IdSet(ids) + {id}
  {
    assert (ids + [id])[..|ids|] == ids;
  }

  method RemoveJobs(ids: seq<int>, jobs: seq<TransferJob>) returns (kept: seq<TransferJob>)
    ensures kept == Keep(jobs, IdSet(ids))
  {
    kept := jobs;
    KeepAll(jobs);
    for k := 0 to |ids|
      invariant kept == Keep(jobs, IdSet(ids[..k]))
    {
      assert ids[..k + 1][..k] == ids[..k];
      KeepTwice(jobs, IdSet(ids[..k]), {ids[k]});
      kept := RemoveJob(ids[k], kept);
    }
    assert ids[..|ids|] == ids;
  }

  /** Of the first `n` jobs what a pass makes of them, of the rest what they were. */
  function PassedUpTo(z: Zstd, source: Files, faults: seq<Fault>, jobs: seq<Job>, n: nat): seq<Job>
    requires n <= |faults| == |jobs|
  {
    seq(|jobs|, k requires 0 <= k < |jobs| => if k < n then AfterPass(z, source, faults[k], jobs[k]) else jobs[k])
  }

  lemma PassedStep(z: Zstd, source: Files, faults: seq<Fault>, jobs: seq<Job>, n: nat)
    requires n < |faults| == |jobs|
    ensures var now := PassedUpTo(z, source, faults, jobs, n);
            && now[n] == jobs[n]
            && PassedUpTo(z, source, faults, jobs, n + 1) == now[n := AfterPass(z, source, faults[n], jobs[n])]
  {
    hide AfterPass;
  }

  ghost predicate ReadyForPass(jobs: seq<TransferJob>)
    reads jobs
  {
    && (forall i, k :: 0 <= i < k < |jobs| ==> jobs[i] != jobs[k])
    && forall i :: 0 <= i < |jobs| ==> Readable(jobs[i].Model())
  }

  /** What a pass does with the job at one place of the list. */
  method HandleAt(z: Zstd, source: Files, fault: Fault, jobs: seq<TransferJob>, i: nat, stream: Stream)
    returns (finished: bool)
    requires i < |jobs| && ReadyForPass(jobs)
    modifies jobs[i], stream
    ensures Models(jobs) == old(Models(jobs))[i := AfterPass(z, source, fault, old(Models(jobs))[i])]
    ensures stream.sent == old(stream.sent) + PassMessages(z, source, fault, old(Models(jobs))[i])
    ensures finished <==> !old(Models(jobs))[i].isLastJob && Dropped(z, source, fault, old(Models(jobs))[i])
    ensures ReadyForPass(jobs) && jobs[i].id == old(Models(jobs))[i].id
  {
    hide AfterPass, PassMessages, Dropped;
    finished := HandleJob(z, source, fault, jobs[i], stream);
  }

  /** The pass has done its work on the first `n` jobs. */
  ghost predicate PassedJobs(z: Zstd, source: Files, faults: seq<Fault>, jobs: seq<TransferJob>, stream: Stream,
                             finished: seq<int>, before: seq<Job>, sent: seq<Message>, n: nat)
    reads jobs, stream
  {
    && n <= |faults| == |jobs| == |before|
    && ReadyForPass(jobs)
    && Models(jobs) == PassedUpTo(z, source, faults, before, n)
    && stream.sent == sent + AllMessages(z, source, faults, before, n)
    && IdSet(finished) == FinishedIds(z, source, faults, before, n)
  }

  lemma PassBegins(z: Zstd, source: Files, faults: seq<Fault>, jobs: seq<TransferJob>, stream: Stream)
    requires |faults| == |jobs| && ReadyForPass(jobs)
    ensures PassedJobs(z, source, faults, jobs, stream, [], Models(jobs), stream.sent, 0)
  {
    NothingPassed(z, source, faults, Models(jobs));
    hide Models, ReadyForPass, PassedUpTo, AllMessages, FinishedIds, IdSet;
  }

  lemma NothingPassed(z: Zstd, source: Files, faults: seq<Fault>, jobs: seq<Job>)
    requires |faults| == |jobs|
    ensures PassedUpTo(z, source, faults, jobs, 0) == jobs
    ensures AllMessages(z, source, faults, jobs, 0) == []
    ensures FinishedIds(z, source, faults, jobs, 0) == {} == IdSet([])
  {
    hide AfterPass, PassMessages, Dropped;
  }

  method ReadAll(z: Zstd, source: Files, faults: seq<Fault>, jobs: seq<TransferJob>, stream: Stream)
    returns (finished: seq<int>)
    requires |faults| == |jobs| && ReadyForPass(jobs)
    modifies jobs, stream
    ensures PassedJobs(z, source, faults, jobs, stream, finished, old(Models(jobs)), old(stream.sent), |jobs|)
  {
    hide *;
    ghost var before, sent := Models(jobs), stream.sent;
    finished := [];
    PassBegins(z, source, faults, jobs, stream);
    for i := 0 to |jobs|
      invariant PassedJobs(z, source, faults, jobs, stream, finished, before, sent, i)
    {
      finished := ReadNext(z, source, faults, jobs, i, stream, finished, before, sent);
    }
  }

  /** The turn of one job in the pass. */
  method ReadNext(z: Zstd, source: Files, faults: seq<Fault>, jobs: seq<TransferJob>, i: nat, stream: Stream,
                  finished: seq<int>, ghost before: seq<Job>, ghost sent: seq<Message>)
    returns (now: seq<int>)
    requires i < |jobs| == |faults| && PassedJobs(z, source, faults, jobs, stream, finished, before, sent, i)
    modifies jobs, stream
    ensures PassedJobs(z, source, faults, jobs, stream, now, before, sent, i + 1)
  {
    hide AllMessages, FinishedIds, PassedUpTo, ReadyForPass, Models, IdSet, AfterPass, PassMessages, Dropped;
    PassedStep(z, source, faults, before, i);
    MessagesStep(z, source, faults, before, i);
    var done := HandleAt(z, source, faults[i], jobs, i, stream);
    now := finished;
    if done {
      IdSetStep(finished, jobs[i].id);
      now := finished + [jobs[i].id];
    }
  }

  /** One pass over all reading jobs: each that is not left from an earlier session
      reads once, and afterwards the jobs with the id of a completed one are gone. */
  method HandleReadJobs(z: Zstd, source: Files, faults: seq<Fault>, jobs: seq<TransferJob>, stream: Stream)
    returns (kept: seq<TransferJob>)
    requires |faults| == |jobs| && ReadyForPass(jobs)
    modifies jobs, stream
    ensures Models(jobs) == PassedUpTo(z, source, faults, old(Models(jobs)), |jobs|)
    ensures stream.sent == old(stream.sent) + AllMessages(z, source, faults, old(Models(jobs)), |jobs|)
    ensures kept == Keep(jobs, FinishedIds(z, source, faults, old(Models(jobs)), |jobs|))
  {
    var finished := ReadAll(z, source, faults, jobs, stream);
    kept := RemoveJobs(finished, jobs);
  }

  /** With distinct ids a pass drops exactly the jobs that it finds complete. */
  lemma PassDrops(z: Zstd, source: Files, faults: seq<Fault>, jobs: seq<TransferJob>, before: seq<Job>, i: nat)
    requires |faults| == |jobs| == |before| && i < |jobs|
    requires forall k :: 0 <= k < |jobs| ==> before[k].id == jobs[k].id
    requires forall k, l :: 0 <= k < l < |jobs| ==> jobs[k].id != jobs[l].id
    ensures jobs[i] in Keep(jobs, FinishedIds(z, source, faults, before, |jobs|))
            <==> before[i].isLastJob || !Dropped(z, source, faults[i], before[i])
  {
    hide Dropped;
    Kept(jobs, FinishedIds(z, source, faults, before, |jobs|), jobs[i]);
  }

  lemma MessagesStep(z: Zstd, source: Files, faults: seq<Fault>, jobs: seq<Job>, i: nat)
    requires |faults| == |jobs| && i < |jobs|
    ensures AllMessages(z, source, faults, jobs, i + 1)
            == AllMessages(z, source, faults, jobs, i) + PassMessages(z, source, faults[i], jobs[i])
    ensures FinishedIds(z, source, faults, jobs, i + 1)
            == FinishedIds(z, source, faults, jobs, i)
               + if !jobs[i].isLastJob && Dropped(z, source, faults[i], jobs[i]) then {jobs[i].id} else {}
  {
    hide PassMessages, Dropped;
  }

  // ----------------------------------------------------------------------
  // A whole transfer
  // ----------------------------------------------------------------------

  /** The files before the one at hand have been sent to their end or, if they were to
      be skipped, not at all; and only files that are not to be skipped get confirmed. */
  ghost predicate Handled(s: Sender, skip: set<int>) {
    var j := s.job;
    && 0 <= j.fileNum
    && (skip != {} ==> j.detect)
    && (j.confirmed ==> j.file.Reading? && j.fileNum !in skip)
    && (j.fileNum in skip ==> Count(s.blocks, j.fileNum) == 0)
    && HandledUpTo(s.blocks, skip, j.fileNum, |j.files|)
  }

  ghost predicate HandledUpTo(blocks: seq<Block>, skip: set<int>, n: int, files: nat) {
    forall i :: 0 <= i < n && i < files ==> if i in skip then Count(blocks, i) == 0 else Ended(blocks, i)
  }

  lemma HandledNext(blocks: seq<Block>, skip: set<int>, n: int, files: nat)
    requires HandledUpTo(blocks, skip, n, files)
    requires 0 <= n < files ==> if n in skip then Count(blocks, n) == 0 else Ended(blocks, n)
    ensures HandledUpTo(blocks, skip, n + 1, files)
  {
    hide Count, Ended;
  }

  lemma HandledAppend(z: Zstd, blocks: seq<Block>, skip: set<int>, files: nat, b: Block)
    requires HandledUpTo(blocks, skip, b.fileNum, files)
    ensures HandledUpTo(blocks + [b], skip, b.fileNum, files)
  {
    AppendBlock(z, blocks, b);
    hide Count, Ended;
  }

  /** Nothing has been sent of the files behind the one at hand. */
  lemma NoneBeyond(z: Zstd, source: Files, j0: Job, s: Sender)
    requires SenderInv(z, source, j0, s)
    ensures Count(s.blocks, s.job.fileNum + 1) == 0
  {
    NoBlocks(z, s.blocks, s.job.fileNum + 1);
  }

  lemma OpenedHandled(source: Files, s: Sender, skip: set<int>)
    requires Handled(s, skip) && InRange(s.job)
    requires s.job.file.Closed? ==> PathOf(s.job, s.job.fileNum) in source
    ensures Handled(s.(job := Opened(s.job, source)), skip)
  {}

  /** Leaving a file that is to be skipped. */
  lemma LeftHandled(z: Zstd, source: Files, j0: Job, s: Sender, skip: set<int>)
    requires SenderInv(z, source, j0, s) && Handled(s, skip) && InRange(s.job)
    requires s.job.fileNum in skip
    ensures Handled(s.(job := LeaveFile(s.job)), skip) && Handled(s.(job := SkipFile(s.job)), skip)
  {
    NoneBeyond(z, source, j0, s);
    HandledNext(s.blocks, skip, s.job.fileNum, |s.job.files|);
    hide SenderInv, Count, Ended, HandledUpTo;
  }

  /** What a read gives while the transfer is driven: a block, an error for a file that
      is to be skipped, nothing because an answer is needed, or nothing at the end. */
  ghost predicate Turn(s: Sender, t: Sender, o: ReadOutcome) {
    && t.job == o.job
    && match o.result
       case Sent(b) => t.blocks == s.blocks + [b]
       case Failed => t.blocks == s.blocks
       case Nothing =>
         && t.blocks == s.blocks
         && if Completed(t.job) then !InRange(t.job) else InRange(t.job) && t.job.file.Reading?
  }

  lemma TurnOpened(z: Zstd, source: Files, j0: Job, s: Sender, skip: set<int>)
    requires Sound(z) && NeverFails(z)
    requires SenderInv(z, source, j0, s) && Handled(s, skip) && InRange(s.job) && s.job.file.Reading?
    ensures var t := SendStep(z, source, s, DoRead(NoFault));
            Handled(t, skip) && Turn(s, t, ReadStep(z, source, NoFault, s.job))
  {
    var j := s.job;
    var o := ReadStep(z, source, NoFault, j);
    assert s.blocks + [] == s.blocks && s.digests + [] == s.digests;
    if j.detect && !j.confirmed {
      hide Count, HandledUpTo, SenderInv;
    } else {
      assert FileOpen(z, source, j, s.blocks);
      ReadOutcomes(z, source, j);
      hide SenderInv, Count, HandledUpTo, ReadStep, Advances, Sound, NeverFails, FileOpen;
      BlockHandled(z, source, j0, s, skip, o.job, o.result.block);
    }
  }

  lemma BlockHandled(z: Zstd, source: Files, j0: Job, s: Sender, skip: set<int>, k: Job, b: Block)
    requires SenderInv(z, source, j0, s) && Handled(s, skip)
    requires InRange(s.job) && s.job.file.Reading? && s.job.fileNum !in skip
    requires b.fileNum == s.job.fileNum
    requires Advances(z, s.job, k, b) || (k == LeaveFile(s.job) && b.data == [])
    ensures Handled(Sender(k, s.blocks + [b], s.digests), skip)
  {
    NoneBeyond(z, source, j0, s);
    hide SenderInv;
    AppendBlock(z, s.blocks, b);
    HandledAppend(z, s.blocks, skip, |s.job.files|, b);
    if b.data == [] {
      HandledNext(s.blocks + [b], skip, s.job.fileNum, |s.job.files|);
    }
    hide Count, Ended, HandledUpTo, NextChunk, Unpack;
  }

  lemma TurnHandled(z: Zstd, source: Files, j0: Job, s: Sender, skip: set<int>)
    requires Sound(z) && NeverFails(z)
    requires SenderInv(z, source, j0, s) && Handled(s, skip)
    requires InRange(s.job) && s.job.fileNum !in skip ==> PathOf(s.job, s.job.fileNum) in source
    ensures var t := SendStep(z, source, s, DoRead(NoFault));
            Handled(t, skip) && Turn(s, t, ReadStep(z, source, NoFault, s.job))
  {
    var j := s.job;
    FromInv(z, source, j0, s);
    if !InRange(j) || (j.file.Closed? && PathOf(j, j.fileNum) !in source) {
      NotOpened(z, source, s, NoFault);
      if InRange(j) {
        LeftHandled(z, source, j0, s, skip);
      }
      hide SenderInv, Count, HandledUpTo;
    } else {
      OpenKeeps(z, source, j0, s);
      OpenFirst(z, source, s, NoFault);
      OpenedHandled(source, s, skip);
      TurnOpened(z, source, j0, s.(job := Opened(j, source)), skip);
      hide SenderInv, Handled, Pack, NextChunk;
      assert ReadStep(z, source, NoFault, j) == ReadStep(z, source, NoFault, Opened(j, source));
    }
  }

  lemma ConfirmHandled(z: Zstd, source: Files, j0: Job, s: Sender, skip: set<int>)
    requires SenderInv(z, source, j0, s) && Handled(s, skip) && InRange(s.job) && s.job.file.Reading?
    ensures Handled(SendStep(z, source, s, DoConfirm(s.job.fileNum, Skip(s.job.fileNum in skip))), skip)
  {
    if s.job.fileNum in skip {
      LeftHandled(z, source, j0, s, skip);
    }
    hide SenderInv, Count, HandledUpTo, LeaveFile;
  }

  /** Both ends of a transfer that is being driven, and the blocks in between. */
  ghost predicate Underway(z: Zstd, source: Files, j0: Job, r0: Receiver, skip: set<int>, s: Sender, r: Receiver) {
    SenderInv(z, source, j0, s) && Handled(s, skip) && r == ReceiveRun(z, r0, s.blocks)
  }

  /** One file to transfer or to skip: it has arrived, or it is what it was. */
  ghost predicate AsAsked(source: Files, j0: Job, skip: set<int>, before: Files, done: Files, k: Job, i: int)
    requires 0 <= i < |j0.files| == |k.files|
  {
    if i in skip then Untouched(before, done, k, i)
    else PathOf(j0, i) in source && Arrived(done, k, i, source[PathOf(j0, i)].data)
  }

  lemma AllAsAsked(z: Zstd, source: Files, j0: Job, r0: Receiver, skip: set<int>, s: Sender, r: Receiver)
    requires Underway(z, source, j0, r0, skip, s, r) && !InRange(s.job) && ReadyToReceive(r0)
    requires r0.job.id == j0.id && r0.job.files == j0.files
    requires r0.job.finishedSize == 0 && r0.job.transferred == 0
    ensures r.job.finishedSize == s.job.finishedSize && r.job.transferred == s.job.transferred
    ensures OthersSame(r0.files, Finish(r.files, r.job), r0.job)
    ensures forall i :: 0 <= i < |j0.files| ==> AsAsked(source, j0, skip, r0.files, Finish(r.files, r.job), r0.job, i)
  {
    var done := Finish(r.files, r.job);
    Delivered(z, source, j0, s, r0);
    assert HandledUpTo(s.blocks, skip, |j0.files|, |j0.files|);
    hide Underway, SenderInv, Finish, OthersSame, ReceiveRun, ReadyToReceive;
    forall i | 0 <= i < |j0.files|
      ensures AsAsked(source, j0, skip, r0.files, done, r0.job, i)
    {
      hide Arrived, Untouched, Content, Count, Ended;
      assert FileTransferred(z, source, j0, s.blocks, r0, done, i);
      EndedCounts(s.blocks, i);
    }
  }

  /** How close the driven transfer is to its end. */
  predicate Lower(source: Files, j: Job, k: Job) {
    || Smaller(source, j, k)
    || (FilesLeft(j) == FilesLeft(k) && BytesLeft(source, j) == BytesLeft(source, k) && j.confirmed && !k.confirmed)
  }

  lemma ReadTurn(z: Zstd, source: Files, j0: Job, r0: Receiver, skip: set<int>, s: Sender, r: Receiver)
    requires Sound(z) && NeverFails(z)
    requires Underway(z, source, j0, r0, skip, s, r)
    requires forall i :: 0 <= i < |j0.files| && i !in skip ==> PathOf(j0, i) in source
    ensures Readable(s.job)
    ensures var t := SendStep(z, source, s, DoRead(NoFault));
            var o := ReadStep(z, source, NoFault, s.job);
            && Turn(s, t, o)
            && Underway(z, source, j0, r0, skip, t, if o.result.Sent? then ReceiveStep(z, r, o.result.block) else r)
            && if o.result.Nothing? then !Completed(t.job) ==> Level(source, t.job, s.job)
               else Smaller(source, t.job, s.job)
  {
    var t := SendStep(z, source, s, DoRead(NoFault));
    assert InRange(s.job) ==> PathOf(s.job, s.job.fileNum) == PathOf(j0, s.job.fileNum);
    assert s.job.file.Reading? ==> FileOpen(z, source, s.job, s.blocks);
    TurnHandled(z, source, j0, s, skip);
    SendKeeps(z, source, j0, s, DoRead(NoFault));
    ReadProgress(z, source, NoFault, s.job);
    LevelWhenAsking(z, source, s.job) by { assert s.job.confirmed ==> s.job.file.Reading?; }
    hide SenderInv, Handled, SendStep, ReadStep, ReceiveStep, Smaller, Level, Completed, PathOf;
    var o := ReadStep(z, source, NoFault, s.job);
    if o.result.Sent? {
      assert t.blocks[..|t.blocks| - 1] == s.blocks;
    }
  }

  /** Asking for a confirmation takes nothing from what is left to do. */
  predicate Level(source: Files, j: Job, k: Job) {
    FilesLeft(j) == FilesLeft(k) && BytesLeft(source, j) == BytesLeft(source, k) && !j.confirmed && !k.confirmed
  }

  lemma LevelWhenAsking(z: Zstd, source: Files, j: Job)
    requires j.confirmed ==> j.file.Reading?
    ensures var o := ReadStep(z, source, NoFault, j);
            o.result.Nothing? && InRange(o.job) ==> Level(source, o.job, j)
  {
    hide Pack, NextChunk, JoinPath;
  }

  lemma ConfirmTurn(z: Zstd, source: Files, j0: Job, r0: Receiver, skip: set<int>, s: Sender, r: Receiver)
    requires Sound(z) && NeverFails(z)
    requires Underway(z, source, j0, r0, skip, s, r)
    requires InRange(s.job) && s.job.file.Reading? && !s.job.confirmed
    ensures var a := Skip(s.job.fileNum in skip);
            var t := SendStep(z, source, s, DoConfirm(s.job.fileNum, a));
            && t.job == ConfirmStep(s.job, s.job.fileNum, a)
            && Underway(z, source, j0, r0, skip, t, r)
            && Lower(source, t.job, s.job)
  {
    var a := DoConfirm(s.job.fileNum, Skip(s.job.fileNum in skip));
    ConfirmHandled(z, source, j0, s, skip);
    SendKeeps(z, source, j0, s, a);
    hide SenderInv, Handled;
  }

  lemma {:induction false} EndedCounts(blocks: seq<Block>, i: int)
    ensures Ended(blocks, i) ==> Count(blocks, i) > 0
  {
    if blocks != [] {
      EndedCounts(blocks[..|blocks| - 1], i);
    }
  }

  /** One turn: the sender reads once; its block goes to the receiver, or its request
      for a confirmation is answered. */
  method DriveTurn(z: Zstd, source: Files, sender: TransferJob, receiver: TransferJob, disk: Disk, stream: Stream,
                   skip: set<int>, ghost j0: Job, ghost r0: Receiver, ghost s: Sender)
    returns (over: bool, ghost t: Sender)
    requires Sound(z) && NeverFails(z) && sender != receiver
    requires s.job == sender.Model()
    requires Underway(z, source, j0, r0, skip, s, Receiver(receiver.Model(), disk.files))
    requires forall i :: 0 <= i < |j0.files| && i !in skip ==> PathOf(j0, i) in source
    modifies sender, receiver, disk, stream
    ensures t.job == sender.Model()
    ensures Underway(z, source, j0, r0, skip, t, Receiver(receiver.Model(), disk.files))
    ensures if over then !InRange(t.job) else Lower(source, t.job, s.job)
  {
    hide Underway, SendStep, ReadStep, WriteStep, ConfirmStep, Smaller, BytesLeft, FilesLeft, Sound, NeverFails, PathOf;
    ReadTurn(z, source, j0, r0, skip, s, Receiver(receiver.Model(), disk.files));
    over, t := false, SendStep(z, source, s, DoRead(NoFault));
    var r := sender.Read(z, source, NoFault, stream);
    match r {
      case Sent(block) =>
        var ok := receiver.Write(z, disk, Works, block);
      case Failed =>
      case Nothing =>
        over := sender.JobCompleted();
        if !over {
          ConfirmTurn(z, source, j0, r0, skip, t, Receiver(receiver.Model(), disk.files));
          LevelThenLower(source, s.job, t.job, ConfirmStep(t.job, t.job.fileNum, Skip(t.job.fileNum in skip)));
          t := SendStep(z, source, t, DoConfirm(t.job.fileNum, Skip(t.job.fileNum in skip)));
          sender.Confirm(sender.fileNum, Skip(sender.fileNum in skip));
        }
    }
  }

  lemma LevelThenLower(source: Files, j: Job, k: Job, l: Job)
    requires Level(source, k, j) && Lower(source, l, k)
    ensures Lower(source, l, j)
  {}

  /** A transfer from start to end: blocks go from the sender to the receiver, requests
      for confirmation are answered, and the last file is finished. It always ends.
      Afterwards every file is at the receiver exactly as it is at the source, except
      that those to be skipped are as they were, and nothing else has changed. */
  method Transfer(z: Zstd, source: Files, sender: TransferJob, receiver: TransferJob, disk: Disk, stream: Stream,
                  skip: set<int>)
    requires Sound(z) && NeverFails(z)
    requires sender != receiver && FreshJob(sender.Model()) && sender.fileNum == 0
    requires ReadyToReceive(Receiver(receiver.Model(), disk.files))
    requires receiver.id == sender.id && receiver.files == sender.files
    requires receiver.finishedSize == 0 && receiver.transferred == 0
    requires skip != {} ==> sender.enableOverwriteDetection
    requires forall i :: 0 <= i < |sender.files| && i !in skip ==> PathOf(sender.Model(), i) in source
    modifies sender, receiver, disk, stream
    ensures forall i :: 0 <= i < |sender.files| ==>
              AsAsked(source, old(sender.Model()), skip, old(disk.files), disk.files, old(receiver.Model()), i)
    ensures OthersSame(old(disk.files), disk.files, old(receiver.Model()))
    ensures receiver.finishedSize == sender.finishedSize && receiver.transferred == sender.transferred
  {
    ghost var j0, r0 := sender.Model(), Receiver(receiver.Model(), disk.files);
    ghost var s := Sender(j0, [], []);
    assert Underway(z, source, j0, r0, skip, s, r0);
    hide Underway, BytesLeft, FilesLeft, Finish, AsAsked, OthersSame, ReadyToReceive, Sound, NeverFails, PathOf;
    var over := false;
    while !over
      invariant s.job == sender.Model()
      invariant Underway(z, source, j0, r0, skip, s, Receiver(receiver.Model(), disk.files))
      invariant over ==> !InRange(s.job)
      decreases !over, FilesLeft(s.job), BytesLeft(source, s.job), !s.job.confirmed
    {
      over, s := DriveTurn(z, source, sender, receiver, disk, stream, skip, j0, r0, s);
    }
    AllAsAsked(z, source, j0, r0, skip, s, Receiver(receiver.Model(), disk.files));
    receiver.ModifyTime(disk);
  }
}
