/** Whole runs of a transfer: what the sender's blocks contain, what the receiver
    makes of them, and when a job is over. */
module TransferProtocol {
  import opened Wrappers
  import opened Bytes
  import opened FileTransfer

  // ----------------------------------------------------------------------
  // Reading a history of blocks
  // ----------------------------------------------------------------------

  function Content(z: Zstd, blocks: seq<Block>, i: int): seq<byte> {
    if blocks == [] then []
    else
      var n := |blocks| - 1;
      Content(z, blocks[..n], i) + (if blocks[n].fileNum == i then Unpack(z, blocks[n]) else [])
  }

  function Count(blocks: seq<Block>, i: int): nat {
    if blocks == [] then 0
    else
      var n := |blocks| - 1;
      Count(blocks[..n], i) + (if blocks[n].fileNum == i then 1 else 0)
  }

  /** The empty block that closes a file has been sent. */
  predicate Ended(blocks: seq<Block>, i: int) {
    blocks != [] &&
    var n := |blocks| - 1;
    Ended(blocks[..n], i) || (blocks[n].fileNum == i && blocks[n].data == [])
  }

  function Unpacked(z: Zstd, blocks: seq<Block>): nat {
    if blocks == [] then 0
    else
      var n := |blocks| - 1;
      Unpacked(z, blocks[..n]) + |Unpack(z, blocks[n])|
  }

  function Packed(blocks: seq<Block>): nat {
    if blocks == [] then 0
    else
      var n := |blocks| - 1;
      Packed(blocks[..n]) + |blocks[n].data|
  }

  lemma AppendBlock(z: Zstd, blocks: seq<Block>, b: Block)
    ensures Content(z, blocks + [b], b.fileNum) == Content(z, blocks, b.fileNum) + Unpack(z, b)
    ensures Count(blocks + [b], b.fileNum) == Count(blocks, b.fileNum) + 1
    ensures Ended(blocks + [b], b.fileNum) <==> Ended(blocks, b.fileNum) || b.data == []
    ensures forall i :: i != b.fileNum ==>
              && Content(z, blocks + [b], i) == Content(z, blocks, i)
              && Count(blocks + [b], i) == Count(blocks, i)
              && Ended(blocks + [b], i) == Ended(blocks, i)
    ensures Unpacked(z, blocks + [b]) == Unpacked(z, blocks) + |Unpack(z, b)|
    ensures Packed(blocks + [b]) == Packed(blocks) + |b.data|
  {
    assert (blocks + [b])[..|blocks|] == blocks;
  }

  lemma {:induction false} NoBlocks(z: Zstd, blocks: seq<Block>, i: int)
    requires forall k :: 0 <= k < |blocks| ==> blocks[k].fileNum != i
    ensures Content(z, blocks, i) == [] && Count(blocks, i) == 0 && !Ended(blocks, i)
  {
    if blocks != [] {
      NoBlocks(z, blocks[..|blocks| - 1], i);
    }
  }

  /** Each block of a file holds the next chunk of its data, none follows an empty one, and
      only a block without a chunk is empty. */
  ghost predicate Cut(z: Zstd, data: seq<byte>, blocks: seq<Block>, i: int) {
    blocks != [] ==>
      var front, b := blocks[..|blocks| - 1], blocks[|blocks| - 1];
      Cut(z, data, front, i) && (b.fileNum == i ==> CutNext(z, data, front, b))
  }

  ghost predicate CutNext(z: Zstd, data: seq<byte>, blocks: seq<Block>, b: Block) {
    && !Ended(blocks, b.fileNum)
    && Unpack(z, b) == NextChunk(data, |Content(z, blocks, b.fileNum)|)
    && (b.data == [] <==> Unpack(z, b) == [])
  }

  lemma CutAppend(z: Zstd, data: seq<byte>, blocks: seq<Block>, b: Block, i: int)
    ensures Cut(z, data, blocks + [b], i) <==> Cut(z, data, blocks, i) && (b.fileNum == i ==> CutNext(z, data, blocks, b))
  {
    hide CutNext;
    assert (blocks + [b])[..|blocks|] == blocks;
  }

  lemma {:induction false} NothingCut(z: Zstd, data: seq<byte>, blocks: seq<Block>, i: int)
    requires forall k :: 0 <= k < |blocks| ==> blocks[k].fileNum != i
    ensures Cut(z, data, blocks, i)
  {
    hide CutNext;
    if blocks != [] {
      NothingCut(z, data, blocks[..|blocks| - 1], i);
    }
  }

  /** What there is of some data from a place on, but no more than 131072 bytes. */
  function Part(data: seq<byte>, start: nat): seq<byte> {
    if start >= |data| then [] else data[start..if start + 131_072 < |data| then start + 131_072 else |data|]
  }

  lemma PartIs(data: seq<byte>, start: nat)
    ensures NextChunk(data, start) == Part(data, start)
  {}

  /** A block in its place among the blocks of its file. */
  ghost predicate InPlace(z: Zstd, data: seq<byte>, blocks: seq<Block>, k: nat)
    requires k < |blocks|
  {
    var i := blocks[k].fileNum;
    && Unpack(z, blocks[k]) == Part(data, |Content(z, blocks[..k], i)|)
    && (blocks[k].data == [] <==> Ended(blocks, i) && forall l :: k < l < |blocks| ==> blocks[l].fileNum != i)
  }

  /** So every block of a file holds 131072 bytes of it or the rest, from where the blocks
      before it have come to, and a block is empty exactly if it is the last of a file
      that has been sent to its end. */
  lemma {:induction false} CutInPlace(z: Zstd, data: seq<byte>, blocks: seq<Block>, k: nat)
    requires k < |blocks| && Cut(z, data, blocks, blocks[k].fileNum)
    ensures InPlace(z, data, blocks, k)
  {
    hide Content, Unpack, NextChunk, Part;
    var n := |blocks| - 1;
    PartIs(data, |Content(z, blocks[..k], blocks[k].fileNum)|);
    if k < n {
      var front := blocks[..n];
      CutInPlace(z, data, front, k);
      assert front[..k] == blocks[..k];
      assert forall l :: 0 <= l < n ==> front[l] == blocks[l];
    }
  }

  // ----------------------------------------------------------------------
  // The sender
  // ----------------------------------------------------------------------

  datatype Act = DoRead(fault: Fault) | DoConfirm(fileNum: int, answer: Answer)

  /** A job, the blocks it has sent and the files it has sent digests for. */
  datatype Sender = Sender(job: Job, blocks: seq<Block>, digests: seq<int>)

  function SendStep(z: Zstd, source: Files, s: Sender, a: Act): Sender {
    match a
    case DoConfirm(fileNum, answer) => s.(job := ConfirmStep(s.job, fileNum, answer))
    case DoRead(fault) =>
      var o := ReadStep(z, source, fault, s.job);
      Sender(o.job,
             s.blocks + (if o.result.Sent? then [o.result.block] else []),
             s.digests + (if o.digest then [o.job.fileNum] else []))
  }

  function SendRun(z: Zstd, source: Files, j0: Job, acts: seq<Act>): Sender {
    if acts == [] then Sender(j0, [], [])
    else SendStep(z, source, SendRun(z, source, j0, acts[..|acts| - 1]), acts[|acts| - 1])
  }

  predicate FreshJob(j: Job) {
    j.file.Closed? && !j.confirmed && !j.waiting && j.finishedSize == 0 && j.transferred == 0
  }

  predicate SameJob(j: Job, k: Job) {
    j.id == k.id && j.path == k.path && j.files == k.files && j.detect == k.detect && j.isLastJob == k.isLastJob
  }

  /** The number of blocks of a file: one for each started 128 KiB and an empty one. */
  function BlocksOf(size: nat): nat {
    (size + 131_071) / 131_072 + 1
  }

  /** What the blocks of a file the sender is done with add up to. */
  ghost predicate FileSent(z: Zstd, source: Files, j: Job, blocks: seq<Block>, i: int)
    requires 0 <= i < |j.files|
  {
    Count(blocks, i) > 0 ==>
      && PathOf(j, i) in source
      && Cut(z, source[PathOf(j, i)].data, blocks, i)
      && Content(z, blocks, i) <= source[PathOf(j, i)].data
      && (Ended(blocks, i) ==>
            && Content(z, blocks, i) == source[PathOf(j, i)].data
            && Count(blocks, i) == BlocksOf(|source[PathOf(j, i)].data|))
  }

  /** The file being read: what has been sent of it is what has been read of it. */
  ghost predicate FileOpen(z: Zstd, source: Files, j: Job, blocks: seq<Block>)
    requires j.file.Reading?
  {
    && InRange(j)
    && PathOf(j, j.fileNum) in source
    && j.file.content == source[PathOf(j, j.fileNum)].data
    && j.file.pos <= |j.file.content|
    && Content(z, blocks, j.fileNum) == j.file.content[..j.file.pos]
    && !Ended(blocks, j.fileNum)
    && Cut(z, j.file.content, blocks, j.fileNum)
    && (j.file.pos % BUF_SIZE == 0 || j.file.pos == |j.file.content|)
    && Count(blocks, j.fileNum) == (j.file.pos + (BUF_SIZE - 1)) / BUF_SIZE
  }

  /** Blocks carry the job's id and the numbers of its files, in order, up to the
      file being read or before the one to be opened. */
  ghost predicate Ordered(j: Job, blocks: seq<Block>) {
    && (forall k :: 0 <= k < |blocks| ==>
          && blocks[k].id == j.id
          && 0 <= blocks[k].fileNum < |j.files|
          && blocks[k].fileNum <= j.fileNum
          && (j.file.Closed? ==> blocks[k].fileNum < j.fileNum))
    && forall k, l :: 0 <= k < l < |blocks| ==> blocks[k].fileNum <= blocks[l].fileNum
  }

  /** Digests go out in the order of the files, at most one for each file, and a job waits
      only when that of its file has gone out last. */
  ghost predicate DigestsOrdered(j: Job, digests: seq<int>) {
    && (forall k :: 0 <= k < |digests| ==>
          digests[k] <= j.fileNum && (digests[k] == j.fileNum ==> j.waiting && j.file.Reading?))
    && (forall k, l :: 0 <= k < l < |digests| ==> digests[k] < digests[l])
    && (j.waiting ==> digests != [] && digests[|digests| - 1] == j.fileNum)
  }

  ghost predicate SenderInv(z: Zstd, source: Files, j0: Job, s: Sender) {
    && SameJob(j0, s.job)
    && !s.job.file.Writing?
    && Ordered(s.job, s.blocks)
    && DigestsOrdered(s.job, s.digests)
    && (s.job.waiting ==> s.job.file.Reading?)
    && (s.job.file.Reading? ==> FileOpen(z, source, s.job, s.blocks))
    && PastSent(z, source, j0, s.blocks, s.job.fileNum)
    && s.job.finishedSize == Unpacked(z, s.blocks)
    && s.job.transferred == Packed(s.blocks)
  }

  /** Opening the file at hand changes nothing about the past. */
  lemma OpenKeeps(z: Zstd, source: Files, j0: Job, s: Sender)
    requires SenderInv(z, source, j0, s)
    requires InRange(s.job) && (s.job.file.Closed? ==> PathOf(s.job, s.job.fileNum) in source)
    ensures SenderInv(z, source, j0, s.(job := Opened(s.job, source)))
  {
    if s.job.file.Closed? {
      NoBlocks(z, s.blocks, s.job.fileNum);
      NothingCut(z, source[PathOf(s.job, s.job.fileNum)].data, s.blocks, s.job.fileNum);
    }
    hide Cut;
  }

  /** Leaving a file, read to its end or not, leaves a front part of it sent. */
  lemma LeaveKeeps(z: Zstd, source: Files, j0: Job, s: Sender)
    requires SenderInv(z, source, j0, s)
    ensures SenderInv(z, source, j0, s.(job := LeaveFile(s.job)))
  {
    var j := s.job;
    if j.file.Closed? {
      NoBlocks(z, s.blocks, j.fileNum);
    }
  }

  lemma ChunkCount(size: nat, pos: nat)
    requires pos < size && pos % BUF_SIZE == 0
    ensures var next := if pos + BUF_SIZE <= size then pos + BUF_SIZE else size;
            && (next + (BUF_SIZE - 1)) / BUF_SIZE == (pos + (BUF_SIZE - 1)) / BUF_SIZE + 1
            && (next % BUF_SIZE == 0 || next == size)
  {}

  ghost predicate PastSent(z: Zstd, source: Files, j: Job, blocks: seq<Block>, upTo: int) {
    forall i :: 0 <= i < |j.files| && i < upTo ==> FileSent(z, source, j, blocks, i)
  }

  /** A further block takes nothing from the files before its own. */
  lemma PastKeeps(z: Zstd, source: Files, j: Job, blocks: seq<Block>, b: Block)
    requires PastSent(z, source, j, blocks, b.fileNum)
    ensures PastSent(z, source, j, blocks + [b], b.fileNum)
  {
    AppendBlock(z, blocks, b);
    hide Content, Count, Ended, Cut, CutNext;
    forall i | 0 <= i < |j.files| && i < b.fileNum
      ensures FileSent(z, source, j, blocks + [b], i)
    {
      assert FileSent(z, source, j, blocks, i);
      if PathOf(j, i) in source {
        CutAppend(z, source[PathOf(j, i)].data, blocks, b, i);
      }
    }
  }

  lemma OrderKeeps(j: Job, k: Job, blocks: seq<Block>, b: Block)
    requires Ordered(j, blocks) && InRange(j) && b.id == j.id && b.fileNum == j.fileNum
    requires SameJob(j, k) && k.fileNum == (if k.file.Closed? then j.fileNum + 1 else j.fileNum)
    ensures Ordered(k, blocks + [b])
  {}

  lemma ChunkOf(content: seq<byte>, pos: nat)
    requires pos < |content| && pos % BUF_SIZE == 0
    ensures var chunk := NextChunk(content, pos);
            && chunk != [] && pos + |chunk| <= |content|
            && content[..pos] + chunk == content[..pos + |chunk|]
            && ((pos + |chunk|) % BUF_SIZE == 0 || pos + |chunk| == |content|)
            && (pos + |chunk| + (BUF_SIZE - 1)) / BUF_SIZE == (pos + (BUF_SIZE - 1)) / BUF_SIZE + 1
  {
    ChunkCount(|content|, pos);
  }

  /** Reading on in the file at hand. */
  lemma OpenAdvances(z: Zstd, source: Files, j: Job, k: Job, blocks: seq<Block>, b: Block)
    requires j.file.Reading? && FileOpen(z, source, j, blocks) && j.file.pos < |j.file.content|
    requires b.fileNum == j.fileNum && b.data != []
    requires Unpack(z, b) == NextChunk(j.file.content, j.file.pos)
    requires SameJob(j, k) && k.fileNum == j.fileNum
    requires k.file == Reading(j.file.content, j.file.pos + |NextChunk(j.file.content, j.file.pos)|)
    ensures FileOpen(z, source, k, blocks + [b])
  {
    assert PathOf(j, j.fileNum) == PathOf(k, j.fileNum);
    hide NextChunk, Content, Count, Ended, Unpack, Unpacked, Packed, PathOf, Cut;
    AppendBlock(z, blocks, b);
    ChunkOf(j.file.content, j.file.pos);
    CutAppend(z, j.file.content, blocks, b, j.fileNum);
  }

  /** `k` is the job `j` after reading one more chunk, and `b` carries the chunk. */
  ghost predicate Advances(z: Zstd, j: Job, k: Job, b: Block)
    requires j.file.Reading?
  {
    var chunk := NextChunk(j.file.content, j.file.pos);
    && b.id == j.id && b.fileNum == j.fileNum && b.data != []
    && Unpack(z, b) == chunk
    && k == j.(file := Reading(j.file.content, j.file.pos + |chunk|),
               finishedSize := j.finishedSize + |chunk|, transferred := j.transferred + |b.data|)
  }

  /** One block of the file at hand. */
  lemma ChunkKeeps(z: Zstd, source: Files, j0: Job, s: Sender, k: Job, b: Block)
    requires SenderInv(z, source, j0, s) && s.job.file.Reading?
    requires s.job.file.pos < |s.job.file.content|
    requires Advances(z, s.job, k, b)
    ensures SenderInv(z, source, j0, Sender(k, s.blocks + [b], s.digests))
  {
    hide Content, Count, Ended, Unpacked, Packed, FileSent, PastSent, NextChunk, Unpack;
    assert InRange(s.job);
    AppendBlock(z, s.blocks, b);
    PastKeeps(z, source, j0, s.blocks, b);
    OrderKeeps(s.job, k, s.blocks, b);
    OpenAdvances(z, source, s.job, k, s.blocks, b);
    hide FileOpen, Ordered;
  }

  /** The empty block at the end of the file at hand. */
  lemma EndKeeps(z: Zstd, source: Files, j0: Job, s: Sender)
    requires SenderInv(z, source, j0, s) && s.job.file.Reading?
    requires s.job.file.pos == |s.job.file.content|
    ensures var j := s.job;
            SenderInv(z, source, j0,
                      s.(job := LeaveFile(j), blocks := s.blocks + [Block(j.id, j.fileNum, [], false)]))
  {
    var j := s.job;
    var b := Block(j.id, j.fileNum, [], false);
    AppendBlock(z, s.blocks, b);
    PastKeeps(z, source, j0, s.blocks, b);
    OrderKeeps(j, LeaveFile(j), s.blocks, b);
    assert Content(z, s.blocks, j.fileNum) + [] == j.file.content[..j.file.pos] == j.file.content;
    CutAppend(z, j.file.content, s.blocks, b, j.fileNum);
    assert CutNext(z, j.file.content, s.blocks, b);
    hide Content, Count, Ended, Unpacked, Packed, Ordered, Cut, CutNext;
    assert FileSent(z, source, j0, s.blocks + [b], j.fileNum);
    PastNext(z, source, j0, s.blocks + [b], j.fileNum);
    hide PastSent;
  }

  lemma PastNext(z: Zstd, source: Files, j: Job, blocks: seq<Block>, n: int)
    requires PastSent(z, source, j, blocks, n)
    requires 0 <= n < |j.files| ==> FileSent(z, source, j, blocks, n)
    ensures PastSent(z, source, j, blocks, n + 1)
  {}

  /** Opening comes first and is the same for what follows. */
  lemma OpenFirst(z: Zstd, source: Files, s: Sender, fault: Fault)
    requires InRange(s.job)
    requires s.job.file.Closed? ==> fault != OpenFails && PathOf(s.job, s.job.fileNum) in source
    ensures SendStep(z, source, s, DoRead(fault))
            == SendStep(z, source, s.(job := Opened(s.job, source)), DoRead(fault))
  {
    hide Pack, NextChunk, JoinPath;
  }

  lemma NotOpened(z: Zstd, source: Files, s: Sender, fault: Fault)
    requires !InRange(s.job) || (s.job.file.Closed? && (fault == OpenFails || PathOf(s.job, s.job.fileNum) !in source))
    ensures SendStep(z, source, s, DoRead(fault))
            == s.(job := if InRange(s.job) then LeaveFile(s.job) else s.job.(file := Closed))
  {
    assert s.blocks + [] == s.blocks && s.digests + [] == s.digests;
  }

  lemma OpenedOutcomes(z: Zstd, source: Files, s: Sender, fault: Fault)
    requires InRange(s.job) && s.job.file.Reading?
    ensures var j := s.job;
            SendStep(z, source, s, DoRead(fault)) ==
            if j.detect && !j.confirmed then
              if j.waiting || fault == DigestFails then s
              else s.(job := j.(waiting := true), digests := s.digests + [j.fileNum])
            else if fault == ReadFails then s.(job := LeaveFile(j))
            else SendStep(z, source, s, DoRead(NoFault))
  {
    hide Pack, NextChunk, JoinPath;
    assert s.blocks + [] == s.blocks && s.digests + [] == s.digests;
  }

  lemma FromInv(z: Zstd, source: Files, j0: Job, s: Sender)
    requires SenderInv(z, source, j0, s)
    ensures !s.job.file.Writing?
    ensures s.job.file.Reading? ==> InRange(s.job)
  {}

  /** Every action of the sender, with whatever goes wrong, keeps the invariant. */
  lemma SendKeeps(z: Zstd, source: Files, j0: Job, s: Sender, a: Act)
    requires Sound(z) && NeverFails(z)
    requires SenderInv(z, source, j0, s)
    ensures SenderInv(z, source, j0, SendStep(z, source, s, a))
  {
    hide SenderInv, ReadStep;
    var j := s.job;
    FromInv(z, source, j0, s);
    match a
    case DoConfirm(fileNum, answer) =>
      ConfirmKeeps(z, source, j0, s, fileNum, answer);
    case DoRead(fault) =>
      if !InRange(j) || (j.file.Closed? && (fault == OpenFails || PathOf(j, j.fileNum) !in source)) {
        LeaveKeeps(z, source, j0, s);
        NotOpened(z, source, s, fault);
        assert !InRange(j) ==> s.(job := j.(file := Closed)) == s;
      } else {
        OpenKeeps(z, source, j0, s);
        OpenFirst(z, source, s, fault);
        OpenedKeeps(z, source, j0, s.(job := Opened(j, source)), fault);
      }
  }

  lemma OpenedKeeps(z: Zstd, source: Files, j0: Job, s: Sender, fault: Fault)
    requires Sound(z) && NeverFails(z)
    requires SenderInv(z, source, j0, s) && s.job.file.Reading? && InRange(s.job)
    ensures SenderInv(z, source, j0, SendStep(z, source, s, DoRead(fault)))
  {
    hide SenderInv, ReadStep;
    var j := s.job;
    OpenedOutcomes(z, source, s, fault);
    if j.detect && !j.confirmed {
      DigestKeeps(z, source, j0, s);
    } else if fault == ReadFails {
      LeaveKeeps(z, source, j0, s);
    } else {
      ReadKeeps(z, source, j0, s);
    }
  }

  /** A digest is sent when none has been sent for the open file. */
  lemma DigestKeeps(z: Zstd, source: Files, j0: Job, s: Sender)
    requires SenderInv(z, source, j0, s) && s.job.file.Reading?
    ensures !s.job.waiting ==>
              SenderInv(z, source, j0,
                        s.(job := s.job.(waiting := true), digests := s.digests + [s.job.fileNum]))
  {
    hide PastSent;
  }

  /** Confirming changes flags that say nothing about blocks; skipping leaves the file. */
  lemma ConfirmKeeps(z: Zstd, source: Files, j0: Job, s: Sender, fileNum: int, answer: Answer)
    requires SenderInv(z, source, j0, s)
    ensures SenderInv(z, source, j0, s.(job := ConfirmStep(s.job, fileNum, answer)))
  {
    hide SenderInv;
    LeaveKeeps(z, source, j0, s);
    FlagsKeep(z, source, j0, s, SetConfirmed(s.job, true));
    FlagsKeep(z, source, j0, s.(job := LeaveFile(s.job)), SkipFile(s.job));
  }

  /** Blocks and digests have nothing to do with what is confirmed or skipped. */
  lemma FlagsKeep(z: Zstd, source: Files, j0: Job, s: Sender, k: Job)
    requires SenderInv(z, source, j0, s)
    requires k == s.job.(confirmed := k.confirmed, skipped := k.skipped)
    ensures SenderInv(z, source, j0, s.(job := k))
  {
    hide PastSent, Content, Count, Ended, Cut, PathOf, Unpacked, Packed, NextChunk;
    if s.job.file.Reading? {
      SamePaths(s.job, k);
    }
  }

  lemma ReadKeeps(z: Zstd, source: Files, j0: Job, s: Sender)
    requires Sound(z) && NeverFails(z)
    requires SenderInv(z, source, j0, s) && s.job.file.Reading? && InRange(s.job)
    requires !(s.job.detect && !s.job.confirmed)
    ensures SenderInv(z, source, j0, SendStep(z, source, s, DoRead(NoFault)))
  {
    var o := ReadStep(z, source, NoFault, s.job);
    assert s.job.file.pos <= |s.job.file.content|;
    ReadOutcomes(z, source, s.job);
    hide SenderInv, ReadStep, Advances, NextChunk, Pack, Unpack, Sound, NeverFails;
    assert SendStep(z, source, s, DoRead(NoFault)) == Sender(o.job, s.blocks + [o.result.block], s.digests) by {
      assert s.digests + [] == s.digests;
    }
    if s.job.file.pos < |s.job.file.content| {
      ChunkKeeps(z, source, j0, s, o.job, o.result.block);
    } else {
      EndKeeps(z, source, j0, s);
    }
  }

  /** What an answer decides for a file that has been asked about: confirmed, with whatever
      offset, its data goes out from where the file stands; skipped, the next file is at
      hand; any other answer, and one for another number, changes nothing. */
  lemma AnswerDecides(z: Zstd, source: Files, j: Job, fileNum: int, answer: Answer)
    requires Sound(z) && NeverFails(z)
    requires InRange(j) && j.file.Reading? && j.file.pos <= |j.file.content|
    requires j.detect && !j.confirmed && j.waiting
    ensures var k := ConfirmStep(j, fileNum, answer);
            var o := ReadStep(z, source, NoFault, k);
            if fileNum != j.fileNum || answer.NoAnswer? then k == j && o == ReadOutcome(j, Nothing, false)
            else if answer == Skip(true) then
              && k.fileNum == j.fileNum + 1 && k.file.Closed? && k.skipped && !k.confirmed && !k.waiting
              && !o.result.Sent?
            else
              && o.result.Sent? && o.result.block.fileNum == j.fileNum
              && Unpack(z, o.result.block) == Part(j.file.content, j.file.pos) && !k.skipped
  {
    PartIs(j.file.content, j.file.pos);
    if fileNum == j.fileNum && !answer.NoAnswer? && answer != Skip(true) {
      ReadOutcomes(z, source, SetConfirmed(j, true));
      ChunkEmpty(j.file.content, j.file.pos);
    }
    hide NextChunk, Part, Pack, JoinPath;
  }

  /** What one read of an open, confirmed file gives: a block of what comes next, or
      the empty block that closes the file. */
  lemma ReadOutcomes(z: Zstd, source: Files, j: Job)
    requires Sound(z) && NeverFails(z)
    requires j.file.Reading? && j.file.pos <= |j.file.content| && InRange(j)
    requires !(j.detect && !j.confirmed)
    ensures var o := ReadStep(z, source, NoFault, j);
            && o.result.Sent? && !o.digest
            && if j.file.pos < |j.file.content| then Advances(z, j, o.job, o.result.block)
               else o.job == LeaveFile(j) && o.result.block == Block(j.id, j.fileNum, [], false)
  {
    hide NextChunk, JoinPath, Pack, Unpack, Sound, NeverFails;
    var name, chunk := j.files[j.fileNum].name, NextChunk(j.file.content, j.file.pos);
    ChunkEmpty(j.file.content, j.file.pos);
    PackNonempty(z, j.id, j.fileNum, name, chunk);
    PackNames(z, j.id, j.fileNum, name, chunk);
  }

  lemma ChunkEmpty(content: seq<byte>, pos: nat)
    ensures NextChunk(content, pos) == [] <==> |content| <= pos
  {}

  lemma PackNames(z: Zstd, id: int, fileNum: int, name: string, chunk: seq<byte>)
    ensures var b := Pack(z, id, fileNum, name, chunk);
            b.id == id && b.fileNum == fileNum && (chunk == [] ==> b == Block(id, fileNum, [], false))
  {}

  lemma {:induction false} SendRunInv(z: Zstd, source: Files, j0: Job, acts: seq<Act>)
    requires Sound(z) && NeverFails(z) && FreshJob(j0)
    ensures SenderInv(z, source, j0, SendRun(z, source, j0, acts))
  {
    if acts != [] {
      var n := |acts| - 1;
      SendRunInv(z, source, j0, acts[..n]);
      hide SenderInv;
      SendKeeps(z, source, j0, SendRun(z, source, j0, acts[..n]), acts[n]);
    }
  }

  // ----------------------------------------------------------------------
  // The receiver
  // ----------------------------------------------------------------------

  datatype Receiver = Receiver(job: Job, files: Files)

  function ReceiveStep(z: Zstd, r: Receiver, b: Block): Receiver {
    var o := WriteStep(z, r.files, Works, r.job, b);
    Receiver(o.job, o.files)
  }

  function ReceiveRun(z: Zstd, r0: Receiver, blocks: seq<Block>): Receiver {
    if blocks == [] then r0
    else ReceiveStep(z, ReceiveRun(z, r0, blocks[..|blocks| - 1]), blocks[|blocks| - 1])
  }

  /** A receiver before its first block. No two files go to the same path, no file to
      a path that another uses while it is being written, and there is no leftover
      of an earlier transfer of the file that the job starts with. */
  ghost predicate ReadyToReceive(r: Receiver) {
    var j := r.job;
    && j.file.Closed?
    && (forall i, k :: 0 <= i < k < |j.files| ==> PathOf(j, i) != PathOf(j, k))
    && (forall i, k :: 0 <= i < |j.files| && 0 <= k < |j.files| ==> PathOf(j, i) != DownloadPath(PathOf(j, k)))
    && (InRange(j) ==> DownloadPath(PathOf(j, j.fileNum)) !in r.files)
  }

  /** With relative names that can be told from the names: they differ, and none is another
      one with `.download` added. */
  lemma ReadyByNames(r: Receiver)
    requires forall i :: 0 <= i < |r.job.files| ==> Relative(r.job.files[i].name)
    ensures var j := r.job;
            ReadyToReceive(r)
            <==> && j.file.Closed?
                 && (forall i, k :: 0 <= i < k < |j.files| ==> j.files[i].name != j.files[k].name)
                 && (forall i, k :: 0 <= i < |j.files| && 0 <= k < |j.files| ==> j.files[i].name != j.files[k].name + ".download")
                 && (InRange(j) ==> PathOf(j, j.fileNum) + ".download" !in r.files)
  {
    var j := r.job;
    forall i, k | 0 <= i < |j.files| && 0 <= k < |j.files|
      ensures PathOf(j, i) == PathOf(j, k) <==> j.files[i].name == j.files[k].name
      ensures PathOf(j, i) == DownloadPath(PathOf(j, k)) <==> j.files[i].name == j.files[k].name + ".download"
    {
      PathsOfNames(j.path, j.files[i].name, j.files[k].name);
    }
    assert InRange(j) ==> DownloadPath(PathOf(j, j.fileNum)) == PathOf(j, j.fileNum) + ".download";
    hide PathOf, DownloadPath;
  }

  ghost predicate SameAt(f: Files, g: Files, path: Path) {
    (path in f <==> path in g) && (path in f ==> f[path] == g[path])
  }

  ghost predicate SameDataAt(f: Files, g: Files, path: Path) {
    (path in f <==> path in g) && (path in f ==> f[path].data == g[path].data)
  }

  /** The file has arrived under its name, with its time, and is not being written. */
  ghost predicate Arrived(files: Files, j: Job, i: int, data: seq<byte>)
    requires 0 <= i < |j.files|
  {
    && PathOf(j, i) in files
    && files[PathOf(j, i)] == Inode(data, Some(j.files[i].modifiedTime))
    && DownloadPath(PathOf(j, i)) !in files
  }

  /** The file has not been touched, apart from its time. */
  ghost predicate Untouched(before: Files, files: Files, j: Job, i: int)
    requires 0 <= i < |j.files|
  {
    SameDataAt(before, files, PathOf(j, i)) && SameAt(before, files, DownloadPath(PathOf(j, i)))
  }

  ghost predicate OthersSame(before: Files, files: Files, j: Job) {
    forall path :: (forall i :: 0 <= i < |j.files| ==> path != PathOf(j, i) && path != DownloadPath(PathOf(j, i)))
                   ==> SameAt(before, files, path)
  }

  /** The file being written holds what has come for it. */
  ghost predicate Being(before: Files, files: Files, j: Job, i: int, data: seq<byte>)
    requires 0 <= i < |j.files|
  {
    && DownloadPath(PathOf(j, i)) in files
    && files[DownloadPath(PathOf(j, i))].data == data
    && SameDataAt(before, files, PathOf(j, i))
  }

  /** What is on the disk after a number of blocks: `m` is the file being written, or
      none if negative. */
  ghost predicate Landed(z: Zstd, r0: Receiver, blocks: seq<Block>, files: Files, m: int) {
    var j := r0.job;
    && OthersSame(r0.files, files, j)
    && forall i :: 0 <= i < |j.files| ==>
         if i == m then Being(r0.files, files, j, i, Content(z, blocks, i))
         else if Count(blocks, i) > 0 then Arrived(files, j, i, Content(z, blocks, i))
         else Untouched(r0.files, files, j, i)
  }

  ghost predicate ReceiverInv(z: Zstd, r0: Receiver, blocks: seq<Block>, r: Receiver) {
    && SameJob(r0.job, r.job)
    && r.job.finishedSize == r0.job.finishedSize + Unpacked(z, blocks)
    && r.job.transferred == r0.job.transferred + Packed(blocks)
    && if blocks == [] then r == r0
       else
         var m := blocks[|blocks| - 1].fileNum;
         && 0 <= m < |r0.job.files|
         && r.job.fileNum == m
         && r.job.file == Writing(DownloadPath(PathOf(r0.job, m)))
         && Landed(z, r0, blocks, r.files, m)
  }

  /** The blocks are for this job and come file by file. */
  ghost predicate InOrder(j: Job, blocks: seq<Block>) {
    && (forall k :: 0 <= k < |blocks| ==> blocks[k].id == j.id && 0 <= blocks[k].fileNum < |j.files|)
    && forall k, l :: 0 <= k < l < |blocks| ==> blocks[k].fileNum <= blocks[l].fileNum
  }

  lemma FinishEffect(files: Files, j: Job)
    requires InRange(j)
    ensures var path := PathOf(j, j.fileNum);
            var done := Finish(files, j);
            && DownloadPath(path) != path
            && DownloadPath(path) !in done
            && (forall p :: p != path && p != DownloadPath(path) ==> SameAt(files, done, p))
            && if DownloadPath(path) in files
               then Arrived(done, j, j.fileNum, files[DownloadPath(path)].data)
               else SameDataAt(files, done, path)
  {
    assert |DownloadPath(PathOf(j, j.fileNum))| > |PathOf(j, j.fileNum)|;
  }

  lemma PathsApart(r: Receiver, i: int, k: int)
    requires ReadyToReceive(r)
    requires 0 <= i < |r.job.files| && 0 <= k < |r.job.files| && i != k
    ensures PathOf(r.job, i) != PathOf(r.job, k)
    ensures DownloadPath(PathOf(r.job, i)) != DownloadPath(PathOf(r.job, k))
    ensures PathOf(r.job, i) != DownloadPath(PathOf(r.job, k))
    ensures DownloadPath(PathOf(r.job, i)) != PathOf(r.job, k)
  {
    var p, q := PathOf(r.job, i), PathOf(r.job, k);
    assert p == DownloadPath(p)[..|DownloadPath(p)| - 9];
    assert q == DownloadPath(q)[..|DownloadPath(q)| - 9];
  }

  /** What holds of a file's two paths holds as long as nothing happens there. */
  lemma Carried(before: Files, f: Files, g: Files, j: Job, i: int, data: seq<byte>)
    requires 0 <= i < |j.files|
    requires SameAt(f, g, PathOf(j, i)) && SameAt(f, g, DownloadPath(PathOf(j, i)))
    ensures Arrived(f, j, i, data) ==> Arrived(g, j, i, data)
    ensures Untouched(before, f, j, i) ==> Untouched(before, g, j, i)
  {
    hide PathOf, DownloadPath;
  }

  lemma OthersCarried(before: Files, f: Files, g: Files, j: Job, m: int)
    requires OthersSame(before, f, j) && 0 <= m < |j.files|
    requires forall p :: p != PathOf(j, m) && p != DownloadPath(PathOf(j, m)) ==> SameAt(f, g, p)
    ensures OthersSame(before, g, j)
  {
    hide PathOf, DownloadPath;
    forall p | forall i :: 0 <= i < |j.files| ==> p != PathOf(j, i) && p != DownloadPath(PathOf(j, i))
      ensures SameAt(before, g, p)
    {
      assert SameAt(before, f, p);
      assert p != PathOf(j, m) && p != DownloadPath(PathOf(j, m));
      assert SameAt(f, g, p);
    }
  }

  /** Everything that is on the disk for the files but the one at hand stays there. */
  lemma LandedElsewhere(z: Zstd, r0: Receiver, blocks: seq<Block>, f: Files, g: Files, m: int, n: int)
    requires ReadyToReceive(r0) && 0 <= m < |r0.job.files|
    requires Landed(z, r0, blocks, f, n)
    requires forall p :: p != PathOf(r0.job, m) && p != DownloadPath(PathOf(r0.job, m)) ==> SameAt(f, g, p)
    ensures OthersSame(r0.files, g, r0.job)
    ensures forall i :: 0 <= i < |r0.job.files| && i != m && i != n ==>
              if Count(blocks, i) > 0 then Arrived(g, r0.job, i, Content(z, blocks, i))
              else Untouched(r0.files, g, r0.job, i)
  {
    var j := r0.job;
    OthersCarried(r0.files, f, g, j, m);
    hide PathOf, DownloadPath, OthersSame, ReadyToReceive, Content, Count, Arrived, Untouched;
    forall i | 0 <= i < |j.files| && i != m && i != n
      ensures if Count(blocks, i) > 0 then Arrived(g, j, i, Content(z, blocks, i))
              else Untouched(r0.files, g, j, i)
    {
      PathsApart(r0, i, m);
      Carried(r0.files, f, g, j, i, Content(z, blocks, i));
    }
  }

  lemma NothingLanded(z: Zstd, r0: Receiver)
    ensures Landed(z, r0, [], r0.files, -1)
  {}

  /** Finishing the file being written, if any, completes the picture. */
  lemma FinishLands(z: Zstd, r0: Receiver, blocks: seq<Block>, r: Receiver)
    requires ReadyToReceive(r0) && InOrder(r0.job, blocks)
    requires ReceiverInv(z, r0, blocks, r)
    ensures Landed(z, r0, blocks, Finish(r.files, r.job), -1)
  {
    hide ReadyToReceive, InOrder, ReceiverInv, Landed, Finish;
    if blocks == [] {
      FinishNothing(z, r0, r);
    } else {
      FinishLast(z, r0, blocks, r);
    }
  }

  /** Before the first block there is nothing to finish. */
  lemma FinishNothing(z: Zstd, r0: Receiver, r: Receiver)
    requires ReadyToReceive(r0) && ReceiverInv(z, r0, [], r)
    ensures Landed(z, r0, [], Finish(r.files, r.job), -1)
  {
    hide Landed, Unpacked, Packed;
    assert r == r0;
    NothingLanded(z, r0);
    if InRange(r0.job) {
      assert DownloadPath(PathOf(r0.job, r0.job.fileNum)) !in r0.files;
      FinishEffect(r0.files, r0.job);
      hide Finish, DownloadPath, PathOf, OthersSame, Content, ReadyToReceive;
      LandedElsewhere(z, r0, [], r0.files, Finish(r0.files, r0.job), r0.job.fileNum, -1);
      UntouchedFirst(z, r0, Finish(r0.files, r0.job));
    }
  }

  lemma UntouchedFirst(z: Zstd, r0: Receiver, done: Files)
    requires InRange(r0.job) && OthersSame(r0.files, done, r0.job)
    requires Untouched(r0.files, done, r0.job, r0.job.fileNum)
    requires forall i :: 0 <= i < |r0.job.files| && i != r0.job.fileNum && i != -1 ==>
               if Count([], i) > 0 then Arrived(done, r0.job, i, Content(z, [], i))
               else Untouched(r0.files, done, r0.job, i)
    ensures Landed(z, r0, [], done, -1)
  {
    hide OthersSame, Untouched, Arrived;
  }

  /** The file that the last block was for gets its name. */
  lemma FinishLast(z: Zstd, r0: Receiver, blocks: seq<Block>, r: Receiver)
    requires ReadyToReceive(r0) && ReceiverInv(z, r0, blocks, r) && blocks != []
    ensures Landed(z, r0, blocks, Finish(r.files, r.job), -1)
  {
    hide ReadyToReceive, Unpacked, Packed, Content, Count, DownloadPath, PathOf, OthersSame;
    var j, m, done := r0.job, r.job.fileNum, Finish(r.files, r.job);
    SamePaths(j, r.job);
    FinishEffect(r.files, r.job);
    hide Finish;
    LandedElsewhere(z, r0, blocks, r.files, done, m, m);
    assert Being(r0.files, r.files, j, m, Content(z, blocks, m));
    assert Arrived(done, j, m, Content(z, blocks, m));
    LastCounts(blocks);
    hide Arrived, Untouched, Being;
  }

  lemma LastCounts(blocks: seq<Block>)
    requires blocks != []
    ensures Count(blocks, blocks[|blocks| - 1].fileNum) > 0
  {}

  /** Data that goes to the file at hand, and nowhere else. */
  lemma StoreLands(z: Zstd, r0: Receiver, blocks: seq<Block>, f: Files, g: Files, n: int, b: Block)
    requires ReadyToReceive(r0) && 0 <= b.fileNum < |r0.job.files|
    requires Landed(z, r0, blocks, f, n)
    requires n == b.fileNum || (n == -1 && Count(blocks, b.fileNum) == 0)
    requires var d := DownloadPath(PathOf(r0.job, b.fileNum));
             && (forall p :: p != d ==> SameAt(f, g, p))
             && d in g && g[d].data == Content(z, blocks, b.fileNum) + Unpack(z, b)
    ensures Landed(z, r0, blocks + [b], g, b.fileNum)
  {
    var j, m := r0.job, b.fileNum;
    AppendBlock(z, blocks, b);
    assert PathOf(j, m) != DownloadPath(PathOf(j, m));
    LandedElsewhere(z, r0, blocks, f, g, m, n);
    assert Being(r0.files, g, j, m, Content(z, blocks + [b], m)) by {
      assert SameAt(f, g, PathOf(j, m));
      assert if n == m then Being(r0.files, f, j, m, Content(z, blocks, m)) else Untouched(r0.files, f, j, m);
    }
    hide PathOf, DownloadPath, OthersSame, ReadyToReceive, Content, Count, Arrived, Untouched, Being, SameAt, Unpack;
  }

  /** One more block lands: in the file being written, or in a new one. */
  lemma BlockLands(z: Zstd, r0: Receiver, blocks: seq<Block>, r: Receiver, b: Block)
    requires ReadyToReceive(r0) && InOrder(r0.job, blocks + [b])
    requires ReceiverInv(z, r0, blocks, r)
    ensures b.id == r0.job.id && 0 <= b.fileNum < |r0.job.files|
    ensures Landed(z, r0, blocks + [b], ReceiveStep(z, r, b).files, b.fileNum)
  {
    var j, m := r0.job, b.fileNum;
    InOrderFront(j, blocks, b);
    hide Content, Count, Arrived, Untouched, OthersSame, Unpack, PathOf, DownloadPath, ReadyToReceive, InOrder,
      Unpacked, Packed, SameDataAt, WriteStep;
    var d := DownloadPath(PathOf(j, m));
    if blocks != [] && m == r.job.fileNum {
      assert Being(r0.files, r.files, j, m, Content(z, blocks, m));
      StoreLands(z, r0, blocks, r.files, Append(r.files, d, Unpack(z, b)), m, b);
      SameFileStep(z, r, b);
    } else {
      FinishLands(z, r0, blocks, r);
      NoBlocks(z, blocks, m);
      assert [] + Unpack(z, b) == Unpack(z, b);
      var done := Finish(r.files, r.job);
      StoreLands(z, r0, blocks, done, Append(done[d := Inode([], None)], d, Unpack(z, b)), -1, b);
      NewFileStep(z, r, b);
    }
  }

  lemma JobAfterBlock(z: Zstd, r: Receiver, b: Block)
    requires b.id == r.job.id && 0 <= b.fileNum < |r.job.files|
    requires r.job.file.Closed? || (InRange(r.job) && r.job.file == Writing(DownloadPath(PathOf(r.job, r.job.fileNum))))
    ensures var o := WriteStep(z, r.files, Works, r.job, b);
            && o.ok && SameJob(r.job, o.job)
            && o.job.fileNum == b.fileNum && o.job.file == Writing(DownloadPath(PathOf(r.job, b.fileNum)))
            && o.job.finishedSize == r.job.finishedSize + |Unpack(z, b)|
            && o.job.transferred == r.job.transferred + |b.data|
  {
    hide PathOf, DownloadPath, Unpack, Finish;
  }

  lemma ReceiveKeeps(z: Zstd, r0: Receiver, blocks: seq<Block>, r: Receiver, b: Block)
    requires ReadyToReceive(r0) && InOrder(r0.job, blocks + [b])
    requires ReceiverInv(z, r0, blocks, r)
    ensures ReceiverInv(z, r0, blocks + [b], ReceiveStep(z, r, b))
    ensures WriteStep(z, r.files, Works, r.job, b).ok
  {
    hide ReadyToReceive, ReceiverInv, Landed, WriteStep, ReceiveStep, PathOf, DownloadPath, Unpack, InOrder, Content, Count,
      Ended, Unpacked, Packed;
    BlockLands(z, r0, blocks, r, b);
    ReceiverHandle(z, r0, blocks, r);
    JobAfterBlock(z, r, b);
    ReceiverNext(z, r0, blocks, r, b);
  }

  lemma ReceiverHandle(z: Zstd, r0: Receiver, blocks: seq<Block>, r: Receiver)
    requires ReadyToReceive(r0) && ReceiverInv(z, r0, blocks, r)
    ensures SameJob(r0.job, r.job)
    ensures r.job.file.Closed? || (InRange(r.job) && r.job.file == Writing(DownloadPath(PathOf(r.job, r.job.fileNum))))
  {
    SamePaths(r0.job, r.job);
    hide Landed, PathOf, DownloadPath, Unpacked, Packed;
  }

  lemma ReceiverNext(z: Zstd, r0: Receiver, blocks: seq<Block>, r: Receiver, b: Block)
    requires ReceiverInv(z, r0, blocks, r) && SameJob(r0.job, r.job) && 0 <= b.fileNum < |r0.job.files|
    requires Landed(z, r0, blocks + [b], ReceiveStep(z, r, b).files, b.fileNum)
    requires var o := WriteStep(z, r.files, Works, r.job, b);
             && SameJob(r.job, o.job)
             && o.job.fileNum == b.fileNum && o.job.file == Writing(DownloadPath(PathOf(r.job, b.fileNum)))
             && o.job.finishedSize == r.job.finishedSize + |Unpack(z, b)|
             && o.job.transferred == r.job.transferred + |b.data|
    ensures ReceiverInv(z, r0, blocks + [b], ReceiveStep(z, r, b))
  {
    hide Landed, WriteStep, PathOf, DownloadPath, Unpack, Unpacked, Packed, Content, Count, Ended;
    AppendBlock(z, blocks, b);
    SamePaths(r0.job, r.job);
    assert (blocks + [b])[|blocks|] == b && blocks + [b] != [];
  }

  lemma SamePaths(j: Job, k: Job)
    requires SameJob(j, k)
    ensures forall i :: 0 <= i < |j.files| ==> PathOf(j, i) == PathOf(k, i)
  {}

  lemma InOrderFront(j: Job, blocks: seq<Block>, b: Block)
    requires InOrder(j, blocks + [b])
    ensures InOrder(j, blocks) && b.id == j.id && 0 <= b.fileNum < |j.files|
    ensures forall k :: 0 <= k < |blocks| ==> blocks[k].fileNum <= b.fileNum
    ensures blocks != [] && blocks[|blocks| - 1].fileNum != b.fileNum ==>
              forall k :: 0 <= k < |blocks| ==> blocks[k].fileNum != b.fileNum
  {
    var all, n := blocks + [b], |blocks|;
    assert all[n] == b;
    assert forall k :: 0 <= k < n ==> all[k] == blocks[k];
    forall k | 0 <= k < n
      ensures blocks[k].fileNum <= b.fileNum
      ensures blocks[k].fileNum <= blocks[n - 1].fileNum
    {
      assert all[k].fileNum <= all[n].fileNum;
      assert k < n - 1 ==> all[k].fileNum <= all[n - 1].fileNum;
    }
  }

  lemma SameFileStep(z: Zstd, r: Receiver, b: Block)
    requires b.id == r.job.id && InRange(r.job) && b.fileNum == r.job.fileNum && r.job.file.Writing?
    ensures WriteStep(z, r.files, Works, r.job, b).files == Append(r.files, r.job.file.path, Unpack(z, b))
  {}

  lemma NewFileStep(z: Zstd, r: Receiver, b: Block)
    requires b.id == r.job.id && 0 <= b.fileNum < |r.job.files|
    requires b.fileNum != r.job.fileNum || r.job.file.Closed?
    ensures var d := DownloadPath(PathOf(r.job, b.fileNum));
            WriteStep(z, r.files, Works, r.job, b).files
            == Append(Finish(r.files, r.job)[d := Inode([], None)], d, Unpack(z, b))
  {}

  lemma {:induction false} ReceiveRunInv(z: Zstd, r0: Receiver, blocks: seq<Block>)
    requires ReadyToReceive(r0) && InOrder(r0.job, blocks)
    ensures ReceiverInv(z, r0, blocks, ReceiveRun(z, r0, blocks))
  {
    if blocks != [] {
      var n := |blocks| - 1;
      assert blocks == blocks[..n] + [blocks[n]];
      InOrderFront(r0.job, blocks[..n], blocks[n]);
      ReceiveRunInv(z, r0, blocks[..n]);
      hide ReceiverInv, ReadyToReceive, InOrder;
      ReceiveKeeps(z, r0, blocks[..n], ReceiveRun(z, r0, blocks[..n]), blocks[n]);
    }
  }

  /** A block is refused exactly if it is not for this job or for none of its files, and then
      nothing has happened, to the job or to the disk. */
  lemma RefusedIff(z: Zstd, files: Files, j: Job, b: Block)
    requires !j.file.Reading?
    ensures var o := WriteStep(z, files, Works, j, b);
            && (o.ok <==> b.id == j.id && 0 <= b.fileNum < |j.files|)
            && (!o.ok ==> o.job == j && o.files == files)
  {
    hide Unpack, PathOf, DownloadPath, Finish, Renamed, Append;
  }

  // ----------------------------------------------------------------------
  // End to end
  // ----------------------------------------------------------------------

  lemma AllSent(z: Zstd, source: Files, j0: Job, s: Sender)
    requires SenderInv(z, source, j0, s)
    ensures InOrder(j0, s.blocks)
    ensures PastSent(z, source, j0, s.blocks, |j0.files|)
  {
    forall i | 0 <= i < |j0.files|
      ensures FileSent(z, source, j0, s.blocks, i)
    {
      if i > s.job.fileNum || (i == s.job.fileNum && s.job.file.Closed?) {
        NoBlocks(z, s.blocks, i);
      }
    }
  }

  /** What a transfer leaves on the receiver's disk: a file whose last block was sent
      arrives exactly as it is at the source; one given up on the way arrives as a
      front part of it; one of which no block was sent keeps its content; and nothing
      else changes. */
  ghost predicate Transferred(z: Zstd, source: Files, j0: Job, blocks: seq<Block>, r0: Receiver, done: Files)
    requires j0.files == r0.job.files
  {
    && OthersSame(r0.files, done, r0.job)
    && forall i :: 0 <= i < |j0.files| ==> FileTransferred(z, source, j0, blocks, r0, done, i)
  }

  ghost predicate FileTransferred(z: Zstd, source: Files, j0: Job, blocks: seq<Block>, r0: Receiver, done: Files, i: int)
    requires j0.files == r0.job.files && 0 <= i < |j0.files|
  {
    if Count(blocks, i) == 0 then Untouched(r0.files, done, r0.job, i)
    else
      && PathOf(j0, i) in source
      && var data := source[PathOf(j0, i)].data;
      && (forall k :: 0 <= k < |blocks| && blocks[k].fileNum == i ==> InPlace(z, data, blocks, k))
      && if Ended(blocks, i) then Arrived(done, r0.job, i, data) && Count(blocks, i) == BlocksOf(|data|)
      else Content(z, blocks, i) <= data && Arrived(done, r0.job, i, Content(z, blocks, i))
  }

  /** For every run of the sender, whatever fails, is confirmed or is skipped on the
      way: feeding its blocks to the receiver in order and finishing the last file
      transfers the files, and both sides have counted the same. */
  lemma EndToEnd(z: Zstd, source: Files, j0: Job, acts: seq<Act>, r0: Receiver)
    requires Sound(z) && NeverFails(z)
    requires FreshJob(j0) && ReadyToReceive(r0)
    requires r0.job.id == j0.id && r0.job.files == j0.files
    requires r0.job.finishedSize == 0 && r0.job.transferred == 0
    ensures var s := SendRun(z, source, j0, acts);
            var r := ReceiveRun(z, r0, s.blocks);
            && Transferred(z, source, j0, s.blocks, r0, Finish(r.files, r.job))
            && r.job.finishedSize == s.job.finishedSize
            && r.job.transferred == s.job.transferred
  {
    SendRunInv(z, source, j0, acts);
    hide SenderInv, ReadyToReceive, Transferred, SendRun, ReceiveRun, Finish;
    Delivered(z, source, j0, SendRun(z, source, j0, acts), r0);
  }

  lemma Delivered(z: Zstd, source: Files, j0: Job, s: Sender, r0: Receiver)
    requires SenderInv(z, source, j0, s) && ReadyToReceive(r0)
    requires r0.job.id == j0.id && r0.job.files == j0.files
    requires r0.job.finishedSize == 0 && r0.job.transferred == 0
    ensures var r := ReceiveRun(z, r0, s.blocks);
            && Transferred(z, source, j0, s.blocks, r0, Finish(r.files, r.job))
            && r.job.finishedSize == s.job.finishedSize
            && r.job.transferred == s.job.transferred
  {
    hide SenderInv, ReceiverInv, Transferred, Landed, PastSent, Finish, ReceiveRun, ReadyToReceive;
    var r := ReceiveRun(z, r0, s.blocks);
    AllSent(z, source, j0, s);
    ReceiveRunInv(z, r0, s.blocks);
    FinishLands(z, r0, s.blocks, r);
    AllTransferred(z, source, j0, s.blocks, r0, Finish(r.files, r.job));
    SameSizes(z, source, j0, s, r0, r);
  }

  lemma AllTransferred(z: Zstd, source: Files, j0: Job, blocks: seq<Block>, r0: Receiver, done: Files)
    requires j0.files == r0.job.files
    requires PastSent(z, source, j0, blocks, |j0.files|) && Landed(z, r0, blocks, done, -1)
    ensures Transferred(z, source, j0, blocks, r0, done)
  {
    hide Content, Count, Ended, Arrived, Untouched, OthersSame, PathOf, BlocksOf, Cut, InPlace;
    forall i | 0 <= i < |j0.files|
      ensures FileTransferred(z, source, j0, blocks, r0, done, i)
    {
      assert FileSent(z, source, j0, blocks, i);
      if Count(blocks, i) > 0 {
        forall k | 0 <= k < |blocks| && blocks[k].fileNum == i
          ensures InPlace(z, source[PathOf(j0, i)].data, blocks, k)
        {
          CutInPlace(z, source[PathOf(j0, i)].data, blocks, k);
        }
      }
      assert if Count(blocks, i) > 0 then Arrived(done, r0.job, i, Content(z, blocks, i))
             else Untouched(r0.files, done, r0.job, i);
    }
  }

  lemma SameSizes(z: Zstd, source: Files, j0: Job, s: Sender, r0: Receiver, r: Receiver)
    requires SenderInv(z, source, j0, s) && ReceiverInv(z, r0, s.blocks, r)
    requires r0.job.finishedSize == 0 && r0.job.transferred == 0
    ensures r.job.finishedSize == s.job.finishedSize && r.job.transferred == s.job.transferred
  {
    hide Landed, PastSent, Ordered, DigestsOrdered, FileOpen;
  }

  // ----------------------------------------------------------------------
  // Progress
  // ----------------------------------------------------------------------

  function FilesLeft(j: Job): nat {
    if j.fileNum < |j.files| then |j.files| - j.fileNum else 0
  }

  function BytesLeft(source: Files, j: Job): nat {
    if !InRange(j) then 0
    else
      match j.file
      case Reading(content, pos) => if pos <= |content| then |content| - pos else 0
      case Writing(_) => 0
      case Closed => if PathOf(j, j.fileNum) in source then |source[PathOf(j, j.fileNum)].data| else 0
  }

  predicate Smaller(source: Files, j: Job, k: Job) {
    FilesLeft(j) < FilesLeft(k) || (FilesLeft(j) == FilesLeft(k) && BytesLeft(source, j) < BytesLeft(source, k))
  }

  /** The call is the one that has to send a digest. */
  predicate DigestDue(source: Files, j: Job) {
    && InRange(j) && j.detect
    && if j.file.Closed? then PathOf(j, j.fileNum) in source else !j.confirmed && !j.waiting
  }

  /** A read that gives a block or an error brings the job closer to its end, except
      exactly when the error is that the digest could not be sent. */
  lemma ReadProgress(z: Zstd, source: Files, fault: Fault, j: Job)
    requires j.file.Reading? ==> j.file.pos <= |j.file.content|
    ensures var o := ReadStep(z, source, fault, j);
            !o.result.Nothing? ==>
              (Smaller(source, o.job, j) <==> !(fault == DigestFails && DigestDue(source, j)))
  {
    hide ReadOpened, PathOf;
    if InRange(j) && !(j.file.Closed? && (fault == OpenFails || PathOf(j, j.fileNum) !in source)) {
      OpenedProgress(z, source, fault, Opened(j, source));
      SamePaths(j, Opened(j, source));
    }
  }

  lemma OpenedProgress(z: Zstd, source: Files, fault: Fault, j: Job)
    requires InRange(j) && !j.file.Closed? && (j.file.Reading? ==> j.file.pos <= |j.file.content|)
    ensures var o := ReadOpened(z, fault, j);
            !o.result.Nothing? ==>
              (Smaller(source, o.job, j) <==> !(fault == DigestFails && j.detect && !j.confirmed && !j.waiting))
  {
    hide Pack, PathOf;
  }

  // ----------------------------------------------------------------------
  // When a job is over
  // ----------------------------------------------------------------------

  /** `handle_read_jobs` drops the job after this read. */
  predicate Dropped(z: Zstd, source: Files, fault: Fault, j: Job) {
    var o := ReadStep(z, source, fault, j);
    o.result.Nothing? && Completed(o.job)
  }

  predicate Confirms(a: Answer) {
    a.OffsetBlk? || (a.Skip? && !a.skip)
  }

  /** A confirmation has come in, and been accepted, after the last file. */
  predicate LateConfirm(z: Zstd, source: Files, j0: Job, acts: seq<Act>) {
    acts != [] &&
    var n := |acts| - 1;
    var j := SendRun(z, source, j0, acts[..n]).job;
    || LateConfirm(z, source, j0, acts[..n])
    || (acts[n].DoConfirm? && acts[n].fileNum == j.fileNum && !InRange(j) && Confirms(acts[n].answer))
  }

  ghost predicate FlagsInv(j: Job) {
    !j.file.Writing? && (j.file.Reading? ==> InRange(j)) && (j.waiting ==> j.file.Reading?)
  }

  lemma FlagsOpened(z: Zstd, fault: Fault, j: Job)
    requires FlagsInv(j) && j.file.Reading?
    ensures var k := ReadOpened(z, fault, j).job;
            && FlagsInv(k) && k.detect == j.detect
            && (!InRange(k) ==> !k.confirmed)
  {
    hide Pack, NextChunk;
  }

  /** What a read does to the flags. */
  lemma FlagsRead(z: Zstd, source: Files, fault: Fault, j: Job)
    requires FlagsInv(j)
    ensures var k := ReadStep(z, source, fault, j).job;
            && FlagsInv(k) && k.detect == j.detect
            && (!InRange(k) && k.confirmed ==> !InRange(j) && j.confirmed)
  {
    hide ReadOpened, PathOf;
    if InRange(j) && (j.file.Reading? || PathOf(j, j.fileNum) in source) {
      FlagsOpened(z, fault, Opened(j, source));
    }
  }

  lemma FlagsStep(z: Zstd, source: Files, s: Sender, a: Act)
    requires FlagsInv(s.job)
    ensures var k := SendStep(z, source, s, a).job;
            && FlagsInv(k)
            && k.detect == s.job.detect
            && (!InRange(k) && k.confirmed ==>
                  !InRange(s.job) && (s.job.confirmed || (a.DoConfirm? && a.fileNum == s.job.fileNum && Confirms(a.answer))))
  {
    hide ReadStep;
    match a
    case DoConfirm(_, _) =>
    case DoRead(fault) =>
      FlagsRead(z, source, fault, s.job);
  }

  lemma {:induction false} FlagsRun(z: Zstd, source: Files, j0: Job, acts: seq<Act>)
    requires FreshJob(j0)
    ensures var j := SendRun(z, source, j0, acts).job;
            FlagsInv(j) && (!InRange(j) && j.confirmed ==> LateConfirm(z, source, j0, acts))
  {
    if acts != [] {
      var n := |acts| - 1;
      FlagsRun(z, source, j0, acts[..n]);
      hide ReadStep, ConfirmStep;
      FlagsStep(z, source, SendRun(z, source, j0, acts[..n]), acts[n]);
    }
  }

  /** In every reachable state a job is dropped exactly if all its files have been
      dealt with and no confirmation for a file beyond the last stands. Without such
      a late confirmation that is: exactly if all files have been dealt with. It is
      never dropped while it waits for a confirmation. */
  lemma DroppedIff(z: Zstd, source: Files, j0: Job, acts: seq<Act>, fault: Fault)
    requires FreshJob(j0)
    ensures var j := SendRun(z, source, j0, acts).job;
            && (Dropped(z, source, fault, j) <==> !InRange(j) && !(j.detect && j.confirmed))
            && (!LateConfirm(z, source, j0, acts) ==> (Dropped(z, source, fault, j) <==> !InRange(j)))
            && (ReadStep(z, source, fault, j).job.waiting ==> !Dropped(z, source, fault, j))
  {
    FlagsRun(z, source, j0, acts);
    hide Pack, NextChunk, JoinPath, SendRun, LateConfirm;
  }

  /** Of the answers for the file at hand that say anything, the last one was a skip. */
  predicate SkippedLast(z: Zstd, source: Files, j0: Job, acts: seq<Act>) {
    acts != [] &&
    var n := |acts| - 1;
    var j := SendRun(z, source, j0, acts[..n]).job;
    if acts[n].DoConfirm? && acts[n].fileNum == j.fileNum && !acts[n].answer.NoAnswer?
    then acts[n].answer == Skip(true)
    else SkippedLast(z, source, j0, acts[..n])
  }

  lemma ReadFlags(z: Zstd, source: Files, fault: Fault, j: Job)
    ensures var k := ReadStep(z, source, fault, j).job;
            k.skipped == j.skipped && SameJob(j, k)
  {
    hide ReadOpened, PathOf;
    if InRange(j) && (j.file.Closed? ==> PathOf(j, j.fileNum) in source) {
      OpenedFlags(z, fault, Opened(j, source));
    }
  }

  lemma OpenedFlags(z: Zstd, fault: Fault, j: Job)
    requires InRange(j)
    ensures var k := ReadOpened(z, fault, j).job;
            k.skipped == j.skipped && SameJob(j, k)
  {
    hide Pack, NextChunk;
  }

  lemma SkippedStep(z: Zstd, source: Files, s: Sender, a: Act)
    ensures SendStep(z, source, s, a).job.skipped
            <==> if a.DoConfirm? && a.fileNum == s.job.fileNum && !a.answer.NoAnswer? then a.answer == Skip(true)
                 else s.job.skipped
    ensures SameJob(s.job, SendStep(z, source, s, a).job)
  {
    hide ReadStep;
    match a
    case DoConfirm(_, _) =>
    case DoRead(fault) =>
      ReadFlags(z, source, fault, s.job);
  }

  /** Over every run that is what the job remembers. */
  lemma {:induction false} SkippedIff(z: Zstd, source: Files, j0: Job, acts: seq<Act>)
    requires !j0.skipped
    ensures var j := SendRun(z, source, j0, acts).job;
            SameJob(j0, j) && (j.skipped <==> SkippedLast(z, source, j0, acts))
  {
    hide SendStep;
    if acts != [] {
      var n := |acts| - 1;
      SkippedIff(z, source, j0, acts[..n]);
      SkippedStep(z, source, SendRun(z, source, j0, acts[..n]), acts[n]);
    }
  }

  /** A confirmation stands for a file beyond the last. */
  predicate Stuck(j: Job) {
    |j.files| <= j.fileNum && j.detect && j.confirmed
  }

  /** Such a job stays so exactly until a skip for its number comes; that lets it be
      dropped. */
  lemma StuckUntilSkip(z: Zstd, source: Files, s: Sender, a: Act, fault: Fault)
    requires Stuck(s.job)
    ensures var t := SendStep(z, source, s, a).job;
            && !Dropped(z, source, fault, s.job)
            && if a == DoConfirm(s.job.fileNum, Skip(true)) then Dropped(z, source, fault, t)
               else Stuck(t) && t.fileNum == s.job.fileNum
  {
    hide ReadOpened;
  }

  /** The late confirmation is not harmless: whatever is read, confirmed or skipped
      otherwise, the job then stays. */
  lemma {:induction false} LateConfirmSticks(z: Zstd, source: Files, j: Job, fault: Fault, acts: seq<Act>)
    requires |j.files| <= j.fileNum && j.detect
    requires forall i :: 0 <= i < |acts| ==> acts[i] != DoConfirm(j.fileNum, Skip(true))
    ensures var l := SendRun(z, source, ConfirmStep(j, j.fileNum, OffsetBlk(0)), acts).job;
            Stuck(l) && l.fileNum == j.fileNum && !Dropped(z, source, fault, l)
  {
    hide SendStep, Dropped;
    var k := ConfirmStep(j, j.fileNum, OffsetBlk(0));
    if acts == [] {
      StuckUntilSkip(z, source, Sender(k, [], []), DoRead(NoFault), fault);
    } else {
      var n := |acts| - 1;
      LateConfirmSticks(z, source, j, fault, acts[..n]);
      StuckUntilSkip(z, source, SendRun(z, source, k, acts[..n]), acts[n], fault);
      StuckUntilSkip(z, source, SendRun(z, source, k, acts), DoRead(NoFault), fault);
    }
  }

  // ----------------------------------------------------------------------
  // Where the assumptions are needed
  // ----------------------------------------------------------------------

  /** A leftover `.download` of the file the job starts with takes the place of that
      file as soon as a block of another file comes, although nothing of it was sent. */
  lemma StaleDownloadTakesOver(z: Zstd, r: Receiver, b: Block)
    requires r.job.file.Closed? && InRange(r.job)
    requires b.id == r.job.id && 0 <= b.fileNum < |r.job.files| && b.fileNum != r.job.fileNum
    requires PathOf(r.job, r.job.fileNum) != DownloadPath(PathOf(r.job, b.fileNum))
    requires DownloadPath(PathOf(r.job, r.job.fileNum)) in r.files
    ensures var path := PathOf(r.job, r.job.fileNum);
            && path in ReceiveStep(z, r, b).files
            && ReceiveStep(z, r, b).files[path].data == r.files[DownloadPath(path)].data
  {
    FinishEffect(r.files, r.job);
    NewFileStep(z, r, b);
    hide Finish, PathOf, DownloadPath, Unpack, WriteStep;
  }

  /** If the file of a block cannot be created, the job has moved on to its number. The
      block sent again goes to the right file exactly if none was open; else it is added
      to the file before, which has got its final name by then. */
  lemma FailedCreateMisdirects(z: Zstd, r: Receiver, b: Block)
    requires var j := r.job;
             && (j.file.Closed? ||
                 (InRange(j) && j.file == Writing(DownloadPath(PathOf(j, j.fileNum)))
                  && DownloadPath(PathOf(j, j.fileNum)) in r.files && b.fileNum != j.fileNum))
             && b.id == j.id && 0 <= b.fileNum < |j.files|
             && (InRange(j) ==> PathOf(j, j.fileNum) != DownloadPath(PathOf(j, b.fileNum)))
    ensures var j, to := r.job, DownloadPath(PathOf(r.job, b.fileNum));
            var o := WriteStep(z, r.files, CreateFails, j, b);
            var p := WriteStep(z, o.files, Works, o.job, b);
            && !o.ok && p.ok
            && (p.job.file == Writing(to) <==> j.file.Closed?)
            && (j.file.Closed? ==> to in p.files && p.files[to].data == Unpack(z, b))
            && (!j.file.Closed? ==>
                  var path := PathOf(j, j.fileNum);
                  path in p.files && p.files[path].data == r.files[DownloadPath(path)].data + Unpack(z, b))
  {
    if InRange(r.job) {
      FinishEffect(r.files, r.job);
    }
    hide Finish, PathOf, DownloadPath, Unpack;
  }

  /** A flush that fails does no harm: the block sent again has the effect it would have had.
      Where no file is open nothing is flushed. */
  lemma FailedSyncHarmless(z: Zstd, r: Receiver, b: Block)
    requires b.id == r.job.id && 0 <= b.fileNum < |r.job.files| && b.fileNum != r.job.fileNum
    ensures var o, p := WriteStep(z, r.files, SyncFails, r.job, b), WriteStep(z, r.files, Works, r.job, b);
            if r.job.file.Closed? then o == p else !o.ok && WriteStep(z, o.files, Works, o.job, b) == p
  {
    var j := r.job;
    var o := WriteStep(z, r.files, SyncFails, j, b);
    if !j.file.Closed? {
      FinishTwice(r.files, j, o.job);
    }
    hide Finish, PathOf, DownloadPath, Unpack, Renamed;
  }

  lemma FinishTwice(files: Files, j: Job, k: Job)
    requires k == j.(file := k.file)
    ensures Finish(Finish(files, j), k) == Finish(files, j)
  {
    if InRange(j) {
      assert |DownloadPath(PathOf(j, j.fileNum))| > |PathOf(j, j.fileNum)|;
      assert PathOf(k, k.fileNum) == PathOf(j, j.fileNum);
    }
    hide PathOf, DownloadPath;
  }

  /** A store that fails after some bytes does: sent again, the block arrives whole behind
      those bytes, and rightly exactly if there were none. It is counted once. */
  lemma FailedStoreRepeats(z: Zstd, r: Receiver, b: Block, n: nat)
    requires b.id == r.job.id && 0 <= b.fileNum < |r.job.files| && b.fileNum == r.job.fileNum
    requires r.job.file.Writing? && r.job.file.path in r.files
    ensures var d := r.job.file.path;
            var o := WriteStep(z, r.files, StoreFails(n), r.job, b);
            var p := WriteStep(z, o.files, Works, o.job, b);
            && !o.ok && p.ok && d in p.files
            && p.job == WriteStep(z, r.files, Works, r.job, b).job
            && p.job.finishedSize == r.job.finishedSize + |Unpack(z, b)|
            && p.files[d].data == r.files[d].data + Front(Unpack(z, b), n) + Unpack(z, b)
            && (p.files == WriteStep(z, r.files, Works, r.job, b).files <==> n == 0 || Unpack(z, b) == [])
  {
    var d, data := r.job.file.path, Unpack(z, b);
    var before := r.files[d].data;
    hide Unpack, PathOf, DownloadPath;
    if Front(data, n) == [] {
      assert before + [] + data == before + data;
      assert before + [] == before;
    } else {
      assert |before + Front(data, n) + data| > |before + data|;
    }
  }
}
