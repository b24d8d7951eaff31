/** One file-transfer job: the sending side reads blocks and asks for confirmation,
    the receiving side writes them to `<name>.download` and renames. */
module FileTransfer {
  import opened Wrappers
  import opened Bytes

  const BUF_SIZE: nat := 131072

  // ----------------------------------------------------------------------
  // Files and paths
  // ----------------------------------------------------------------------

  type Path = string

  /** A file; the time is unknown until it has been set explicitly. */
  datatype Inode = Inode(data: seq<byte>, mtime: Option<int>)

  type Files = map<Path, Inode>

  function JoinPath(base: Path, name: string): Path {
    if name == "" then base
    else if name[0] == '/' || base == "" then name
    else if base[|base| - 1] == '/' then base + name
    else base + "/" + name
  }

  function DownloadPath(path: Path): Path {
    path + ".download"
  }

  /** A name that `join` puts behind the path: not empty, and not absolute. */
  predicate Relative(name: string) {
    name != "" && name[0] != '/'
  }

  /** The path of a file: an absolute name replaces the job's path, an empty one is it, and
      any other stands behind it with one slash in between, which may be there already. */
  lemma Joined(base: Path, name: string)
    ensures name == "" ==> JoinPath(base, name) == base
    ensures name != "" && name[0] == '/' ==> JoinPath(base, name) == name
    ensures Relative(name) ==>
              JoinPath(base, name) == base + (if base == "" || base[|base| - 1] == '/' then "" else "/") + name
  {
    assert base + "" == base && "" + name == name;
  }

  lemma SameTail(front: string, a: string, b: string)
    ensures front + a == front + b <==> a == b
  {
    if front + a == front + b {
      assert a == (front + a)[|front|..] && b == (front + b)[|front|..];
    }
  }

  /** So relative names tell apart where files go, and where they are being written. */
  lemma PathsOfNames(base: Path, a: string, b: string)
    requires Relative(a) && Relative(b)
    ensures JoinPath(base, a) == JoinPath(base, b) <==> a == b
    ensures JoinPath(base, a) == DownloadPath(JoinPath(base, b)) <==> a == b + ".download"
  {
    Joined(base, a);
    Joined(base, b);
    var front := base + if base == "" || base[|base| - 1] == '/' then "" else "/";
    SameTail(front, a, b);
    SameTail(front, a, b + ".download");
    assert front + b + ".download" == front + (b + ".download");
    hide JoinPath;
  }

  function Rename(files: Files, from: Path, to: Path): Files {
    if from in files then (files - {from})[to := files[from]] else files
  }

  function SetMtime(files: Files, path: Path, time: int): Files {
    if path in files then files[path := files[path].(mtime := Some(time))] else files
  }

  function Append(files: Files, path: Path, data: seq<byte>): Files {
    if path in files then files[path := files[path].(data := files[path].data + data)] else files
  }

  class Disk {
    var files: Files

    method Create(path: Path)
      modifies this
      ensures files == old(files)[path := Inode([], None)]
    {
      files := files[path := Inode([], None)];
    }

    method WriteAll(path: Path, data: seq<byte>)
      modifies this
      ensures files == Append(old(files), path, data)
    {
      if path in files {
        files := files[path := files[path].(data := files[path].data + data)];
      }
    }

    method RenameFile(from: Path, to: Path)
      modifies this
      ensures files == Rename(old(files), from, to)
    {
      if from in files {
        files := (files - {from})[to := files[from]];
      }
    }

    method SetFileMtime(path: Path, time: int)
      modifies this
      ensures files == SetMtime(old(files), path, time)
    {
      if path in files {
        files := files[path := files[path].(mtime := Some(time))];
      }
    }
  }

  // ----------------------------------------------------------------------
  // Compression, known only by its laws
  // ----------------------------------------------------------------------

  datatype Zstd = Zstd(run: seq<byte> -> Option<seq<byte>>, decode: seq<byte> -> Option<seq<byte>>)

  /** A failure to compress yields the empty vector. */
  function Compress(z: Zstd, data: seq<byte>): seq<byte> {
    match z.run(data) case Some(out) => out case None => []
  }

  function Decompress(z: Zstd, data: seq<byte>): seq<byte> {
    match z.decode(data) case Some(out) => out case None => []
  }

  ghost predicate Sound(z: Zstd) {
    && (forall data, out | z.run(data) == Some(out) :: z.decode(out) == Some(data))
    && Decompress(z, []) == []
  }

  ghost predicate NeverFails(z: Zstd) {
    forall data :: z.run(data).Some?
  }

  /** The part of a name after its last dot. */
  function GetExt(name: string): string {
    if name == "" || '.' !in name then ""
    else if name[|name| - 1] == '.' then ""
    else GetExt(name[..|name| - 1]) + [name[|name| - 1]]
  }

  /** With a dot in it, a name is a stem, a dot and its extension, which has none. */
  lemma {:induction false} ExtOf(stem: string, ext: string)
    requires '.' !in ext
    ensures GetExt(stem + "." + ext) == ext && GetExt(ext) == ""
  {
    var name := stem + "." + ext;
    assert name[|stem|] == '.';
    if ext != "" {
      var front := ext[..|ext| - 1];
      ExtOf(stem, front);
      assert name[..|name| - 1] == stem + "." + front;
      assert name[|name| - 1] == ext[|ext| - 1];
    }
  }

  /** What is taken for compressed already. */
  lemma CompressedKinds(stem: string, ext: string)
    requires '.' !in ext
    ensures IsCompressedFile(stem + "." + ext)
            <==> ext in ["xz", "gz", "zip", "7z", "rar", "bz2", "tgz", "png", "jpg"]
    ensures !IsCompressedFile(ext)
  {
    ExtOf(stem, ext);
  }

  predicate IsCompressedFile(name: string) {
    GetExt(name) in {"xz", "gz", "zip", "7z", "rar", "bz2", "tgz", "png", "jpg"}
  }

  // ----------------------------------------------------------------------
  // Messages
  // ----------------------------------------------------------------------

  datatype FileEntry = FileEntry(name: string, size: nat, modifiedTime: int)

  datatype Block = Block(id: int, fileNum: int, data: seq<byte>, compressed: bool)

  datatype Message =
    | DigestMessage(id: int, fileNum: int)
    | BlockMessage(block: Block)
    | DoneMessage(id: int, fileNum: int)
    | ErrorMessage(id: int, fileNum: int)

  class Stream {
    var sent: seq<Message>

    method Send(m: Message)
      modifies this
      ensures sent == old(sent) + [m]
    {
      sent := sent + [m];
    }
  }

  /** How a chunk of a file goes into a block: compressed where that is shorter. */
  function Pack(z: Zstd, id: int, fileNum: int, name: string, chunk: seq<byte>): Block {
    if chunk != [] && !IsCompressedFile(name) && |Compress(z, chunk)| < |chunk|
    then Block(id, fileNum, Compress(z, chunk), true)
    else Block(id, fileNum, chunk, false)
  }

  function Unpack(z: Zstd, b: Block): seq<byte> {
    if b.compressed then Decompress(z, b.data) else b.data
  }

  /** A block delivers its chunk exactly if the file is of a compressed kind or the
      compressor worked: a failed compression is taken for a very good one. */
  lemma PackIntact(z: Zstd, id: int, fileNum: int, name: string, chunk: seq<byte>)
    requires Sound(z) && chunk != []
    ensures Unpack(z, Pack(z, id, fileNum, name, chunk)) == chunk
            <==> IsCompressedFile(name) || z.run(chunk).Some?
  {}

  /** Compression is used exactly where it is tried and helps; no block is longer than its chunk. */
  lemma PackShorter(z: Zstd, id: int, fileNum: int, name: string, chunk: seq<byte>)
    ensures var b := Pack(z, id, fileNum, name, chunk);
            && b.id == id && b.fileNum == fileNum
            && (b.compressed <==> chunk != [] && !IsCompressedFile(name) && (z.run(chunk).None? || |z.run(chunk).value| < |chunk|))
            && (b.compressed ==> |b.data| < |chunk| && b.data == (if z.run(chunk).Some? then z.run(chunk).value else []))
            && (!b.compressed ==> b.data == chunk)
  {}

  /** Only the last block of a file is empty, even when it is compressed. */
  lemma PackNonempty(z: Zstd, id: int, fileNum: int, name: string, chunk: seq<byte>)
    requires Sound(z) && NeverFails(z)
    ensures Pack(z, id, fileNum, name, chunk).data == [] <==> chunk == []
    ensures Unpack(z, Pack(z, id, fileNum, name, chunk)) == chunk
  {
    if chunk != [] {
      PackIntact(z, id, fileNum, name, chunk);
    }
  }

  // ----------------------------------------------------------------------
  // The job as a value, and what each operation makes of it
  // ----------------------------------------------------------------------

  /** An open file: a reader has the contents and a place in them, a writer a path. */
  datatype Handle = Closed | Reading(content: seq<byte>, pos: nat) | Writing(path: Path)

  datatype Job = Job(
    id: int, path: Path, files: seq<FileEntry>, detect: bool, isLastJob: bool,
    fileNum: int, file: Handle, finishedSize: nat, transferred: nat,
    confirmed: bool, skipped: bool, waiting: bool)

  /** `file_num as usize` is within the list; a negative number is not. */
  predicate InRange(j: Job) {
    0 <= j.fileNum < |j.files|
  }

  function PathOf(j: Job, i: int): Path
    requires 0 <= i < |j.files|
  {
    JoinPath(j.path, j.files[i].name)
  }

  /** What may go wrong in one call: the file does not open, the digest cannot be
      sent, a read of the file fails. */
  datatype Fault = NoFault | OpenFails | DigestFails | ReadFails

  datatype ReadResult = Nothing | Sent(block: Block) | Failed

  datatype ReadOutcome = ReadOutcome(job: Job, result: ReadResult, digest: bool)

  function LeaveFile(j: Job): Job {
    j.(fileNum := j.fileNum + 1, file := Closed, confirmed := false, waiting := false)
  }

  function Opened(j: Job, source: Files): Job
    requires InRange(j) && (j.file.Closed? ==> PathOf(j, j.fileNum) in source)
  {
    if j.file.Closed?
    then j.(file := Reading(source[PathOf(j, j.fileNum)].data, 0), confirmed := false, waiting := false)
    else j
  }

  /** The next 128 KiB, or what is left. */
  function NextChunk(content: seq<byte>, pos: nat): seq<byte> {
    if |content| <= pos then []
    else if pos + BUF_SIZE <= |content| then content[pos..pos + BUF_SIZE]
    else content[pos..]
  }

  function ReadStep(z: Zstd, source: Files, fault: Fault, j: Job): ReadOutcome {
    if !InRange(j) then ReadOutcome(j.(file := Closed), Nothing, false)
    else if j.file.Closed? && (fault == OpenFails || PathOf(j, j.fileNum) !in source) then
      ReadOutcome(LeaveFile(j), Failed, false)
    else ReadOpened(z, fault, Opened(j, source))
  }

  /** A read of the file that is open. */
  function ReadOpened(z: Zstd, fault: Fault, j: Job): ReadOutcome
    requires InRange(j)
  {
    if j.detect && !j.confirmed then
      if j.waiting then ReadOutcome(j, Nothing, false)
      else if fault == DigestFails then ReadOutcome(j, Failed, false)
      else ReadOutcome(j.(waiting := true), Nothing, true)
    else if fault == ReadFails || !j.file.Reading? then ReadOutcome(LeaveFile(j), Failed, false)
    else
      var chunk := NextChunk(j.file.content, j.file.pos);
      var block := Pack(z, j.id, j.fileNum, j.files[j.fileNum].name, chunk);
      if chunk == [] then ReadOutcome(LeaveFile(j), Sent(block), false)
      else
        ReadOutcome(j.(file := Reading(j.file.content, j.file.pos + |chunk|),
                       finishedSize := j.finishedSize + |chunk|,
                       transferred := j.transferred + |block.data|),
                    Sent(block), false)
  }

  function SetConfirmed(j: Job, confirmed: bool): Job {
    j.(confirmed := confirmed, skipped := false)
  }

  function SkipFile(j: Job): Job {
    LeaveFile(j).(skipped := true)
  }

  datatype Answer = Skip(skip: bool) | OffsetBlk(offset: nat) | NoAnswer

  function ConfirmStep(j: Job, fileNum: int, answer: Answer): Job {
    if j.fileNum != fileNum then j
    else
      match answer
      case Skip(skip) => if skip then SkipFile(j) else SetConfirmed(j, true)
      case OffsetBlk(_) => SetConfirmed(j, true)
      case NoAnswer => j
  }

  predicate Completed(j: Job) {
    !j.detect || (!j.confirmed && !j.waiting)
  }

  /** Gives the finished file its name and its time. */
  function Finish(files: Files, j: Job): Files {
    if InRange(j) then
      var path := PathOf(j, j.fileNum);
      SetMtime(Rename(files, DownloadPath(path), path), path, j.files[j.fileNum].modifiedTime)
    else files
  }

  /** Where a handle writes to after the file has been given its name. */
  function Renamed(j: Job, files: Files): Handle {
    if InRange(j) && j.file == Writing(DownloadPath(PathOf(j, j.fileNum)))
       && DownloadPath(PathOf(j, j.fileNum)) in files
    then Writing(PathOf(j, j.fileNum))
    else j.file
  }

  /** What may go wrong in storing a block: the file before cannot be flushed, the new one
      cannot be created, or only the first bytes are stored. */
  datatype WriteFault = Works | SyncFails | CreateFails | StoreFails(stored: nat)

  datatype WriteOutcome = WriteOutcome(job: Job, files: Files, ok: bool)

  function WriteStep(z: Zstd, files: Files, fault: WriteFault, j: Job, b: Block): WriteOutcome {
    if b.id != j.id || !(0 <= b.fileNum < |j.files|) then WriteOutcome(j, files, false)
    else if b.fileNum != j.fileNum || j.file.Closed? then
      var k := j.(file := Renamed(j, files));
      var finished := Finish(files, j);
      var path := DownloadPath(PathOf(j, b.fileNum));
      if fault == SyncFails && !j.file.Closed? then WriteOutcome(k, finished, false)
      else if fault == CreateFails then WriteOutcome(k.(fileNum := b.fileNum), finished, false)
      else WriteData(z, finished[path := Inode([], None)], fault, k.(fileNum := b.fileNum, file := Writing(path)), b)
    else WriteData(z, files, fault, j, b)
  }

  function Front(data: seq<byte>, n: nat): seq<byte> {
    if n <= |data| then data[..n] else data
  }

  function WriteData(z: Zstd, files: Files, fault: WriteFault, j: Job, b: Block): WriteOutcome {
    if !j.file.Writing? then WriteOutcome(j, files, false)
    else
      var data := Unpack(z, b);
      match fault
      case StoreFails(n) => WriteOutcome(j, Append(files, j.file.path, Front(data, n)), false)
      case _ =>
        WriteOutcome(j.(finishedSize := j.finishedSize + |data|, transferred := j.transferred + |b.data|),
                     Append(files, j.file.path, data), true)
  }

  // ----------------------------------------------------------------------
  // The job itself
  // ----------------------------------------------------------------------

  class TransferJob {
    const id: int
    const path: Path
    const files: seq<FileEntry>
    const enableOverwriteDetection: bool
    const isLastJob: bool
    var fileNum: int
    var file: Handle
    var finishedSize: nat
    var transferred: nat
    var fileConfirmed: bool
    var fileSkipped: bool
    var fileIsWaiting: bool

    function Model(): Job
      reads this
    {
      Job(id, path, files, enableOverwriteDetection, isLastJob, fileNum, file, finishedSize, transferred,
          fileConfirmed, fileSkipped, fileIsWaiting)
    }

    constructor (id: int, path: Path, fileNum: int, files: seq<FileEntry>, detect: bool, isLastJob: bool)
      ensures Model() == Job(id, path, files, detect, isLastJob, fileNum, Closed, 0, 0, false, false, false)
    {
      this.id, this.path, this.files, this.fileNum := id, path, files, fileNum;
      this.enableOverwriteDetection, this.isLastJob := detect, isLastJob;
      file, finishedSize, transferred := Closed, 0, 0;
      fileConfirmed, fileSkipped, fileIsWaiting := false, false, false;
    }

    method SetFileConfirmed(confirmed: bool)
      modifies this
      ensures Model() == SetConfirmed(old(Model()), confirmed)
    {
      fileConfirmed := confirmed;
      fileSkipped := false;
    }

    method SetFileSkipped()
      modifies this
      ensures Model() == SkipFile(old(Model()))
    {
      file := Closed;
      SetFileConfirmed(false);
      fileIsWaiting := false;
      fileNum := fileNum + 1;
      fileSkipped := true;
    }

    method Confirm(fileNum: int, answer: Answer)
      modifies this
      ensures Model() == ConfirmStep(old(Model()), fileNum, answer)
    {
      if this.fileNum == fileNum {
        match answer {
          case Skip(skip) =>
            if skip {
              SetFileSkipped();
            } else {
              SetFileConfirmed(true);
            }
          case OffsetBlk(_) => SetFileConfirmed(true);
          case NoAnswer =>
        }
      }
    }

    method JobCompleted() returns (completed: bool)
      ensures completed == Completed(Model())
    {
      completed := !enableOverwriteDetection || (!fileConfirmed && !fileIsWaiting);
    }

    method ModifyTime(disk: Disk)
      modifies disk
      ensures disk.files == Finish(old(disk.files), Model())
    {
      if 0 <= fileNum < |files| {
        var entry := files[fileNum];
        var to := JoinPath(path, entry.name);
        disk.RenameFile(DownloadPath(to), to);
        disk.SetFileMtime(to, entry.modifiedTime);
      }
    }

    method Write(z: Zstd, disk: Disk, fault: WriteFault, block: Block) returns (ok: bool)
      modifies this, disk
      ensures WriteOutcome(Model(), disk.files, ok) == WriteStep(z, old(disk.files), fault, old(Model()), block)
    {
      hide JoinPath, Append, SetMtime, Rename, Decompress, Front, Finish, Renamed, DownloadPath;
      if block.id != id {
        return false;
      }
      var num := block.fileNum;
      if !(0 <= num < |files|) {
        return false;
      }
      if num != fileNum || file.Closed? {
        var isOpen := !file.Closed?;
        var kept := Renamed(Model(), disk.files);
        ModifyTime(disk);
        file := kept;
        if isOpen && fault == SyncFails {
          return false;
        }
        fileNum := num;
        var to := DownloadPath(JoinPath(path, files[num].name));
        if fault == CreateFails {
          return false;
        }
        disk.Create(to);
        file := Writing(to);
      }
      ok := Store(z, disk, fault, block);
    }

    /** The part of `Write` after the right file is open. */
    method Store(z: Zstd, disk: Disk, fault: WriteFault, block: Block) returns (ok: bool)
      modifies this, disk
      ensures WriteOutcome(Model(), disk.files, ok) == WriteData(z, old(disk.files), fault, old(Model()), block)
    {
      hide Append, Decompress, Front;
      if !file.Writing? {
        return false;
      }
      var data := if block.compressed then Decompress(z, block.data) else block.data;
      if fault.StoreFails? {
        disk.WriteAll(file.path, Front(data, fault.stored));
        return false;
      }
      disk.WriteAll(file.path, data);
      finishedSize := finishedSize + |data|;
      transferred := transferred + |block.data|;
      return true;
    }

    /** One system call: some of the bytes that are left, none only at the end. */
    static method ReadSome(content: seq<byte>, pos: nat, buf: array<byte>, offset: nat) returns (n: nat)
      requires pos <= |content| && offset < buf.Length
      modifies buf
      ensures pos + n <= |content| && offset + n <= buf.Length
      ensures n == 0 <==> pos == |content|
      ensures buf[..offset] == old(buf[..offset])
      ensures buf[offset..offset + n] == content[pos..pos + n]
    {
      if pos == |content| {
        return 0;
      }
      var most := if buf.Length - offset < |content| - pos then buf.Length - offset else |content| - pos;
      n :| 1 <= n <= most;
      forall i | 0 <= i < n {
        buf[offset + i] := content[pos + i];
      }
    }

    /** The loop over short reads: it ends with a full buffer or at the end of the
        file, so what it collects does not depend on how the reads were split. */
    static method FillBuffer(content: seq<byte>, start: nat, fails: bool) returns (chunk: Option<seq<byte>>)
      requires start <= |content|
      ensures chunk == if fails then None else Some(NextChunk(content, start))
      ensures chunk.Some? ==> start + |chunk.value| <= |content|
    {
      var buf := new byte[BUF_SIZE](_ => 0);
      var offset := 0;
      while true
        invariant offset < BUF_SIZE && start + offset <= |content|
        invariant buf[..offset] == content[start..start + offset]
        decreases BUF_SIZE - offset
      {
        var n := ReadSome(content, start + offset, buf, offset);
        assert buf[..offset + n] == buf[..offset] + buf[offset..offset + n];
        assert content[start..start + offset + n]
            == content[start..start + offset] + content[start + offset..start + offset + n];
        offset := offset + n;
        var now: bool := *;
        if fails && (now || n == 0 || offset == BUF_SIZE) {
          return None;
        }
        if n == 0 || offset == BUF_SIZE {
          assert content[start..start + offset] == NextChunk(content, start);
          return Some(buf[..offset]);
        }
      }
    }

    method OpenFile(source: Files, fault: Fault) returns (ok: bool)
      requires InRange(Model())
      modifies this
      ensures ok == (!old(file).Closed? || (fault != OpenFails && PathOf(old(Model()), old(fileNum)) in source))
      ensures Model() == if ok then Opened(old(Model()), source) else LeaveFile(old(Model()))
    {
      if file.Closed? {
        var p := JoinPath(path, files[fileNum].name);
        if fault == OpenFails || p !in source {
          fileNum := fileNum + 1;
          fileConfirmed := false;
          fileIsWaiting := false;
          return false;
        }
        file := Reading(source[p].data, 0);
        fileConfirmed := false;
        fileIsWaiting := false;
      }
      return true;
    }

    method Read(z: Zstd, source: Files, fault: Fault, stream: Stream) returns (r: ReadResult)
      requires match file case Reading(content, pos) => pos <= |content| case _ => true
      modifies this, stream
      ensures ReadOutcome(Model(), r, stream.sent != old(stream.sent))
              == ReadStep(z, source, fault, old(Model()))
      ensures stream.sent == old(stream.sent) || stream.sent == old(stream.sent) + [DigestMessage(id, fileNum)]
      ensures match file case Reading(content, pos) => pos <= |content| case _ => true
    {
      hide Pack, NextChunk, JoinPath;
      var num := fileNum;
      if !(0 <= num < |files|) {
        file := Closed;
        return Nothing;
      }
      var isOpen := OpenFile(source, fault);
      if !isOpen {
        return Failed;
      }
      if enableOverwriteDetection && !fileConfirmed {
        if !fileIsWaiting {
          if fault == DigestFails {
            return Failed;
          }
          stream.Send(DigestMessage(id, fileNum));
          fileIsWaiting := true;
        }
        return Nothing;
      }
      r := ReadBlock(z, fault);
    }

    /** The part of `Read` after the file is open and confirmed. */
    method ReadBlock(z: Zstd, fault: Fault) returns (r: ReadResult)
      requires InRange(Model()) && !file.Closed? && !(enableOverwriteDetection && !fileConfirmed)
      requires match file case Reading(content, pos) => pos <= |content| case _ => true
      modifies this
      ensures ReadOutcome(Model(), r, false) == ReadOpened(z, fault, old(Model()))
      ensures match file case Reading(content, pos) => pos <= |content| case _ => true
    {
      hide NextChunk, IsCompressedFile, Compress;
      var num := fileNum;
      var name := files[num].name;
      var buf: Option<seq<byte>> := None;
      if file.Reading? {
        buf := FillBuffer(file.content, file.pos, fault == ReadFails);
      }
      if buf.None? {
        fileNum := fileNum + 1;
        file := Closed;
        fileConfirmed := false;
        fileIsWaiting := false;
        return Failed;
      }
      var data, compressed := buf.value, false;
      var offset := |data|;
      if offset == 0 {
        fileNum := fileNum + 1;
        file := Closed;
        fileConfirmed := false;
        fileIsWaiting := false;
      } else {
        file := Reading(file.content, file.pos + offset);
        finishedSize := finishedSize + offset;
        if !IsCompressedFile(name) {
          var tmp := Compress(z, data);
          if |tmp| < |data| {
            data := tmp;
            compressed := true;
          }
        }
        transferred := transferred + |data|;
      }
      return Sent(Block(id, num, data, compressed));
    }
  }
}
