/** Recording encoded video: a recorder starts a new file whenever size, format or the
    order of the timestamps would not fit the one at hand. */
module Recorder {
  import opened Bytes
  import opened Codecs
  import opened Wrappers

  /** A frame; its timestamp is a 64-bit integer of either sign. */
  datatype Frame = Frame(data: seq<byte>, pts: int, key: bool)

  /** The kind of frames that a message holds: those of a codec, or none that a file can hold. */
  datatype Message = Message(format: Option<Format>, frames: seq<Frame>)

  datatype Shape = Shape(width: nat, height: nat, format: Format)

  /** A frame as it is given to the muxer of a file, with what it came as. */
  datatype Handed = Handed(frame: Frame, shape: Shape)

  /** One file: what it was created for, whether a key frame has come, whether anything
      has been written, and all that its muxer was given. */
  datatype Track = Track(shape: Shape, key: bool, written: bool, handed: seq<Handed>)

  /** `done` are the files that have been closed. */
  datatype State = State(inner: Option<Track>, shape: Option<Shape>, pts: Option<int>, checkFailed: bool, done: seq<Track>)

  /** What comes of an attempt to start a file: the directory or the file may fail. */
  datatype Opening = Opens | NoDirectory | NoFile

  datatype Outcome = Outcome(state: State, ok: bool)

  function Drop(s: State): State {
    match s.inner case Some(track) => s.(inner := None, done := s.done + [track]) case None => s
  }

  function CheckStep(s: State, shape: Shape, opening: Opening): Outcome {
    if s.shape != Some(shape) && opening == NoDirectory then Outcome(s, false)
    else
      var t := if s.shape != Some(shape) then Drop(s).(shape := Some(shape)) else s;
      if t.inner.Some? then Outcome(t, true)
      else if opening == NoFile then Outcome(t, false)
      else Outcome(t.(inner := Some(Track(shape, false, false, [])), pts := None), true)
  }

  function CheckPtsStep(s: State, f: Frame, shape: Shape, opening: Opening): Outcome {
    if s.pts.None? && !f.key then Outcome(s, false)
    else
      var before := match s.pts case Some(p) => p case None => 0;
      if before <= f.pts then Outcome(s.(pts := Some(f.pts)), true)
      else
        var o := CheckStep(Drop(s.(pts := Some(f.pts))).(shape := None), shape, opening);
        if o.ok then Outcome(o.state.(pts := Some(f.pts)), true) else Outcome(o.state.(checkFailed := true), false)
  }

  function WriteTrack(t: Track, f: Frame, shape: Shape, muxed: bool): Track {
    if t.key || f.key
    then Track(t.shape, true, t.written || muxed, t.handed + [Handed(f, shape)])
    else t
  }

  function OneFrame(s: State, f: Frame, shape: Shape, opening: Opening, muxed: bool): Outcome {
    var o := CheckPtsStep(s, f, shape, opening);
    if o.ok && o.state.inner.Some?
    then Outcome(o.state.(inner := Some(WriteTrack(o.state.inner.value, f, shape, muxed))), true)
    else o
  }

  /** What happens around one frame: a new file may be needed, and the muxer may fail. */
  datatype Luck = Luck(opening: Opening, muxed: bool)

  function Frames(s: State, frames: seq<Frame>, shape: Shape, lucks: seq<Luck>): Outcome
    requires |lucks| == |frames|
  {
    if frames == [] then Outcome(s, true)
    else
      var n := |frames| - 1;
      var o := Frames(s, frames[..n], shape, lucks[..n]);
      if o.ok then OneFrame(o.state, frames[n], shape, lucks[n].opening, lucks[n].muxed) else o
  }

  function WriteFrameStep(s: State, m: Message, w: nat, h: nat, opening: Opening, lucks: seq<Luck>): Outcome
    requires |lucks| == |m.frames|
  {
    if s.checkFailed || m.format.None? then Outcome(s, false)
    else
      var shape := Shape(w, h, m.format.value);
      var o := CheckStep(s, shape, opening);
      if !o.ok then Outcome(o.state.(checkFailed := true), false)
      else Frames(o.state, m.frames, shape, lucks)
  }

  // ----------------------------------------------------------------------
  // The recorder
  // ----------------------------------------------------------------------

  /** The muxer of one file. */
  class FileRecorder {
    const shape: Shape
    var key: bool
    var written: bool
    var handed: seq<Handed>

    function Model(): Track
      reads this
    {
      Track(shape, key, written, handed)
    }

    constructor (shape: Shape)
      ensures Model() == Track(shape, false, false, [])
    {
      this.shape, key, written, handed := shape, false, false, [];
    }

    method WriteVideo(f: Frame, from: Shape, muxed: bool) returns (ok: bool)
      modifies this
      ensures Model() == WriteTrack(old(Model()), f, from, muxed)
      ensures ok <==> muxed && (old(key) || f.key)
      ensures key == (old(key) || f.key) && written == (old(written) || ok)
      ensures handed == if key then old(handed) + [Handed(f, from)] else old(handed)
    {
      if f.key {
        key := true;
      }
      if !key {
        return false;
      }
      handed := handed + [Handed(f, from)];
      if muxed {
        written := true;
      }
      return muxed;
    }
  }

  class Recorder {
    var inner: FileRecorder?
    var shape: Option<Shape>
    var pts: Option<int>
    var checkFailed: bool
    var done: seq<Track>

    function Model(): State
      reads this, inner
    {
      State(if inner == null then None else Some(inner.Model()), shape, pts, checkFailed, done)
    }

    constructor ()
      ensures Model() == State(None, None, None, false, [])
    {
      inner, shape, pts, checkFailed, done := null, None, None, false, [];
    }

    method DropInner()
      modifies this
      ensures Model() == Drop(old(Model())) && inner == null
    {
      if inner != null {
        done := done + [inner.Model()];
        inner := null;
      }
    }

    method Check(now: Shape, opening: Opening) returns (ok: bool)
      modifies this
      ensures Outcome(Model(), ok) == CheckStep(old(Model()), now, opening)
      ensures inner == old(inner) || inner == null || fresh(inner)
      ensures old(inner) != null && old(shape) == Some(now) ==>
                ok && inner == old(inner) && shape == old(shape) && pts == old(pts) && done == old(done)
      ensures old(inner) == null || old(shape) != Some(now) ==> (ok ==> pts == None && fresh(inner) && inner.shape == now)
    {
      if shape != Some(now) {
        if opening == NoDirectory {
          return false;
        }
        shape := Some(now);
        DropInner();
      }
      if inner == null {
        if opening == NoFile {
          return false;
        }
        inner := new FileRecorder(now);
        pts := None;
      }
      return true;
    }

    method CheckPts(f: Frame, now: Shape, opening: Opening) returns (ok: bool)
      modifies this
      ensures Outcome(Model(), ok) == CheckPtsStep(old(Model()), f, now, opening)
      ensures inner == old(inner) || inner == null || fresh(inner)
    {
      if pts == None && !f.key {
        return false;
      }
      var before := pts;
      pts := Some(f.pts);
      if (match before case Some(p) => p case None => 0) > f.pts {
        DropInner();
        shape := None;
        ok := Check(now, opening);
        if !ok {
          checkFailed := true;
          return false;
        }
        pts := Some(f.pts);
      }
      return true;
    }

    method WriteOne(f: Frame, now: Shape, luck: Luck) returns (ok: bool)
      modifies this, inner
      ensures Outcome(Model(), ok) == OneFrame(old(Model()), f, now, luck.opening, luck.muxed)
      ensures inner == old(inner) || inner == null || fresh(inner)
    {
      ok := CheckPts(f, now, luck.opening);
      if ok && inner != null {
        var muxed := inner.WriteVideo(f, now, luck.muxed);
      }
    }

    method WriteFrame(m: Message, w: nat, h: nat, opening: Opening, lucks: seq<Luck>) returns (ok: bool)
      requires |lucks| == |m.frames|
      modifies this, inner
      ensures Outcome(Model(), ok) == WriteFrameStep(old(Model()), m, w, h, opening, lucks)
    {
      hide CheckStep, OneFrame;
      if checkFailed || m.format == None {
        return false;
      }
      var now := Shape(w, h, m.format.value);
      ok := Check(now, opening);
      if !ok {
        checkFailed := true;
        return false;
      }
      ghost var s := Model();
      for i := 0 to |m.frames|
        invariant inner == old(inner) || inner == null || fresh(inner)
        invariant Outcome(Model(), true) == Frames(s, m.frames[..i], now, lucks[..i])
      {
        assert m.frames[..i + 1][..i] == m.frames[..i] && lucks[..i + 1][..i] == lucks[..i];
        ok := WriteOne(m.frames[i], now, lucks[i]);
        if !ok {
          RestFails(s, m.frames, now, lucks, i + 1);
          return false;
        }
      }
      assert m.frames[..|m.frames|] == m.frames && lucks[..|m.frames|] == lucks;
      return true;
    }
  }

  /** After a frame that fails the rest of a message is not looked at. */
  lemma {:induction false} RestFails(s: State, frames: seq<Frame>, shape: Shape, lucks: seq<Luck>, n: nat)
    requires n <= |frames| == |lucks| && !Frames(s, frames[..n], shape, lucks[..n]).ok
    ensures Frames(s, frames, shape, lucks) == Frames(s, frames[..n], shape, lucks[..n])
  {
    if n == |frames| {
      assert frames[..n] == frames && lucks[..n] == lucks;
    } else {
      var m := |frames| - 1;
      assert frames[..m][..n] == frames[..n] && lucks[..m][..n] == lucks[..n];
      RestFails(s, frames[..m], shape, lucks[..m], n);
    }
  }

  // ----------------------------------------------------------------------
  // Well-formed files
  // ----------------------------------------------------------------------

  /** All that went into a file is of the file's size and format, a key frame comes
      first, and timestamps do not decrease. */
  predicate WellFormed(t: Track) {
    && (t.handed != [] ==> t.key && t.handed[0].frame.key)
    && (forall i :: 0 <= i < |t.handed| ==> t.handed[i].shape == t.shape)
    && forall i, k :: 0 <= i < k < |t.handed| ==> t.handed[i].frame.pts <= t.handed[k].frame.pts
  }

  /** The file at hand is for the shape that was checked last, and what it holds is not
      later than the last timestamp seen. */
  predicate CurrentFits(s: State) {
    match s.inner
    case None => true
    case Some(t) =>
      && WellFormed(t)
      && s.shape == Some(t.shape)
      && (t.key <==> t.handed != [])
      && forall i :: 0 <= i < |t.handed| ==> s.pts.Some? && t.handed[i].frame.pts <= s.pts.value
  }

  predicate Inv(s: State) {
    CurrentFits(s) && forall i :: 0 <= i < |s.done| ==> WellFormed(s.done[i])
  }

  lemma CheckKeeps(s: State, shape: Shape, opening: Opening)
    requires Inv(s)
    ensures Inv(CheckStep(s, shape, opening).state)
    ensures CheckStep(s, shape, opening).ok ==>
              var t := CheckStep(s, shape, opening).state;
              t.shape == Some(shape) && t.inner.Some? && t.inner.value.shape == shape
  {}

  lemma PtsKeeps(s: State, f: Frame, shape: Shape, opening: Opening)
    requires Inv(s) && s.shape == Some(shape) && s.inner.Some?
    ensures var o := CheckPtsStep(s, f, shape, opening);
            Inv(o.state) && (o.ok ==> o.state.shape == Some(shape) && o.state.inner.Some? && o.state.pts == Some(f.pts))
  {
    var t := Drop(s.(pts := Some(f.pts))).(shape := None);
    assert Inv(t);
    CheckKeeps(t, shape, opening);
  }

  lemma OneFrameKeeps(s: State, f: Frame, shape: Shape, opening: Opening, muxed: bool)
    requires Inv(s) && s.shape == Some(shape) && s.inner.Some?
    ensures var o := OneFrame(s, f, shape, opening, muxed);
            Inv(o.state) && (o.ok ==> o.state.shape == Some(shape) && o.state.inner.Some?)
  {
    PtsKeeps(s, f, shape, opening);
    hide CheckPtsStep;
  }

  lemma {:induction false} FramesKeep(s: State, frames: seq<Frame>, shape: Shape, lucks: seq<Luck>)
    requires |lucks| == |frames|
    requires Inv(s) && s.shape == Some(shape) && s.inner.Some?
    ensures var o := Frames(s, frames, shape, lucks);
            Inv(o.state) && (o.ok ==> o.state.shape == Some(shape) && o.state.inner.Some?)
  {
    if frames != [] {
      var n := |frames| - 1;
      FramesKeep(s, frames[..n], shape, lucks[..n]);
      var o := Frames(s, frames[..n], shape, lucks[..n]);
      hide Inv, OneFrame;
      if o.ok {
        OneFrameKeeps(o.state, frames[n], shape, lucks[n].opening, lucks[n].muxed);
      }
    }
  }

  datatype Call = Call(message: Message, width: nat, height: nat, opening: Opening, lucks: seq<Luck>)

  predicate ProperCalls(calls: seq<Call>) {
    forall i :: 0 <= i < |calls| ==> |calls[i].lucks| == |calls[i].message.frames|
  }

  function RecordRun(calls: seq<Call>): State
    requires ProperCalls(calls)
  {
    if calls == [] then State(None, None, None, false, [])
    else
      var c := calls[|calls| - 1];
      WriteFrameStep(RecordRun(calls[..|calls| - 1]), c.message, c.width, c.height, c.opening, c.lucks).state
  }

  lemma {:induction false} RunInv(calls: seq<Call>)
    requires ProperCalls(calls)
    ensures Inv(RecordRun(calls))
  {
    if calls != [] {
      var s, c := RecordRun(calls[..|calls| - 1]), calls[|calls| - 1];
      RunInv(calls[..|calls| - 1]);
      if !s.checkFailed && c.message.format.Some? {
        var shape := Shape(c.width, c.height, c.message.format.value);
        CheckKeeps(s, shape, c.opening);
        var o := CheckStep(s, shape, c.opening);
        if o.ok {
          FramesKeep(o.state, c.message.frames, shape, c.lucks);
        }
        hide CheckStep, Frames;
        assert Inv(o.state.(checkFailed := true));
      }
    }
  }

  function FilesOf(s: State): seq<Track> {
    s.done + match s.inner case Some(t) => [t] case None => []
  }

  /** Whatever messages come, with whatever sizes, formats, timestamps and failures:
      every file that is made is well formed. */
  lemma EveryFileWellFormed(calls: seq<Call>, i: nat)
    requires ProperCalls(calls) && i < |FilesOf(RecordRun(calls))|
    ensures WellFormed(FilesOf(RecordRun(calls))[i])
  {
    RunInv(calls);
  }

  /** Once a check has failed no message changes anything any more. */
  lemma {:induction false} FailedForGood(calls: seq<Call>, more: seq<Call>)
    requires ProperCalls(calls) && ProperCalls(more) && RecordRun(calls).checkFailed
    ensures ProperCalls(calls + more) && RecordRun(calls + more) == RecordRun(calls)
  {
    if more == [] {
      assert calls + more == calls;
    } else {
      var n := |more| - 1;
      FailedForGood(calls, more[..n]);
      assert (calls + more)[..|calls| + n] == calls + more[..n];
    }
  }

  // ----------------------------------------------------------------------
  // Which frames are kept
  // ----------------------------------------------------------------------

  /** A frame that was given to a muxer, and the number of its file, counting from one. */
  datatype Placed = Placed(file: nat, handed: Handed)

  function PlacedIn(file: nat, handed: seq<Handed>): seq<Placed> {
    seq(|handed|, i requires 0 <= i < |handed| => Placed(file, handed[i]))
  }

  /** Everything that was given to muxers, file by file. */
  function AllPlaced(files: seq<Track>): seq<Placed> {
    if files == [] then []
    else AllPlaced(files[..|files| - 1]) + PlacedIn(|files|, files[|files| - 1].handed)
  }

  lemma AllPlacedSnoc(files: seq<Track>, t: Track)
    ensures AllPlaced(files + [t]) == AllPlaced(files) + PlacedIn(|files| + 1, t.handed)
  {
    assert (files + [t])[..|files|] == files;
  }

  function Total(s: State): seq<Placed> {
    AllPlaced(FilesOf(s))
  }

  lemma DropFiles(s: State)
    ensures FilesOf(Drop(s)) == FilesOf(s)
  {}

  /** The timestamp that the check of a frame of a message compares with. */
  function Before(start: Option<int>, frames: seq<Frame>, j: nat): Option<int>
    requires j <= |frames|
  {
    if j == 0 then start else Some(frames[j - 1].pts)
  }

  predicate GoesBack(last: Option<int>, f: Frame) {
    f.pts < match last case Some(p) => p case None => 0
  }

  /** A check leaves a file of the same size and format as it is. Otherwise it closes the
      file at hand and begins an empty one, unless that fails. */
  lemma CheckedFile(s: State, shape: Shape, opening: Opening)
    ensures var o := CheckStep(s, shape, opening);
            && (s.inner.Some? && s.shape == Some(shape) ==> o == Outcome(s, true))
            && (s.inner.None? || s.shape != Some(shape) ==>
                  && (o.ok <==> opening == Opens || (opening == NoDirectory && s.shape == Some(shape)))
                  && (o.ok ==> o.state == State(Some(Track(shape, false, false, [])), Some(shape), None, s.checkFailed, FilesOf(s)))
                  && FilesOf(o.state) == FilesOf(s) + if o.ok then [Track(shape, false, false, [])] else [])
            && o.state.checkFailed == s.checkFailed
  {}

  /** A check adds no more than an empty file. */
  lemma CheckTotal(s: State, shape: Shape, opening: Opening)
    ensures Total(CheckStep(s, shape, opening).state) == Total(s)
  {
    var t := CheckStep(s, shape, opening).state;
    var empty := Track(shape, false, false, []);
    CheckedFile(s, shape, opening);
    AllPlacedSnoc(FilesOf(s), empty);
    assert AllPlaced(FilesOf(s)) + [] == AllPlaced(FilesOf(s));
    assert FilesOf(t) == FilesOf(s) || FilesOf(t) == FilesOf(s) + [empty];
    hide AllPlaced;
  }

  lemma PtsTotal(s: State, f: Frame, shape: Shape, opening: Opening)
    ensures var o := CheckPtsStep(s, f, shape, opening);
            && Total(o.state) == Total(s)
            && |FilesOf(o.state)| == |FilesOf(s)| + if o.ok && GoesBack(s.pts, f) then 1 else 0
  {
    var t := Drop(s.(pts := Some(f.pts))).(shape := None);
    DropFiles(s.(pts := Some(f.pts)));
    CheckedFile(t, shape, opening);
    CheckTotal(t, shape, opening);
    hide AllPlaced, CheckStep;
  }

  lemma WriteTotal(s: State, f: Frame, shape: Shape, muxed: bool)
    requires s.inner.Some?
    ensures var t := s.inner.value;
            var after := s.(inner := Some(WriteTrack(t, f, shape, muxed)));
            && Total(after) == Total(s) + (if f.key || t.key then [Placed(|FilesOf(s)|, Handed(f, shape))] else [])
            && |FilesOf(after)| == |FilesOf(s)|
  {
    var t := s.inner.value;
    AllPlacedSnoc(s.done, t);
    AllPlacedSnoc(s.done, WriteTrack(t, f, shape, muxed));
    hide AllPlaced;
    var n := |s.done| + 1;
    assert PlacedIn(n, t.handed + [Handed(f, shape)]) == PlacedIn(n, t.handed) + [Placed(n, Handed(f, shape))];
  }

  /** A frame is given to a muxer exactly if its check succeeds and a key frame has come,
      counting itself, since its file was begun; then it is the last of all. A new file is
      begun exactly if the timestamp goes back. */
  lemma FrameKept(s: State, f: Frame, shape: Shape, opening: Opening, muxed: bool)
    requires Inv(s) && s.shape == Some(shape) && s.inner.Some?
    ensures var o := OneFrame(s, f, shape, opening, muxed);
            && |FilesOf(o.state)| == |FilesOf(s)| + (if o.ok && GoesBack(s.pts, f) then 1 else 0)
            && Total(o.state) == Total(s) + if o.ok && (f.key || (!GoesBack(s.pts, f) && s.inner.value.key))
                                            then [Placed(|FilesOf(o.state)|, Handed(f, shape))] else []
  {
    var o := CheckPtsStep(s, f, shape, opening);
    PtsTotal(s, f, shape, opening);
    if o.ok {
      PtsKeeps(s, f, shape, opening);
      WriteTotal(o.state, f, shape, muxed);
    }
    hide Total, Inv, FilesOf;
  }

  /** No key frame at the beginning, or a new file is needed and cannot be had. */
  predicate Fails(last: Option<int>, f: Frame, opening: Opening) {
    (last.None? && !f.key) || (GoesBack(last, f) && opening != Opens)
  }

  /** How many frames of a message come before the first whose check fails. */
  function Passed(start: Option<int>, frames: seq<Frame>, lucks: seq<Luck>): (n: nat)
    requires |lucks| == |frames|
    ensures n <= |frames|
    ensures forall j :: 0 <= j < n ==> !Fails(Before(start, frames, j), frames[j], lucks[j].opening)
    ensures n < |frames| ==> Fails(Before(start, frames, n), frames[n], lucks[n].opening)
  {
    if frames == [] then 0
    else
      var m := |frames| - 1;
      var n := Passed(start, frames[..m], lucks[..m]);
      assert forall j :: 0 <= j <= m ==> Before(start, frames[..m], j) == Before(start, frames, j);
      if n < m || Fails(Before(start, frames, m), frames[m], lucks[m].opening) then n else m + 1
  }

  /** A key frame has come, up to this one, since its file was begun. */
  predicate KeyCame(start: Option<int>, keyed: bool, frames: seq<Frame>, j: nat)
    requires j < |frames|
  {
    || frames[j].key
    || (!GoesBack(Before(start, frames, j), frames[j]) && if j == 0 then keyed else KeyCame(start, keyed, frames, j - 1))
  }

  /** How many files the first `n` frames begin. */
  function Backs(start: Option<int>, frames: seq<Frame>, n: nat): nat
    requires n <= |frames|
  {
    if n == 0 then 0
    else Backs(start, frames, n - 1) + if GoesBack(Before(start, frames, n - 1), frames[n - 1]) then 1 else 0
  }

  /** Those of the first `n` frames that come at or after a key frame of their file, when
      the message finds the recorder at a file of this number. */
  function Kept(file: nat, start: Option<int>, keyed: bool, frames: seq<Frame>, n: nat, shape: Shape): seq<Placed>
    requires n <= |frames|
  {
    if n == 0 then []
    else
      Kept(file, start, keyed, frames, n - 1, shape)
      + if KeyCame(start, keyed, frames, n - 1)
        then [Placed(file + Backs(start, frames, n), Handed(frames[n - 1], shape))] else []
  }

  lemma {:induction false} KeyCameFront(start: Option<int>, keyed: bool, frames: seq<Frame>, m: nat, j: nat)
    requires j < m <= |frames|
    ensures KeyCame(start, keyed, frames[..m], j) == KeyCame(start, keyed, frames, j)
  {
    if j != 0 {
      KeyCameFront(start, keyed, frames, m, j - 1);
    }
  }

  lemma {:induction false} BacksFront(start: Option<int>, frames: seq<Frame>, m: nat, n: nat)
    requires n <= m <= |frames|
    ensures Backs(start, frames[..m], n) == Backs(start, frames, n)
  {
    if n != 0 {
      BacksFront(start, frames, m, n - 1);
    }
  }

  lemma {:induction false} KeptFront(file: nat, start: Option<int>, keyed: bool, frames: seq<Frame>, m: nat, n: nat, shape: Shape)
    requires n <= m <= |frames|
    ensures Kept(file, start, keyed, frames[..m], n, shape) == Kept(file, start, keyed, frames, n, shape)
  {
    if n != 0 {
      KeyCameFront(start, keyed, frames, m, n - 1);
      BacksFront(start, frames, m, n);
      KeptFront(file, start, keyed, frames, m, n - 1, shape);
    }
  }

  lemma OneFrameState(s: State, f: Frame, shape: Shape, opening: Opening, muxed: bool)
    requires Inv(s) && s.shape == Some(shape) && s.inner.Some?
    ensures var o := OneFrame(s, f, shape, opening, muxed);
            && (o.ok <==> !Fails(s.pts, f, opening))
            && (o.ok ==> o.state.pts == Some(f.pts) && o.state.shape == Some(shape) && o.state.inner.Some?
                         && o.state.inner.value.key == (f.key || (!GoesBack(s.pts, f) && s.inner.value.key)))
            && o.state.checkFailed == (s.checkFailed || !(o.ok || (s.pts.None? && !f.key)))
            && (s.pts.None? && !f.key ==> o.state == s)
  {
    hide Inv;
  }

  /** The state after the frames that passed. */
  predicate After(s: State, frames: seq<Frame>, shape: Shape, t: State)
    requires s.inner.Some?
  {
    && t.shape == Some(shape) && t.inner.Some?
    && t.pts == Before(s.pts, frames, |frames|)
    && t.inner.value.key == KeyAfter(s.pts, s.inner.value.key, frames)
  }

  /** A key frame of the file at hand has come by the end of the message. */
  predicate KeyAfter(start: Option<int>, keyed: bool, frames: seq<Frame>) {
    if frames == [] then keyed else KeyCame(start, keyed, frames, |frames| - 1)
  }

  /** The first frame is refused because nothing has come before and it is no key frame. */
  predicate KeyMissing(start: Option<int>, frames: seq<Frame>) {
    frames != [] && start.None? && !frames[0].key
  }

  /** Of a message exactly those frames are kept that come before the first failing
      check, at or after a key frame of their file; a file is begun exactly where a
      timestamp goes back. All but a missing key frame at the start fails for good. */
  lemma {:induction false} MessageKeeps(s: State, frames: seq<Frame>, shape: Shape, lucks: seq<Luck>)
    requires |lucks| == |frames|
    requires Inv(s) && s.shape == Some(shape) && s.inner.Some?
    ensures var o, n := Frames(s, frames, shape, lucks), Passed(s.pts, frames, lucks);
            && Inv(o.state)
            && (o.ok <==> n == |frames|)
            && (o.ok ==> After(s, frames, shape, o.state))
            && o.state.checkFailed == (s.checkFailed || !(o.ok || KeyMissing(s.pts, frames)))
            && (KeyMissing(s.pts, frames) ==> !o.ok && o.state == s)
            && |FilesOf(o.state)| == |FilesOf(s)| + Backs(s.pts, frames, n)
            && Total(o.state) == Total(s) + Kept(|FilesOf(s)|, s.pts, s.inner.value.key, frames, n, shape)
  {
    hide *;
    if frames == [] {
      NoFrames(s, shape);
    } else {
      var m := |frames| - 1;
      var front := frames[..m];
      MessageKeeps(s, front, shape, lucks[..m]);
      var o := Frames(s, front, shape, lucks[..m]);
      var n := Passed(s.pts, front, lucks[..m]);
      KeptFront(|FilesOf(s)|, s.pts, s.inner.value.key, frames, m, n, shape);
      BacksFront(s.pts, frames, m, n);
      FramesKeep(s, frames, shape, lucks);
      FramesStep(s, frames, shape, lucks);
      KeptStep(|FilesOf(s)|, s.pts, s.inner.value.key, frames, m, shape);
      MissingFront(s, frames, shape, lucks);
      if o.ok {
        LastFrame(s, frames, shape, lucks, o.state);
      }
    }
  }

  lemma NoFrames(s: State, shape: Shape)
    requires s.shape == Some(shape) && s.inner.Some?
    ensures Frames(s, [], shape, []) == Outcome(s, true) && Passed(s.pts, [], []) == 0 && After(s, [], shape, s)
    ensures !KeyMissing(s.pts, []) && Backs(s.pts, [], 0) == 0
    ensures Total(s) + Kept(|FilesOf(s)|, s.pts, s.inner.value.key, [], 0, shape) == Total(s)
  {}

  lemma MissingFront(s: State, frames: seq<Frame>, shape: Shape, lucks: seq<Luck>)
    requires |lucks| == |frames| > 0
    ensures var m := |frames| - 1;
            && (m > 0 ==> KeyMissing(s.pts, frames) == KeyMissing(s.pts, frames[..m]))
            && (m == 0 ==> Frames(s, frames[..m], shape, lucks[..m]) == Outcome(s, true))
            && Before(s.pts, frames, m) == (if m == 0 then s.pts else Some(frames[m - 1].pts))
  {}

  lemma FramesStep(s: State, frames: seq<Frame>, shape: Shape, lucks: seq<Luck>)
    requires |lucks| == |frames| > 0 && s.inner.Some?
    ensures var m := |frames| - 1;
            var o, n := Frames(s, frames[..m], shape, lucks[..m]), Passed(s.pts, frames[..m], lucks[..m]);
            && Frames(s, frames, shape, lucks)
               == (if o.ok then OneFrame(o.state, frames[m], shape, lucks[m].opening, lucks[m].muxed) else o)
            && Passed(s.pts, frames, lucks)
               == (if n < m || Fails(Before(s.pts, frames, m), frames[m], lucks[m].opening) then n else m + 1)
  {
    hide OneFrame, Fails, Before;
  }

  lemma KeptStep(file: nat, start: Option<int>, keyed: bool, frames: seq<Frame>, m: nat, shape: Shape)
    requires m < |frames|
    ensures Backs(start, frames, m + 1)
            == Backs(start, frames, m) + if GoesBack(Before(start, frames, m), frames[m]) then 1 else 0
    ensures Kept(file, start, keyed, frames, m + 1, shape)
            == Kept(file, start, keyed, frames, m, shape)
               + if KeyCame(start, keyed, frames, m)
                 then [Placed(file + Backs(start, frames, m + 1), Handed(frames[m], shape))] else []
  {
    hide GoesBack, KeyCame, Before;
  }

  /** The last frame of a message whose other frames have passed. */
  lemma LastFrame(s: State, frames: seq<Frame>, shape: Shape, lucks: seq<Luck>, t: State)
    requires frames != [] && |lucks| == |frames| && s.inner.Some?
    requires Inv(t) && After(s, frames[..|frames| - 1], shape, t)
    requires |frames| == 1 ==> t == s
    ensures var m := |frames| - 1;
            var last := Before(s.pts, frames, m);
            var o := OneFrame(t, frames[m], shape, lucks[m].opening, lucks[m].muxed);
            && (o.ok <==> !Fails(last, frames[m], lucks[m].opening))
            && (o.ok ==> After(s, frames, shape, o.state))
            && (m == 0 && KeyMissing(s.pts, frames) ==> !o.ok && o.state == s)
            && (o.state.checkFailed == (t.checkFailed || !(o.ok || (m == 0 && KeyMissing(s.pts, frames)))))
            && |FilesOf(o.state)| == |FilesOf(t)| + (if o.ok && GoesBack(last, frames[m]) then 1 else 0)
            && Total(o.state) == Total(t) + if o.ok && KeyCame(s.pts, s.inner.value.key, frames, m)
                                            then [Placed(|FilesOf(o.state)|, Handed(frames[m], shape))] else []
  {
    hide Inv, Total, OneFrame, Fails, FilesOf;
    var m := |frames| - 1;
    OneFrameState(t, frames[m], shape, lucks[m].opening, lucks[m].muxed);
    FrameKept(t, frames[m], shape, lucks[m].opening, lucks[m].muxed);
    assert Before(s.pts, frames[..m], m) == Before(s.pts, frames, m);
    if m != 0 {
      KeyCameFront(s.pts, s.inner.value.key, frames, m, m - 1);
    }
  }

  /** All frames of a message, each in the file that is at hand when it comes. */
  function Whole(file: nat, start: Option<int>, frames: seq<Frame>, shape: Shape): seq<Placed> {
    seq(|frames|, j requires 0 <= j < |frames| => Placed(file + Backs(start, frames, j + 1), Handed(frames[j], shape)))
  }

  /** A file begins with this frame, or is still without a key frame. */
  predicate Begins(start: Option<int>, keyed: bool, frames: seq<Frame>, j: nat)
    requires j < |frames|
  {
    GoesBack(Before(start, frames, j), frames[j]) || (j == 0 && !keyed)
  }

  lemma {:induction false} KeptAllIff(file: nat, start: Option<int>, keyed: bool, frames: seq<Frame>, n: nat, shape: Shape)
    requires n <= |frames|
    ensures var kept := Kept(file, start, keyed, frames, n, shape);
            && |kept| <= n
            && (|kept| == n <==> forall j :: 0 <= j < n && Begins(start, keyed, frames, j) ==> frames[j].key)
            && (|kept| == n ==> kept == Whole(file, start, frames, shape)[..n] && (n > 0 ==> KeyCame(start, keyed, frames, n - 1)))
  {
    hide GoesBack, Backs;
    if n != 0 {
      KeptAllIff(file, start, keyed, frames, n - 1, shape);
      var whole := Whole(file, start, frames, shape);
      assert whole[..n] == whole[..n - 1] + [whole[n - 1]];
    }
  }

  /** That is the whole message exactly if no check fails and every frame that begins a
      file, or finds one without a key frame, is a key frame. */
  lemma NothingLost(s: State, frames: seq<Frame>, shape: Shape, lucks: seq<Luck>)
    requires |lucks| == |frames|
    requires Inv(s) && s.shape == Some(shape) && s.inner.Some?
    ensures Total(Frames(s, frames, shape, lucks).state) == Total(s) + Whole(|FilesOf(s)|, s.pts, frames, shape)
            <==> && Passed(s.pts, frames, lucks) == |frames|
                 && forall j :: 0 <= j < |frames| && Begins(s.pts, s.inner.value.key, frames, j) ==> frames[j].key
  {
    hide Inv, Total, Kept, Frames, Passed, Begins, FilesOf;
    var n, file := Passed(s.pts, frames, lucks), |FilesOf(s)|;
    var kept := Kept(file, s.pts, s.inner.value.key, frames, n, shape);
    var whole := Whole(file, s.pts, frames, shape);
    MessageKeeps(s, frames, shape, lucks);
    KeptAllIff(file, s.pts, s.inner.value.key, frames, n, shape);
    assert whole[..|frames|] == whole;
    if Total(s) + kept == Total(s) + whole {
      assert |kept| == |frames|;
    }
  }

  // ----------------------------------------------------------------------
  // Runs, without the recorder
  // ----------------------------------------------------------------------

  /** How a recording stands between two calls: not begun, at a file of some size and
      format with its last timestamp, or failed for good. */
  datatype Stand = Fresh | Going(shape: Shape, last: Option<int>, keyed: bool) | Failed

  /** All that files hold, how many there are, and how the recording stands. */
  datatype Book = Book(placed: seq<Placed>, files: nat, stand: Stand)

  /** A message that goes on with the file at hand, or with one that it begins. */
  function Entered(placed: seq<Placed>, files: nat, shape: Shape, start: Option<int>, keyed: bool,
                   frames: seq<Frame>, lucks: seq<Luck>): Book
    requires |lucks| == |frames|
  {
    var n := Passed(start, frames, lucks);
    Book(placed + Kept(files, start, keyed, frames, n, shape),
         files + Backs(start, frames, n),
         if n == |frames| then Going(shape, Before(start, frames, n), KeyAfter(start, keyed, frames))
         else if KeyMissing(start, frames) then Going(shape, start, keyed)
         else Failed)
  }

  /** A message of the size and format at hand goes on with the file at hand, from its last
      timestamp; any other begins a new file, which waits for a key frame. */
  function BookStep(b: Book, c: Call): Book
    requires |c.lucks| == |c.message.frames|
  {
    if b.stand.Failed? || c.message.format.None? then b
    else
      var shape := Shape(c.width, c.height, c.message.format.value);
      if b.stand.Going? && b.stand.shape == shape
      then Entered(b.placed, b.files, shape, b.stand.last, b.stand.keyed, c.message.frames, c.lucks)
      else if c.opening != Opens then b.(stand := Failed)
      else Entered(b.placed, b.files + 1, shape, None, false, c.message.frames, c.lucks)
  }

  function BookRun(calls: seq<Call>): Book
    requires ProperCalls(calls)
  {
    if calls == [] then Book([], 0, Fresh) else BookStep(BookRun(calls[..|calls| - 1]), calls[|calls| - 1])
  }

  function StandOf(s: State): Stand {
    if s.checkFailed then Failed
    else match s.inner case Some(t) => Going(t.shape, s.pts, t.key) case None => Fresh
  }

  function BookOf(s: State): Book {
    Book(Total(s), |FilesOf(s)|, StandOf(s))
  }

  /** Only a recorder that has not begun is without a file. */
  predicate Begun(s: State) {
    s.inner.None? && !s.checkFailed ==> s.shape.None?
  }

  lemma EnteredBook(s: State, frames: seq<Frame>, shape: Shape, lucks: seq<Luck>)
    requires |lucks| == |frames|
    requires Inv(s) && s.shape == Some(shape) && s.inner.Some? && !s.checkFailed
    ensures var t := Frames(s, frames, shape, lucks).state;
            Begun(t) && BookOf(t) == Entered(Total(s), |FilesOf(s)|, shape, s.pts, s.inner.value.key, frames, lucks)
  {
    hide Inv, Total, Kept, Frames, Passed, FilesOf, KeyMissing, KeyAfter, Backs;
    MessageKeeps(s, frames, shape, lucks);
    var o := Frames(s, frames, shape, lucks);
    FramesKeep(s, frames, shape, lucks);
    AtHand(s);
    if !o.state.checkFailed {
      AtHand(o.state);
    }
  }

  lemma AtHand(s: State)
    requires Inv(s) && s.inner.Some?
    ensures s.shape == Some(s.inner.value.shape)
  {}

  lemma CallBooked(s: State, c: Call)
    requires Inv(s) && Begun(s) && |c.lucks| == |c.message.frames|
    ensures var t := WriteFrameStep(s, c.message, c.width, c.height, c.opening, c.lucks).state;
            Begun(t) && BookOf(t) == BookStep(BookOf(s), c)
  {
    hide Inv, Total, Frames, CheckStep, Entered;
    if !s.checkFailed && c.message.format.Some? {
      var shape := Shape(c.width, c.height, c.message.format.value);
      var o := CheckStep(s, shape, c.opening);
      CheckKeeps(s, shape, c.opening);
      CheckTotal(s, shape, c.opening);
      CheckedFile(s, shape, c.opening);
      if s.inner.Some? {
        AtHand(s);
      }
      if o.ok {
        EnteredBook(o.state, c.message.frames, shape, c.lucks);
      } else {
        SameTotal(o.state, o.state.(checkFailed := true));
      }
    }
  }

  lemma SameTotal(s: State, t: State)
    requires s.inner == t.inner && s.done == t.done
    ensures Total(s) == Total(t)
  {}

  /** Over every run: which frames the files hold, each in which file, how many files
      there are and what the recorder goes on with, are those of the book. */
  lemma {:induction false} RunKept(calls: seq<Call>)
    requires ProperCalls(calls)
    ensures Begun(RecordRun(calls)) && BookOf(RecordRun(calls)) == BookRun(calls)
  {
    if calls != [] {
      var front := calls[..|calls| - 1];
      RunKept(front);
      RunInv(front);
      hide Inv, BookOf, BookStep, WriteFrameStep, Begun;
      CallBooked(RecordRun(front), calls[|calls| - 1]);
    }
  }

  lemma SingleFrame(s: State, c: Call, f: Frame, shape: Shape, luck: Luck)
    requires c == Call(Message(Some(shape.format), [f]), shape.width, shape.height, Opens, [luck]) && !s.checkFailed
    ensures WriteFrameStep(s, c.message, c.width, c.height, c.opening, c.lucks)
            == OneFrame(CheckStep(s, shape, Opens).state, f, shape, luck.opening, luck.muxed)
  {
    var t := CheckStep(s, shape, Opens).state;
    assert [f][..0] == [] && [luck][..0] == [];
    assert Frames(t, [f][..0], shape, [luck][..0]) == Outcome(t, true);
    hide OneFrame;
  }

  /** So two messages of one size and format that start with a key frame and do not go
      back are in one file. */
  lemma OneFile(a: Frame, b: Frame, format: Format, w: nat, h: nat)
    requires a.key && 0 <= a.pts <= b.pts
    ensures var luck := Luck(Opens, true);
            var calls := [Call(Message(Some(format), [a]), w, h, Opens, [luck]), Call(Message(Some(format), [b]), w, h, Opens, [luck])];
            var shape := Shape(w, h, format);
            FilesOf(RecordRun(calls)) == [Track(shape, true, true, [Handed(a, shape), Handed(b, shape)])]
  {
    var luck, shape := Luck(Opens, true), Shape(w, h, format);
    var first, second := Call(Message(Some(format), [a]), w, h, Opens, [luck]), Call(Message(Some(format), [b]), w, h, Opens, [luck]);
    assert [first, second][..1] == [first] && [first][..0] == [];
    SingleFrame(RecordRun([]), first, a, shape, luck);
    var one := RecordRun([first]);
    var none: seq<Handed> := [];
    assert none + [Handed(a, shape)] == [Handed(a, shape)];
    assert RecordRun([]) == State(None, None, None, false, []);
    assert one == OneFrame(CheckStep(RecordRun([]), shape, Opens).state, a, shape, Opens, true).state;
    assert one == State(Some(Track(shape, true, true, [Handed(a, shape)])), Some(shape), Some(a.pts), false, []);
    SingleFrame(one, second, b, shape, luck);
    assert RecordRun([first, second]) == OneFrame(one, b, shape, Opens, true).state;
    assert [Handed(a, shape)] + [Handed(b, shape)] == [Handed(a, shape), Handed(b, shape)];
  }

  /** A key frame is lost when a frame before it in its message fails: here the first
      message of a recording, which begins with another kind of frame. */
  lemma KeyFrameLost(delta: Frame, key: Frame, format: Format, w: nat, h: nat)
    requires !delta.key && key.key
    ensures var call := Call(Message(Some(format), [delta, key]), w, h, Opens, [Luck(Opens, true), Luck(Opens, true)]);
            Total(RecordRun([call])) == [] && !RecordRun([call]).checkFailed
  {
    hide RecordRun, BookOf, Fails;
    var frames, lucks := [delta, key], [Luck(Opens, true), Luck(Opens, true)];
    var call := Call(Message(Some(format), frames), w, h, Opens, lucks);
    RunKept([call]);
    assert [call][..0] == [] && [call][0] == call;
    FirstFails(delta, lucks[0].opening);
    assert Passed(None, frames, lucks) == 0;
    BookedAs(RecordRun([call]), Book([], 1, Going(Shape(w, h, format), None, false)));
  }

  lemma FirstFails(f: Frame, opening: Opening)
    requires !f.key
    ensures Fails(None, f, opening)
  {}

  lemma BookedAs(s: State, b: Book)
    requires BookOf(s) == b
    ensures Total(s) == b.placed && (b.stand.Going? ==> !s.checkFailed)
  {
    hide Total, FilesOf;
  }

  // ----------------------------------------------------------------------
  // Timestamps in the file
  // ----------------------------------------------------------------------

  const TWO64 := 0x1_0000_0000_0000_0000

  /** `pts as u64 * 1_000_000` in a release build. */
  function Nanos(pts: int): nat {
    (pts % TWO64) * 1_000_000 % TWO64
  }

  /** How often the register has come round at a timestamp. */
  function Wraps(pts: int): int {
    pts * 1_000_000 / TWO64
  }

  lemma NanosOf(pts: int)
    ensures Nanos(pts) == pts * 1_000_000 - Wraps(pts) * TWO64
  {
    var q, r := pts / TWO64, pts % TWO64;
    var x := r * 1_000_000;
    assert pts * 1_000_000 == (q * 1_000_000) * TWO64 + x;
    assert x == (x / TWO64) * TWO64 + x % TWO64;
    var w := q * 1_000_000 + x / TWO64;
    assert pts * 1_000_000 == w * TWO64 + x % TWO64;
    Quotient(pts * 1_000_000, w, x % TWO64);
  }

  lemma Quotient(x: int, q: int, r: int)
    requires x == q * TWO64 + r && 0 <= r < TWO64
    ensures x / TWO64 == q && x % TWO64 == r
  {}

  /** Two timestamps are in order in the file exactly if the register comes round between
      them just as often as whole periods of it lie between them. */
  predicate Unbroken(p: int, q: int) {
    Wraps(q) - Wraps(p) == (q - p) * 1_000_000 / TWO64
  }

  lemma PairInOrder(p: int, q: int)
    requires p <= q
    ensures Nanos(p) <= Nanos(q) <==> Unbroken(p, q)
  {
    NanosOf(p);
    NanosOf(q);
    hide Nanos;
    var n := Wraps(q) - Wraps(p);
    var d := Nanos(q) - Nanos(p);
    assert (q - p) * 1_000_000 == n * TWO64 + d;
    NanosRange(p);
    NanosRange(q);
    hide Wraps;
    if d >= 0 {
      Quotient((q - p) * 1_000_000, n, d);
    } else {
      Quotient((q - p) * 1_000_000, n - 1, d + TWO64);
    }
  }

  lemma NanosRange(p: int)
    ensures 0 <= Nanos(p) < TWO64
  {}

  predicate InOrder(h: seq<Handed>) {
    forall i, k :: 0 <= i < k < |h| ==> Nanos(h[i].frame.pts) <= Nanos(h[k].frame.pts)
  }

  lemma {:induction false} InOrderFrom(h: seq<Handed>, i: nat, k: nat)
    requires i <= k < |h|
    requires forall j :: 0 <= j < |h| - 1 ==> Nanos(h[j].frame.pts) <= Nanos(h[j + 1].frame.pts)
    ensures Nanos(h[i].frame.pts) <= Nanos(h[k].frame.pts)
  {
    hide Nanos;
    if i < k {
      InOrderFrom(h, i, k - 1);
      assert Nanos(h[k - 1].frame.pts) <= Nanos(h[k - 1 + 1].frame.pts);
    }
  }

  /** The timestamps that go into a webm file are in order exactly if that holds for each
      frame and the next, whatever the timestamps. */
  lemma NanosInOrder(t: Track)
    requires WellFormed(t)
    ensures InOrder(t.handed)
            <==> forall j :: 0 <= j < |t.handed| - 1 ==> Unbroken(t.handed[j].frame.pts, t.handed[j + 1].frame.pts)
  {
    hide Nanos, Unbroken;
    var h := t.handed;
    forall j | 0 <= j < |h| - 1
      ensures Nanos(h[j].frame.pts) <= Nanos(h[j + 1].frame.pts) <==> Unbroken(h[j].frame.pts, h[j + 1].frame.pts)
    {
      PairInOrder(h[j].frame.pts, h[j + 1].frame.pts);
    }
    if forall j :: 0 <= j < |h| - 1 ==> Unbroken(h[j].frame.pts, h[j + 1].frame.pts) {
      forall i, k | 0 <= i < k < |h|
        ensures Nanos(h[i].frame.pts) <= Nanos(h[k].frame.pts)
      {
        InOrderFrom(h, i, k);
      }
    }
  }

  lemma WrapsMonotone(p: int, q: int)
    requires p <= q
    ensures Wraps(p) <= Wraps(q)
  {}

  lemma NoWholePeriod(p: int, q: int)
    requires p <= q && (q - p) * 1_000_000 < TWO64
    ensures Unbroken(p, q) <==> Wraps(p) == Wraps(q)
  {}

  /** For a file shorter than one period, which is more than 584 years, that is: exactly
      if the register does not come round between its first and its last frame. */
  lemma ShortFileInOrder(t: Track)
    requires WellFormed(t) && t.handed != []
    requires (t.handed[|t.handed| - 1].frame.pts - t.handed[0].frame.pts) * 1_000_000 < TWO64
    ensures InOrder(t.handed) <==> Wraps(t.handed[0].frame.pts) == Wraps(t.handed[|t.handed| - 1].frame.pts)
  {
    var h, n := t.handed, |t.handed| - 1;
    forall i, k | 0 <= i <= k <= n
      ensures Wraps(h[i].frame.pts) <= Wraps(h[k].frame.pts)
      ensures Nanos(h[i].frame.pts) <= Nanos(h[k].frame.pts) <==> Wraps(h[i].frame.pts) == Wraps(h[k].frame.pts)
    {
      var p, q := h[i].frame.pts, h[k].frame.pts;
      assert h[0].frame.pts <= p <= q <= h[n].frame.pts;
      WrapsMonotone(p, q);
      PairInOrder(p, q);
      NoWholePeriod(p, q);
    }
    hide Nanos, Wraps;
    if Wraps(h[0].frame.pts) == Wraps(h[n].frame.pts) {
      forall i, k | 0 <= i < k < |h|
        ensures Nanos(h[i].frame.pts) <= Nanos(h[k].frame.pts)
      {
        assert Wraps(h[0].frame.pts) <= Wraps(h[i].frame.pts) <= Wraps(h[k].frame.pts) <= Wraps(h[n].frame.pts);
      }
    } else {
      assert 0 < n;
    }
  }

  /** Where the register comes round next to zero. */
  lemma WrapPoints(pts: int)
    ensures Wraps(pts) == 0 <==> 0 <= pts <= 18_446_744_073_709
    ensures Wraps(pts) == -1 <==> -18_446_744_073_709 <= pts < 0
  {}

  /** Such a file comes about: a key frame before zero starts one, the next at zero goes
      into the same. */
  lemma NegativeStart(data: seq<byte>, w: nat, h: nat)
    ensures var call := Call(Message(Some(VP9), [Frame(data, -1, true), Frame(data, 0, false)]), w, h, Opens,
                             [Luck(Opens, true), Luck(Opens, true)]);
            var s := RecordRun([call]);
            && s.inner.Some? && |s.inner.value.handed| == 2
            && Nanos(s.inner.value.handed[0].frame.pts) > Nanos(s.inner.value.handed[1].frame.pts)
  {
    var shape := Shape(w, h, VP9);
    var frames := [Frame(data, -1, true), Frame(data, 0, false)];
    var lucks := [Luck(Opens, true), Luck(Opens, true)];
    var call := Call(Message(Some(VP9), frames), w, h, Opens, lucks);
    assert [call][..0] == [];
    var s0 := CheckStep(RecordRun([]), shape, Opens).state;
    assert frames[..1] == [frames[0]] && frames[..1][..0] == [] && lucks[..1] == [lucks[0]];
    assert Frames(s0, frames[..0], shape, lucks[..0]) == Outcome(s0, true);
    var s1 := OneFrame(s0, frames[0], shape, Opens, true);
    assert Frames(s0, frames[..1], shape, lucks[..1]) == s1;
    assert Frames(s0, frames, shape, lucks) == OneFrame(s1.state, frames[1], shape, Opens, true);
    WrapPoints(-1);
    WrapPoints(0);
    NanosOf(-1);
    NanosOf(0);
  }
}
