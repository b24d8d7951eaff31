/** Taking frames from PipeWire: a frame of the right size is kept, and cropped if it
    comes with a rectangle. */
module Cropping {
  import opened Wrappers
  import opened Bits
  import opened Bytes

  datatype Rect = Rect(x: nat, y: nat, w: nat, h: nat)

  /** The place of a pixel of four bytes in an image. */
  function At(width: nat, x: nat, y: nat): nat {
    4 * (width * y + x)
  }

  /** The four bytes of a pixel. */
  predicate SamePixel(a: seq<byte>, i: nat, b: seq<byte>, k: nat) {
    i + 4 <= |a| && k + 4 <= |b| && a[i..i + 4] == b[k..k + 4]
  }

  /** The image is the part of the other one that begins at `x`, `y`. */
  predicate PartOf(part: seq<byte>, width: nat, height: nat, data: seq<byte>, w: nat, x: nat, y: nat) {
    && |part| == At(width, 0, height)
    && forall u, v :: 0 <= u < width && 0 <= v < height ==> SamePixel(part, At(width, u, v), data, At(w, x + u, y + v))
  }

  /** Byte by byte. */
  lemma PartBytes(part: seq<byte>, width: nat, height: nat, data: seq<byte>, w: nat, x: nat, y: nat, u: nat, v: nat, k: nat)
    requires PartOf(part, width, height, data, w, x, y)
    ensures |part| == 4 * (width * height)
    ensures u < width && v < height && k < 4 ==>
              var i, j := 4 * (width * v + u) + k, 4 * (w * (y + v) + (x + u)) + k;
              0 <= i < |part| && 0 <= j < |data| && part[i] == data[j]
  {
    if u < width && v < height && k < 4 {
      var i, j := At(width, u, v), At(w, x + u, y + v);
      assert SamePixel(part, i, data, j);
      assert part[i..i + 4][k] == data[j..j + 4][k];
    }
  }

  /** No row of the rectangle goes beyond the end of the buffer. */
  predicate Sliceable(size: nat, w: nat, r: Rect) {
    r.h == 0 || At(w, r.x, r.y + r.h - 1) + 4 * r.w <= size
  }

  predicate Inside(w: nat, h: nat, r: Rect) {
    r.x + r.w <= w && r.y + r.h <= h
  }

  lemma InsideSliceable(w: nat, h: nat, r: Rect)
    requires Inside(w, h, r)
    ensures Sliceable(At(w, 0, h), w, r)
  {
    if r.h != 0 {
      MulMono(w, r.y + r.h, h);
      assert w * (r.y + r.h) == w * (r.y + r.h - 1) + w;
    }
  }

  predicate RowFits(size: nat, w: nat, r: Rect, v: nat) {
    At(w, r.x, r.y + v) + 4 * r.w <= size
  }

  lemma AtRow(w: nat, r: Rect, v: nat)
    ensures At(w, r.x, r.y + v) == 4 * (w * (r.y + v) + r.x)
  {}

  /** A row that does not fit shows that the last one does not. */
  lemma RowDecides(size: nat, w: nat, r: Rect, v: nat)
    requires v < r.h && !RowFits(size, w, r, v)
    ensures !Sliceable(size, w, r)
  {
    MulMono(w, r.y + v, r.y + r.h - 1);
  }

  lemma LastRowDecides(size: nat, w: nat, r: Rect)
    requires r.h > 0 ==> RowFits(size, w, r, r.h - 1)
    ensures Sliceable(size, w, r)
  {
    hide At;
    assert r.h > 0 ==> r.y + (r.h - 1) == r.y + r.h - 1;
  }

  lemma NoRows(data: seq<byte>, w: nat, r: Rect)
    ensures PartOf([], r.w, 0, data, w, r.x, r.y)
  {}

  /** The rows that have been copied are a part of the image; one more makes the part
      one row higher. */
  lemma OneMoreRow(part: seq<byte>, data: seq<byte>, w: nat, r: Rect, v: nat)
    requires PartOf(part, r.w, v, data, w, r.x, r.y)
    requires At(w, r.x, r.y + v) + 4 * r.w <= |data|
    ensures var i := At(w, r.x, r.y + v);
            PartOf(part + data[i..i + 4 * r.w], r.w, v + 1, data, w, r.x, r.y)
  {
    var i := At(w, r.x, r.y + v);
    var more := part + data[i..i + 4 * r.w];
    assert r.w * (v + 1) == r.w * v + r.w;
    forall x, y | 0 <= x < r.w && 0 <= y < v + 1
      ensures SamePixel(more, At(r.w, x, y), data, At(w, r.x + x, r.y + y))
    {
      if y < v {
        OldPixel(part, more, data, At(r.w, x, y), At(w, r.x + x, r.y + y));
      } else {
        assert At(r.w, x, v) == |part| + 4 * x && At(w, r.x + x, r.y + v) == i + 4 * x;
        NewPixel(part, data, i, r.w, x);
      }
    }
  }

  lemma OldPixel(part: seq<byte>, more: seq<byte>, data: seq<byte>, a: nat, b: nat)
    requires SamePixel(part, a, data, b) && part <= more
    ensures SamePixel(more, a, data, b)
  {
    assert more[a..a + 4] == part[a..a + 4];
  }

  lemma NewPixel(part: seq<byte>, data: seq<byte>, i: nat, w: nat, x: nat)
    requires x < w && i + 4 * w <= |data|
    ensures SamePixel(part + data[i..i + 4 * w], |part| + 4 * x, data, i + 4 * x)
  {
    var row := data[i..i + 4 * w];
    var here, there := (part + row)[|part| + 4 * x..|part| + 4 * x + 4], data[i + 4 * x..i + 4 * x + 4];
    forall k | 0 <= k < 4
      ensures here[k] == there[k]
    {
      assert here[k] == (part + row)[|part| + (4 * x + k)] == row[4 * x + k];
    }
  }

  datatype Captured = Unchanged | Panics | NoBuffer | Frame

  class PipeWireRecorder {
    var buffer: Option<seq<byte>>
    var bufferCropped: seq<byte>
    var savedRawData: seq<byte>
    var width: nat
    var height: nat
    var isCropped: bool

    constructor ()
      ensures buffer == None && savedRawData == [] && Consistent()
    {
      buffer, bufferCropped, savedRawData, width, height, isCropped := None, [], [], 0, 0, false;
    }

    /** The bytes that a capture gives out. */
    function Pixels(): seq<byte>
      reads this
      requires buffer.Some?
    {
      if isCropped then bufferCropped else buffer.value
    }

    /** What is given out has the width and the height that is said. */
    ghost predicate Consistent()
      reads this
    {
      buffer.Some? ==> |Pixels()| == At(width, 0, height)
    }

    method CropRows(data: seq<byte>, w: nat, r: Rect) returns (ok: bool)
      modifies `bufferCropped
      ensures ok <==> Sliceable(|data|, w, r)
      ensures ok ==> PartOf(bufferCropped, r.w, r.h, data, w, r.x, r.y)
    {
      hide PartOf, At, Sliceable;
      NoRows(data, w, r);
      bufferCropped := [];
      for y := r.y to r.y + r.h
        invariant PartOf(bufferCropped, r.w, y - r.y, data, w, r.x, r.y)
        invariant y > r.y ==> RowFits(|data|, w, r, y - r.y - 1)
      {
        ghost var v := y - r.y;
        AtRow(w, r, v);
        var i := 4 * (w * y + r.x);
        if i + 4 * r.w > |data| {
          RowDecides(|data|, w, r, v);
          return false;
        }
        OneMoreRow(bufferCropped, data, w, r, v);
        bufferCropped := bufferCropped + data[i..i + 4 * r.w];
      }
      LastRowDecides(|data|, w, r);
      return true;
    }

    /** A sample of `w` by `h` pixels. One like the last is passed over; one whose size
        does not fit is dropped, and what was captured before is given out again. A
        rectangle that the buffer does not hold makes the copy panic. */
    method Capture(data: seq<byte>, w: nat, h: nat, rect: Option<Rect>) returns (c: Captured)
      requires Consistent()
      modifies this
      ensures savedRawData == data
      ensures c != Panics ==> Consistent()
      ensures c == Unchanged <==> data == old(savedRawData)
      ensures c == Panics <==> data != old(savedRawData) && |data| == At(w, 0, h) && rect.Some?
                               && rect != Some(Rect(0, 0, w, h)) && !Sliceable(|data|, w, rect.value)
      ensures c == Frame ==> buffer.Some?
      ensures c == NoBuffer <==> data != old(savedRawData) && |data| != 4 * w * h && old(buffer) == None
      ensures c == Frame && |data| == At(w, 0, h) ==>
                match rect
                case Some(r) => width == r.w && height == r.h && PartOf(Pixels(), r.w, r.h, data, w, r.x, r.y)
                case None => width == w && height == h && Pixels() == data
      ensures c == Unchanged || (c != Panics && |data| != At(w, 0, h)) ==>
                buffer == old(buffer) && width == old(width) && height == old(height)
                && isCropped == old(isCropped) && bufferCropped == old(bufferCropped)
    {
      var crop := if rect == Some(Rect(0, 0, w, h)) then None else rect;
      if data == savedRawData {
        return Unchanged;
      }
      savedRawData := data;
      if |data| == w * h * 4 {
        match crop {
          case Some(r) =>
            var ok := CropRows(data, w, r);
            if !ok {
              return Panics;
            }
            width, height := r.w, r.h;
          case None =>
            width, height := w, h;
            WholeImage(data, w, h);
        }
        isCropped := crop.Some?;
        buffer := Some(data);
      }
      return if buffer == None then NoBuffer else Frame;
    }
  }

  lemma WholeImage(data: seq<byte>, w: nat, h: nat)
    requires |data| == At(w, 0, h)
    ensures PartOf(data, w, h, data, w, 0, 0)
  {
    forall u, v | 0 <= u < w && 0 <= v < h
      ensures SamePixel(data, At(w, u, v), data, At(w, 0 + u, 0 + v))
    {
      MulMono(w, v + 1, h);
      assert w * (v + 1) == w * v + w;
    }
  }
}
