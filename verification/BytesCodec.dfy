/** The length-prefixed frame codec: a resumable decoder over a growing buffer,
    and the encoder whose output it reads back. */
module BytesCodec {
  import opened Wrappers
  import opened Bits
  import opened Bytes

  // ----------------------------------------------------------------------
  // The wire format, stated without any decoder state
  // ----------------------------------------------------------------------

  const MAX_PAYLOAD := 0x3FFF_FFFF

  /** The two low bits of the first byte give the header's length. */
  function HeadLen(b: byte): nat {
    b % 4 + 1
  }

  /** The header's bytes as a little-endian number. */
  function HeadNumber(s: seq<byte>, h: nat): nat
    requires 1 <= h <= 4 && h <= |s|
  {
    var v0: int, v1: int, v2: int, v3: int :=
      s[0], if h > 1 then s[1] else 0, if h > 2 then s[2] else 0, if h > 3 then s[3] else 0;
    v0 + 0x100 * v1 + 0x1_0000 * v2 + 0x100_0000 * v3
  }

  /** The remaining bits, little-endian, give the payload's length. */
  function HeadValue(s: seq<byte>): nat
    requires s != [] && HeadLen(s[0]) <= |s|
  {
    HeadNumber(s, HeadLen(s[0])) / 4
  }

  datatype Item = Incomplete | TooBig | Frame(payload: seq<byte>, rest: seq<byte>)

  /** What a byte stream starts with, for a reader that accepts payloads of up
      to `limit` bytes. */
  function First(limit: nat, s: seq<byte>): (r: Item)
    ensures r.Frame? ==> |r.rest| < |s|
  {
    if s == [] || |s| < HeadLen(s[0]) then Incomplete
    else
      var h, n := HeadLen(s[0]), HeadValue(s);
      if limit < n then TooBig
      else if |s| < h + n then Incomplete
      else Frame(s[h..h + n], s[h + n..])
  }

  /** All the frames of a stream, the bytes after the last of them, and whether
      those bytes announce a frame that is too big. */
  datatype Parsed = Parsed(frames: seq<seq<byte>>, rest: seq<byte>, tooBig: bool)

  function Prepend(frames: seq<seq<byte>>, p: Parsed): Parsed {
    p.(frames := frames + p.frames)
  }

  function Parse(limit: nat, s: seq<byte>): (p: Parsed)
    ensures |p.rest| <= |s|
    decreases |s|
  {
    match First(limit, s)
    case Incomplete => Parsed([], s, false)
    case TooBig => Parsed([], s, true)
    case Frame(payload, rest) => Prepend([payload], Parse(limit, rest))
  }

  function Concat(chunks: seq<seq<byte>>): seq<byte> {
    if chunks == [] then [] else Concat(chunks[..|chunks| - 1]) + chunks[|chunks| - 1]
  }

  /** The header of a payload of `len` bytes: the shortest of the four sizes that
      holds the length in all but two of its bits. */
  function HeadSize(len: nat): (k: nat)
    requires len <= MAX_PAYLOAD
    ensures 1 <= k <= 4
  {
    if len <= 0x3F then 1 else if len <= 0x3FFF then 2 else if len <= 0x3F_FFFF then 3 else 4
  }

  function Encoding(payload: seq<byte>): seq<byte>
    requires |payload| <= MAX_PAYLOAD
  {
    var k := HeadSize(|payload|);
    ToLe(4 * |payload| + (k - 1), k) + payload
  }

  function EncodingAll(payloads: seq<seq<byte>>): seq<byte>
    requires forall i :: 0 <= i < |payloads| ==> |payloads[i]| <= MAX_PAYLOAD
  {
    if payloads == [] then [] else Encoding(payloads[0]) + EncodingAll(payloads[1..])
  }

  // ----------------------------------------------------------------------
  // The stream decides: more bytes never change what was already there
  // ----------------------------------------------------------------------

  lemma FirstStable(limit: nat, s: seq<byte>, t: seq<byte>)
    ensures First(limit, s).TooBig? ==> First(limit, s + t).TooBig?
    ensures First(limit, s).Frame? ==>
              First(limit, s + t) == Frame(First(limit, s).payload, First(limit, s).rest + t)
  {
    if s != [] && HeadLen(s[0]) <= |s| {
      var h, n := HeadLen(s[0]), HeadValue(s);
      assert (s + t)[..h] == s[..h];
      if n <= limit && h + n <= |s| {
        assert (s + t)[h..h + n] == s[h..h + n];
        assert (s + t)[h + n..] == s[h + n..] + t;
      }
    }
  }

  /** Reading on after `t` more bytes have arrived. */
  function Resume(limit: nat, p: Parsed, t: seq<byte>): Parsed {
    if p.tooBig then p.(rest := p.rest + t) else Prepend(p.frames, Parse(limit, p.rest + t))
  }

  /** What taking the first item of the unread part does to the parse of the whole. */
  lemma TakeFirst(limit: nat, s: seq<byte>, frames: seq<seq<byte>>, unread: seq<byte>)
    requires Parse(limit, s) == Prepend(frames, Parse(limit, unread))
    ensures match First(limit, unread)
            case Incomplete => Parse(limit, s) == Parsed(frames, unread, false)
            case TooBig => Parse(limit, s) == Parsed(frames, unread, true)
            case Frame(payload, rest) => Parse(limit, s) == Prepend(frames + [payload], Parse(limit, rest))
  {
    var f := First(limit, unread);
    if f.Frame? {
      var later := Parse(limit, f.rest);
      assert frames + ([f.payload] + later.frames) == (frames + [f.payload]) + later.frames;
    }
  }

  lemma FirstAfterHead(limit: nat, head: seq<byte>, rest: seq<byte>)
    requires head != [] && |head| == HeadLen(head[0]) && HeadValue(head) <= limit
    ensures var n := HeadValue(head);
            First(limit, head + rest) == if |rest| < n then Incomplete else Frame(rest[..n], rest[n..])
  {
    var s, h, n := head + rest, |head|, HeadValue(head);
    assert s[..h] == head == head[..h];
    if n <= |rest| {
      assert s[h..h + n] == rest[..n];
      assert s[h + n..] == rest[n..];
    }
  }

  lemma {:induction false} ParseAppend(limit: nat, s: seq<byte>, t: seq<byte>)
    ensures Parse(limit, s + t) == Resume(limit, Parse(limit, s), t)
    decreases |s|
  {
    FirstStable(limit, s, t);
    match First(limit, s)
    case Incomplete =>
    case TooBig =>
    case Frame(payload, rest) =>
      ParseAppend(limit, rest, t);
      ResumeAfter(limit, payload, Parse(limit, rest), t);
  }

  lemma ResumeAfter(limit: nat, payload: seq<byte>, p: Parsed, t: seq<byte>)
    ensures Resume(limit, Prepend([payload], p), t) == Prepend([payload], Resume(limit, p, t))
  {
    var q := Parse(limit, p.rest + t);
    assert ([payload] + p.frames) + q.frames == [payload] + (p.frames + q.frames);
  }

  /** What is left after the last frame contains no further frame. */
  lemma {:induction false} ParseRest(limit: nat, s: seq<byte>)
    ensures var p := Parse(limit, s);
            First(limit, p.rest) == if p.tooBig then TooBig else Incomplete
    decreases |s|
  {
    var f := First(limit, s);
    if f.Frame? {
      ParseRest(limit, f.rest);
    }
  }

  // ----------------------------------------------------------------------
  // Round trip of the format
  // ----------------------------------------------------------------------

  /** What a header of `k` bytes has room for. */
  function Room(k: nat): nat
    requires 1 <= k <= 4
  {
    [0x40, 0x4000, 0x40_0000, 0x4000_0000][k - 1]
  }

  lemma RoomPow(k: nat)
    requires 1 <= k <= 4
    ensures Pow256(k) == 4 * Room(k)
  {
    assert Pow256(1) == 256 * Pow256(0) && Pow256(2) == 256 * Pow256(1);
    assert Pow256(3) == 256 * Pow256(2) && Pow256(4) == 256 * Pow256(3);
  }

  lemma HeaderReads(n: nat, k: nat)
    requires 1 <= k <= 4 && n < Room(k)
    ensures var head := ToLe(4 * n + (k - 1), k);
            HeadLen(head[0]) == k && HeadValue(head) == n
  {
    var v := 4 * n + (k - 1);
    var head := ToLe(v, k);
    RoomPow(k);
    FromToLe(v, k);
    assert head[0] == v % 256;
    assert v / 4 == n && v % 256 % 4 == k - 1;
    assert head[..k] == head;
    ReadHeader(head, k);
  }

  /** Every header that has room for a length announces it, also one that is longer than it
      need be; a front part of it announces nothing. */
  lemma FirstOfHeader(limit: nat, n: nat, k: nat, rest: seq<byte>, i: nat)
    requires 1 <= k <= 4 && n < Room(k) && i < k
    ensures var head := ToLe(4 * n + (k - 1), k);
            && First(limit, head[..i]) == Incomplete
            && First(limit, head + rest)
               == if limit < n then TooBig
                  else if |rest| < n then Incomplete
                  else Frame(rest[..n], rest[n..])
  {
    hide Room, ToLe, HeadNumber;
    HeaderReads(n, k);
    var head := ToLe(4 * n + (k - 1), k);
    if n <= limit {
      FirstAfterHead(limit, head, rest);
    } else {
      assert (head + rest)[..k] == head[..k];
      SameHead(head, rest);
    }
  }

  lemma SameHead(head: seq<byte>, rest: seq<byte>)
    requires head != [] && |head| == HeadLen(head[0])
    ensures HeadLen((head + rest)[0]) == |head| && HeadValue(head + rest) == HeadValue(head)
  {}

  lemma HeaderBytes(v: nat, k: nat)
    requires 1 <= k <= 4
    ensures ToLe(v, k) == [v % 256, v / 0x100 % 256, v / 0x1_0000 % 256, v / 0x100_0000 % 256][..k]
  {
    assert Pow256(1) == 256 * Pow256(0) && Pow256(2) == 256 * Pow256(1) && Pow256(3) == 256 * Pow256(2);
    forall i: nat | i < k
      ensures ToLe(v, k)[i] == v / Pow256(i) % 256
    {
      ToLeAt(v, k, i);
    }
    hide ToLe, Pow256;
  }

  /** The header of a payload of `n` bytes, byte by byte: the shortest that has room. */
  lemma WireHeader(n: nat)
    requires n <= MAX_PAYLOAD
    ensures HeadSize(n) == if n < 0x40 then 1 else if n < 0x4000 then 2 else if n < 0x40_0000 then 3 else 4
    ensures var k := HeadSize(n);
            ToLe(4 * n + (k - 1), k)
            == [(4 * n + (k - 1)) % 256, n / 0x40 % 256, n / 0x4000 % 256, n / 0x40_0000 % 256][..k]
  {
    hide ToLe;
    var k := HeadSize(n);
    HeaderBytes(4 * n + (k - 1), k);
    HeaderParts(n, k);
  }

  /** The bytes that go out for a payload. */
  lemma WireForm(payload: seq<byte>)
    requires |payload| < 0x4000_0000
    ensures var n := |payload|;
            var k := if n < 0x40 then 1 else if n < 0x4000 then 2 else if n < 0x40_0000 then 3 else 4;
            Encoding(payload)
            == [(4 * n + (k - 1)) % 256, n / 0x40 % 256, n / 0x4000 % 256, n / 0x40_0000 % 256][..k] + payload
  {
    hide ToLe, HeadSize;
    WireHeader(|payload|);
  }

  lemma HeaderParts(n: nat, k: nat)
    requires 1 <= k <= 4
    ensures var v := 4 * n + (k - 1);
            v / 0x100 == n / 0x40 && v / 0x1_0000 == n / 0x4000 && v / 0x100_0000 == n / 0x40_0000
  {}

  /** An encoded payload is read back with whatever follows it. */
  lemma FirstOfEncoding(limit: nat, payload: seq<byte>, t: seq<byte>)
    requires |payload| <= MAX_PAYLOAD
    ensures First(limit, Encoding(payload) + t)
            == if |payload| <= limit then Frame(payload, t) else TooBig
  {
    var n, k := |payload|, HeadSize(|payload|);
    var head := ToLe(4 * n + (k - 1), k);
    assert Encoding(payload) + t == head + (payload + t);
    hide ToLe, First;
    FirstOfHeader(limit, n, k, payload + t, 0);
    assert (payload + t)[..n] == payload && (payload + t)[n..] == t;
  }

  /** The number of payloads a reader with this limit accepts from the front. */
  function Acceptable(limit: nat, payloads: seq<seq<byte>>): (k: nat)
    ensures k <= |payloads|
    ensures forall i :: 0 <= i < k ==> |payloads[i]| <= limit
    ensures k < |payloads| ==> limit < |payloads[k]|
  {
    if payloads == [] || limit < |payloads[0]| then 0 else 1 + Acceptable(limit, payloads[1..])
  }

  /** A stream of encoded payloads parses to those payloads, up to the first one
      over the reader's limit, and fails exactly if there is one. */
  lemma {:induction false} ParseOfEncodings(limit: nat, payloads: seq<seq<byte>>)
    requires forall i :: 0 <= i < |payloads| ==> |payloads[i]| <= MAX_PAYLOAD
    ensures var k := Acceptable(limit, payloads);
            Parse(limit, EncodingAll(payloads))
            == Parsed(payloads[..k], EncodingAll(payloads[k..]), k < |payloads|)
  {
    hide First, Encoding;
    if payloads != [] {
      var p, tail := payloads[0], payloads[1..];
      FirstOfEncoding(limit, p, EncodingAll(tail));
      if |p| <= limit {
        ParseOfEncodings(limit, tail);
        var k := Acceptable(limit, tail);
        assert payloads[..k + 1] == [p] + tail[..k];
        assert payloads[k + 1..] == tail[k..];
      } else {
        assert payloads[0..] == payloads;
      }
    } else {
      EmptyStream(limit);
    }
  }

  // ----------------------------------------------------------------------
  // The codec itself
  // ----------------------------------------------------------------------

  class BytesMut {
    var data: seq<byte>

    constructor ()
      ensures data == []
    {
      data := [];
    }

    method Extend(more: seq<byte>)
      modifies this
      ensures data == old(data) + more
    {
      data := data + more;
    }

    method Advance(n: nat)
      requires n <= |data|
      modifies this
      ensures data == old(data)[n..]
    {
      data := data[n..];
    }

    method SplitTo(n: nat) returns (front: seq<byte>)
      requires n <= |data|
      modifies this
      ensures front == old(data)[..n] && data == old(data)[n..]
    {
      front := data[..n];
      data := data[n..];
    }
  }

  datatype DecodeState = Head | Data(n: nat)

  datatype CodecError = TooBigPacket | Overflow

  /** How a decoder that has no more frames holds the rest of the stream: a whole header
      has been taken off and its length kept. */
  function Settled(rest: seq<byte>): (DecodeState, seq<byte>) {
    if rest == [] || |rest| < HeadLen(rest[0]) then (Head, rest)
    else (Data(HeadValue(rest)), rest[HeadLen(rest[0])..])
  }

  lemma SettledAfterHead(head: seq<byte>, data: seq<byte>)
    requires head != [] && |head| == HeadLen(head[0])
    ensures Settled(head + data) == (Data(HeadValue(head)), data)
  {
    assert (head + data)[..|head|] == head == head[..|head|];
    assert (head + data)[|head|..] == data;
  }

  class BytesCodec {
    var state: DecodeState
    var raw: bool
    const maxPacketLength: nat
    /** The header bytes consumed since the last frame. */
    ghost var head: seq<byte>

    ghost predicate Valid()
      reads this
    {
      match state
      case Head => head == []
      case Data(n) => head != [] && |head| == HeadLen(head[0]) && HeadValue(head) == n && n <= maxPacketLength
    }

    /** The part of the stream that no returned frame has used up. */
    ghost function Unread(src: BytesMut): seq<byte>
      reads this, src
    {
      head + src.data
    }

    constructor (maxPacketLength: nat)
      ensures Valid() && state == Head && !raw && this.maxPacketLength == maxPacketLength
    {
      state, raw, head := Head, false, [];
      this.maxPacketLength := maxPacketLength;
    }

    method SetRaw()
      modifies this`raw
      ensures raw
    {
      raw := true;
    }

    /** The bit work of reading a header. */
    static method ReadHeadNumber(s: seq<byte>, headLen: nat) returns (n: nat)
      requires 1 <= headLen <= 4 && headLen <= |s|
      ensures n == HeadNumber(s, headLen) / 4
    {
      n := s[0];
      Pow2Values();
      if headLen > 1 {
        OrByte(n, s[1], 8);
        n := Or(n, Shl(s[1], 8));
      }
      if headLen > 2 {
        OrByte(n, s[2], 16);
        n := Or(n, Shl(s[2], 16));
      }
      if headLen > 3 {
        OrByte(n, s[3], 24);
        n := Or(n, Shl(s[3], 24));
      }
      Shift2(n);
      n := Shr(n, 2);
    }

    method DecodeHead(src: BytesMut) returns (r: Result<Option<nat>, CodecError>)
      requires Valid() && state == Head
      modifies this`head, src
      ensures Unread(src) == old(Unread(src))
      ensures match r
              case Err(e) => e == TooBigPacket && First(maxPacketLength, old(src.data)) == TooBig
                             && head == [] && src.data == old(src.data)
              case Ok(None) => First(maxPacketLength, old(src.data)) == Incomplete
                               && head == [] && src.data == old(src.data)
                               && (Head, src.data) == Settled(src.data)
              case Ok(Some(n)) => head != [] && |head| == HeadLen(head[0])
                                  && HeadValue(head) == n && n <= maxPacketLength
    {
      if |src.data| == 0 {
        return Ok(None);
      }
      ghost var s := src.data;
      HeadLenBits(s[0]);
      var headLen := And(src.data[0], 0x3) + 1;
      if |src.data| < headLen {
        return Ok(None);
      }
      var n := ReadHeadNumber(src.data, headLen);
      if n > maxPacketLength {
        return Err(TooBigPacket);
      }
      src.Advance(headLen);
      head := s[..headLen];
      assert head + s[headLen..] == s;
      assert head[..headLen] == head;
      return Ok(Some(n));
    }

    method DecodeData(n: nat, src: BytesMut) returns (r: Option<seq<byte>>)
      modifies src
      ensures r == if n <= |old(src.data)| then Some(old(src.data)[..n]) else None
      ensures src.data == if n <= |old(src.data)| then old(src.data)[n..] else old(src.data)
    {
      if |src.data| < n {
        return None;
      }
      var front := src.SplitTo(n);
      return Some(front);
    }

    /** One call of the decoder takes exactly the first item of the unread stream. */
    method Decode(src: BytesMut) returns (r: Result<Option<seq<byte>>, CodecError>)
      requires Valid()
      modifies this`state, this`head, src
      ensures Valid()
      ensures raw ==> state == old(state) && head == old(head)
      ensures raw ==> src.data == [] && r == Ok(if old(src.data) == [] then None else Some(old(src.data)))
      ensures !raw ==>
                match First(maxPacketLength, old(Unread(src)))
                case Incomplete => r == Ok(None) && Unread(src) == old(Unread(src))
                                   && (state, src.data) == Settled(Unread(src))
                case TooBig => r == Err(TooBigPacket) && Unread(src) == old(Unread(src)) && state == Head
                case Frame(payload, rest) => r == Ok(Some(payload)) && state == Head && src.data == rest
    {
      if raw {
        assert src.data[..|src.data|] == src.data;
        if |src.data| != 0 {
          var all := src.SplitTo(|src.data|);
          return Ok(Some(all));
        } else {
          return Ok(None);
        }
      }
      if state.Head? {
        assert Unread(src) == src.data;
        var h := DecodeHead(src);
        match h {
          case Err(e) => return Err(e);
          case Ok(None) => return Ok(None);
          case Ok(Some(n)) => state := Data(n);
        }
      }
      var n := state.n;
      FirstAfterHead(maxPacketLength, head, src.data);
      var payload := DecodeData(n, src);
      match payload {
        case Some(data) =>
          state := Head;
          head := [];
          return Ok(Some(data));
        case None =>
          SettledAfterHead(head, src.data);
          return Ok(None);
      }
    }

    /** The header of a payload, in the size that its length needs. */
    static method PutHead(len: nat, buf: BytesMut)
      requires len <= MAX_PAYLOAD
      modifies buf
      ensures buf.data == old(buf.data) + ToLe(4 * len + (HeadSize(len) - 1), HeadSize(len))
    {
      hide ToLe, Or, And, Shl, Shr;
      if len <= 0x3F {
        OrTag(len, 0, 0x100);
        OrNothing(Shl(len, 2) % 0x100);
        buf.Extend(ToLe(Shl(len, 2) % 0x100, 1));
      } else if len <= 0x3FFF {
        OrTag(len, 1, 0x1_0000);
        buf.Extend(ToLe(Or(Shl(len, 2) % 0x1_0000, 0x1), 2));
      } else if len <= 0x3F_FFFF {
        OrTag(len, 2, 0x1_0000_0000);
        var h := Or(Shl(len, 2) % 0x1_0000_0000, 0x2);
        HalfAndByte(h);
        ghost var before := buf.data;
        buf.Extend(ToLe(And(h, 0xFFFF), 2));
        buf.Extend(ToLe(Shr(h, 16), 1));
        assert buf.data == before + (ToLe(And(h, 0xFFFF), 2) + ToLe(Shr(h, 16), 1));
      } else {
        OrTag(len, 3, 0x1_0000_0000);
        buf.Extend(ToLe(Or(Shl(len, 2) % 0x1_0000_0000, 0x3), 4));
      }
    }

    /** Appends the frame, or reports a payload that no header can announce. */
    method Encode(data: seq<byte>, buf: BytesMut) returns (r: Result<(), CodecError>)
      modifies buf
      ensures r == if raw || |data| < 0x4000_0000 then Ok(()) else Err(Overflow)
      ensures buf.data
              == old(buf.data) + (if raw then data else if |data| <= MAX_PAYLOAD then Encoding(data) else [])
    {
      hide ToLe;
      if raw {
        buf.Extend(data);
        return Ok(());
      }
      if |data| > MAX_PAYLOAD {
        return Err(Overflow);
      }
      ghost var before := buf.data;
      PutHead(|data|, buf);
      ghost var head := buf.data;
      buf.Extend(data);
      assert buf.data == before + (head[|before|..] + data);
      return Ok(());
    }
  }

  lemma OrNothing(x: nat)
    ensures Or(x, 0) == x
  {}

  /** The two low bits of a shifted length are free for the header's size. */
  lemma OrTag(len: nat, tag: nat, width: nat)
    requires tag < 4 && 4 * len < width
    ensures Or(Shl(len, 2) % width, tag) == 4 * len + tag
  {
    OrDisjoint(tag, len, 2);
    Pow2Values();
    Shift2(len);
    DivModUnique(4 * len, width, 0, 4 * len);
  }

  lemma HalfAndByte(h: nat)
    requires h < 0x100_0000
    ensures ToLe(And(h, 0xFFFF), 2) + ToLe(Shr(h, 16), 1) == ToLe(h, 3)
  {
    AndMask(h, 16);
    Pow2Values();
    ShlMul(h / 0x1_0000, 16);
    ShrShl(h % 0x1_0000, h / 0x1_0000, 16);
    ThreeBytes(h);
  }

  lemma HeadLenBits(b: byte)
    ensures And(b, 0x3) + 1 == HeadLen(b)
  {
    AndMask(b, 2);
  }

  /** Joining in the next higher byte, as `n |= b << k` does. */
  lemma OrByte(n: nat, b: byte, k: nat)
    requires n < Pow2(k)
    ensures Or(n, Shl(b, k)) == n + Pow2(k) * b
    ensures Or(n, Shl(b, k)) < Pow2(k + 8)
  {
    OrDisjoint(n, b, k);
    ShlMul(b, k);
    Pow2Add(k, 8);
    MulStep(b, 256, Pow2(k));
  }

  lemma ReadHeader(s: seq<byte>, h: nat)
    requires 1 <= h <= 4 && h <= |s|
    ensures FromLe(s[..h]) == HeadNumber(s, h)
  {
    var t := s[..h];
    FromLeCons(t[0], t[1..]);
    if h > 1 {
      FromLeCons(t[1], t[2..]);
      assert t[1..] == [t[1]] + t[2..];
    }
    if h > 2 {
      FromLeCons(t[2], t[3..]);
      assert t[2..] == [t[2]] + t[3..];
    }
    if h > 3 {
      FromLeCons(t[3], t[4..]);
      assert t[3..] == [t[3]] + t[4..];
    }
  }

  /** A 24-bit header goes out as a 16-bit half and a byte. */
  lemma ThreeBytes(h: nat)
    requires h < 0x100_0000
    ensures ToLe(h, 3) == ToLe(h % 0x1_0000, 2) + ToLe(h / 0x1_0000, 1)
  {
    var b0, b1, b2 := h % 256, h / 256 % 256, h / 0x1_0000;
    assert h == b0 + 256 * b1 + 0x1_0000 * b2;
    ToLeCons(b0, b1 + 256 * b2, 2);
    ToLeCons(b1, b2, 1);
    ToLeCons(b2, 0, 0);
    assert h % 0x1_0000 == b0 + 256 * b1;
    ToLeCons(b0, b1, 1);
    ToLeCons(b1, 0, 0);
  }

  // ----------------------------------------------------------------------
  // Feeding the decoder
  // ----------------------------------------------------------------------

  /** The reader's inner loop: the decoder is called until it has no more frames. */
  method DecodeAll(codec: BytesCodec, src: BytesMut) returns (frames: seq<seq<byte>>, failed: bool)
    requires codec.Valid() && !codec.raw
    modifies codec`state, codec`head, src
    ensures codec.Valid()
    ensures Parse(codec.maxPacketLength, old(codec.Unread(src))) == Parsed(frames, codec.Unread(src), failed)
    ensures if failed then codec.state == Head else (codec.state, src.data) == Settled(codec.Unread(src))
  {
    hide First;
    ghost var limit, unread := codec.maxPacketLength, codec.Unread(src);
    frames := [];
    while true
      invariant codec.Valid() && !codec.raw
      invariant Parse(limit, unread) == Prepend(frames, Parse(limit, codec.Unread(src)))
      decreases |codec.Unread(src)|
    {
      ghost var here := codec.Unread(src);
      TakeFirst(limit, unread, frames, here);
      var r := codec.Decode(src);
      match r {
        case Ok(Some(frame)) =>
          frames := frames + [frame];
          assert codec.Unread(src) == First(limit, here).rest;
        case Ok(None) =>
          return frames, false;
        case Err(_) =>
          return frames, true;
      }
    }
  }

  method Feed(codec: BytesCodec, src: BytesMut, chunk: seq<byte>) returns (frames: seq<seq<byte>>, failed: bool)
    requires codec.Valid() && !codec.raw
    modifies codec`state, codec`head, src
    ensures codec.Valid()
    ensures Parse(codec.maxPacketLength, old(codec.Unread(src)) + chunk) == Parsed(frames, codec.Unread(src), failed)
    ensures if failed then codec.state == Head && codec.Unread(src) == src.data
            else (codec.state, src.data) == Settled(codec.Unread(src))
  {
    ghost var unread := codec.Unread(src);
    src.Extend(chunk);
    assert codec.Unread(src) == unread + chunk;
    frames, failed := DecodeAll(codec, src);
  }

  /** The reader's loop: each chunk that arrives is appended to the buffer and all
      frames are taken out. Its outcome is a function of the concatenated bytes
      alone: the frames, the place of the first frame that is too big and, without one,
      the decoder's state and buffer do not depend on how the stream was cut. */
  method DecodeChunks(maxPacketLength: nat, chunks: seq<seq<byte>>)
    returns (frames: seq<seq<byte>>, failedAt: Option<nat>, state: DecodeState, buffered: seq<byte>)
    ensures var whole := Parse(maxPacketLength, Concat(chunks));
            && frames == whole.frames
            && failedAt == (if whole.tooBig then Some(|Concat(chunks)| - |whole.rest|) else None)
            && if failedAt.None? then (state, buffered) == Settled(whole.rest)
               else state == Head && buffered <= whole.rest
  {
    hide First, Concat, Parse, Settled;
    EmptyStream(maxPacketLength);
    var codec := new BytesCodec(maxPacketLength);
    var src := new BytesMut();
    var received := 0;
    ghost var seen: seq<byte> := [];
    frames := [];
    for i := 0 to |chunks|
      invariant fresh(codec) && fresh(src) && codec.Valid() && !codec.raw
      invariant codec.maxPacketLength == maxPacketLength
      invariant seen == Concat(chunks[..i]) && received == |seen|
      invariant Parse(maxPacketLength, seen) == Parsed(frames, codec.Unread(src), false)
      invariant (codec.state, src.data) == Settled(codec.Unread(src))
    {
      NextChunk(maxPacketLength, chunks, i, frames, codec.Unread(src));
      var more, failed := Feed(codec, src, chunks[i]);
      received := received + |chunks[i]|;
      seen := seen + chunks[i];
      frames := frames + more;
      if failed {
        ParseTooBigStays(maxPacketLength, chunks, i + 1);
        return frames, Some(received - |src.data|), codec.state, src.data;
      }
    }
    assert chunks[..|chunks|] == chunks;
    failedAt, state, buffered := None, codec.state, src.data;
  }

  /** Encoding a list of payloads and decoding the wire, however it is cut, gives
      back exactly the payloads and leaves the decoder as it started. */
  method RoundTrip(limit: nat, payloads: seq<seq<byte>>, chunks: seq<seq<byte>>)
    returns (received: seq<seq<byte>>, failedAt: Option<nat>, state: DecodeState, buffered: seq<byte>)
    requires forall i :: 0 <= i < |payloads| ==> |payloads[i]| <= MAX_PAYLOAD && |payloads[i]| <= limit
    requires Concat(chunks) == EncodingAll(payloads)
    ensures received == payloads && failedAt == None && state == Head && buffered == []
  {
    received, failedAt, state, buffered := DecodeChunks(limit, chunks);
    ParseOfEncodings(limit, payloads);
    assert payloads[|payloads|..] == [];
  }

  /** The sender's side of the same wire. */
  method EncodeAll(payloads: seq<seq<byte>>) returns (wire: seq<byte>)
    requires forall i :: 0 <= i < |payloads| ==> |payloads[i]| <= MAX_PAYLOAD
    ensures wire == EncodingAll(payloads)
  {
    var codec := new BytesCodec(0);
    var buf := new BytesMut();
    ghost var all := EncodingAll(payloads);
    ghost var left := all;
    assert payloads[0..] == payloads;
    EncodingAllStep(payloads, |payloads|);
    hide Encoding, EncodingAll;
    for i := 0 to |payloads|
      invariant fresh(buf) && !codec.raw
      invariant left == EncodingAll(payloads[i..])
      invariant buf.data + left == all
    {
      EncodingAllStep(payloads, i);
      ghost var before := buf.data;
      var r := codec.Encode(payloads[i], buf);
      left := EncodingAll(payloads[i + 1..]);
      assert (before + Encoding(payloads[i])) + left == before + (Encoding(payloads[i]) + left);
    }
    wire := buf.data;
  }

  lemma EncodingAllStep(payloads: seq<seq<byte>>, i: nat)
    requires i <= |payloads|
    requires forall i :: 0 <= i < |payloads| ==> |payloads[i]| <= MAX_PAYLOAD
    ensures i < |payloads| ==>
              EncodingAll(payloads[i..]) == Encoding(payloads[i]) + EncodingAll(payloads[i + 1..])
    ensures i == |payloads| ==> EncodingAll(payloads[i..]) == []
  {
    hide Encoding;
    if i < |payloads| {
      assert payloads[i..][1..] == payloads[i + 1..];
    }
  }

  lemma EmptyStream(limit: nat)
    ensures Concat([]) == [] && Parse(limit, []) == Parsed([], [], false) && Settled([]) == (Head, [])
  {}

  lemma NextChunk(limit: nat, chunks: seq<seq<byte>>, i: nat, frames: seq<seq<byte>>, unread: seq<byte>)
    requires i < |chunks|
    requires Parse(limit, Concat(chunks[..i])) == Parsed(frames, unread, false)
    ensures Concat(chunks[..i + 1]) == Concat(chunks[..i]) + chunks[i]
    ensures Parse(limit, Concat(chunks[..i + 1])) == Prepend(frames, Parse(limit, unread + chunks[i]))
  {
    assert chunks[..i + 1][..i] == chunks[..i];
    ParseAppend(limit, Concat(chunks[..i]), chunks[i]);
  }

  /** Once a frame that is too big has been announced, later chunks are beside the point. */
  lemma {:induction false} ParseTooBigStays(limit: nat, chunks: seq<seq<byte>>, i: nat)
    requires i <= |chunks| && Parse(limit, Concat(chunks[..i])).tooBig
    ensures var p, q := Parse(limit, Concat(chunks[..i])), Parse(limit, Concat(chunks));
            q.frames == p.frames && q.tooBig && p.rest <= q.rest
            && |Concat(chunks)| - |q.rest| == |Concat(chunks[..i])| - |p.rest|
  {
    if i == |chunks| {
      assert chunks[..i] == chunks;
    } else {
      var init := chunks[..|chunks| - 1];
      assert init[..i] == chunks[..i];
      ParseTooBigStays(limit, init, i);
      ParseAppend(limit, Concat(init), chunks[|chunks| - 1]);
    }
  }
}
