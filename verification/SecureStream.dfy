/** The encrypted message pipe: a cipher that numbers its messages, on top of the
    frame codec. */
module SecureStream {
  import opened Wrappers
  import opened Bytes
  import opened BytesCodec

  const U64_SIZE := 0x1_0000_0000_0000_0000
  const USIZE_MAX: nat := 0xFFFF_FFFF_FFFF_FFFF
  const NONCE_BYTES: nat := 24
  const MAC_BYTES: nat := 16

  // ----------------------------------------------------------------------
  // The cipher, known only by its laws
  // ----------------------------------------------------------------------

  /** `secretbox` under one key: each function takes a text and a nonce. */
  datatype SecretBox = SecretBox(
    seal: (seq<byte>, seq<byte>) -> seq<byte>,
    unseal: (seq<byte>, seq<byte>) -> Option<seq<byte>>)

  /** A sealed text opens under its own nonce and is longer by the authenticator. */
  ghost predicate Lawful(box: SecretBox) {
    forall text, nonce | |nonce| == NONCE_BYTES ::
      |box.seal(text, nonce)| == |text| + MAC_BYTES && box.unseal(box.seal(text, nonce), nonce) == Some(text)
  }

  /** It does not open under the nonce of another counter. */
  ghost predicate Authentic(box: SecretBox) {
    forall text, a: nat, b: nat | a < U64_SIZE && b < U64_SIZE && a != b ::
      box.unseal(box.seal(text, GetNonce(a)), GetNonce(b)) == None
  }

  // ----------------------------------------------------------------------
  // Nonces
  // ----------------------------------------------------------------------

  /** The counter in the first eight bytes, zeros after it. */
  function GetNonce(seqnum: nat): (nonce: seq<byte>)
    ensures |nonce| == NONCE_BYTES
  {
    ToLe(seqnum, 8) + seq(NONCE_BYTES - 8, _ => 0)
  }

  /** The bytes of a nonce, one by one. */
  lemma NonceBytes(n: nat, i: nat)
    requires i < 24
    ensures GetNonce(n)[..8]
            == [n % 256, n / 0x100 % 256, n / 0x1_0000 % 256, n / 0x100_0000 % 256, n / 0x1_0000_0000 % 256,
                n / 0x100_0000_0000 % 256, n / 0x1_0000_0000_0000 % 256, n / 0x100_0000_0000_0000 % 256]
    ensures i >= 8 ==> GetNonce(n)[i] == 0
  {
    forall k: nat | k < 8
      ensures GetNonce(n)[k] == n / Pow256(k) % 256
    {
      ToLeAt(n, 8, k);
    }
    assert Pow256(3) == 0x100_0000 && Pow256(2) == 0x1_0000;
    assert Pow256(6) == 256 * (256 * (256 * Pow256(3)));
    assert Pow256(7) == 256 * Pow256(6) && Pow256(4) == 256 * Pow256(3) && Pow256(5) == 256 * Pow256(4);
    hide ToLe, GetNonce;
  }

  /** A nonce determines its 64-bit counter. */
  lemma NonceDistinct(a: nat, b: nat)
    requires a < U64_SIZE && b < U64_SIZE
    ensures GetNonce(a) == GetNonce(b) <==> a == b
  {
    assert Pow256(8) == U64_SIZE by {
      assert Pow256(4) == 0x1_0000_0000;
      assert Pow256(8) == 256 * (256 * (256 * (256 * Pow256(4))));
    }
    FromToLe(a, 8);
    FromToLe(b, 8);
    assert ToLe(a, 8) == GetNonce(a)[..8];
    assert ToLe(b, 8) == GetNonce(b)[..8];
  }

  /** Ciphers with these laws exist; this one writes the nonce behind the text. */
  lemma LawsConsistent()
    ensures exists box :: Lawful(box) && Authentic(box)
  {
    var box := SecretBox(
      (text: seq<byte>, nonce: seq<byte>) => text + (if |nonce| < MAC_BYTES then [] else nonce[..MAC_BYTES]),
      (sealed: seq<byte>, nonce: seq<byte>) =>
        if |sealed| < MAC_BYTES || |nonce| < MAC_BYTES || sealed[|sealed| - MAC_BYTES..] != nonce[..MAC_BYTES] then None
        else Some(sealed[..|sealed| - MAC_BYTES]));
    forall text, nonce: seq<byte> | |nonce| == NONCE_BYTES
      ensures |box.seal(text, nonce)| == |text| + MAC_BYTES
      ensures box.unseal(box.seal(text, nonce), nonce) == Some(text)
    {
      var sealed := box.seal(text, nonce);
      assert sealed[|text|..] == nonce[..MAC_BYTES] && sealed[..|text|] == text;
    }
    forall text: seq<byte>, a: nat, b: nat | a < U64_SIZE && b < U64_SIZE && a != b
      ensures box.unseal(box.seal(text, GetNonce(a)), GetNonce(b)) == None
    {
      NonceDistinct(a, b);
      var sealed := box.seal(text, GetNonce(a));
      assert sealed[|text|..] == GetNonce(a)[..MAC_BYTES];
      assert GetNonce(a)[MAC_BYTES..] == GetNonce(b)[MAC_BYTES..];
      assert GetNonce(a) == GetNonce(a)[..MAC_BYTES] + GetNonce(a)[MAC_BYTES..];
      assert GetNonce(b) == GetNonce(b)[..MAC_BYTES] + GetNonce(b)[MAC_BYTES..];
    }
    assert Lawful(box) && Authentic(box);
  }

  // ----------------------------------------------------------------------
  // The stream
  // ----------------------------------------------------------------------

  datatype StreamError = Codec(error: CodecError) | DecryptionError

  /** What the receiving side makes of a frame when its counter stands at `count`. */
  function Unsealed(box: SecretBox, count: nat, frame: seq<byte>): Result<seq<byte>, StreamError> {
    match box.unseal(frame, GetNonce(count))
    case Some(text) => Ok(text)
    case None => Err(DecryptionError)
  }

  class Encrypt {
    const box: SecretBox
    var sealCount: nat
    var openCount: nat

    constructor (box: SecretBox)
      ensures this.box == box && sealCount == 0 && openCount == 0
    {
      this.box := box;
      sealCount, openCount := 0, 0;
    }

    method Enc(data: seq<byte>) returns (sealed: seq<byte>)
      modifies this`sealCount
      ensures sealCount == (old(sealCount) + 1) % U64_SIZE
      ensures sealed == box.seal(data, GetNonce(sealCount))
    {
      sealCount := (sealCount + 1) % U64_SIZE;
      sealed := box.seal(data, GetNonce(sealCount));
    }

    /** Frames of at most one byte pass as they are and are not counted. */
    method Dec(bytes: BytesMut) returns (r: Result<(), StreamError>)
      modifies this`openCount, bytes
      ensures |old(bytes.data)| <= 1 ==>
                r == Ok(()) && bytes.data == old(bytes.data) && openCount == old(openCount)
      ensures |old(bytes.data)| > 1 ==>
                && openCount == (old(openCount) + 1) % U64_SIZE
                && match Unsealed(box, openCount, old(bytes.data))
                   case Ok(text) => r == Ok(()) && bytes.data == text
                   case Err(e) => r == Err(e) && bytes.data == old(bytes.data)
    {
      if |bytes.data| <= 1 {
        return Ok(());
      }
      openCount := (openCount + 1) % U64_SIZE;
      var plain := box.unseal(bytes.data, GetNonce(openCount));
      match plain {
        case Some(text) =>
          bytes.data := [];
          bytes.Extend(text);
          assert bytes.data == text;
          return Ok(());
        case None =>
          return Err(DecryptionError);
      }
    }
  }

  /** A stream with a key set: the codec serves both directions, `output` is what
      has been written to the socket and `input` what has been read from it. */
  class FramedStream {
    const codec: BytesCodec
    const encrypt: Encrypt
    const input: BytesMut
    const output: BytesMut

    ghost predicate Valid()
      reads this, codec
    {
      codec.Valid() && !codec.raw && codec.maxPacketLength == USIZE_MAX && input != output
    }

    constructor (box: SecretBox)
      ensures Valid() && encrypt.box == box && encrypt.sealCount == 0 && encrypt.openCount == 0
      ensures codec.Unread(input) == [] && output.data == []
      ensures fresh(codec) && fresh(encrypt) && fresh(input) && fresh(output)
    {
      var c := new BytesCodec(USIZE_MAX);
      var e := new Encrypt(box);
      var i := new BytesMut();
      var o := new BytesMut();
      codec, encrypt, input, output := c, e, i, o;
    }

    /** The counter moves before the codec has had its say. */
    method SendRaw(msg: seq<byte>) returns (r: Result<(), StreamError>)
      requires Valid()
      modifies encrypt`sealCount, output
      ensures Valid()
      ensures encrypt.sealCount == (old(encrypt.sealCount) + 1) % U64_SIZE
      ensures var sealed := encrypt.box.seal(msg, GetNonce(encrypt.sealCount));
              if |sealed| <= MAX_PAYLOAD
              then r == Ok(()) && output.data == old(output.data) + Encoding(sealed)
              else r == Err(Codec(Overflow)) && output.data == old(output.data)
    {
      var sealed := encrypt.Enc(msg);
      var e := codec.Encode(sealed, output);
      r := match e case Ok(_) => Ok(()) case Err(error) => Err(Codec(error));
    }

    /** The next message, or nothing until more input arrives. */
    method Next() returns (r: Option<Result<seq<byte>, StreamError>>)
      requires Valid()
      modifies codec`state, codec`head, encrypt`openCount, input
      ensures Valid()
      ensures match First(USIZE_MAX, old(codec.Unread(input)))
              case Incomplete =>
                r == None && codec.Unread(input) == old(codec.Unread(input))
                && encrypt.openCount == old(encrypt.openCount)
              case TooBig =>
                r == Some(Err(Codec(TooBigPacket))) && encrypt.openCount == old(encrypt.openCount)
              case Frame(frame, rest) =>
                && codec.Unread(input) == rest
                && (|frame| <= 1 ==> r == Some(Ok(frame)) && encrypt.openCount == old(encrypt.openCount))
                && (|frame| > 1 ==>
                      && encrypt.openCount == (old(encrypt.openCount) + 1) % U64_SIZE
                      && r == Some(Unsealed(encrypt.box, encrypt.openCount, frame)))
    {
      hide First;
      var item := codec.Decode(input);
      match item {
        case Err(error) =>
          return Some(Err(Codec(error)));
        case Ok(None) =>
          return None;
        case Ok(Some(frame)) =>
          var bytes := new BytesMut();
          bytes.Extend(frame);
          assert bytes.data == frame;
          var d := encrypt.Dec(bytes);
          match d {
            case Err(error) => return Some(Err(error));
            case Ok(_) => return Some(Ok(bytes.data));
          }
      }
    }
  }

  // ----------------------------------------------------------------------
  // Whole runs of the pipe
  // ----------------------------------------------------------------------

  /** What may happen, in any order: a message is sent, the network moves some of
      the bytes in transit, the receiver asks for a message. */
  datatype Action = Send(msg: seq<byte>) | Deliver(count: nat) | Receive

  /** A message the codec accepted, and the counter it was sealed under. */
  datatype Numbered = Numbered(msg: seq<byte>, seqnum: nat)

  predicate Fits(msg: seq<byte>) {
    |msg| + MAC_BYTES <= MAX_PAYLOAD
  }

  predicate AllFit(messages: seq<Numbered>) {
    forall k :: 0 <= k < |messages| ==> Fits(messages[k].msg) && messages[k].seqnum < U64_SIZE
  }

  function SendCount(script: seq<Action>): nat {
    if script == [] then 0
    else SendCount(script[..|script| - 1]) + (if script[|script| - 1].Send? then 1 else 0)
  }

  function Accepted(script: seq<Action>): seq<Numbered> {
    if script == [] then []
    else
      var before, last := script[..|script| - 1], script[|script| - 1];
      Accepted(before)
      + (if last.Send? && Fits(last.msg)
         then [Numbered(last.msg, SendCount(script) % U64_SIZE)] else [])
  }

  /** The nonces that a script uses, those of rejected messages included. */
  function Nonces(script: seq<Action>): seq<seq<byte>> {
    if script == [] then []
    else
      Nonces(script[..|script| - 1])
      + if script[|script| - 1].Send? then [GetNonce(SendCount(script) % U64_SIZE)] else []
  }

  ghost function Seal(box: SecretBox, m: Numbered): (frame: seq<byte>)
    requires Lawful(box)
    ensures |frame| == |m.msg| + MAC_BYTES
  {
    box.seal(m.msg, GetNonce(m.seqnum))
  }

  /** The frames of the messages from the `k`-th on, as they are on the wire. */
  ghost function InTransit(box: SecretBox, messages: seq<Numbered>, k: nat): seq<byte>
    requires Lawful(box) && k <= |messages|
    requires AllFit(messages)
    decreases |messages| - k
  {
    if k == |messages| then []
    else Encoding(Seal(box, messages[k])) + InTransit(box, messages, k + 1)
  }

  lemma AcceptedFit(script: seq<Action>)
    ensures AllFit(Accepted(script))
  {}

  lemma {:induction false} InTransitAppend(box: SecretBox, messages: seq<Numbered>, m: Numbered, k: nat)
    requires Lawful(box) && k <= |messages| && Fits(m.msg) && m.seqnum < U64_SIZE
    requires AllFit(messages)
    ensures InTransit(box, messages + [m], k) == InTransit(box, messages, k) + Encoding(Seal(box, m))
    decreases |messages| - k
  {
    hide Encoding;
    if k < |messages| {
      InTransitAppend(box, messages, m, k + 1);
      var e := Encoding(Seal(box, messages[k]));
      assert (e + InTransit(box, messages, k + 1)) + Encoding(Seal(box, m))
          == e + (InTransit(box, messages, k + 1) + Encoding(Seal(box, m)));
    } else {
      assert InTransit(box, messages + [m], k + 1) == [];
      assert Encoding(Seal(box, m)) + [] == Encoding(Seal(box, m)) == [] + Encoding(Seal(box, m));
    }
  }

  /** A reader holding a front part of the wire sees either nothing yet or exactly
      the oldest message on its way. */
  lemma FirstInTransit(box: SecretBox, messages: seq<Numbered>, k: nat, unread: seq<byte>, wire: seq<byte>)
    requires Lawful(box) && k <= |messages|
    requires AllFit(messages)
    requires unread + wire == InTransit(box, messages, k)
    ensures match First(USIZE_MAX, unread)
            case Incomplete => wire == [] ==> k == |messages|
            case TooBig => false
            case Frame(frame, rest) => k < |messages| && frame == Seal(box, messages[k])
                                       && rest + wire == InTransit(box, messages, k + 1)
  {
    FirstStable(USIZE_MAX, unread, wire);
    if k < |messages| {
      FirstOfEncoding(USIZE_MAX, Seal(box, messages[k]), InTransit(box, messages, k + 1));
      if wire == [] {
        assert unread + wire == unread;
      }
    } else {
      assert unread == [];
    }
  }

  /** The pipe invariant: what was received is the front part of what was accepted,
      each message opened under the counter of its position, and the rest is on
      its way, in order and intact. */
  ghost predicate Flowing(box: SecretBox, messages: seq<Numbered>, received: seq<Result<seq<byte>, StreamError>>,
                          openCount: nat, unread: seq<byte>, wire: seq<byte>)
    requires Lawful(box)
    requires AllFit(messages)
  {
    && |received| <= |messages|
    && openCount == |received| % U64_SIZE
    && unread + wire == InTransit(box, messages, |received|)
    && forall k :: 0 <= k < |received| ==> received[k] == Arrival(box, messages[k], k)
  }

  /** What the receiver gets for the message in position `k`. */
  ghost function Arrival(box: SecretBox, m: Numbered, k: nat): Result<seq<byte>, StreamError>
    requires Lawful(box)
  {
    Unsealed(box, (k + 1) % U64_SIZE, Seal(box, m))
  }

  lemma TakeNext(box: SecretBox, messages: seq<Numbered>, received: seq<Result<seq<byte>, StreamError>>,
                 openCount: nat, unread: seq<byte>, wire: seq<byte>)
    requires Lawful(box)
    requires AllFit(messages)
    requires Flowing(box, messages, received, openCount, unread, wire)
    ensures match First(USIZE_MAX, unread)
            case Incomplete => wire == [] ==> |received| == |messages|
            case TooBig => false
            case Frame(frame, rest) =>
              var openCount' := (openCount + 1) % U64_SIZE;
              && |frame| > 1
              && |received| < |messages|
              && Flowing(box, messages, received + [Unsealed(box, openCount', frame)], openCount', rest, wire)
  {
    hide First, Encoding, InTransit, GetNonce, Fits, Unsealed;
    FirstInTransit(box, messages, |received|, unread, wire);
  }

  lemma NothingInTransit(box: SecretBox)
    requires Lawful(box)
    ensures InTransit(box, [], 0) == []
  {}

  /** A sender and a receiver; the sender's output buffer is the network. */
  class Link {
    const sender: FramedStream
    const receiver: FramedStream
    ghost var messages: seq<Numbered>
    var received: seq<Result<seq<byte>, StreamError>>

    ghost predicate Apart()
      reads this
    {
      && sender.input != sender.output
      && sender.codec != receiver.codec && sender.encrypt != receiver.encrypt
      && sender.output != receiver.input && sender.encrypt.box == receiver.encrypt.box
    }

    ghost predicate Valid()
      reads this, sender, receiver, sender.codec, receiver.codec
      reads receiver.encrypt, receiver.input, sender.output
    {
      && Apart() && sender.Valid() && receiver.Valid()
      && Lawful(sender.encrypt.box)
      && AllFit(messages)
      && Flowing(sender.encrypt.box, messages, received, receiver.encrypt.openCount,
                 receiver.codec.Unread(receiver.input), sender.output.data)
    }

    constructor (box: SecretBox)
      requires Lawful(box)
      ensures Valid() && sender.encrypt.box == box && messages == [] && sender.encrypt.sealCount == 0
      ensures fresh(sender.encrypt) && fresh(sender.output)
      ensures fresh(receiver.codec) && fresh(receiver.encrypt) && fresh(receiver.input)
    {
      var s := new FramedStream(box);
      var r := new FramedStream(box);
      sender, receiver, messages, received := s, r, [], [];
      NothingInTransit(box);
    }

    lemma Results()
      requires Valid()
      ensures |received| <= |messages|
      ensures receiver.encrypt.openCount == |received| % U64_SIZE
      ensures forall k :: 0 <= k < |received| ==> received[k] == Arrival(sender.encrypt.box, messages[k], k)
    {}

    method Send(msg: seq<byte>)
      requires Valid()
      modifies this`messages, sender.encrypt`sealCount, sender.output
      ensures Valid()
      ensures sender.encrypt.sealCount == (old(sender.encrypt.sealCount) + 1) % U64_SIZE
      ensures messages == old(messages)
                          + (if Fits(msg) then [Numbered(msg, sender.encrypt.sealCount)] else [])
    {
      hide Encoding;
      ghost var box, wire, k := sender.encrypt.box, sender.output.data, |received|;
      var r := sender.SendRaw(msg);
      if Fits(msg) {
        ghost var m := Numbered(msg, sender.encrypt.sealCount);
        InTransitAppend(box, messages, m, k);
        assert (receiver.codec.Unread(receiver.input) + wire) + Encoding(Seal(box, m))
            == receiver.codec.Unread(receiver.input) + (wire + Encoding(Seal(box, m)));
        messages := messages + [m];
      }
    }

    method Deliver(count: nat)
      requires Valid()
      modifies sender.output, receiver.input
      ensures Valid()
      ensures |old(sender.output.data)| <= count ==> sender.output.data == []
    {
      var n := if count < |sender.output.data| then count else |sender.output.data|;
      ghost var wire, unread := sender.output.data, receiver.codec.Unread(receiver.input);
      var chunk := sender.output.SplitTo(n);
      receiver.input.Extend(chunk);
      assert wire == wire[..n] + wire[n..];
      assert receiver.codec.Unread(receiver.input) == unread + chunk;
      assert (unread + chunk) + sender.output.data == unread + wire;
    }

    method Receive() returns (more: bool)
      requires Valid()
      modifies this`received, receiver.codec`state, receiver.codec`head, receiver.encrypt`openCount, receiver.input
      ensures Valid() && sender.output.data == old(sender.output.data)
      ensures |received| == |old(received)| + (if more then 1 else 0)
      ensures !more && sender.output.data == [] ==> |received| == |messages|
    {
      hide First, Fits, Encoding, InTransit, GetNonce, Arrival;
      TakeNext(sender.encrypt.box, messages, received, receiver.encrypt.openCount,
               receiver.codec.Unread(receiver.input), sender.output.data);
      var r := receiver.Next();
      match r {
        case None =>
          return false;
        case Some(message) =>
          received := received + [message];
          return true;
      }
    }

    /** One action, and the nonce that it uses if it is a send. */
    method Act(a: Action) returns (nonces: seq<seq<byte>>)
      requires Valid()
      modifies this`messages, this`received, sender.encrypt`sealCount, sender.output
      modifies receiver.codec`state, receiver.codec`head, receiver.encrypt`openCount, receiver.input
      ensures Valid()
      ensures sender.encrypt.sealCount
              == if a.Send? then (old(sender.encrypt.sealCount) + 1) % U64_SIZE else old(sender.encrypt.sealCount)
      ensures messages == old(messages)
                          + if a.Send? && Fits(a.msg) then [Numbered(a.msg, sender.encrypt.sealCount)] else []
      ensures nonces == if a.Send? then [GetNonce(sender.encrypt.sealCount)] else []
    {
      hide Valid, GetNonce;
      match a {
        case Send(msg) =>
          Send(msg);
          return [GetNonce(sender.encrypt.sealCount)];
        case Deliver(count) =>
          Deliver(count);
        case Receive =>
          var _ := Receive();
      }
      return [];
    }

    /** Delivers and receives what is left. */
    method Drain()
      requires Valid()
      modifies this`received, sender.output
      modifies receiver.codec`state, receiver.codec`head, receiver.encrypt`openCount, receiver.input
      ensures Valid() && |received| == |messages|
    {
      hide Valid;
      Deliver(|sender.output.data|);
      var more := true;
      Results();
      while more
        invariant Valid() && sender.output.data == [] && |received| <= |messages|
        invariant !more ==> |received| == |messages|
        decreases more, |messages| - |received|
      {
        more := Receive();
        Results();
      }
    }
  }

  /** Runs a script, then delivers and receives what is left. Every accepted message
      arrives, in order, as its own counter and its position decide: no frame is
      lost, torn, merged or passed unopened, and both counters end at the number of
      calls that moved them. */
  method Pipe(box: SecretBox, script: seq<Action>)
    returns (received: seq<Result<seq<byte>, StreamError>>, sealCount: nat, openCount: nat, nonces: seq<seq<byte>>)
    requires Lawful(box)
    ensures var messages := Accepted(script);
            && |received| == |messages|
            && (forall k :: 0 <= k < |messages| ==> received[k] == Arrival(box, messages[k], k))
            && sealCount == SendCount(script) % U64_SIZE
            && openCount == |messages| % U64_SIZE
            && nonces == Nonces(script)
  {
    hide Arrival, Fits, Flowing, Link.Valid, GetNonce, Accepted, Nonces, SendCount;
    var link := new Link(box);
    nonces := [];
    EmptyScript();
    for i := 0 to |script|
      invariant fresh(link) && fresh(link.sender.encrypt) && fresh(link.sender.output)
      invariant fresh(link.receiver.codec) && fresh(link.receiver.encrypt) && fresh(link.receiver.input)
      invariant link.Valid() && link.sender.encrypt.box == box
      invariant link.sender.encrypt.sealCount == SendCount(script[..i]) % U64_SIZE
      invariant link.messages == Accepted(script[..i]) && nonces == Nonces(script[..i])
    {
      ScriptStep(script, i);
      var used := link.Act(script[i]);
      nonces := nonces + used;
    }
    assert script[..|script|] == script;
    link.Drain();
    link.Results();
    received, sealCount, openCount := link.received, link.sender.encrypt.sealCount, link.receiver.encrypt.openCount;
  }

  lemma EmptyScript()
    ensures SendCount([]) == 0 && Accepted([]) == [] && Nonces([]) == []
  {}

  lemma ScriptStep(script: seq<Action>, i: nat)
    requires i < |script|
    ensures var a, before, after := script[i], script[..i], script[..i + 1];
            && SendCount(after) == SendCount(before) + (if a.Send? then 1 else 0)
            && Accepted(after) == Accepted(before)
                                  + (if a.Send? && Fits(a.msg) then [Numbered(a.msg, SendCount(after) % U64_SIZE)] else [])
            && Nonces(after) == Nonces(before) + if a.Send? then [GetNonce(SendCount(after) % U64_SIZE)] else []
  {
    hide Fits, GetNonce;
    assert script[..i + 1][..i] == script[..i];
  }

  // ----------------------------------------------------------------------
  // Nonces over whole runs
  // ----------------------------------------------------------------------

  predicate AllDistinct(nonces: seq<seq<byte>>) {
    forall k, l :: 0 <= k < l < |nonces| ==> nonces[k] != nonces[l]
  }

  lemma {:induction false} NonceAt(script: seq<Action>)
    ensures |Nonces(script)| == SendCount(script)
    ensures forall k :: 0 <= k < SendCount(script) ==> Nonces(script)[k] == GetNonce((k + 1) % U64_SIZE)
  {
    hide GetNonce;
    if script != [] {
      NonceAt(script[..|script| - 1]);
    }
  }

  /** Among all the nonces of a run, those of rejected messages included, no two are
      equal, exactly as long as the 64-bit counter has not come round. */
  lemma NoncesDistinctIff(script: seq<Action>)
    ensures AllDistinct(Nonces(script)) <==> SendCount(script) <= U64_SIZE
  {
    hide GetNonce, Nonces, SendCount;
    NonceAt(script);
    var nonces, n := Nonces(script), SendCount(script);
    if n <= U64_SIZE {
      forall k, l | 0 <= k < l < n
        ensures nonces[k] != nonces[l]
      {
        NonceDistinct((k + 1) % U64_SIZE, (l + 1) % U64_SIZE);
      }
    } else {
      assert nonces[0] == nonces[U64_SIZE];
    }
  }

  /** Messages are sealed under ever higher counters. */
  lemma {:induction false} SeqnumsRise(script: seq<Action>)
    requires SendCount(script) < U64_SIZE
    ensures forall k :: 0 <= k < |Accepted(script)| ==> 0 < Accepted(script)[k].seqnum <= SendCount(script)
    ensures forall k, l :: 0 <= k < l < |Accepted(script)| ==> Accepted(script)[k].seqnum < Accepted(script)[l].seqnum
  {
    hide Fits;
    if script != [] {
      SeqnumsRise(script[..|script| - 1]);
    }
  }

  /** Both ends seal under one key and count from the same start. So with a script in
      each direction all nonces are distinct exactly if one side sends nothing and the
      other does not exhaust its counter; the two first messages always share theirs. */
  lemma DuplexDistinctIff(there: seq<Action>, back: seq<Action>)
    ensures AllDistinct(Nonces(there) + Nonces(back))
            <==> (SendCount(there) == 0 || SendCount(back) == 0) && SendCount(there) + SendCount(back) <= U64_SIZE
    ensures SendCount(there) > 0 && SendCount(back) > 0 ==>
              |Nonces(there)| > 0 && |Nonces(back)| > 0 && Nonces(there)[0] == Nonces(back)[0] == GetNonce(1)
  {
    hide GetNonce, Nonces, SendCount;
    NonceAt(there);
    NonceAt(back);
    NoncesDistinctIff(there);
    NoncesDistinctIff(back);
    var all := Nonces(there) + Nonces(back);
    if SendCount(there) == 0 {
      assert all == Nonces(back);
    } else if SendCount(back) == 0 {
      assert all == Nonces(there);
    } else {
      assert all[0] == all[|Nonces(there)|];
    }
  }

  /** The first message of each end, on the streams themselves. */
  method FirstMessages(box: SecretBox, there: seq<byte>, back: seq<byte>) returns (sent: seq<byte>, answered: seq<byte>)
    requires Lawful(box) && Fits(there) && Fits(back)
    ensures sent == Encoding(box.seal(there, GetNonce(1)))
    ensures answered == Encoding(box.seal(back, GetNonce(1)))
  {
    hide Encoding, GetNonce;
    var a := new FramedStream(box);
    var b := new FramedStream(box);
    var r := a.SendRaw(there);
    r := b.SendRaw(back);
    sent, answered := a.output.data, b.output.data;
    assert [] + sent == sent && [] + answered == answered;
  }

  // ----------------------------------------------------------------------
  // When everything arrives as it was sent
  // ----------------------------------------------------------------------

  /** A message went out after one that was too big: the counter of the rejected
      message is spent on the sending side only. */
  predicate GapBefore(script: seq<Action>, i: nat)
    requires i < |script|
  {
    exists j :: 0 <= j < i && script[j].Send? && !Fits(script[j].msg)
  }

  /** Some accepted message follows a rejected one. */
  predicate HasGap(script: seq<Action>) {
    exists i :: 0 <= i < |script| && script[i].Send? && Fits(script[i].msg) && GapBefore(script, i)
  }

  predicate Rejecting(script: seq<Action>) {
    exists j :: 0 <= j < |script| && script[j].Send? && !Fits(script[j].msg)
  }

  lemma {:induction false} SendsAndAccepted(script: seq<Action>)
    ensures |Accepted(script)| <= SendCount(script) <= |script|
    ensures |Accepted(script)| == SendCount(script) <==> !Rejecting(script)
  {
    if script != [] {
      var n := |script| - 1;
      var before := script[..n];
      SendsAndAccepted(before);
      assert Rejecting(script) <==> Rejecting(before) || (script[n].Send? && !Fits(script[n].msg)) by {
        if Rejecting(before) {
          var j :| 0 <= j < |before| && before[j].Send? && !Fits(before[j].msg);
          assert script[j] == before[j];
        }
        if Rejecting(script) {
          var j :| 0 <= j < |script| && script[j].Send? && !Fits(script[j].msg);
          assert j < n ==> before[j] == script[j];
        }
      }
    }
  }

  /** Every message was sealed under the number of its position. */
  predicate InStep(messages: seq<Numbered>) {
    forall k :: 0 <= k < |messages| ==> messages[k].seqnum == k + 1
  }

  /** The counters of sender and receiver agree on every message exactly if no
      message was sent after one that was too big. */
  lemma {:induction false} CountersAgree(script: seq<Action>)
    requires |script| < U64_SIZE
    ensures InStep(Accepted(script)) <==> !HasGap(script)
  {
    if script != [] {
      var n := |script| - 1;
      CountersAgree(script[..n]);
      SendsAndAccepted(script[..n]);
      HasGapStep(script);
      LastAccepted(script);
      hide *;
      AgreeStep(script);
    }
  }

  lemma LastAccepted(script: seq<Action>)
    requires script != [] && |script| < U64_SIZE
    ensures var n := |script| - 1;
            Accepted(script) == Accepted(script[..n])
                                + if script[n].Send? && Fits(script[n].msg)
                                  then [Numbered(script[n].msg, SendCount(script[..n]) + 1)] else []
  {
    hide *;
    var n := |script| - 1;
    SendsAndAccepted(script);
    ScriptStep(script, n);
    assert script[..n + 1] == script;
    SmallModulo(SendCount(script));
  }

  lemma SmallModulo(n: nat)
    requires n < U64_SIZE
    ensures n % U64_SIZE == n
  {}

  lemma AgreeStep(script: seq<Action>)
    requires script != []
    requires var n := |script| - 1;
             var before, last := script[..n], script[n];
             && (InStep(Accepted(before)) <==> !HasGap(before))
             && (|Accepted(before)| == SendCount(before) <==> !Rejecting(before))
             && (HasGap(script) <==> HasGap(before) || (last.Send? && Fits(last.msg) && Rejecting(before)))
             && Accepted(script) == Accepted(before) + if last.Send? && Fits(last.msg)
                                                       then [Numbered(last.msg, SendCount(before) + 1)] else []
    ensures InStep(Accepted(script)) <==> !HasGap(script)
  {
    hide *;
    var n := |script| - 1;
    var before, last := script[..n], script[n];
    if last.Send? && Fits(last.msg) {
      InStepAppend(Accepted(before), Numbered(last.msg, SendCount(before) + 1));
    } else {
      assert Accepted(before) + [] == Accepted(before);
    }
  }

  lemma InStepAppend(messages: seq<Numbered>, m: Numbered)
    ensures InStep(messages + [m]) <==> InStep(messages) && m.seqnum == |messages| + 1
  {
    var all := messages + [m];
    assert all[|messages|] == m;
    assert forall k :: 0 <= k < |messages| ==> all[k] == messages[k];
  }

  lemma HasGapStep(script: seq<Action>)
    requires script != []
    ensures var n := |script| - 1;
            HasGap(script) <==>
            HasGap(script[..n]) || (script[n].Send? && Fits(script[n].msg) && Rejecting(script[..n]))
  {
    var n := |script| - 1;
    var before := script[..n];
    assert forall i :: 0 <= i < n ==> before[i] == script[i];
    assert forall i :: 0 <= i < n ==> (GapBefore(script, i) <==> GapBefore(before, i));
    assert GapBefore(script, n) <==> Rejecting(before);
  }

  lemma ArrivesInStep(box: SecretBox, m: Numbered, k: nat)
    requires Lawful(box) && m.seqnum < U64_SIZE && k + 1 < U64_SIZE
    ensures m.seqnum == k + 1 ==> Arrival(box, m, k) == Ok(m.msg)
    ensures m.seqnum != k + 1 && Authentic(box) ==> Arrival(box, m, k) == Err(DecryptionError)
  {
    hide GetNonce;
    NonceDistinct(m.seqnum, k + 1);
  }

  /** The end-to-end statement: every accepted message arrives as it was sent if no
      message is sent after one that is too big for a frame; and over a cipher that
      tells nonces apart, only then. */
  lemma AllArrive(box: SecretBox, script: seq<Action>)
    requires Lawful(box) && |script| < U64_SIZE
    ensures var messages := Accepted(script);
            && (!HasGap(script) ==>
                  forall k :: 0 <= k < |messages| ==> Arrival(box, messages[k], k) == Ok(messages[k].msg))
            && (HasGap(script) && Authentic(box) ==>
                  exists k :: 0 <= k < |messages| && Arrival(box, messages[k], k) == Err(DecryptionError))
  {
    var messages := Accepted(script);
    CountersAgree(script);
    SendsAndAccepted(script);
    AcceptedFit(script);
    hide Arrival, HasGap, Authentic, Accepted;
    forall k | 0 <= k < |messages|
      ensures messages[k].seqnum == k + 1 ==> Arrival(box, messages[k], k) == Ok(messages[k].msg)
      ensures messages[k].seqnum != k + 1 && Authentic(box) ==>
                Arrival(box, messages[k], k) == Err(DecryptionError)
    {
      ArrivesInStep(box, messages[k], k);
    }
    if HasGap(script) && Authentic(box) {
      var k :| 0 <= k < |messages| && messages[k].seqnum != k + 1;
      assert Arrival(box, messages[k], k) == Err(DecryptionError);
    }
  }

  predicate TooBig(a: Action) {
    a.Send? && !Fits(a.msg)
  }

  /** The place of the first message that is too big, or the end of the script. */
  function FirstRejected(script: seq<Action>): (r: nat)
    ensures r <= |script|
    ensures r < |script| ==> TooBig(script[r])
    ensures forall i :: 0 <= i < r ==> !TooBig(script[i])
  {
    if script == [] then 0
    else
      var n := |script| - 1;
      var r := FirstRejected(script[..n]);
      if r < n || TooBig(script[n]) then r else n + 1
  }

  /** How many messages are accepted before one is rejected. */
  function InTime(script: seq<Action>): nat {
    |Accepted(script[..FirstRejected(script)])|
  }

  lemma {:induction false} AcceptedGrows(script: seq<Action>, j: nat)
    requires j <= |script|
    ensures Accepted(script[..j]) <= Accepted(script)
  {
    hide Fits;
    if j == |script| {
      assert script[..j] == script;
    } else {
      var n := |script| - 1;
      assert script[..n][..j] == script[..j];
      AcceptedGrows(script[..n], j);
    }
  }

  /** Behind a rejected message the counters of the sender are ahead. */
  lemma {:induction false} AheadAfter(script: seq<Action>, j: nat, k: nat)
    requires |script| < U64_SIZE && j < |script| && TooBig(script[j])
    requires |Accepted(script[..j])| <= k < |Accepted(script)|
    ensures Accepted(script)[k].seqnum > k + 1
  {
    hide Fits, Accepted, SendCount;
    var n := |script| - 1;
    LastAccepted(script);
    if j < n {
      var before := script[..n];
      assert before[..j] == script[..j] && before[j] == script[j];
      if k < |Accepted(before)| {
        AheadAfter(before, j, k);
      } else {
        SendsAndAccepted(before);
        assert Rejecting(before);
      }
    }
  }

  /** Before it they are in step. */
  lemma InStepBefore(script: seq<Action>, k: nat)
    requires |script| < U64_SIZE && k < InTime(script)
    ensures k < |Accepted(script)| && Accepted(script)[k].seqnum == k + 1
  {
    var r := FirstRejected(script);
    var before := script[..r];
    AcceptedGrows(script, r);
    hide Fits, Accepted, FirstRejected, SendCount;
    NoGap(before);
    CountersAgree(before);
  }

  lemma NoGap(script: seq<Action>)
    requires forall i :: 0 <= i < |script| ==> !TooBig(script[i])
    ensures !HasGap(script)
  {
    hide Fits;
  }

  /** The fate of each accepted message: those before the first that is too big open to
      what was sent, and none of those behind it opens. */
  lemma EachArrives(box: SecretBox, script: seq<Action>, k: nat)
    requires Lawful(box) && |script| < U64_SIZE && k < |Accepted(script)|
    ensures k < InTime(script) ==> Arrival(box, Accepted(script)[k], k) == Ok(Accepted(script)[k].msg)
    ensures k >= InTime(script) && Authentic(box) ==> Arrival(box, Accepted(script)[k], k) == Err(DecryptionError)
  {
    var r := FirstRejected(script);
    AcceptedFit(script);
    SendsAndAccepted(script);
    assert r == |script| ==> script[..r] == script;
    hide Arrival, Authentic, Accepted, FirstRejected, Fits, SendCount;
    ArrivesInStep(box, Accepted(script)[k], k);
    if k < InTime(script) {
      InStepBefore(script, k);
    } else {
      AheadAfter(script, r, k);
    }
  }
}
