/** Which codec the encoder uses, chosen anew whenever a peer comes, goes or changes
    what it can decode. */
module Negotiation {
  import opened Codecs
  import opened Wrappers

  // Values of the protocol's preference, which may also hold others.
  const PREFER_AUTO := 0
  const PREFER_VP9 := 1
  const PREFER_H264 := 2
  const PREFER_H265 := 3
  const PREFER_VP8 := 4
  const PREFER_AV1 := 5

  datatype Decoding = Decoding(vp8: int, vp9: int, av1: int, h264: int, h265: int, prefer: int)

  const ONLY_VP9 := Decoding(0, 1, 0, 0, 0, PREFER_AUTO)

  type Peers = map<int, Decoding>

  /** What the machine offers at the time of an update: options, encoders, memory. A
      build without hardware codecs is one with those options off. */
  datatype Machine = Machine(
    av1Disabled: bool, av1Test: bool, memory: nat,
    vramEnabled: bool, vramH264: bool, vramH265: bool,
    hwEnabled: bool, hwH264: bool, hwH265: bool)

  const LOW_MEMORY: nat := 4 * 1024 * 1024 * 1024

  datatype Usable = Usable(vp8: bool, av1: bool, h264: bool, h265: bool)

  datatype Change = Update(id: int, decoding: Decoding) | Remove(id: int) | NewOnlyVP9(id: int) | Check

  function Ability(d: Decoding, f: Format): int {
    match f
    case VP8 => d.vp8
    case VP9 => d.vp9
    case AV1 => d.av1
    case H264 => d.h264
    case H265 => d.h265
  }

  predicate AllDecode(peers: Peers, f: Format) {
    forall id :: id in peers ==> Ability(peers[id], f) > 0
  }

  predicate EncoderFor(m: Machine, f: Format) {
    match f
    case H264 => (m.vramEnabled && m.vramH264) || (m.hwEnabled && m.hwH264)
    case H265 => (m.vramEnabled && m.vramH265) || (m.hwEnabled && m.hwH265)
    case AV1 => !m.av1Disabled
    case VP8 => true
    case VP9 => true
  }

  /** A codec can be used if there is a peer, all peers decode it and this side encodes it. */
  predicate CanUse(peers: Peers, m: Machine, f: Format) {
    peers != map[] && AllDecode(peers, f) && EncoderFor(m, f)
  }

  function UsableOf(peers: Peers, m: Machine): Usable {
    Usable(CanUse(peers, m, VP8), CanUse(peers, m, AV1), CanUse(peers, m, H264), CanUse(peers, m, H265))
  }

  /** A preference that counts. VP9 always does. */
  predicate Eligible(u: Usable, prefer: int) {
    || prefer == PREFER_VP9
    || (prefer == PREFER_VP8 && u.vp8)
    || (prefer == PREFER_AV1 && u.av1)
    || (prefer == PREFER_H264 && u.h264)
    || (prefer == PREFER_H265 && u.h265)
  }

  function Changed(peers: Peers, c: Change): Peers {
    match c
    case Update(id, decoding) => peers[id := decoding]
    case Remove(id) => peers - {id}
    case NewOnlyVP9(id) => peers[id := ONLY_VP9]
    case Check => peers
  }

  // ----------------------------------------------------------------------
  // Votes
  // ----------------------------------------------------------------------

  function Voters(peers: Peers, ids: set<int>, prefer: int): set<int> {
    set id | id in ids && id in peers && peers[id].prefer == prefer
  }

  /** How many peers have a preference that counts. */
  function Votes(peers: Peers, u: Usable, prefer: int): nat {
    if Eligible(u, prefer) then |Voters(peers, peers.Keys, prefer)| else 0
  }

  /** The preference that is honoured: one with the most votes, if there is any vote. */
  ghost predicate Winner(peers: Peers, u: Usable, prefer: int) {
    && (forall other :: Votes(peers, u, other) <= Votes(peers, u, prefer))
    && (prefer == PREFER_AUTO || Votes(peers, u, prefer) > 0)
  }

  /** The choice without preference: H265 before H264 before AV1, and VP8 instead of AV1
      or VP9 on a machine with little memory. */
  function AutoCodec(u: Usable, m: Machine): Format {
    if u.h265 then H265
    else if u.h264 then H264
    else if u.vp8 && m.memory <= LOW_MEMORY then VP8
    else if u.av1 && m.av1Test then AV1
    else VP9
  }

  /** What the preference that is honoured leads to. */
  function FormatFor(prefer: int): Option<Format> {
    if prefer == PREFER_VP9 then Some(VP9)
    else if prefer == PREFER_H264 then Some(H264)
    else if prefer == PREFER_H265 then Some(H265)
    else if prefer == PREFER_VP8 then Some(VP8)
    else if prefer == PREFER_AV1 then Some(AV1)
    else None
  }

  ghost predicate Negotiated(peers: Peers, m: Machine, f: Format) {
    var u := UsableOf(peers, m);
    exists prefer :: Winner(peers, u, prefer)
                     && f == match FormatFor(prefer) case Some(g) => g case None => AutoCodec(u, m)
  }

  function Count(prefs: seq<int>, prefer: int): nat {
    if prefs == [] then 0
    else Count(prefs[..|prefs| - 1], prefer) + (if prefs[|prefs| - 1] == prefer then 1 else 0)
  }

  lemma CountSnoc(prefs: seq<int>, x: int)
    ensures Count(prefs + [x], x) == Count(prefs, x) + 1
    ensures forall p :: p != x ==> Count(prefs + [x], p) == Count(prefs, p)
  {
    assert (prefs + [x])[..|prefs|] == prefs;
  }

  lemma VotersStep(peers: Peers, ids: set<int>, id: int, prefer: int)
    requires id in peers && id !in ids
    ensures |Voters(peers, ids + {id}, prefer)|
            == |Voters(peers, ids, prefer)| + if peers[id].prefer == prefer then 1 else 0
  {
    var before, after := Voters(peers, ids, prefer), Voters(peers, ids + {id}, prefer);
    if peers[id].prefer == prefer {
      assert after == before + {id};
    } else {
      assert after == before;
    }
  }

  /** The preferences that have been collected from some of the peers. */
  ghost predicate Collected(peers: Peers, u: Usable, ids: set<int>, prefs: seq<int>) {
    forall p :: Count(prefs, p) == if Eligible(u, p) then |Voters(peers, ids, p)| else 0
  }

  lemma CollectedStep(peers: Peers, u: Usable, ids: set<int>, prefs: seq<int>, id: int)
    requires Collected(peers, u, ids, prefs) && id in peers && id !in ids
    ensures var p := peers[id].prefer;
            Collected(peers, u, ids + {id}, if Eligible(u, p) then prefs + [p] else prefs)
  {
    var p := peers[id].prefer;
    forall q
      ensures Count(if Eligible(u, p) then prefs + [p] else prefs, q)
              == if Eligible(u, q) then |Voters(peers, ids + {id}, q)| else 0
    {
      VotersStep(peers, ids, id, q);
      CountSnoc(prefs, p);
    }
  }

  /** A table with one entry for each preference that occurs, and how often it does. */
  ghost predicate Tallied(prefs: seq<int>, counts: seq<(int, nat)>) {
    && (forall k :: 0 <= k < |counts| ==> counts[k].1 == Count(prefs, counts[k].0) > 0)
    && (forall k, l :: 0 <= k < l < |counts| ==> counts[k].0 != counts[l].0)
    && (forall p :: Count(prefs, p) > 0 ==> exists k :: 0 <= k < |counts| && counts[k].0 == p)
  }

  /** One more occurrence of the preference at place `k`. */
  lemma TalliedAgain(prefs: seq<int>, counts: seq<(int, nat)>, k: nat)
    requires Tallied(prefs, counts) && k < |counts|
    ensures Tallied(prefs + [counts[k].0], counts[k := (counts[k].0, counts[k].1 + 1)])
  {
    var x := counts[k].0;
    var now := counts[k := (x, counts[k].1 + 1)];
    CountSnoc(prefs, x);
    hide Count;
    assert forall l :: 0 <= l < |now| ==> now[l].0 == counts[l].0;
    forall p | Count(prefs + [x], p) > 0
      ensures exists l :: 0 <= l < |now| && now[l].0 == p
    {
      var l :| 0 <= l < |counts| && counts[l].0 == p;
      assert now[l].0 == p;
    }
  }

  /** The first occurrence of a preference. */
  lemma TalliedNew(prefs: seq<int>, counts: seq<(int, nat)>, x: int)
    requires Tallied(prefs, counts)
    requires forall l :: 0 <= l < |counts| ==> counts[l].0 != x
    ensures Tallied(prefs + [x], counts + [(x, 1)])
  {
    var now := counts + [(x, 1)];
    CountSnoc(prefs, x);
    hide Count;
    assert Count(prefs, x) == 0;
    forall p | Count(prefs + [x], p) > 0
      ensures exists l :: 0 <= l < |now| && now[l].0 == p
    {
      if p == x {
        assert now[|counts|].0 == x;
      } else {
        var l :| 0 <= l < |counts| && counts[l].0 == p;
        assert now[l].0 == p;
      }
    }
  }

  // ----------------------------------------------------------------------
  // The encoder's side
  // ----------------------------------------------------------------------

  class Negotiator {
    var peers: Peers
    var usable: Option<Usable>
    var format: Format

    constructor ()
      ensures peers == map[] && usable == None && format == VP9
    {
      peers, usable, format := map[], None, VP9;
    }

    /** The map gives its keys in whatever order it has. */
    static method Next(keys: set<int>) returns (id: int)
      requires keys != {}
      ensures id in keys
    {
      if forall k :: k !in keys {
        assert false;
      }
      id :| id in keys;
    }

    method Preferences(u: Usable) returns (prefs: seq<int>)
      ensures Collected(peers, u, peers.Keys, prefs)
    {
      prefs := [];
      var todo := peers.Keys;
      while todo != {}
        invariant todo <= peers.Keys
        invariant Collected(peers, u, peers.Keys - todo, prefs)
        decreases |todo|
      {
        var id := Next(todo);
        CollectedStep(peers, u, peers.Keys - todo, prefs, id);
        assert peers.Keys - (todo - {id}) == (peers.Keys - todo) + {id};
        todo := todo - {id};
        if Eligible(u, peers[id].prefer) {
          prefs := prefs + [peers[id].prefer];
        }
      }
      assert peers.Keys - todo == peers.Keys;
    }

    static method Tally(prefs: seq<int>) returns (counts: seq<(int, nat)>)
      ensures Tallied(prefs, counts)
    {
      counts := [];
      assert Tallied(prefs[..0], counts);
      hide Tallied;
      for i := 0 to |prefs|
        invariant Tallied(prefs[..i], counts)
      {
        var k := 0;
        while k < |counts| && counts[k].0 != prefs[i]
          invariant k <= |counts|
          invariant forall l :: 0 <= l < k ==> counts[l].0 != prefs[i]
        {
          k := k + 1;
        }
        assert prefs[..i + 1] == prefs[..i] + [prefs[i]];
        if k < |counts| {
          TalliedAgain(prefs[..i], counts, k);
          counts := counts[k := (prefs[i], counts[k].1 + 1)];
        } else {
          TalliedNew(prefs[..i], counts, prefs[i]);
          counts := counts + [(prefs[i], 1)];
        }
      }
      assert prefs[..|prefs|] == prefs;
    }

    /** The first of the entries with the highest count. */
    static method MostFrequent(counts: seq<(int, nat)>) returns (prefer: int)
      ensures counts == [] ==> prefer == PREFER_AUTO
      ensures counts != [] ==>
                exists k :: 0 <= k < |counts| && counts[k].0 == prefer
                            && (forall l :: 0 <= l < |counts| ==> counts[l].1 <= counts[k].1)
                            && (forall l :: 0 <= l < k ==> counts[l].1 < counts[k].1)
    {
      var maxCount := 0;
      for i := 0 to |counts|
        invariant forall l :: 0 <= l < i ==> counts[l].1 <= maxCount
        invariant if i == 0 then maxCount == 0 else exists l :: 0 <= l < i && counts[l].1 == maxCount
      {
        if counts[i].1 >= maxCount {
          maxCount := counts[i].1;
        }
      }
      for k := 0 to |counts|
        invariant forall l :: 0 <= l < k ==> counts[l].1 < maxCount
      {
        if counts[k].1 == maxCount {
          return counts[k].0;
        }
      }
      return PREFER_AUTO;
    }

    method UpdateCodec(c: Change, m: Machine)
      modifies this
      ensures peers == Changed(old(peers), c)
      ensures usable == Some(UsableOf(peers, m))
      ensures Negotiated(peers, m, format)
    {
      hide Collected, Tallied, Winner, UsableOf, AutoCodec, Negotiated;
      match c {
        case Update(id, decoding) => peers := peers[id := decoding];
        case Remove(id) => peers := peers - {id};
        case NewOnlyVP9(id) => peers := peers[id := ONLY_VP9];
        case Check =>
      }
      var u := UsableCodecs(m);
      usable := Some(u);
      var prefs := Preferences(u);
      var counts := Tally(prefs);
      var prefer := MostFrequent(counts);
      WinnerOf(peers, u, prefs, counts, prefer);
      format := FormatOf(u, m, prefer);
      WinnerNegotiated(peers, m, prefer);
    }

    method UsableCodecs(m: Machine) returns (u: Usable)
      ensures u == UsableOf(peers, m)
    {
      hide AllDecode;
      var some := peers != map[];
      var allH264 := some && AllDecode(peers, H264);
      var allH265 := some && AllDecode(peers, H265);
      var h264vram, h265vram := false, false;
      if m.vramEnabled {
        h264vram := allH264 && m.vramH264;
        h265vram := allH265 && m.vramH265;
      }
      var h264hw, h265hw := false, false;
      if m.hwEnabled {
        h264hw := allH264 && m.hwH264;
        h265hw := allH265 && m.hwH265;
      }
      u := Usable(some && AllDecode(peers, VP8), some && AllDecode(peers, AV1) && !m.av1Disabled,
                  allH264 && (h264vram || h264hw), allH265 && (h265vram || h265hw));
    }

    /** A preferred H264 or H265 without an encoder falls back to the automatic choice. */
    static method FormatOf(u: Usable, m: Machine, prefer: int) returns (f: Format)
      ensures f == match FormatFor(prefer)
                   case Some(g) => if (g == H264 && !u.h264) || (g == H265 && !u.h265) then AutoCodec(u, m) else g
                   case None => AutoCodec(u, m)
    {
      var auto := if u.av1 && m.av1Test then AV1 else VP9;
      if u.h264 {
        auto := H264;
      }
      if u.h265 {
        auto := H265;
      }
      if (auto == VP9 || auto == AV1) && u.vp8 && m.memory <= LOW_MEMORY {
        auto := VP8;
      }
      f := if prefer == PREFER_VP8 then VP8
      else if prefer == PREFER_VP9 then VP9
      else if prefer == PREFER_AV1 then AV1
      else if prefer == PREFER_H264 then if u.h264 then H264 else auto
      else if prefer == PREFER_H265 then if u.h265 then H265 else auto
      else auto;
    }

    /** The caller has turned to an encoder of this format. */
    method SetFallback(f: Format)
      modifies `format
      ensures format == f
    {
      if format != f {
        format := f;
      }
    }

    /** Creating an encoder for the negotiated format has failed. */
    method EncoderFailed()
      modifies `format
      ensures format == VP9
    {
      format := VP9;
    }
  }

  /** An entry with the highest count is the preference of the most peers. */
  lemma WinnerOf(peers: Peers, u: Usable, prefs: seq<int>, counts: seq<(int, nat)>, prefer: int)
    requires Collected(peers, u, peers.Keys, prefs) && Tallied(prefs, counts)
    requires counts == [] ==> prefer == PREFER_AUTO
    requires counts != [] ==>
               exists k :: 0 <= k < |counts| && counts[k].0 == prefer
                           && (forall l :: 0 <= l < |counts| ==> counts[l].1 <= counts[k].1)
    ensures Winner(peers, u, prefer)
  {
    forall p
      ensures Votes(peers, u, p) == Count(prefs, p) <= Count(prefs, prefer)
    {
      if Count(prefs, p) > 0 {
        var l :| 0 <= l < |counts| && counts[l].0 == p;
      }
    }
  }

  lemma WinnerNegotiated(peers: Peers, m: Machine, prefer: int)
    requires Winner(peers, UsableOf(peers, m), prefer)
    ensures var u := UsableOf(peers, m);
            Negotiated(peers, m,
                       match FormatFor(prefer)
                       case Some(g) => if (g == H264 && !u.h264) || (g == H265 && !u.h265) then AutoCodec(u, m) else g
                       case None => AutoCodec(u, m))
  {
    if prefer != PREFER_AUTO {
      WinnerUsable(peers, m, prefer);
    }
  }

  // ----------------------------------------------------------------------
  // What the choice guarantees
  // ----------------------------------------------------------------------

  /** A vote counts only for what can be used, so the cases of a preferred H264 or H265
      without an encoder never arise: the winner's own format is chosen. */
  lemma WinnerUsable(peers: Peers, m: Machine, prefer: int)
    requires Winner(peers, UsableOf(peers, m), prefer) && prefer != PREFER_AUTO
    ensures FormatFor(prefer).Some?
    ensures FormatFor(prefer) != Some(VP9) ==> CanUse(peers, m, FormatFor(prefer).value)
  {
    assert Eligible(UsableOf(peers, m), prefer);
  }

  /** Any format but VP9 is chosen only if it can be used. */
  lemma ChosenUsable(peers: Peers, m: Machine, f: Format)
    requires Negotiated(peers, m, f) && f != VP9
    ensures CanUse(peers, m, f)
  {
    var u := UsableOf(peers, m);
    var prefer :| Winner(peers, u, prefer) && f == match FormatFor(prefer) case Some(g) => g case None => AutoCodec(u, m);
    if prefer != PREFER_AUTO {
      WinnerUsable(peers, m, prefer);
    }
    hide AllDecode, Winner;
  }

  lemma NoPeers(m: Machine, f: Format)
    requires Negotiated(map[], m, f)
    ensures f == VP9
  {
    if f != VP9 {
      ChosenUsable(map[], m, f);
    }
  }

  /** If any vote counts, the format is one that the most peers voted for. */
  lemma Honoured(peers: Peers, m: Machine, f: Format, voter: int)
    requires Negotiated(peers, m, f)
    requires voter in peers && Eligible(UsableOf(peers, m), peers[voter].prefer)
    ensures exists prefer ::
              && FormatFor(prefer) == Some(f)
              && Votes(peers, UsableOf(peers, m), prefer) > 0
              && forall other :: Votes(peers, UsableOf(peers, m), other) <= Votes(peers, UsableOf(peers, m), prefer)
  {
    var u := UsableOf(peers, m);
    var prefer :| Winner(peers, u, prefer) && f == match FormatFor(prefer) case Some(g) => g case None => AutoCodec(u, m);
    assert voter in Voters(peers, peers.Keys, peers[voter].prefer);
    assert Votes(peers, u, peers[voter].prefer) > 0;
    assert !Eligible(u, PREFER_AUTO) && Votes(peers, u, PREFER_AUTO) == 0;
    assert prefer != PREFER_AUTO;
    WinnerUsable(peers, m, prefer);
    hide UsableOf, Votes, Eligible;
    assert FormatFor(prefer) == Some(f);
  }

  // ----------------------------------------------------------------------
  // The choice, in terms of peers and machine alone
  // ----------------------------------------------------------------------

  /** There is a peer, all say that they decode it, and the machine encodes it. */
  predicate Offered(peers: Peers, m: Machine, f: Format) {
    peers != map[] &&
    match f
    case VP8 => forall id :: id in peers ==> peers[id].vp8 > 0
    case VP9 => forall id :: id in peers ==> peers[id].vp9 > 0
    case AV1 => !m.av1Disabled && forall id :: id in peers ==> peers[id].av1 > 0
    case H264 => ((m.vramEnabled && m.vramH264) || (m.hwEnabled && m.hwH264)) && forall id :: id in peers ==> peers[id].h264 > 0
    case H265 => ((m.vramEnabled && m.vramH265) || (m.hwEnabled && m.hwH265)) && forall id :: id in peers ==> peers[id].h265 > 0
  }

  /** The number that stands for a format in a preference. */
  function Wish(f: Format): int {
    match f case VP9 => 1 case H264 => 2 case H265 => 3 case VP8 => 4 case AV1 => 5
  }

  /** How many peers want a format that they can get. */
  function Backers(peers: Peers, m: Machine, f: Format): nat {
    if f == VP9 || Offered(peers, m, f) then |set id | id in peers && peers[id].prefer == Wish(f)| else 0
  }

  /** Where no wish counts: H265 if it is offered, then H264; then VP8 with at most 4 GiB of
      memory, and AV1 unless its test is switched off. */
  predicate Automatic(peers: Peers, m: Machine, f: Format) {
    var small := Offered(peers, m, VP8) && m.memory <= 4_294_967_296;
    var av1 := Offered(peers, m, AV1) && m.av1Test;
    match f
    case H265 => Offered(peers, m, H265)
    case H264 => Offered(peers, m, H264) && !Offered(peers, m, H265)
    case VP8 => small && !Offered(peers, m, H265) && !Offered(peers, m, H264)
    case AV1 => av1 && !small && !Offered(peers, m, H265) && !Offered(peers, m, H264)
    case VP9 => !av1 && !small && !Offered(peers, m, H265) && !Offered(peers, m, H264)
  }

  lemma OfferedUsable(peers: Peers, m: Machine, f: Format)
    ensures Offered(peers, m, f) <==> CanUse(peers, m, f)
  {
    forall id | id in peers
      ensures Ability(peers[id], f)
              == match f
                 case VP8 => peers[id].vp8
                 case VP9 => peers[id].vp9
                 case AV1 => peers[id].av1
                 case H264 => peers[id].h264
                 case H265 => peers[id].h265
    {}
  }

  lemma BackersVote(peers: Peers, m: Machine, f: Format)
    ensures Backers(peers, m, f) == Votes(peers, UsableOf(peers, m), Wish(f))
    ensures FormatFor(Wish(f)) == Some(f)
  {
    OfferedUsable(peers, m, f);
    hide Offered, CanUse;
    assert Voters(peers, peers.Keys, Wish(f)) == set id | id in peers && peers[id].prefer == Wish(f);
  }

  lemma WishOf(prefer: int) returns (f: Format)
    ensures FormatFor(prefer).Some? ==> f == FormatFor(prefer).value && prefer == Wish(f)
    ensures FormatFor(prefer).None? ==> forall peers, u :: Votes(peers, u, prefer) == 0
  {
    f := match FormatFor(prefer) case Some(g) => g case None => VP9;
  }

  lemma AutomaticIs(peers: Peers, m: Machine, f: Format)
    ensures f == AutoCodec(UsableOf(peers, m), m) <==> Automatic(peers, m, f)
  {
    OfferedUsable(peers, m, VP8);
    OfferedUsable(peers, m, AV1);
    OfferedUsable(peers, m, H264);
    OfferedUsable(peers, m, H265);
    hide Offered, CanUse;
  }

  /** No format that can be had is wanted by more peers. */
  ghost predicate MostWanted(peers: Peers, m: Machine, f: Format) {
    Backers(peers, m, f) > 0 && forall g :: Backers(peers, m, g) <= Backers(peers, m, f)
  }

  ghost predicate NoneWanted(peers: Peers, m: Machine) {
    forall f :: Backers(peers, m, f) == 0
  }

  /** Which format can come out, exactly: one that the most peers want, among those that
      can be had; or the automatic one, if nobody wants any of these. */
  lemma NegotiatedIff(peers: Peers, m: Machine, f: Format)
    ensures Negotiated(peers, m, f)
            <==> MostWanted(peers, m, f) || (NoneWanted(peers, m) && Automatic(peers, m, f))
  {
    hide Automatic, AutoCodec, UsableOf, MostWanted, NoneWanted, Winner;
    var u := UsableOf(peers, m);
    AutomaticIs(peers, m, f);
    if Negotiated(peers, m, f) {
      var prefer :| Winner(peers, u, prefer) && f == match FormatFor(prefer) case Some(g) => g case None => AutoCodec(u, m);
      WinnerBacked(peers, m, prefer);
    }
    WinnerBacked(peers, m, Wish(f));
    WinnerBacked(peers, m, PREFER_AUTO);
    assert FormatFor(Wish(f)) == Some(f) && FormatFor(PREFER_AUTO) == None;
    if MostWanted(peers, m, f) {
      assert Winner(peers, u, Wish(f));
    } else if NoneWanted(peers, m) && Automatic(peers, m, f) {
      assert Winner(peers, u, PREFER_AUTO);
    }
  }

  lemma WinnerBacked(peers: Peers, m: Machine, prefer: int)
    ensures Winner(peers, UsableOf(peers, m), prefer)
            <==> if FormatFor(prefer).Some? then MostWanted(peers, m, FormatFor(prefer).value)
                 else prefer == PREFER_AUTO && NoneWanted(peers, m)
  {
    hide Backers, Votes, UsableOf;
    var u := UsableOf(peers, m);
    forall other
      ensures Votes(peers, u, other) == if FormatFor(other).Some? then Backers(peers, m, FormatFor(other).value) else 0
    {
      var f := WishOf(other);
      BackersVote(peers, m, f);
    }
    forall g
      ensures Backers(peers, m, g) == Votes(peers, u, Wish(g))
    {
      BackersVote(peers, m, g);
    }
  }

  // ----------------------------------------------------------------------
  // Histories
  // ----------------------------------------------------------------------

  /** An update, an encoder that cannot be made, a fallback to the format of an encoder
      that the caller has configured. */
  datatype Event = Changing(change: Change, machine: Machine) | Failing | Falling(format: Format)

  predicate About(c: Change, id: int) {
    !c.Check? && c.id == id
  }

  /** What a peer last said that it decodes, if it is still there. */
  function LastSaid(events: seq<Event>, id: int): Option<Decoding> {
    if events == [] then None
    else
      var e := events[|events| - 1];
      if !e.Changing? || !About(e.change, id) then LastSaid(events[..|events| - 1], id)
      else
        match e.change
        case Update(_, decoding) => Some(decoding)
        case NewOnlyVP9(_) => Some(Decoding(0, 1, 0, 0, 0, 0))
        case Remove(_) => None
  }

  /** A state of the encoder's side and one that an event can lead to. */
  datatype State = State(peers: Peers, format: Format)

  ghost predicate Leads(s: State, e: Event, t: State) {
    match e
    case Changing(c, m) => t.peers == Changed(s.peers, c) && Negotiated(t.peers, m, t.format)
    case Failing => t == s.(format := VP9)
    case Falling(f) => t == s.(format := f)
  }

  ghost predicate History(states: seq<State>, events: seq<Event>) {
    && |states| == |events| + 1
    && states[0] == State(map[], VP9)
    && forall i :: 0 <= i < |events| ==> Leads(states[i], events[i], states[i + 1])
  }

  lemma LastSaidStep(events: seq<Event>, id: int)
    requires events != []
    ensures var e, before := events[|events| - 1], LastSaid(events[..|events| - 1], id);
            LastSaid(events, id) ==
            match e
            case Changing(Update(i, decoding), _) => if i == id then Some(decoding) else before
            case Changing(NewOnlyVP9(i), _) => if i == id then Some(Decoding(0, 1, 0, 0, 0, 0)) else before
            case Changing(Remove(i), _) => if i == id then None else before
            case _ => before
  {}

  function Said(peers: Peers, id: int): Option<Decoding> {
    if id in peers then Some(peers[id]) else None
  }

  lemma {:induction false} PeersOf(states: seq<State>, events: seq<Event>, id: int)
    requires History(states, events)
    ensures LastSaid(events, id) == Said(states[|events|].peers, id)
  {
    hide Negotiated, LastSaid;
    if events == [] {
      NothingSaid(id);
    } else {
      var n := |events| - 1;
      PeersOf(states[..n + 1], events[..n], id);
      assert Leads(states[n], events[n], states[n + 1]);
      LastSaidStep(events, id);
      hide History;
    }
  }

  lemma NothingSaid(id: int)
    ensures LastSaid([], id) == None
  {}

  /** After every history that does not end with a fallback of the caller's own: whatever
      is encoded in VP8, AV1, H264 or H265 can be decoded by every peer that is there, by
      what it said last, and there is an encoder for it; with no peer there it is VP9. */
  lemma AlwaysDecodable(states: seq<State>, events: seq<Event>, id: int)
    requires History(states, events)
    ensures var f := states[|events|].format;
            if events != [] && events[|events| - 1].Falling? then f == events[|events| - 1].format
            else f != VP9 ==>
                   && (LastSaid(events, id).Some? ==> Ability(LastSaid(events, id).value, f) > 0)
                   && states[|events|].peers != map[]
                   && events != [] && events[|events| - 1].Changing? && EncoderFor(events[|events| - 1].machine, f)
  {
    hide LastSaid, Negotiated;
    PeersOf(states, events, id);
    if events != [] {
      var n := |events| - 1;
      var t := states[n + 1];
      assert Leads(states[n], events[n], t);
      if t.format != VP9 && events[n].Changing? {
        ChosenUsable(t.peers, events[n].machine, t.format);
      }
    }
  }

  /** VP9 has the most votes, or there are none and neither a hardware codec, nor VP8 with
      little memory, nor AV1 offers itself. */
  ghost predicate Vp9MayCome(peers: Peers, m: Machine) {
    var u := UsableOf(peers, m);
    || (Votes(peers, u, PREFER_VP9) > 0
        && forall other :: Votes(peers, u, other) <= Votes(peers, u, PREFER_VP9))
    || ((forall other :: Votes(peers, u, other) == 0)
        && !u.h265 && !u.h264 && !(u.vp8 && m.memory <= LOW_MEMORY) && !(u.av1 && m.av1Test))
  }

  /** VP9 can come out exactly then. */
  lemma Vp9ChosenIff(peers: Peers, m: Machine)
    ensures Negotiated(peers, m, VP9) <==> Vp9MayCome(peers, m)
  {
    var u := UsableOf(peers, m);
    assert Votes(peers, u, PREFER_AUTO) == 0;
    hide UsableOf, Votes;
    if Negotiated(peers, m, VP9) {
      var prefer :| Winner(peers, u, prefer) && VP9 == match FormatFor(prefer) case Some(g) => g case None => AutoCodec(u, m);
      if prefer != PREFER_AUTO {
        WinnerUsable(peers, m, prefer);
      }
    }
    assert Winner(peers, u, PREFER_VP9) ==> FormatFor(PREFER_VP9) == Some(VP9);
    assert Winner(peers, u, PREFER_AUTO) ==> FormatFor(PREFER_AUTO) == None;
  }

  /** Every format that can come out is one that all peers decode exactly if all of them
      decode VP9 or it cannot come out. */
  lemma AllDecodeIff(peers: Peers, m: Machine)
    ensures (forall f :: Negotiated(peers, m, f) ==> AllDecode(peers, f))
            <==> AllDecode(peers, VP9) || !Vp9MayCome(peers, m)
  {
    hide Negotiated, AllDecode, Vp9MayCome;
    Vp9ChosenIff(peers, m);
    forall f | Negotiated(peers, m, f)
      ensures f != VP9 ==> AllDecode(peers, f)
    {
      if f != VP9 {
        ChosenUsable(peers, m, f);
      }
    }
  }

  /** An input that shows it: a peer that decodes H264 only is sent VP9 exactly when there
      is no encoder for H264. */
  lemma Vp9TakenForGranted(id: int, m: Machine, f: Format)
    requires Negotiated(map[id := Decoding(0, 0, 0, 1, 0, PREFER_H264)], m, f)
    ensures f == if EncoderFor(m, H264) then H264 else VP9
    ensures f == VP9 ==> !AllDecode(map[id := Decoding(0, 0, 0, 1, 0, PREFER_H264)], f)
  {
    var peers: Peers := map[id := Decoding(0, 0, 0, 1, 0, PREFER_H264)];
    assert id in peers && Ability(peers[id], VP8) == 0 && Ability(peers[id], AV1) == 0 && Ability(peers[id], H265) == 0;
    assert Ability(peers[id], VP9) == 0;
    if EncoderFor(m, H264) {
      assert CanUse(peers, m, H264);
      Honoured(peers, m, f, id);
    } else if f != VP9 {
      ChosenUsable(peers, m, f);
    }
  }
}
