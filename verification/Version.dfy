/** Version numbers: "1.1.10-1" as one 64-bit integer that is compared with `<`. */
module Version {
  import opened Wrappers

  const I64_MAX := 0x7FFF_FFFF_FFFF_FFFF

  /** What is left of an integer in a 64-bit register of a release build. */
  function Wrap64(n: int): int {
    (n + (I64_MAX + 1)) % (2 * (I64_MAX + 1)) - (I64_MAX + 1)
  }

  // ----------------------------------------------------------------------
  // Reading the string
  // ----------------------------------------------------------------------

  function Join(pieces: seq<string>, sep: char): string {
    if pieces == [] then ""
    else if |pieces| == 1 then pieces[0]
    else pieces[0] + [sep] + Join(pieces[1..], sep)
  }

  /** The pieces between separators; there is always one. */
  function Split(s: string, sep: char): (pieces: seq<string>)
    ensures pieces != [] && Join(pieces, sep) == s
    ensures forall i :: 0 <= i < |pieces| ==> sep !in pieces[i]
  {
    if s == "" then [""]
    else
      var rest := Split(s[1..], sep);
      if s[0] == sep then [""] + rest
      else
        var pieces := [[s[0]] + rest[0]] + rest[1..];
        assert s == [s[0]] + s[1..];
        assert pieces[1..] == rest[1..];
        pieces
  }

  predicate IsDigit(c: char) {
    '0' <= c <= '9'
  }

  function Digits(s: string): nat
    requires forall i :: 0 <= i < |s| ==> IsDigit(s[i])
  {
    if s == "" then 0
    else
      var last := s[|s| - 1];
      assert IsDigit(last);
      10 * Digits(s[..|s| - 1]) + (last as nat - '0' as nat)
  }

  /** At least one digit, within 64 bits. */
  function ParseDigits(digits: string, negative: bool): Option<int> {
    if digits == "" || exists i :: 0 <= i < |digits| && !IsDigit(digits[i]) then None
    else
      var n := if negative then -(Digits(digits) as int) else Digits(digits);
      if -I64_MAX - 1 <= n <= I64_MAX then Some(n) else None
  }

  /** A sign may come first. */
  function ParseI64(s: string): Option<int> {
    ParseDigits(if s != "" && s[0] in "+-" then s[1..] else s, s != "" && s[0] == '-')
  }

  function UnwrapOrZero(o: Option<int>): int {
    match o case Some(n) => n case None => 0
  }

  /** The components before the first dash, and the number after it. */
  datatype Version = Version(parts: seq<int>, patch: int)

  function ParseAll(pieces: seq<string>): (parts: seq<int>)
    ensures |parts| == |pieces|
    ensures forall i :: 0 <= i < |parts| ==> parts[i] == UnwrapOrZero(ParseI64(pieces[i]))
  {
    seq(|pieces|, i requires 0 <= i < |pieces| => UnwrapOrZero(ParseI64(pieces[i])))
  }

  function Read(v: string): (r: Version)
    ensures r.parts != []
  {
    var versions := Split(v, '-');
    Version(ParseAll(Split(versions[0], '.')),
            if |versions| > 1 then UnwrapOrZero(ParseI64(versions[1])) else 0)
  }

  // ----------------------------------------------------------------------
  // The number
  // ----------------------------------------------------------------------

  function Fold(parts: seq<int>): int {
    if parts == [] then 0 else Fold(parts[..|parts| - 1]) * 1000 + parts[|parts| - 1]
  }

  /** The number meant, on unbounded integers: the last component counts tenfold to
      leave room for the patch. */
  function Value(v: Version): int
    requires v.parts != []
  {
    var n := |v.parts| - 1;
    Fold(v.parts[..n]) * 1000 + 10 * v.parts[n] + v.patch
  }

  lemma WrapStep(a: int, m: int, b: int)
    requires m == 1 || m == 10 || m == 1000
    ensures Wrap64(Wrap64(a) * m + b) == Wrap64(a * m + b)
  {
    var size := 2 * (I64_MAX + 1);
    var q := (a + (I64_MAX + 1)) / size;
    assert Wrap64(a) == a - q * size;
    WrapShift(a * m + b, q * m);
    assert (q * m) * size == m * (q * size);
  }

  lemma WrapShift(x: int, t: int)
    ensures Wrap64(x - t * (2 * (I64_MAX + 1))) == Wrap64(x)
  {
    var size := 2 * (I64_MAX + 1);
    var y := x + (I64_MAX + 1);
    var q, r := y / size, y % size;
    var z := y - t * size;
    assert z == (q - t) * size + r by {
      assert (q - t) * size == q * size - t * size;
    }
    var d := z / size - (q - t);
    assert d * size == r - z % size by {
      assert z == (z / size) * size + z % size;
      assert d * size == (z / size) * size - (q - t) * size;
    }
  }

  /** The loop over the components: every step wraps, the result is wrapped once. */
  method FoldPieces(pieces: seq<string>) returns (n: int, last: int)
    requires pieces != []
    ensures n == Wrap64(Fold(ParseAll(pieces))) && last == ParseAll(pieces)[|pieces| - 1]
  {
    ghost var parts := ParseAll(pieces);
    n, last := 0, 0;
    WrapZero();
    hide Wrap64, ParseI64;
    for i := 0 to |pieces|
      invariant n == Wrap64(Fold(parts[..i]))
      invariant i > 0 ==> last == parts[i - 1]
    {
      last := UnwrapOrZero(ParseI64(pieces[i]));
      FoldStep(parts, i);
      WrapStep(Fold(parts[..i]), 1000, last);
      n := Wrap64(n * 1000 + last);
    }
    assert parts[..|pieces|] == parts;
  }

  /** The number computed is the number meant, wrapped. */
  method GetVersionNumber(v: string) returns (n: int)
    ensures n == Wrap64(Value(Read(v)))
  {
    hide Wrap64, ParseI64, Split, Fold;
    var last;
    var versions := Split(v, '-');
    n, last := FoldPieces(Split(versions[0], '.'));
    FoldAll(v);
    ghost var fold := Fold(Read(v).parts);
    WrapStep(fold, 1, -last);
    n := Wrap64(n - last);
    WrapStep(fold - last, 1, last * 10);
    n := Wrap64(n + last * 10);
    if |versions| > 1 {
      var patch := UnwrapOrZero(ParseI64(versions[1]));
      WrapStep(fold - last + last * 10, 1, patch);
      n := Wrap64(n + patch);
    }
  }

  lemma FoldStep(parts: seq<int>, i: nat)
    requires i < |parts|
    ensures Fold(parts[..i + 1]) == Fold(parts[..i]) * 1000 + parts[i]
  {
    assert parts[..i + 1][..i] == parts[..i];
  }

  lemma FoldAll(v: string)
    ensures var read, versions := Read(v), Split(v, '-');
            && read.parts != []
            && Value(read) == Fold(read.parts) + 9 * read.parts[|read.parts| - 1]
                              + if |versions| > 1 then UnwrapOrZero(ParseI64(versions[1])) else 0
  {}

  lemma WrapZero()
    ensures Wrap64(0) == 0
  {}

  // ----------------------------------------------------------------------
  // Order
  // ----------------------------------------------------------------------

  /** Versions of `k` components that the digits of the number have room for. */
  ghost predicate Bounded(v: Version, k: nat) {
    && |v.parts| == k > 0
    && (forall i :: 0 <= i < k - 1 ==> 0 <= v.parts[i] <= 999)
    && 0 <= v.parts[k - 1] <= 99 && 0 <= v.patch <= 9
  }

  /** Lexicographic order of sequences of one length. */
  ghost predicate Less(a: seq<int>, b: seq<int>)
    requires |a| == |b|
  {
    exists i :: 0 <= i < |a| && a[..i] == b[..i] && a[i] < b[i]
  }

  ghost function Key(v: Version): seq<int> {
    v.parts + [v.patch]
  }

  lemma {:induction false} FoldMonotone(a: seq<int>, b: seq<int>)
    requires |a| == |b| && Less(a, b)
    requires forall i :: 0 <= i < |a| ==> 0 <= a[i] <= 999 && 0 <= b[i] <= 999
    ensures Fold(a) < Fold(b)
  {
    var n := |a| - 1;
    var i :| 0 <= i < |a| && a[..i] == b[..i] && a[i] < b[i];
    if i < n {
      assert a[..n][..i] == a[..i] && b[..n][..i] == b[..i];
      assert Less(a[..n], b[..n]);
      FoldMonotone(a[..n], b[..n]);
    }
  }

  /** The order of the numbers meant is the lexicographic order of the components
      with the patch at the end, for any number of components. */
  lemma ValueMonotone(a: Version, b: Version, k: nat)
    requires Bounded(a, k) && Bounded(b, k) && Less(Key(a), Key(b))
    ensures Value(a) < Value(b)
  {
    hide Fold;
    var n := k - 1;
    var i :| 0 <= i <= k && Key(a)[..i] == Key(b)[..i] && Key(a)[i] < Key(b)[i];
    if i < n {
      assert a.parts[..n][..i] == Key(a)[..i] && b.parts[..n][..i] == Key(b)[..i];
      assert Less(a.parts[..n], b.parts[..n]);
      FoldMonotone(a.parts[..n], b.parts[..n]);
    } else {
      assert a.parts[..n] == Key(a)[..i][..n] == Key(b)[..i][..n] == b.parts[..n];
      if i == k {
        assert a.parts[n] == Key(a)[..i][n] == Key(b)[..i][n] == b.parts[n];
      }
    }
  }

  /** Two different versions of one length compare one way or the other. */
  lemma LessTotal(a: seq<int>, b: seq<int>)
    requires |a| == |b| && a != b
    ensures Less(a, b) || Less(b, a)
  {
    if a != [] {
      var n := |a| - 1;
      if a[..n] == b[..n] {
        assert a[n] != b[n];
      } else {
        LessTotal(a[..n], b[..n]);
        forall i | 0 <= i < n
          ensures a[..n][..i] == a[..i] && b[..n][..i] == b[..i]
        {}
      }
    }
  }

  // ----------------------------------------------------------------------
  // Every such version is the reading of some string
  // ----------------------------------------------------------------------

  function Digit(d: nat): (c: char)
    requires d < 10
    ensures IsDigit(c) && c as nat - '0' as nat == d
  {
    ('0' as int + d) as char
  }

  function Numeral(n: nat): (s: string)
    ensures s != "" && forall i :: 0 <= i < |s| ==> IsDigit(s[i])
  {
    if n < 10 then [Digit(n)] else Numeral(n / 10) + [Digit(n % 10)]
  }

  lemma {:induction false} NumeralValue(n: nat)
    ensures Digits(Numeral(n)) == n
  {
    var s := Numeral(n);
    if n >= 10 {
      NumeralValue(n / 10);
      assert s[..|s| - 1] == Numeral(n / 10);
    } else {
      assert s[..|s| - 1] == "";
    }
  }

  lemma NumeralParses(n: nat)
    requires n <= I64_MAX
    ensures ParseI64(Numeral(n)) == Some(n)
  {
    NumeralValue(n);
    var s := Numeral(n);
    hide Numeral, Digits;
    assert IsDigit(s[0]);
  }

  lemma SplitEmpty(sep: char)
    ensures Split("", sep) == [""]
  {}

  lemma SplitCons(c: char, t: string, sep: char)
    ensures var rest := Split(t, sep);
            Split([c] + t, sep) == if c == sep then [""] + rest else [[c] + rest[0]] + rest[1..]
  {
    assert ([c] + t)[1..] == t;
  }

  lemma {:induction false} SplitPiece(p: string, rest: string, sep: char)
    requires sep !in p
    ensures Split(p, sep) == [p]
    ensures Split(p + [sep] + rest, sep) == [p] + Split(rest, sep)
  {
    hide Split;
    if p == "" {
      SplitEmpty(sep);
      SplitCons(sep, rest, sep);
      assert p + [sep] + rest == [sep] + rest;
    } else {
      var t := p[1..];
      SplitPiece(t, rest, sep);
      SplitCons(p[0], t, sep);
      SplitCons(p[0], t + [sep] + rest, sep);
      assert p == [p[0]] + t;
      assert p + [sep] + rest == [p[0]] + (t + [sep] + rest);
      assert ([t] + Split(rest, sep))[1..] == Split(rest, sep);
    }
  }

  /** Splitting undoes joining. */
  lemma {:induction false} SplitJoined(pieces: seq<string>, sep: char)
    requires pieces != [] && forall i :: 0 <= i < |pieces| ==> sep !in pieces[i]
    ensures Split(Join(pieces, sep), sep) == pieces
  {
    hide Split;
    SplitPiece(pieces[0], Join(pieces[1..], sep), sep);
    if |pieces| > 1 {
      SplitJoined(pieces[1..], sep);
    }
  }

  lemma {:induction false} JoinHasNo(pieces: seq<string>, sep: char, c: char)
    requires c != sep && forall i :: 0 <= i < |pieces| ==> c !in pieces[i]
    ensures c !in Join(pieces, sep)
  {
    if |pieces| > 1 {
      JoinHasNo(pieces[1..], sep, c);
    }
  }

  function Numerals(parts: seq<int>): (pieces: seq<string>)
    requires forall i :: 0 <= i < |parts| ==> 0 <= parts[i] <= 999
    ensures |pieces| == |parts|
  {
    seq(|parts|, i requires 0 <= i < |parts| => Numeral(parts[i]))
  }

  function Show(v: Version): string
    requires v.patch >= 0 && forall i :: 0 <= i < |v.parts| ==> 0 <= v.parts[i] <= 999
  {
    Join(Numerals(v.parts), '.') + ['-'] + Numeral(v.patch)
  }

  lemma ReadShow(v: Version, k: nat)
    requires Bounded(v, k)
    ensures forall i :: 0 <= i < |v.parts| ==> 0 <= v.parts[i] <= 999
    ensures Read(Show(v)) == v
  {
    hide ParseI64, Numeral, Join, Split;
    var pieces := Numerals(v.parts);
    forall i | 0 <= i < k
      ensures '.' !in pieces[i] && '-' !in pieces[i] && UnwrapOrZero(ParseI64(pieces[i])) == v.parts[i]
    {
      NumeralParses(v.parts[i]);
    }
    NumeralParses(v.patch);
    hide Numerals, IsDigit;
    JoinHasNo(pieces, '.', '-');
    SplitPiece(Join(pieces, '.'), Numeral(v.patch), '-');
    SplitPiece(Numeral(v.patch), "", '-') by { PlainNumeral(v.patch); }
    SplitJoined(pieces, '.');
  }

  lemma PlainNumeral(n: nat)
    ensures '-' !in Numeral(n)
  {}

  // ----------------------------------------------------------------------
  // Any string
  // ----------------------------------------------------------------------

  /** The decimal system. */
  lemma {:induction false} DigitsAppend(s: string, c: char)
    requires IsDigit(c) && forall i :: 0 <= i < |s| ==> IsDigit(s[i])
    ensures forall i :: 0 <= i < |s + [c]| ==> IsDigit((s + [c])[i])
    ensures Digits(s + [c]) == 10 * Digits(s) + (c as nat - '0' as nat)
  {
    assert (s + [c])[..|s|] == s;
  }

  lemma Signs(c: char)
    ensures c in "+-" <==> c == '+' || c == '-'
    ensures IsDigit(c) ==> c !in "+-"
  {}

  /** The sign is taken off. */
  lemma ParseSigned(digits: string)
    ensures ParseI64("+" + digits) == ParseDigits(digits, false)
    ensures ParseI64("-" + digits) == ParseDigits(digits, true)
    ensures (digits != "" ==> digits[0] !in "+-") ==> ParseI64(digits) == ParseDigits(digits, false)
  {
    hide ParseDigits;
    Signs('+');
    Signs('-');
    if digits != "" {
      Signs(digits[0]);
    }
    assert ("+" + digits)[1..] == digits && ("-" + digits)[1..] == digits;
  }

  /** Which strings are numbers, and which ones: digits, with a sign or without, up to the
      width of the register. */
  lemma ParseNumber(digits: string)
    requires digits != "" && forall i :: 0 <= i < |digits| ==> IsDigit(digits[i])
    ensures var n: int := Digits(digits);
            && ParseI64(digits) == (if n < 0x8000_0000_0000_0000 then Some(n) else None)
            && ParseI64("+" + digits) == (if n < 0x8000_0000_0000_0000 then Some(n) else None)
            && ParseI64("-" + digits) == (if n <= 0x8000_0000_0000_0000 then Some(-n) else None)
  {
    hide Digits, ParseI64;
    assert IsDigit(digits[0]);
    Signs(digits[0]);
    ParseSigned(digits);
  }

  /** All other strings are none. */
  lemma ParseNothing(s: string, i: nat)
    ensures ParseI64("") == None && ParseI64("+") == None && ParseI64("-") == None
    ensures i < |s| && !IsDigit(s[i]) && (i > 0 || s[0] !in "+-") ==> ParseI64(s) == None
  {
    hide Digits, ParseI64;
    ParseSigned("");
    assert "+" + "" == "+" && "-" + "" == "-";
    if i < |s| && !IsDigit(s[i]) && (i > 0 || s[0] !in "+-") {
      Signs(s[0]);
      if s[0] in "+-" {
        assert s == [s[0]] + s[1..] && s[1..][i - 1] == s[i];
        ParseSigned(s[1..]);
      } else {
        ParseSigned(s);
      }
    }
  }

  /** How a string is read: the components before the first dash, the patch between it and
      the next; what is no number counts as zero, and so does a missing patch. */
  lemma ReadAny(pieces: seq<string>, patch: string, more: string)
    requires pieces != [] && forall i :: 0 <= i < |pieces| ==> '.' !in pieces[i] && '-' !in pieces[i]
    requires '-' !in patch
    ensures var parts := seq(|pieces|, i requires 0 <= i < |pieces| =>
                                         match ParseI64(pieces[i]) case Some(n) => n case None => 0);
            var last := match ParseI64(patch) case Some(n) => n case None => 0;
            && Read(Join(pieces, '.')) == Version(parts, 0)
            && Read(Join(pieces, '.') + ['-'] + patch) == Version(parts, last)
            && Read(Join(pieces, '.') + ['-'] + (patch + ['-'] + more)) == Version(parts, last)
  {
    hide ParseI64, Join, Split;
    var front := Join(pieces, '.');
    JoinHasNo(pieces, '.', '-');
    SplitJoined(pieces, '.');
    SplitPiece(front, patch, '-');
    SplitPiece(front, patch + ['-'] + more, '-');
    SplitPiece(patch, more, '-');
  }

  lemma OneDigit(c: char)
    requires IsDigit(c)
    ensures ParseI64([c]) == Some(c as int - '0' as int)
  {
    var none: string := "";
    assert none + [c] == [c];
    DigitsAppend(none, c);
    ParseNumber([c]);
    hide ParseI64;
  }

  lemma ThreeParts(a: int, b: int, c: int, patch: int)
    ensures Value(Version([a, b, c], patch)) == a * 1000_000 + b * 1000 + c * 10 + patch
  {
    var parts := [a, b, c];
    FoldStep(parts, 0);
    FoldStep(parts, 1);
    assert Fold(parts[..0]) == 0;
  }

  lemma JoinThree(a: string, b: string, c: string)
    ensures Join([a, b, c], '.') == a + ['.'] + (b + ['.'] + c)
  {
    assert [a, b, c][1..] == [b, c] && [b, c][1..] == [c];
    assert Join([c], '.') == c;
    assert Join([b, c], '.') == b + ['.'] + Join([c], '.');
  }

  predicate Piece(s: string) {
    '.' !in s && '-' !in s
  }

  function Counted(s: string): int {
    match ParseI64(s) case Some(n) => n case None => 0
  }

  lemma ThreePieces(a: string, b: string, c: string, patch: string)
    requires Piece(a) && Piece(b) && Piece(c) && Piece(patch)
    ensures var front, n := a + ['.'] + (b + ['.'] + c), Counted(a) * 1000_000 + Counted(b) * 1000 + Counted(c) * 10;
            Value(Read(front)) == n && Value(Read(front + ['-'] + patch)) == n + Counted(patch)
  {
    hide ParseI64, Read, Value, Join;
    var pieces := [a, b, c];
    ReadAny(pieces, patch, "");
    JoinThree(a, b, c);
    var parts := [Counted(a), Counted(b), Counted(c)];
    assert parts == seq(|pieces|, i requires 0 <= i < |pieces| => match ParseI64(pieces[i]) case Some(n) => n case None => 0);
    ThreeParts(Counted(a), Counted(b), Counted(c), 0);
    ThreeParts(Counted(a), Counted(b), Counted(c), Counted(patch));
  }

  lemma Ten()
    ensures ParseI64("10") == Some(10)
  {
    hide ParseI64;
    var none, one: string := "", "1";
    DigitsAppend(none, '1');
    DigitsAppend(one, '0');
    assert none + ['1'] == one && one + ['0'] == "10";
    assert Digits(none) == 0;
    hide Digits;
    ParseNumber("10");
  }

  /** Examples: two that the source gives, of which the second comes out otherwise than it
      says, and one whose patch is no number. */
  lemma Examples()
    ensures Value(Read("1.1.10")) == 1_001_100
    ensures Value(Read("1.2.3")) == 1_002_030
    ensures Value(Read("1.4.0-beta")) == 1_004_000
  {
    hide ParseI64, Read, Value;
    OneDigit('0');
    OneDigit('1');
    OneDigit('2');
    OneDigit('3');
    OneDigit('4');
    Ten();
    ParseNothing("beta", 0);
    ThreePieces("1", "1", "10", "");
    ThreePieces("1", "2", "3", "");
    ThreePieces("1", "4", "0", "beta");
    assert "1.1.10" == "1" + ['.'] + ("1" + ['.'] + "10");
    assert "1.2.3" == "1" + ['.'] + ("2" + ['.'] + "3");
    assert "1.4.0-beta" == "1" + ['.'] + ("4" + ['.'] + "0") + ['-'] + "beta";
  }

  /** What comparing version numbers promises, for strings of `k` components. */
  ghost predicate OrderKept(k: nat) {
    forall a: string, b: string ::
      Bounded(Read(a), k) && Bounded(Read(b), k) && Less(Key(Read(a)), Key(Read(b))) ==>
        Wrap64(Value(Read(a))) < Wrap64(Value(Read(b)))
  }

  lemma {:induction false} FoldBound(parts: seq<int>, k: nat)
    requires |parts| == k <= 5 && forall i :: 0 <= i < k ==> 0 <= parts[i] <= 999
    ensures 0 <= Fold(parts) < [1, 1000, 1000_000, 1000_000_000, 1000_000_000_000, 1000_000_000_000_000][k]
  {
    if k > 0 {
      FoldBound(parts[..k - 1], k - 1);
    }
  }

  /** A version with `k - 1` zeros but for one component, the seventh from the end. */
  function Spike(d: int, k: nat): Version
    requires k >= 7
  {
    Version(seq(k, i => if i == k - 7 then d else 0), 0)
  }

  lemma {:induction false} SpikeFold(d: int, k: nat, n: nat)
    requires 7 <= k && n <= k
    ensures n <= k - 7 ==> Fold(Spike(d, k).parts[..n]) == 0
    ensures k - 6 <= n ==>
              Fold(Spike(d, k).parts[..n])
              == d * [1, 1000, 1000_000, 1000_000_000, 1000_000_000_000, 1000_000_000_000_000,
                      1000_000_000_000_000_000][n - (k - 6)]
  {
    if n > 0 {
      SpikeFold(d, k, n - 1);
      var parts := Spike(d, k).parts;
      assert parts[..n][..n - 1] == parts[..n - 1];
      assert parts[..n][n - 1] == if n - 1 == k - 7 then d else 0;
    }
  }

  lemma WrapSmall(n: int)
    requires 0 <= n <= I64_MAX
    ensures Wrap64(n) == n
  {}

  lemma SmallNumbers(v: Version, k: nat)
    requires k <= 6 && Bounded(v, k)
    ensures Wrap64(Value(v)) == Value(v)
  {
    hide Fold, Wrap64;
    FoldBound(v.parts[..k - 1], k - 1);
    WrapSmall(Value(v));
  }

  lemma SpikesOverflow(k: nat)
    requires k >= 7
    ensures var a, b := Spike(1, k), Spike(10, k);
            Bounded(a, k) && Bounded(b, k) && Less(Key(a), Key(b)) && Wrap64(Value(a)) > Wrap64(Value(b))
  {
    var a, b := Spike(1, k), Spike(10, k);
    SpikeFold(1, k, k - 1);
    SpikeFold(10, k, k - 1);
    assert Key(a)[..k - 7] == Key(b)[..k - 7];
    assert Key(a)[k - 7] == 1 && Key(b)[k - 7] == 10;
    assert Value(a) == 1000_000_000_000_000_000 && Value(b) == 10 * Value(a);
  }

  /** Version numbers order versions of `k` components exactly as long as the
      components cannot overflow the register: up to six of them. */
  lemma OrderKeptIff(k: nat)
    ensures OrderKept(k) <==> k <= 6
  {
    hide Wrap64, Value, Read, Show, Less;
    if k <= 6 {
      forall a: string, b: string | Bounded(Read(a), k) && Bounded(Read(b), k) && Less(Key(Read(a)), Key(Read(b)))
        ensures Wrap64(Value(Read(a))) < Wrap64(Value(Read(b)))
      {
        NumbersOrdered(Read(a), Read(b), k);
      }
    } else {
      SpikesOverflow(k);
      ReadShow(Spike(1, k), k);
      ReadShow(Spike(10, k), k);
      assert Read(Show(Spike(1, k))) == Spike(1, k) && Read(Show(Spike(10, k))) == Spike(10, k);
    }
  }

  lemma NumbersOrdered(a: Version, b: Version, k: nat)
    requires k <= 6 && Bounded(a, k) && Bounded(b, k) && Less(Key(a), Key(b))
    ensures Wrap64(Value(a)) < Wrap64(Value(b))
  {
    hide Wrap64, Value;
    ValueMonotone(a, b, k);
    SmallNumbers(a, k);
    SmallNumbers(b, k);
  }

  /** So different versions of up to six components have different numbers. */
  lemma NumbersDiffer(a: Version, b: Version, k: nat)
    requires k <= 6 && Bounded(a, k) && Bounded(b, k) && a != b
    ensures Wrap64(Value(a)) != Wrap64(Value(b))
  {
    assert a.parts == Key(a)[..k] && a.patch == Key(a)[k];
    assert b.parts == Key(b)[..k] && b.patch == Key(b)[k];
    LessTotal(Key(a), Key(b));
    hide Wrap64, Value, Less;
    if Less(Key(a), Key(b)) {
      NumbersOrdered(a, b, k);
    } else {
      NumbersOrdered(b, a, k);
    }
  }
}
