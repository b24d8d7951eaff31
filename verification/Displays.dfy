/** Listing the displays: those that DXGI finds, in the order in which GDI lists them. */
module Displays {
  import opened Lists
  import opened Wrappers

  datatype Display = Display(name: string, origin: (int, int))

  function Names(displays: seq<Display>): (names: seq<string>)
    ensures |names| == |displays|
    ensures forall i :: 0 <= i < |displays| ==> names[i] == displays[i].name
  {
    if displays == [] then [] else [displays[0].name] + Names(displays[1..])
  }

  /** The place of the first display with a name. */
  function Position(displays: seq<Display>, name: string): (r: Option<nat>)
    ensures r.None? <==> forall i :: 0 <= i < |displays| ==> displays[i].name != name
    ensures r.Some? ==> r.value < |displays| && displays[r.value].name == name
    ensures r.Some? ==> forall i :: 0 <= i < r.value ==> displays[i].name != name
  {
    if displays == [] then None
    else if displays[0].name == name then Some(0)
    else
      match Position(displays[1..], name)
      case Some(i) =>
        assert displays[1..][i] == displays[i + 1];
        Some(i + 1)
      case None =>
        assert forall i :: 1 <= i < |displays| ==> displays[i] == displays[1..][i - 1];
        None
  }

  function Often<T(==)>(s: seq<T>, x: T): nat {
    if s == [] then 0 else (if s[0] == x then 1 else 0) + Often(s[1..], x)
  }

  /** The same elements, each equally often. */
  ghost predicate SameElements<T(!new)>(s: seq<T>, t: seq<T>) {
    forall x :: Often(s, x) == Often(t, x)
  }

  lemma {:induction false} OftenMember<T>(s: seq<T>, x: T)
    ensures Often(s, x) > 0 <==> x in s
  {
    if s != [] {
      OftenMember(s[1..], x);
    }
  }

  lemma {:induction false} OftenWithout<T>(s: seq<T>, i: nat, x: T)
    requires i < |s|
    ensures Often(s, x) == Often(Without(s, i), x) + if s[i] == x then 1 else 0
  {
    if i == 0 {
      assert Without(s, i) == s[1..];
    } else {
      OftenWithout(s[1..], i - 1, x);
      assert Without(s, i)[0] == s[0] && Without(s, i)[1..] == Without(s[1..], i - 1);
    }
  }

  /** Where the next display is taken from; at the first place if there is none. */
  function Place(displays: seq<Display>, name: string): (i: nat)
    requires displays != []
    ensures i < |displays|
  {
    match Position(displays, name) case Some(i) => i case None => 0
  }

  function Reorder(names: seq<string>, displays: seq<Display>): seq<Display>
    requires |names| == |displays|
  {
    if names == [] then []
    else
      var i := Place(displays, names[0]);
      [displays[i]] + Reorder(names[1..], Without(displays, i))
  }

  /** The branch for a name that is not found is taken. */
  predicate Misses(names: seq<string>, displays: seq<Display>)
    requires |names| == |displays|
  {
    names != [] &&
    (Position(displays, names[0]).None? || Misses(names[1..], Without(displays, Place(displays, names[0]))))
  }

  lemma NamesWithout(displays: seq<Display>, i: nat)
    requires i < |displays|
    ensures Names(Without(displays, i)) == Without(Names(displays), i)
  {
    hide Names;
    var names, others := Names(Without(displays, i)), Without(Names(displays), i);
    forall k | 0 <= k < |others|
      ensures names[k] == others[k]
    {
      assert Without(displays, i)[k] == displays[if k < i then k else k + 1];
    }
  }

  /** Whatever the names, nothing is lost and nothing is doubled. */
  lemma {:induction false} Permutation(names: seq<string>, displays: seq<Display>)
    requires |names| == |displays|
    ensures SameElements(Reorder(names, displays), displays)
  {
    if names != [] {
      var i := Place(displays, names[0]);
      var rest := Reorder(names[1..], Without(displays, i));
      Permutation(names[1..], Without(displays, i));
      forall x
        ensures Often(Reorder(names, displays), x) == Often(displays, x)
      {
        assert ([displays[i]] + rest)[1..] == rest;
        OftenWithout(displays, i, x);
      }
    }
  }

  lemma {:induction false} ReorderLength(names: seq<string>, displays: seq<Display>)
    requires |names| == |displays|
    ensures |Reorder(names, displays)| == |names|
  {
    if names != [] {
      ReorderLength(names[1..], Without(displays, Place(displays, names[0])));
    }
  }

  /** The displays come in the order of the names exactly if the branch for a missing
      name is never taken. */
  lemma {:induction false} OrderedUnlessMissing(names: seq<string>, displays: seq<Display>)
    requires |names| == |displays|
    ensures Names(Reorder(names, displays)) == names <==> !Misses(names, displays)
  {
    hide Without;
    if names != [] {
      var i := Place(displays, names[0]);
      var rest := Reorder(names[1..], Without(displays, i));
      OrderedUnlessMissing(names[1..], Without(displays, i));
      assert ([displays[i]] + rest)[1..] == rest;
      assert Names(Reorder(names, displays)) == [displays[i].name] + Names(rest);
      assert names == [names[0]] + names[1..];
    }
  }

  /** It is never taken exactly if both lists have the same names equally often. */
  lemma {:induction false} MissesIff(names: seq<string>, displays: seq<Display>)
    requires |names| == |displays|
    ensures !Misses(names, displays) <==> SameElements(names, Names(displays))
  {
    if names != [] {
      var i, first := Place(displays, names[0]), names[0];
      if Position(displays, first).None? {
        OftenMember(Names(displays), first);
        assert Often(names, first) > 0;
      } else {
        NamesWithout(displays, i);
        MissesIff(names[1..], Without(displays, i));
        SameWithout(names, Names(displays), i);
      }
    }
  }

  lemma SameWithout(names: seq<string>, others: seq<string>, i: nat)
    requires names != [] && i < |others| && others[i] == names[0]
    ensures SameElements(names, others) <==> SameElements(names[1..], Without(others, i))
  {
    forall x
      ensures Often(names, x) == Often(others, x) <==> Often(names[1..], x) == Often(Without(others, i), x)
    {
      OftenWithout(others, i, x);
    }
  }

  /** The displays with a name, in their order. */
  function Named(displays: seq<Display>, name: string): seq<Display> {
    if displays == [] then []
    else (if displays[0].name == name then [displays[0]] else []) + Named(displays[1..], name)
  }

  lemma NamedCons(d: Display, rest: seq<Display>, name: string)
    ensures Named([d] + rest, name) == if d.name == name then [d] + Named(rest, name) else Named(rest, name)
  {
    assert ([d] + rest)[1..] == rest;
  }

  lemma {:induction false} NamedWithout(displays: seq<Display>, i: nat, name: string)
    requires i < |displays| && (forall k :: 0 <= k < i ==> displays[k].name != displays[i].name)
    ensures Named(displays, name)
            == if displays[i].name == name then [displays[i]] + Named(Without(displays, i), name)
               else Named(Without(displays, i), name)
  {
    hide Named, Without;
    var d, rest := displays[0], displays[1..];
    assert displays == [d] + rest;
    NamedCons(d, rest, name);
    if i == 0 {
      WithoutCons(displays, i);
    } else {
      NamedWithout(rest, i - 1, name);
      WithoutCons(displays, i);
      NamedCons(d, Without(rest, i - 1), name);
    }
  }

  lemma WithoutCons<T>(s: seq<T>, i: nat)
    requires i < |s|
    ensures Without(s, i) == if i == 0 then s[1..] else [s[0]] + Without(s[1..], i - 1)
  {}

  /** Displays with the same name keep their order. With the order of the names that says
      which display comes where. */
  lemma {:induction false} StableUnlessMissing(names: seq<string>, displays: seq<Display>, name: string)
    requires |names| == |displays| && !Misses(names, displays)
    ensures Named(Reorder(names, displays), name) == Named(displays, name)
  {
    if names != [] {
      var i := Place(displays, names[0]);
      var rest := Reorder(names[1..], Without(displays, i));
      StableUnlessMissing(names[1..], Without(displays, i), name);
      assert ([displays[i]] + rest)[1..] == rest;
      NamedWithout(displays, i, name);
      NamedCons(displays[i], rest, name);
      hide Without, Named;
    }
  }

  lemma StableOrder(names: seq<string>, displays: seq<Display>)
    requires |names| == |displays|
    ensures !Misses(names, displays) ==> forall name :: Named(Reorder(names, displays), name) == Named(displays, name)
  {
    if !Misses(names, displays) {
      forall name
        ensures Named(Reorder(names, displays), name) == Named(displays, name)
      {
        StableUnlessMissing(names, displays, name);
      }
    }
  }

  predicate Distinct(names: seq<string>) {
    forall i, k :: 0 <= i < k < |names| ==> names[i] != names[k]
  }

  predicate AllFound(names: seq<string>, displays: seq<Display>) {
    forall i :: 0 <= i < |names| ==> Position(displays, names[i]).Some?
  }

  /** For distinct names that the other list has, too, the branch is unreachable. */
  lemma {:induction false} DistinctNeverMiss(names: seq<string>, displays: seq<Display>)
    requires |names| == |displays| && Distinct(names) && AllFound(names, displays)
    ensures !Misses(names, displays)
  {
    if names != [] {
      var p := Place(displays, names[0]);
      var rest := Without(displays, p);
      forall i | 0 <= i < |names| - 1
        ensures Position(rest, names[1..][i]).Some?
      {
        var k := Position(displays, names[i + 1]).value;
        assert displays[k].name != names[0] && k != p;
        assert rest[if k < p then k else k - 1] == displays[k];
      }
      DistinctNeverMiss(names[1..], rest);
    }
  }

  function Dxgi(found: Option<seq<Display>>): seq<Display> {
    match found case Some(displays) => displays case None => []
  }

  /** The list is the one of GDI if DXGI finds nothing, and else a permutation of the one
      of DXGI: reordered if GDI has as many displays and none with another name. */
  method All(gdi: seq<Display>, found: Option<seq<Display>>) returns (displays: seq<Display>)
    ensures Dxgi(found) == [] ==> displays == gdi
    ensures Dxgi(found) != [] ==> SameElements(displays, Dxgi(found))
    ensures Dxgi(found) != [] ==>
              if |Dxgi(found)| == |gdi| && AllFound(Names(gdi), Dxgi(found))
              then Names(displays) == Names(gdi) <==> SameElements(Names(gdi), Names(Dxgi(found)))
              else displays == Dxgi(found)
    ensures |Dxgi(found)| == |gdi| && AllFound(Names(gdi), Dxgi(found)) && Distinct(Names(gdi)) ==>
              Names(displays) == Names(gdi)
    ensures Dxgi(found) != [] && Names(displays) == Names(gdi) ==>
              forall name :: Named(displays, name) == Named(Dxgi(found), name)
  {
    var dxgi := Dxgi(found);
    if dxgi == [] {
      return gdi;
    }
    if |dxgi| != |gdi| {
      return dxgi;
    }
    var names := Names(gdi);
    for i := 0 to |names|
      invariant AllFound(names[..i], dxgi)
    {
      if Position(dxgi, names[i]).None? {
        return dxgi;
      }
      assert names[..i + 1] == names[..i] + [names[i]];
    }
    assert names[..|names|] == names;
    displays := InOrder(names, dxgi);
    Permutation(names, dxgi);
    OrderedUnlessMissing(names, dxgi);
    MissesIff(names, dxgi);
    if Distinct(names) {
      DistinctNeverMiss(names, dxgi);
    }
    StableOrder(names, dxgi);
  }

  method InOrder(names: seq<string>, dxgi: seq<Display>) returns (ordered: seq<Display>)
    requires |names| == |dxgi|
    ensures ordered == Reorder(names, dxgi)
  {
    hide Position, Names, Without, Named;
    var rest := dxgi;
    ordered := [];
    for i := 0 to |names|
      invariant |rest| == |names| - i
      invariant ordered + Reorder(names[i..], rest) == Reorder(names, dxgi)
    {
      var position := Position(rest, names[i]);
      var place := match position case Some(p) => p case None => 0;
      assert names[i..][0] == names[i] && names[i..][1..] == names[i + 1..];
      ghost var tail := Reorder(names[i + 1..], Without(rest, place));
      assert Reorder(names[i..], rest) == [rest[place]] + tail;
      assert ordered + ([rest[place]] + tail) == ordered + [rest[place]] + tail;
      ordered := ordered + [rest[place]];
      rest := Without(rest, place);
    }
  }

  /** With equal names among the displays the branch can be reached: the check asks only
      that each name occurs. Here the result is then in the order of DXGI and not of GDI. */
  lemma RepeatedNamesMiss(a: string, b: string, p: (int, int), q: (int, int), r: (int, int))
    requires a != b
    ensures var names := [a, a, b];
            var dxgi := [Display(a, p), Display(b, q), Display(b, r)];
            AllFound(names, dxgi) && Misses(names, dxgi) && Reorder(names, dxgi) == dxgi
  {
    hide Misses, Reorder;
    var rest, last := [Display(b, q), Display(b, r)], [Display(b, r)];
    var dxgi := [Display(a, p), Display(b, q), Display(b, r)];
    assert dxgi[0].name == a && dxgi[1].name == b && rest[0].name == b && rest[1].name == b;
    assert dxgi[1..] == rest && rest[1..] == last && last[1..] == [];
    TakeFirst(a, [a, b], dxgi);
    TakeFirst(a, [b], rest);
    TakeFirst(b, [], last);
    NothingLeft();
    assert [a] + [a, b] == [a, a, b] && [a] + [b] == [a, b] && [b] + [] == [b];
    assert [Display(b, q)] + last == rest && [Display(a, p)] + rest == dxgi;
  }

  lemma NothingLeft()
    ensures Reorder([], []) == []
  {}

  /** The first display is taken, for its name or for want of another one. */
  lemma TakeFirst(name: string, names: seq<string>, displays: seq<Display>)
    requires displays != [] && |names| == |displays| - 1
    requires displays[0].name == name || forall i :: 0 <= i < |displays| ==> displays[i].name != name
    ensures Reorder([name] + names, displays) == [displays[0]] + Reorder(names, displays[1..])
    ensures Misses([name] + names, displays) <==> displays[0].name != name || Misses(names, displays[1..])
  {
    assert Without(displays, 0) == displays[1..];
    assert ([name] + names)[1..] == names;
    hide Without;
  }
}
