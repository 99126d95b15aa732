/** Laws of the unions `CreateUnion` builds, and what goes wrong when two stand side by side. */
module Unions {
  import opened Options
  import opened CTypes
  import opened Rounding
  import opened Definitions
  import opened Layout
  import opened Compile
  import opened CompileTheorem

  /** Every direct member starts at the union's own offset. */
  predicate AllAtZero(a: Arch, ds: seq<Def>, t: Table) {
    forall i :: 0 <= i < |ds| ==> AtZero(a, ds[i], t)
  }

  /** A leaf is at offset 0; a nested list keeps the offsets it has when it stands alone. */
  predicate AtZero(a: Arch, d: Def, t: Table) {
    match d
    case Leaf(ct, e) => var k := FieldOf(ct, e).name; k in t && t[k].offset == 0
    case Sub(items) => CompileStruct(a, items).Some? && Based(CompileStruct(a, items).value.table, t)
    case Uni(items) => CompileUnion(a, items).Some? && Based(CompileUnion(a, items).value.table, t)
  }

  predicate Based(child: Table, t: Table) {
    forall k :: k in child ==> k in t && t[k].offset == child[k].offset
  }

  /** The table only grows from one loop turn to the next, and the new member is at 0. */
  lemma UnionStepAtZero(a: Arch, u: UnionState, d: Def)
    requires IsAlign(u.c.align) && u.c.last == 0 && UnionStep(a, u, d).Some?
    ensures var t := UnionStep(a, u, d).value.c.table;
            AtZero(a, d, t) && forall k :: k in u.c.table ==> k in t && t[k] == u.c.table[k]
  {
  }

  lemma AtZeroGrows(a: Arch, d: Def, t: Table, t': Table)
    requires AtZero(a, d, t) && forall k :: k in t ==> k in t' && t'[k] == t[k]
    ensures AtZero(a, d, t')
  {
  }

  lemma {:induction false} UnionLoopAtZero(a: Arch, ds: seq<Def>)
    requires UnionLoop(a, ds).Some?
    ensures AllAtZero(a, ds, UnionLoop(a, ds).value.c.table)
    decreases |ds|
  {
    if ds != [] {
      var init, d := ds[..|ds| - 1], ds[|ds| - 1];
      var u := UnionLoop(a, init).value;
      var t := UnionLoop(a, ds).value.c.table;
      UnionLoopAtZero(a, init);
      UnionStepAtZero(a, u, d);
      forall i | 0 <= i < |ds| ensures AtZero(a, ds[i], t) {
        if i < |init| {
          assert ds[i] == init[i];
          AtZeroGrows(a, init[i], u.c.table, t);
        }
      }
    }
  }

  lemma {:induction false} CodeMaxBound(a: Arch, ds: seq<Def>, d: Def)
    requires d in ds
    ensures CodeSize(a, d) <= CodeMax(a, ds)
    decreases |ds|
  {
    if d != ds[|ds| - 1] {
      assert d in ds[..|ds| - 1];
      CodeMaxBound(a, ds[..|ds| - 1], d);
    }
  }

  lemma {:induction false} CodeMaxLeast(a: Arch, ds: seq<Def>, size: nat)
    requires forall d :: d in ds ==> CodeSize(a, d) <= size
    ensures CodeMax(a, ds) <= size
    decreases |ds|
  {
    if ds != [] {
      assert ds[|ds| - 1] in ds;
      assert forall d :: d in ds[..|ds| - 1] ==> d in ds;
      CodeMaxLeast(a, ds[..|ds| - 1], size);
    }
  }

  /** A finished union: members at 0, as large as its largest member rounded up to its largest
      alignment, and never larger than the C11 union. */
  lemma UnionTheorem(a: Arch, ds: seq<Def>)
    requires ds != [] && AcceptedList(ds, true)
    ensures CompileUnion(a, ds).Some?
    ensures var c := CompileUnion(a, ds).value;
            && AllAtZero(a, ds, c.table)
            && c.align == ListAlign(a, ds) && c.next == RoundUp(CodeMax(a, ds), ListAlign(a, ds))
            && c.next <= SizeOf(a, Uni(ds)) && (SeparatedUnion(a, ds) ==> c.next == SizeOf(a, Uni(ds)))
  {
    UnionAccepts(a, ds);
    UnionLoopHolds(a, ds);
    UnionHolds(a, ds);
    UnionSize(a, ds);
    UnionLoopAtZero(a, ds);
  }

  lemma CodeMaxWithin(a: Arch, ds: seq<Def>, es: seq<Def>)
    requires forall d :: d in ds ==> d in es
    ensures CodeMax(a, ds) <= CodeMax(a, es)
  {
    forall d | d in ds ensures CodeSize(a, d) <= CodeMax(a, es) {
      CodeMaxBound(a, es, d);
    }
    CodeMaxLeast(a, ds, CodeMax(a, es));
  }

  lemma SameElements(ds: seq<Def>, es: seq<Def>)
    requires multiset(ds) == multiset(es)
    ensures forall d :: d in ds <==> d in es
    ensures |ds| == |es|
  {
    forall d ensures d in ds <==> d in es {
      assert d in ds <==> d in multiset(ds);
      assert d in es <==> d in multiset(es);
    }
    assert |ds| == |multiset(ds)| == |multiset(es)| == |es|;
  }

  predicate NamesApart(ds: seq<Def>) {
    forall i, j :: 0 <= i < j < |ds| ==> Names(ds[i]) !! Names(ds[j])
  }

  lemma NamesApartLast(ds: seq<Def>)
    requires ds != []
    ensures var n := |ds| - 1; NamesApart(ds) <==> NamesApart(ds[..n]) && ListNames(ds[..n]) !! Names(ds[n])
  {
    hide Names, ListNames;
    var n := |ds| - 1;
    var init := ds[..n];
    AllNames(init);
    if NamesApart(ds) {
      forall k | k in ListNames(init) ensures k !in Names(ds[n]) {
        var i :| 0 <= i < n && k in Names(init[i]);
        assert Names(ds[i]) !! Names(ds[n]);
      }
      forall i, j | 0 <= i < j < n ensures Names(init[i]) !! Names(init[j]) {
        assert Names(ds[i]) !! Names(ds[j]);
      }
    } else {
      var i, j :| 0 <= i < j < |ds| && !(Names(ds[i]) !! Names(ds[j]));
      assert init[i] == ds[i] && (j < n ==> init[j] == ds[j]);
    }
  }

  /** Acceptance, member by member and pair by pair. */
  lemma {:induction false} AcceptedPairs(ds: seq<Def>, inUnion: bool)
    ensures AcceptedList(ds, inUnion) <==> (forall d :: d in ds ==> AcceptedDef(d, inUnion)) && NamesApart(ds)
  {
    hide AcceptedDef, Names, ListNames, NamesApart;
    if ds == [] {
      assert NamesApart([]) by {
        NothingApart();
      }
    } else {
      var n := |ds| - 1;
      AcceptedPairs(ds[..n], inUnion);
      NamesApartLast(ds);
      AcceptedEach(ds, inUnion);
    }
  }

  lemma AcceptedEach(ds: seq<Def>, inUnion: bool)
    requires ds != []
    ensures var n := |ds| - 1;
            && (AcceptedList(ds, inUnion) <==>
                AcceptedList(ds[..n], inUnion) && AcceptedDef(ds[n], inUnion) && ListNames(ds[..n]) !! Names(ds[n]))
            && ((forall d :: d in ds ==> AcceptedDef(d, inUnion)) <==>
                (forall d :: d in ds[..n] ==> AcceptedDef(d, inUnion)) && AcceptedDef(ds[n], inUnion))
  {
    hide AcceptedDef, Names, ListNames;
    assert ds == ds[..|ds| - 1] + [ds[|ds| - 1]];
  }

  lemma NothingApart()
    ensures NamesApart([])
  {
  }

  lemma {:induction false} AllNames(ds: seq<Def>)
    ensures forall i :: 0 <= i < |ds| ==> Names(ds[i]) <= ListNames(ds)
    ensures forall k :: k in ListNames(ds) ==> exists i :: 0 <= i < |ds| && k in Names(ds[i])
  {
    hide Names;
    if ds != [] {
      var n := |ds| - 1;
      AllNames(ds[..n]);
      assert ds == ds[..n] + [ds[n]];
    }
  }

  /** Two places of one list hold two places of its rearrangement. */
  lemma TwoPlaces(ds: seq<Def>, es: seq<Def>, i: nat, j: nat) returns (k: nat, l: nat)
    requires multiset(ds) == multiset(es) && i < j < |es|
    ensures k < |ds| && l < |ds| && k != l && ds[k] == es[i] && ds[l] == es[j]
  {
    SameElements(ds, es);
    assert es[i] in es && es[i] in ds;
    k :| 0 <= k < |ds| && ds[k] == es[i];
    OneOut(ds, k);
    OneOut(es, i);
    var rest, others := ds[..k] + ds[k + 1..], es[..i] + es[i + 1..];
    SameElements(rest, others);
    assert others[j - 1] == es[j] && es[j] in others && es[j] in rest;
    var m :| 0 <= m < |rest| && rest[m] == es[j];
    l := if m < k then m else m + 1;
  }

  lemma OneOut(s: seq<Def>, k: nat)
    requires k < |s|
    ensures multiset(s[..k] + s[k + 1..]) == multiset(s) - multiset{s[k]}
  {
    assert s == s[..k] + ([s[k]] + s[k + 1..]);
  }

  lemma ApartAt(ds: seq<Def>, k: nat, l: nat)
    requires NamesApart(ds) && k < |ds| && l < |ds| && k != l
    ensures Names(ds[k]) !! Names(ds[l])
  {
    if k > l {
      assert Names(ds[l]) !! Names(ds[k]);
    }
  }

  lemma ApartAll(ds: seq<Def>)
    requires forall i, j :: 0 <= i < j < |ds| ==> Names(ds[i]) !! Names(ds[j])
    ensures NamesApart(ds)
  {
  }

  lemma AcceptedAnyOrder(ds: seq<Def>, es: seq<Def>, inUnion: bool)
    requires multiset(ds) == multiset(es) && AcceptedList(ds, inUnion)
    ensures AcceptedList(es, inUnion)
  {
    hide *;
    AcceptedPairs(ds, inUnion);
    AcceptedPairs(es, inUnion);
    SameElements(ds, es);
    forall i, j | 0 <= i < j < |es| ensures Names(es[i]) !! Names(es[j]) {
      var k, l := TwoPlaces(ds, es, i, j);
      ApartAt(ds, k, l);
    }
    ApartAll(es);
  }

  /** The order of the members does not matter for acceptance, size and alignment, although the
      cursor is reset for each of them. */
  lemma UnionOrderIrrelevant(a: Arch, ds: seq<Def>, es: seq<Def>)
    requires multiset(ds) == multiset(es)
    ensures CompileUnion(a, ds).Some? <==> CompileUnion(a, es).Some?
    ensures CompileUnion(a, ds).Some? ==>
              && CompileUnion(a, ds).value.next == CompileUnion(a, es).value.next
              && CompileUnion(a, ds).value.align == CompileUnion(a, es).value.align
  {
    hide *;
    SameElements(ds, es);
    UnionAccepts(a, ds);
    UnionAccepts(a, es);
    if AcceptedList(ds, true) {
      AcceptedAnyOrder(ds, es, true);
    }
    if AcceptedList(es, true) {
      AcceptedAnyOrder(es, ds, true);
    }
    if CompileUnion(a, ds).Some? {
      UnionTheorem(a, ds);
      UnionTheorem(a, es);
      UnionWithin(a, ds, es);
      UnionWithin(a, es, ds);
      CodeMaxWithin(a, ds, es);
      CodeMaxWithin(a, es, ds);
    }
  }

  // ----- two unions side by side

  function IntUnion(x: char): Def {
    Uni([Leaf(Int, [x])])
  }

  predicate PlainChar(x: char) {
    x != '(' && x != ')' && x != '*'
  }

  lemma IntUnionFacts(a: Arch, x: char)
    requires PlainChar(x)
    ensures CompileUnion(a, IntUnion(x).items) == Some(Cursor(map[[x] := Info(Int, 0, 4)], 4, 4, 4))
    ensures SizeOf(a, IntUnion(x)) == 4 && AlignOf(a, IntUnion(x)) == 4
    ensures forall base: nat :: Place(a, IntUnion(x), base) == map[[x] := Slot(Int, base, 4)]
  {
    var d := Leaf(Int, [x]);
    PlainName([x]);
    assert FieldOf(Int, [x]) == Field([x], Int, 0);
    assert [d][..0] == [] && [d][0] == d;
    assert UnionLoop(a, []) == Some(UnionState(START, 0));
    assert RoundUp(0, 4) == 0 && RoundUp(4, 4) == 4;
    assert UnionLoop(a, [d]) == UnionStep(a, UnionState(START, 0), d);
    assert SizeOf(a, d) == 4 && AlignOf(a, d) == 4;
    assert MaxSize(a, []) == 0 && ListAlign(a, []) == 1;
    assert MaxSize(a, [d]) == 4 && ListAlign(a, [d]) == 4;
    forall base: nat ensures Place(a, IntUnion(x), base) == map[[x] := Slot(Int, base, 4)] {
      assert PlaceUnion(a, [], base) == map[];
      assert PlaceUnion(a, [d], base) == PlaceUnion(a, [], base) + Place(a, d, base);
    }
  }

  lemma OneElement(a: Arch, u: Def)
    ensures StructLoop(a, [u]) == StructStep(a, START, u)
    ensures End(a, [u]) == RoundUp(0, AlignOf(a, u)) + SizeOf(a, u)
    ensures ListAlign(a, [u]) == Max(1, AlignOf(a, u))
    ensures PlaceStruct(a, [u], 0) == Place(a, u, RoundUp(0, AlignOf(a, u)))
  {
    hide RoundUp, SizeOf, AlignOf, StructStep, Place;
    assert [u][..0] == [] && [u][..|[u]| - 1] == [];
    assert End(a, []) == 0 && PlaceStruct(a, [], 0) == map[];
  }

  lemma TwoElements(a: Arch, u: Def, v: Def)
    requires StructLoop(a, [u]).Some?
    ensures StructLoop(a, [u, v]) == StructStep(a, StructLoop(a, [u]).value, v)
    ensures End(a, [u, v]) == RoundUp(End(a, [u]), AlignOf(a, v)) + SizeOf(a, v)
    ensures ListAlign(a, [u, v]) == Max(ListAlign(a, [u]), AlignOf(a, v))
    ensures PlaceStruct(a, [u, v], 0) == PlaceStruct(a, [u], 0) + Place(a, v, RoundUp(End(a, [u]), AlignOf(a, v)))
  {
    hide RoundUp, SizeOf, AlignOf, StructStep, Place;
    assert [u, v][..1] == [u];
  }

  lemma InsertIntUnion(a: Arch, c: Cursor, x: char)
    requires PlainChar(x) && IsAlign(c.align) && c.align <= 4 && c.last == 0 && [x] !in c.table
    ensures StructStep(a, c, IntUnion(x)) == Some(Cursor(c.table[[x] := Info(Int, 0, 4)], 4, 0, 4))
  {
    IntUnionFacts(a, x);
    hide CompileUnion;
    var t := map[[x] := Info(Int, 0, 4)];
    assert RoundUp(0, 4) == 0 && Shifted(t, 0, 0) == t;
    assert c.table + t == c.table[[x] := Info(Int, 0, 4)];
  }

  lemma CompileStep(a: Arch, ds: seq<Def>, c: Cursor)
    requires ds != [] && StructLoop(a, ds) == Some(c) && IsAlign(c.align)
    ensures CompileStruct(a, ds) == Some(Finish(c))
    ensures c.next == 4 && c.align == 4 ==> Finish(c) == Cursor(c.table, 4, 4, 4)
    ensures SizeOf(a, Sub(ds)) == RoundUp(End(a, ds), ListAlign(a, ds))
    ensures RoundUp(0, 4) == 0 && RoundUp(4, 4) == 4 && RoundUp(8, 4) == 8
  {
    hide StructLoop;
  }

  /** `union {int x} union {int y}`: both end up at offset 0 of a 4-byte structure, where C11 has
      `y` at offset 4 of an 8-byte one. */
  lemma AdjacentUnionsOverlap(a: Arch, x: char, y: char)
    requires PlainChar(x) && PlainChar(y) && x != y
    ensures var ds := [IntUnion(x), IntUnion(y)];
            && CompileStruct(a, ds) == Some(Cursor(map[[x] := Info(Int, 0, 4), [y] := Info(Int, 0, 4)], 4, 4, 4))
            && PlaceStruct(a, ds, 0) == map[[x] := Slot(Int, 0, 4), [y] := Slot(Int, 4, 4)]
            && SizeOf(a, Sub(ds)) == 8
  {
    hide *;
    var u, v := IntUnion(x), IntUnion(y);
    IntUnionFacts(a, x);
    IntUnionFacts(a, y);
    StartAligned();
    OneElement(a, u);
    InsertIntUnion(a, START, x);
    var c := StructLoop(a, [u]).value;
    assert [x] != [y] by { assert [x][0] != [y][0]; }
    InsertIntUnion(a, c, y);
    TwoElements(a, u, v);
    CompileStep(a, [u, v], StructLoop(a, [u, v]).value);
  }

  lemma StartAligned()
    ensures IsAlign(1) && IsAlign(4) && START == Cursor(map[], 0, 0, 1) && Max(1, 4) == 4 && Max(4, 4) == 4
  {
  }
}
