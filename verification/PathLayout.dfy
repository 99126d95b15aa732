/** Where the members of a referenced structure lie: at the sum of the offsets of the references on the
    path plus their offset in their own structure, by the rule of the code and by the rule of C11. */
module PathLayout {
  import opened Options
  import opened CTypes
  import opened Definitions
  import opened Layout
  import opened Compile
  import opened CompileTheorem
  import opened Expansion
  import opened Guards
  import opened PathNames
  import opened Paths
  import opened Placing
  import opened Rounding
  import opened TypeLookup

  /** Resolution of type names; unknown names are errors. */
  type Resolver = string -> Option<CType>

  /** The definition an expanded entry stands for, as `CreateStruct` reads it. */
  function DefOf(resolve: Resolver, e: Entry): Option<Def>
    decreases e
  {
    if IsKeyword(e.kind) then
      if e.sub.NoList? then None
      else
        var ds := DefsOf(resolve, e.sub.items);
        if ds.None? then None else Some(if e.kind == "struct" then Sub(ds.value) else Uni(ds.value))
    else
      match resolve(e.kind)
      case None => None
      case Some(t) => Some(Leaf(t, e.elem))
  }

  function DefsOf(resolve: Resolver, items: seq<Entry>): (r: Option<seq<Def>>)
    ensures r.Some? ==> |r.value| == |items|
    decreases items
  {
    if forall i :: 0 <= i < |items| ==> DefOf(resolve, items[i]).Some? then
      Some(seq(|items|, i requires 0 <= i < |items| && DefOf(resolve, items[i]).Some? => DefOf(resolve, items[i]).value))
    else None
  }

  lemma {:induction false} PrefixedDef(spell: Speller, resolve: Resolver, p: string, e: Entry)
    requires DefOf(resolve, e).Some?
    ensures DefOf(resolve, Prefixed(spell, p, e)) == Some(Under(p, DefOf(resolve, e).value))
    decreases e, 0
  {
    if IsKeyword(e.kind) {
      PrefixedDefs(spell, resolve, p, e.sub.items);
    }
  }

  lemma {:induction false} PrefixedDefs(spell: Speller, resolve: Resolver, p: string, items: seq<Entry>)
    requires DefsOf(resolve, items).Some?
    ensures DefsOf(resolve, PrefixedList(spell, p, items)) == Some(UnderList(p, DefsOf(resolve, items).value))
    decreases items, 1
  {
    forall i | 0 <= i < |items|
      ensures DefOf(resolve, PrefixedList(spell, p, items)[i]) == Some(Under(p, DefOf(resolve, items[i]).value))
    {
      PrefixedDef(spell, resolve, p, items[i]);
    }
    assert DefsOf(resolve, PrefixedList(spell, p, items)).value == UnderList(p, DefsOf(resolve, items).value);
  }

  // ----- offsets do not depend on names

  /** A path in front of a definition it carries. */
  predicate Fits(p: string, d: Def) {
    !Starred(p) && Starless(d) && Carried(p, d)
  }

  predicate FitsList(p: string, ds: seq<Def>) {
    !Starred(p) && StarlessList(ds) && CarriedList(p, ds)
  }

  lemma FitsLast(p: string, ds: seq<Def>)
    requires ds != [] && FitsList(p, ds)
    ensures FitsList(p, ds[..|ds| - 1]) && Fits(p, ds[|ds| - 1])
  {
    hide Carries, Starred;
  }

  lemma FitsGroup(p: string, d: Def)
    requires !d.Leaf? && Fits(p, d)
    ensures FitsList(p, d.items)
  {
    hide Carries, Starred;
  }

  /** Sizes and alignments, by either rule. */
  predicate SameShape(a: Arch, d: Def, d': Def) {
    AlignOf(a, d') == AlignOf(a, d) && SizeOf(a, d') == SizeOf(a, d) && CodeBytes(a, d') == CodeBytes(a, d)
  }

  predicate SameListShape(a: Arch, ds: seq<Def>, ds': seq<Def>) {
    && ListAlign(a, ds') == ListAlign(a, ds) && End(a, ds') == End(a, ds) && MaxSize(a, ds') == MaxSize(a, ds)
    && CodeEnd(a, ds') == CodeEnd(a, ds) && CodeLast(a, ds') == CodeLast(a, ds) && Largest(a, ds') == Largest(a, ds)
  }

  lemma {:induction false} ShapeUnder(a: Arch, p: string, d: Def)
    requires Fits(p, d)
    ensures SameShape(a, d, Under(p, d))
    decreases d, 0
  {
    if d.Leaf? {
      LeafShape(a, p, d);
    } else {
      FitsGroup(p, d);
      ListShapeUnder(a, p, d.items);
      GroupShape(a, d, Under(p, d));
    }
  }

  lemma LeafShape(a: Arch, p: string, d: Def)
    requires d.Leaf? && Fits(p, d)
    ensures SameShape(a, d, Under(p, d))
    ensures var f := FieldOf(d.ctype, d.elem);
            Under(p, d).Leaf? && FieldOf(d.ctype, Under(p, d).elem) == Field(Join(p, f.name), f.ctype, f.count)
            && Under(p, d).ctype == d.ctype
  {
    hide Carries, Starred, FieldOf, Join;
    FieldUnder(d.ctype, p, d.elem);
  }

  lemma GroupShape(a: Arch, d: Def, d': Def)
    requires !d.Leaf? && !d'.Leaf? && d.Sub? == d'.Sub? && SameListShape(a, d.items, d'.items)
    ensures SameShape(a, d, d')
  {
    hide RoundUp;
  }

  lemma {:induction false} ListShapeUnder(a: Arch, p: string, ds: seq<Def>)
    requires FitsList(p, ds)
    ensures SameListShape(a, ds, UnderList(p, ds))
    decreases ds, 1
  {
    hide *;
    if ds == [] {
      NothingUnder(p);
      SameAlready(a, ds);
    } else {
      FitsLast(p, ds);
      UnderLast(p, ds);
      ListShapeUnder(a, p, ds[..|ds| - 1]);
      ShapeUnder(a, p, ds[|ds| - 1]);
      KindUnder(p, ds[|ds| - 1]);
      ShapeNext(a, ds, UnderList(p, ds));
    }
  }

  lemma NothingUnder(p: string)
    ensures UnderList(p, []) == []
  {
  }

  lemma SameAlready(a: Arch, ds: seq<Def>)
    ensures SameListShape(a, ds, ds)
  {
  }

  lemma KindUnder(p: string, d: Def)
    ensures Under(p, d).Uni? == d.Uni? && Under(p, d).Leaf? == d.Leaf?
    ensures !d.Leaf? ==> Under(p, d).items == UnderList(p, d.items)
  {
  }

  lemma ShapeNext(a: Arch, ds: seq<Def>, ds': seq<Def>)
    requires ds != [] && |ds'| == |ds| && ds[|ds| - 1].Uni? == ds'[|ds| - 1].Uni?
    requires SameListShape(a, ds[..|ds| - 1], ds'[..|ds| - 1]) && SameShape(a, ds[|ds| - 1], ds'[|ds| - 1])
    ensures SameListShape(a, ds, ds')
  {
    hide *;
    ShapeIs(a, ds[..|ds| - 1], ds'[..|ds| - 1]);
    ShapeIs(a, ds, ds');
    LastOf(a, ds);
    LastOf(a, ds');
    ListStep(a, ds, 0);
    ListStep(a, ds', 0);
    AlignLast(a, ds);
    AlignLast(a, ds');
    MaxLast(a, ds);
    MaxLast(a, ds');
    OneShape(a, ds[|ds| - 1], ds'[|ds| - 1]);
  }

  lemma ShapeIs(a: Arch, ds: seq<Def>, ds': seq<Def>)
    ensures SameListShape(a, ds, ds') <==>
            && ListAlign(a, ds') == ListAlign(a, ds) && End(a, ds') == End(a, ds) && MaxSize(a, ds') == MaxSize(a, ds)
            && CodeEnd(a, ds') == CodeEnd(a, ds) && CodeLast(a, ds') == CodeLast(a, ds) && Largest(a, ds') == Largest(a, ds)
  {
  }

  lemma OneShape(a: Arch, d: Def, d': Def)
    requires SameShape(a, d, d')
    ensures AlignOf(a, d') == AlignOf(a, d) && SizeOf(a, d') == SizeOf(a, d) && CodeBytes(a, d') == CodeBytes(a, d)
  {
  }

  lemma MaxLast(a: Arch, ds: seq<Def>)
    requires ds != []
    ensures MaxSize(a, ds) == Max(MaxSize(a, ds[..|ds| - 1]), SizeOf(a, ds[|ds| - 1]))
  {
    hide SizeOf;
  }

  lemma {:induction false} StartUnder(r: Rule, a: Arch, p: string, ds: seq<Def>, i: nat)
    requires FitsList(p, ds) && i < |ds|
    ensures Start(r, a, UnderList(p, ds), i) == Start(r, a, ds, i)
    decreases |ds|
  {
    hide *;
    var n := |ds| - 1;
    FitsLast(p, ds);
    UnderLast(p, ds);
    if i < n {
      StartUnder(r, a, p, ds[..n], i);
      SameStart(r, a, ds, i);
      SameStart(r, a, UnderList(p, ds), i);
    } else {
      ListShapeUnder(a, p, ds[..n]);
      ShapeUnder(a, p, ds[n]);
      KindUnder(p, ds[n]);
      StartFrom(r, a, ds, UnderList(p, ds));
    }
  }

  lemma SameStart(r: Rule, a: Arch, ds: seq<Def>, i: nat)
    requires i < |ds| - 1
    ensures Start(r, a, ds[..|ds| - 1], i) == Start(r, a, ds, i)
  {
    assert ds[..|ds| - 1][..i] == ds[..i];
  }

  lemma StartFrom(r: Rule, a: Arch, ds: seq<Def>, ds': seq<Def>)
    requires ds != [] && |ds'| == |ds| && ds[|ds| - 1].Uni? == ds'[|ds| - 1].Uni?
    requires SameListShape(a, ds[..|ds| - 1], ds'[..|ds| - 1]) && SameShape(a, ds[|ds| - 1], ds'[|ds| - 1])
    ensures Start(r, a, ds', |ds| - 1) == Start(r, a, ds, |ds| - 1)
  {
    hide AlignOf, SizeOf, CodeBytes, RoundUp, End, CodeEnd, CodeLast;
  }

  /** The same slots under the longer names. */
  lemma {:induction false} PutUnder(r: Rule, a: Arch, p: string, d: Def, base: nat)
    requires p != "" && Fits(p, d)
    ensures Renamed(p, Put(r, a, d, base), Put(r, a, Under(p, d), base))
    decreases d, 0
  {
    hide *;
    KindUnder(p, d);
    if d.Leaf? {
      LeafPutUnder(r, a, p, d, base);
    } else {
      FitsGroup(p, d);
      PutListUnder(r, a, p, d.items, d.Uni?, base);
      GroupPut(a, d, base);
      GroupPut(a, Under(p, d), base);
    }
  }

  lemma LeafPutUnder(r: Rule, a: Arch, p: string, d: Def, base: nat)
    requires p != "" && d.Leaf? && Fits(p, d)
    ensures Renamed(p, Put(r, a, d, base), Put(r, a, Under(p, d), base))
  {
    hide Renamed, Join, FieldOf, Carries, Starred, Fits, Under;
    LeafShape(a, p, d);
    var f := FieldOf(d.ctype, d.elem);
    RenamedOne(p, f.name, Slot(f.ctype, base, FieldSize(a, f)));
  }

  lemma {:induction false} PutListUnder(r: Rule, a: Arch, p: string, ds: seq<Def>, inUnion: bool, base: nat)
    requires p != "" && FitsList(p, ds)
    ensures Renamed(p, PutList(r, a, ds, inUnion, base), PutList(r, a, UnderList(p, ds), inUnion, base))
    decreases ds, 1
  {
    hide *;
    if ds == [] {
      NothingUnder(p);
      PutNothing(r, a, base);
      NothingRenamed(p);
      return;
    }
    var n := |ds| - 1;
    var ds' := UnderList(p, ds);
    FitsLast(p, ds);
    UnderLast(p, ds);
    PutLast(r, a, ds, inUnion, base);
    PutLast(r, a, ds', inUnion, base);
    StartUnder(r, a, p, ds, n);
    var at := base + (if inUnion then 0 else Start(r, a, ds, n));
    PutListUnder(r, a, p, ds[..n], inUnion, base);
    PutUnder(r, a, p, ds[n], at);
    RenamedJoin(p, PutList(r, a, ds[..n], inUnion, base), PutList(r, a, ds'[..n], inUnion, base),
      Put(r, a, ds[n], at), Put(r, a, ds'[n], at));
  }

  lemma NothingRenamed(p: string)
    ensures Renamed<Slot>(p, map[], map[])
  {
  }

  /** A member of a structure under a path, the empty one included. */
  lemma UnderAt(r: Rule, a: Arch, p: string, ds: seq<Def>, base: nat, x: string)
    requires FitsList(p, ds) && x in ListNames(ds)
    ensures Join(p, x) in ListNames(UnderList(p, ds))
    ensures PutList(r, a, UnderList(p, ds), false, base)[Join(p, x)] == PutList(r, a, ds, false, base)[x]
  {
    hide *;
    if p == "" {
      NothingInFrontOf(ds);
      JoinIs(p, x);
    } else {
      PutListUnder(r, a, p, ds, false, base);
      RenamedAt(p, PutList(r, a, ds, false, base), PutList(r, a, UnderList(p, ds), false, base), x);
    }
  }

  lemma RenamedAt<T>(p: string, m: map<string, T>, m': map<string, T>, x: string)
    requires Renamed(p, m, m') && x in m
    ensures Join(p, x) in m' && m'[Join(p, x)] == m[x]
  {
  }

  // ----- positions inside nested groups

  /** A way into a member list: the index of an element, and of one in its own list, and so on. */
  type Position = seq<nat>

  predicate ValidPosition(ds: seq<Def>, pos: Position)
    decreases |pos|
  {
    && pos != [] && pos[0] < |ds|
    && (|pos| > 1 ==> !ds[pos[0]].Leaf? && ValidPosition(ds[pos[0]].items, pos[1..]))
  }

  function ElementAt(ds: seq<Def>, pos: Position): Def
    requires ValidPosition(ds, pos)
    decreases |pos|
  {
    if |pos| == 1 then ds[pos[0]] else ElementAt(ds[pos[0]].items, pos[1..])
  }

  /** The offset of the element there: the sum of the starts on the way, none inside a union. */
  function OffsetAt(r: Rule, a: Arch, ds: seq<Def>, inUnion: bool, pos: Position): nat
    requires ValidPosition(ds, pos)
    decreases |pos|
  {
    (if inUnion then 0 else Start(r, a, ds, pos[0]))
    + (if |pos| == 1 then 0 else OffsetAt(r, a, ds[pos[0]].items, ds[pos[0]].Uni?, pos[1..]))
  }

  lemma AcceptedLast(ds: seq<Def>, inUnion: bool)
    requires ds != [] && AcceptedList(ds, inUnion)
    ensures AcceptedList(ds[..|ds| - 1], inUnion) && ListNames(ds[..|ds| - 1]) !! Names(ds[|ds| - 1])
  {
  }

  lemma {:induction false} EarlierNames(ds: seq<Def>, i: nat)
    requires i < |ds|
    ensures Names(ds[i]) <= ListNames(ds)
  {
    if i < |ds| - 1 {
      EarlierNames(ds[..|ds| - 1], i);
    }
  }

  /** A member's leaves are where the member is put on its own, and its fields are its own. */
  lemma {:induction false} ListPart(r: Rule, a: Arch, ds: seq<Def>, inUnion: bool, i: nat, k: string, base: nat)
    requires i < |ds| && AcceptedList(ds, inUnion) && k in Names(ds[i])
    ensures k in ListNames(ds) && ListFields(ds)[k] == Fields(ds[i])[k]
    ensures PutList(r, a, ds, inUnion, base)[k]
            == Put(r, a, ds[i], base + (if inUnion then 0 else Start(r, a, ds, i)))[k]
    decreases |ds|
  {
    hide *;
    var n := |ds| - 1;
    PutLast(r, a, ds, inUnion, base);
    LastFields(ds);
    if i < n {
      AcceptedLast(ds, inUnion);
      EarlierNames(ds[..n], i);
      assert ds[..n][i] == ds[i];
      ListPart(r, a, ds[..n], inUnion, i, k, base);
      SameStart(r, a, ds, i);
    }
  }

  lemma {:induction false} AcceptedAt(ds: seq<Def>, inUnion: bool, i: nat)
    requires AcceptedList(ds, inUnion) && i < |ds|
    ensures AcceptedDef(ds[i], inUnion)
    decreases |ds|
  {
    if i < |ds| - 1 {
      AcceptedAt(ds[..|ds| - 1], inUnion, i);
    }
  }

  lemma GroupFacts(r: Rule, a: Arch, d: Def, inUnion: bool, base: nat)
    requires !d.Leaf? && AcceptedDef(d, inUnion)
    ensures AcceptedList(d.items, d.Uni?) && Names(d) == ListNames(d.items) && Fields(d) == ListFields(d.items)
    ensures Put(r, a, d, base) == PutList(r, a, d.items, d.Uni?, base)
  {
    hide PutList;
  }

  lemma Descend(r: Rule, a: Arch, ds: seq<Def>, inUnion: bool, pos: Position)
    requires ValidPosition(ds, pos)
    ensures pos != [] && pos[0] < |ds|
    ensures |pos| == 1 ==> ElementAt(ds, pos) == ds[pos[0]]
                           && OffsetAt(r, a, ds, inUnion, pos) == if inUnion then 0 else Start(r, a, ds, pos[0])
    ensures |pos| > 1 ==>
              var d := ds[pos[0]];
              && !d.Leaf? && ValidPosition(d.items, pos[1..]) && ElementAt(ds, pos) == ElementAt(d.items, pos[1..])
              && OffsetAt(r, a, ds, inUnion, pos)
                 == (if inUnion then 0 else Start(r, a, ds, pos[0])) + OffsetAt(r, a, d.items, d.Uni?, pos[1..])
  {
    hide Start;
  }

  /** Wherever an element is nested, its leaves are its own, moved by the offset of its position. */
  lemma {:induction false} NestedPart(r: Rule, a: Arch, ds: seq<Def>, inUnion: bool, pos: Position, k: string, base: nat)
    requires ValidPosition(ds, pos) && AcceptedList(ds, inUnion) && k in Names(ElementAt(ds, pos))
    ensures k in ListNames(ds) && ListFields(ds)[k] == Fields(ElementAt(ds, pos))[k]
    ensures PutList(r, a, ds, inUnion, base)[k]
            == Put(r, a, ElementAt(ds, pos), base + OffsetAt(r, a, ds, inUnion, pos))[k]
    decreases |pos|
  {
    hide *;
    Descend(r, a, ds, inUnion, pos);
    var i := pos[0];
    AcceptedAt(ds, inUnion, i);
    if |pos| > 1 {
      var d := ds[i];
      var start := base + (if inUnion then 0 else Start(r, a, ds, i));
      GroupFacts(r, a, d, inUnion, start);
      NestedPart(r, a, d.items, d.Uni?, pos[1..], k, start);
    }
    ListPart(r, a, ds, inUnion, i, k, base);
  }

  /** The offset of `p.x` is the offset of `p` plus the offset of `x` in its own structure, wherever
      in nested structures and unions `p` is; its type and size are its own. */
  lemma PathOffset(r: Rule, a: Arch, ds: seq<Def>, pos: Position, p: string, own: seq<Def>, x: string)
    requires ValidPosition(ds, pos) && AcceptedList(ds, false) && ElementAt(ds, pos) == Sub(UnderList(p, own))
    requires FitsList(p, own) && x in ListNames(own)
    ensures Join(p, x) in ListNames(ds)
    ensures var s := PutList(r, a, own, false, 0)[x];
            PutList(r, a, ds, false, 0)[Join(p, x)] == Slot(s.ctype, OffsetAt(r, a, ds, false, pos) + s.offset, s.size)
  {
    hide *;
    var start := OffsetAt(r, a, ds, false, pos);
    UnderAt(r, a, p, own, start, x);
    SubIs(r, a, UnderList(p, own), start);
    NestedPart(r, a, ds, false, pos, Join(p, x), 0);
    PutListMoved(r, a, own, false, 0, start);
    MovedAt(PutList(r, a, own, false, 0), PutList(r, a, own, false, start), start, x);
  }

  lemma SubIs(r: Rule, a: Arch, items: seq<Def>, base: nat)
    ensures Put(r, a, Sub(items), base) == PutList(r, a, items, false, base)
    ensures Names(Sub(items)) == ListNames(items) && Fields(Sub(items)) == ListFields(items)
  {
    hide PutList;
  }

  lemma MovedAt(m: map<string, Slot>, m': map<string, Slot>, shift: nat, x: string)
    requires Moved(m, m', shift) && x in m
    ensures x in m' && m'[x] == Slot(m[x].ctype, m[x].offset + shift, m[x].size)
  {
  }

  // ----- acceptance does not depend on the path

  lemma NameUnder(p: string, ds: seq<Def>, k: string)
    requires FitsList(p, ds) && k in ListNames(ds)
    ensures Join(p, k) in ListNames(UnderList(p, ds))
  {
    UnderAt(C11, X64Unix, p, ds, 0, k);
  }

  lemma OneNameUnder(p: string, d: Def, k: string)
    requires Fits(p, d) && k in Names(d)
    ensures Join(p, k) in Names(Under(p, d))
  {
    hide *;
    if p == "" {
      NothingInFront(d);
      JoinIs(p, k);
    } else {
      PutUnder(C11, X64Unix, p, d, 0);
      RenamedAt(p, Put(C11, X64Unix, d, 0), Put(C11, X64Unix, Under(p, d), 0), k);
    }
  }

  lemma {:induction false} AcceptedUnder(p: string, ds: seq<Def>, inUnion: bool)
    requires FitsList(p, ds) && AcceptedList(UnderList(p, ds), inUnion)
    ensures AcceptedList(ds, inUnion)
    decreases ds, 1
  {
    hide Names, ListNames, FitsList, Fits, Join, UnderList, Under;
    if ds != [] {
      var init, d := ds[..|ds| - 1], ds[|ds| - 1];
      FitsLast(p, ds);
      UnderLast(p, ds);
      AcceptedLast(UnderList(p, ds), inUnion);
      AcceptedUnder(p, init, inUnion);
      AcceptedDefUnder(p, d, inUnion);
      forall k | k in ListNames(init) ensures k !in Names(d) {
        if k in Names(d) {
          NameUnder(p, init, k);
          OneNameUnder(p, d, k);
        }
      }
    }
  }

  lemma {:induction false} AcceptedDefUnder(p: string, d: Def, inUnion: bool)
    requires Fits(p, d) && AcceptedDef(Under(p, d), inUnion)
    ensures AcceptedDef(d, inUnion)
    decreases d, 0
  {
    hide FitsList, Fits, Join, UnderList, Names, ListNames, FieldOf, AcceptedList;
    match d
    case Leaf(t, e) => LeafShape(X64Unix, p, d);
    case Sub(items) =>
      FitsGroup(p, d);
      NothingLost(p, items);
      AcceptedUnder(p, items, false);
    case Uni(items) =>
      FitsGroup(p, d);
      NothingLost(p, items);
      AcceptedUnder(p, items, true);
  }

  lemma NothingLost(p: string, ds: seq<Def>)
    ensures UnderList(p, ds) == [] <==> ds == []
  {
  }

  // ----- sums along a path of references

  /** One step: the position of a reference, its member name, and the structure it refers to. */
  datatype Hop = Hop(pos: Position, name: string, own: seq<Def>)

  /** Each hop starts in the structure the one before it leads to, and its name carries the members
      of the structure it refers to. */
  predicate Chained(ds: seq<Def>, hops: seq<Hop>)
    decreases |hops|
  {
    hops == [] ||
    (var h := hops[0];
     && ValidPosition(ds, h.pos) && ElementAt(ds, h.pos) == Sub(UnderList(h.name, h.own))
     && FitsList(h.name, h.own) && Chained(h.own, hops[1..]))
  }

  /** The structure the hops end in. */
  function Target(ds: seq<Def>, hops: seq<Hop>): seq<Def> {
    if hops == [] then ds else hops[|hops| - 1].own
  }

  /** `p.q.x`. */
  function Dotted(hops: seq<Hop>, x: string): string {
    if hops == [] then x else Join(hops[0].name, Dotted(hops[1..], x))
  }

  function SumOfOffsets(r: Rule, a: Arch, ds: seq<Def>, hops: seq<Hop>): nat
    requires Chained(ds, hops)
    decreases |hops|
  {
    if hops == [] then 0
    else OffsetAt(r, a, ds, false, hops[0].pos) + SumOfOffsets(r, a, hops[0].own, hops[1..])
  }

  /** By either rule, the offset of `p.q. .. .x` is the sum of the offsets along the path plus that of
      `x` in the structure the path ends in; its type and size are its own. */
  lemma {:induction false} PathSum(r: Rule, a: Arch, ds: seq<Def>, hops: seq<Hop>, x: string)
    requires AcceptedList(ds, false) && Chained(ds, hops) && x in ListNames(Target(ds, hops))
    ensures Dotted(hops, x) in ListNames(ds) && AcceptedList(Target(ds, hops), false)
    ensures var s := PutList(r, a, Target(ds, hops), false, 0)[x];
            PutList(r, a, ds, false, 0)[Dotted(hops, x)]
            == Slot(s.ctype, SumOfOffsets(r, a, ds, hops) + s.offset, s.size)
    decreases |hops|
  {
    hide *;
    HopFacts(r, a, ds, hops, x);
    if hops != [] {
      var h, rest := hops[0], hops[1..];
      AcceptedOwn(ds, h.pos, h.name, h.own);
      PathSum(r, a, h.own, rest, x);
      PathOffset(r, a, ds, h.pos, h.name, h.own, Dotted(rest, x));
    }
  }

  lemma HopFacts(r: Rule, a: Arch, ds: seq<Def>, hops: seq<Hop>, x: string)
    requires Chained(ds, hops)
    ensures hops == [] ==> Target(ds, hops) == ds && Dotted(hops, x) == x && SumOfOffsets(r, a, ds, hops) == 0
    ensures hops != [] ==>
              var h, rest := hops[0], hops[1..];
              && ValidPosition(ds, h.pos) && ElementAt(ds, h.pos) == Sub(UnderList(h.name, h.own))
              && FitsList(h.name, h.own) && Chained(h.own, rest)
              && Target(ds, hops) == Target(h.own, rest) && Dotted(hops, x) == Join(h.name, Dotted(rest, x))
              && SumOfOffsets(r, a, ds, hops) == OffsetAt(r, a, ds, false, h.pos) + SumOfOffsets(r, a, h.own, rest)
  {
    hide OffsetAt, UnderList, FitsList, ElementAt, ValidPosition;
  }

  /** A structure nested somewhere in an accepted one is accepted under its own names. */
  lemma AcceptedOwn(ds: seq<Def>, pos: Position, p: string, own: seq<Def>)
    requires ValidPosition(ds, pos) && AcceptedList(ds, false) && ElementAt(ds, pos) == Sub(UnderList(p, own))
    requires FitsList(p, own)
    ensures AcceptedList(own, false)
  {
    hide *;
    var u := AcceptedElement(ds, false, pos);
    GroupFacts(C11, X64Unix, ElementAt(ds, pos), u, 0);
    AcceptedUnder(p, own, false);
  }

  lemma {:induction false} AcceptedElement(ds: seq<Def>, inUnion: bool, pos: Position) returns (u: bool)
    requires ValidPosition(ds, pos) && AcceptedList(ds, inUnion)
    ensures AcceptedDef(ElementAt(ds, pos), u)
    decreases |pos|
  {
    hide *;
    Descend(C11, X64Unix, ds, inUnion, pos);
    AcceptedAt(ds, inUnion, pos[0]);
    u := inUnion;
    if |pos| > 1 {
      var d := ds[pos[0]];
      GroupFacts(C11, X64Unix, d, inUnion, 0);
      u := AcceptedElement(d.items, d.Uni?, pos[1..]);
    }
  }

  // ----- from the text

  /** The structure `own` is what the declaration of `k` stands for. */
  ghost predicate Declared(spell: Speller, resolve: Resolver, reg: Registry, k: string, own: seq<Def>) {
    && k in reg && Expand(spell, reg, List(reg[k]), "", 0).Some?
    && DefsOf(resolve, Expand(spell, reg, List(reg[k]), "", 0).value) == Some(own)
  }

  predicate ValidEntry(reg: Registry, items: seq<Entry>, pos: Position)
    decreases |pos|
  {
    && pos != [] && pos[0] < |items|
    && (|pos| > 1 ==>
          var e := items[pos[0]];
          !IsReference(reg, e) && IsKeyword(e.kind) && e.sub.List? && ValidEntry(reg, e.sub.items, pos[1..]))
  }

  function EntryAt(reg: Registry, items: seq<Entry>, pos: Position): Entry
    requires ValidEntry(reg, items, pos)
    decreases |pos|
  {
    if |pos| == 1 then items[pos[0]] else EntryAt(reg, items[pos[0]].sub.items, pos[1..])
  }

  /** A reference turns into a nested structure: the referenced one, under the reference's name. */
  lemma {:induction false} ReferenceIsSub(spell: Speller, resolve: Resolver, reg: Registry, items: seq<Entry>,
                                          pos: Position, depth: nat, ds: seq<Def>, own: seq<Def>)
    requires ValidEntry(reg, items, pos) && IsReference(reg, EntryAt(reg, items, pos))
    requires Declared(spell, resolve, reg, EntryAt(reg, items, pos).kind, own)
    requires NamesReferences(reg, reg[EntryAt(reg, items, pos).kind])
    requires Expand(spell, reg, List(items), "", depth).Some?
    requires DefsOf(resolve, Expand(spell, reg, List(items), "", depth).value) == Some(ds)
    ensures ValidPosition(ds, pos) && ElementAt(ds, pos) == Sub(UnderList(EntryAt(reg, items, pos).elem, own))
    decreases |pos|
  {
    hide NamesReferences, Join, Expand, DefsOf;
    var e := items[pos[0]];
    var r := Expand(spell, reg, List(items), "", depth).value;
    ExpandAt(spell, reg, items, "", depth, pos[0]);
    DefsAt(resolve, r, ds, pos[0]);
    if |pos| == 1 {
      var p := Path(e.elem, "");
      JoinNothing(e.elem);
      AnyName(spell, reg, reg[e.kind], e.elem, "", depth + 1);
      ExpandUnder(spell, reg, reg[e.kind], e.elem, "", depth + 1);
      ExpandShallower(spell, reg, reg[e.kind], "", depth + 1, 0);
      PrefixedDefs(spell, resolve, e.elem, Expand(spell, reg, List(reg[e.kind]), "", 0).value);
    } else {
      var inner := Expand(spell, reg, e.sub, "", depth + 1).value;
      ReferenceIsSub(spell, resolve, reg, e.sub.items, pos[1..], depth + 1, DefsOf(resolve, inner).value, own);
    }
  }

  lemma DefsAt(resolve: Resolver, r: seq<Entry>, ds: seq<Def>, i: nat)
    requires DefsOf(resolve, r) == Some(ds) && i < |r|
    ensures |ds| == |r| && DefOf(resolve, r[i]) == Some(ds[i])
  {
  }

  lemma JoinNothing(elem: string)
    ensures Join("", elem) == elem
  {
  }

  /** Expanded members have no stars left. */
  lemma {:induction false} DefStarless(resolve: Resolver, e: Entry)
    requires Expanded(e) && DefOf(resolve, e).Some?
    ensures Starless(DefOf(resolve, e).value)
    decreases e, 0
  {
    if IsKeyword(e.kind) {
      DefsStarless(resolve, e.sub.items);
    }
  }

  lemma {:induction false} DefsStarless(resolve: Resolver, items: seq<Entry>)
    requires ExpandedList(items) && DefsOf(resolve, items).Some?
    ensures StarlessList(DefsOf(resolve, items).value)
    decreases items, 1
  {
    var ds := DefsOf(resolve, items).value;
    forall i | 0 <= i < |items| ensures Starless(ds[i]) {
      DefStarless(resolve, items[i]);
    }
    AllStarless(ds);
  }

  lemma {:induction false} AllStarless(ds: seq<Def>)
    requires forall i :: 0 <= i < |ds| ==> Starless(ds[i])
    ensures StarlessList(ds)
  {
    if ds != [] {
      AllStarless(ds[..|ds| - 1]);
    }
  }

  lemma DeclaredStarless(spell: Speller, resolve: Resolver, reg: Registry, k: string, own: seq<Def>)
    requires Declared(spell, resolve, reg, k, own)
    ensures StarlessList(own)
  {
    hide Expand, DefsOf;
    ExpandShape(spell, reg, reg[k], "", 0);
    DefsStarless(resolve, Expand(spell, reg, List(reg[k]), "", 0).value);
  }

  /** The hops follow references of the text, each in the declaration the one before it names, and each
      reference's text carries the members of the structure it refers to. */
  ghost predicate Follows(spell: Speller, resolve: Resolver, reg: Registry, items: seq<Entry>, hops: seq<Hop>)
    decreases |hops|
  {
    hops == [] ||
    (var h := hops[0];
     && ValidEntry(reg, items, h.pos) && IsReference(reg, EntryAt(reg, items, h.pos))
     && (var e := EntryAt(reg, items, h.pos);
         && e.elem == h.name && Declared(spell, resolve, reg, e.kind, h.own) && NamesReferences(reg, reg[e.kind])
         && CarriedList(h.name, h.own) && Follows(spell, resolve, reg, reg[e.kind], hops[1..])))
  }

  lemma {:induction false} FollowedChained(spell: Speller, resolve: Resolver, reg: Registry, items: seq<Entry>,
                                           ds: seq<Def>, hops: seq<Hop>)
    requires Follows(spell, resolve, reg, items, hops)
    requires Expand(spell, reg, List(items), "", 0).Some?
    requires DefsOf(resolve, Expand(spell, reg, List(items), "", 0).value) == Some(ds)
    ensures Chained(ds, hops)
    decreases |hops|
  {
    hide NamesReferences, Expand, DefsOf, UnderList, ElementAt, ValidPosition, EntryAt, ValidEntry, Carries, Starred;
    if hops != [] {
      var h := hops[0];
      var e := EntryAt(reg, items, h.pos);
      ReferenceIsSub(spell, resolve, reg, items, h.pos, 0, ds, h.own);
      DeclaredStarless(spell, resolve, reg, e.kind, h.own);
      FollowedChained(spell, resolve, reg, reg[e.kind], h.own, hops[1..]);
    }
  }

  /** From the text of a definition to the finished table: along any path of references, at any
      nesting inside groups, the recorded offset of `p.q. .. .x` is the sum of the code's offsets on the
      way plus the recorded offset of `x` in the structure the path ends in. */
  lemma ReferencedMember(a: Arch, spell: Speller, resolve: Resolver, reg: Registry, items: seq<Entry>,
                         ds: seq<Def>, hops: seq<Hop>, x: string)
    requires Follows(spell, resolve, reg, items, hops)
    requires Expand(spell, reg, List(items), "", 0).Some?
    requires DefsOf(resolve, Expand(spell, reg, List(items), "", 0).value) == Some(ds)
    requires CompileStruct(a, ds).Some? && x in ListNames(Target(ds, hops))
    ensures Chained(ds, hops) && CompileStruct(a, Target(ds, hops)).Some?
    ensures var k, t, own := Dotted(hops, x), CompileStruct(a, ds).value.table, CompileStruct(a, Target(ds, hops)).value.table;
            && k in t && x in own && t[k].ctype == own[x].ctype
            && t[k].offset == SumOfOffsets(Code, a, ds, hops) + own[x].offset
  {
    hide *;
    FollowedChained(spell, resolve, reg, items, ds, hops);
    StructAccepts(a, ds);
    PathSum(Code, a, ds, hops, x);
    var own := Target(ds, hops);
    NamesSome(own, x);
    StructAccepts(a, own);
    CodePlaces(a, ds);
    CodePlaces(a, own);
    SameAt(CompileStruct(a, ds).value.table, PutList(Code, a, ds, false, 0), Dotted(hops, x));
    SameAt(CompileStruct(a, own).value.table, PutList(Code, a, own, false, 0), x);
  }

  lemma NamesSome(ds: seq<Def>, x: string)
    requires x in ListNames(ds)
    ensures ds != []
  {
  }

  lemma SameAt(t: Table, ref: map<string, Slot>, k: string)
    requires Same(t, ref) && k in ref
    ensures k in t && t[k].offset == ref[k].offset && t[k].ctype == ref[k].ctype
  {
  }

  /** Where the compiled layout is that of C11, these are sums of C11 offsets. */
  lemma ReferencedMemberC11(a: Arch, spell: Speller, resolve: Resolver, reg: Registry, items: seq<Entry>,
                            ds: seq<Def>, hops: seq<Hop>, x: string)
    requires Follows(spell, resolve, reg, items, hops)
    requires Expand(spell, reg, List(items), "", 0).Some?
    requires DefsOf(resolve, Expand(spell, reg, List(items), "", 0).value) == Some(ds)
    requires CompileStruct(a, ds).Some? && Separated(a, ds) && x in ListNames(Target(ds, hops))
    ensures Chained(ds, hops) && x in PlaceStruct(a, Target(ds, hops), 0)
    ensures var k, t := Dotted(hops, x), CompileStruct(a, ds).value.table;
            k in t && t[k].offset == SumOfOffsets(C11, a, ds, hops) + PlaceStruct(a, Target(ds, hops), 0)[x].offset
  {
    hide *;
    FollowedChained(spell, resolve, reg, items, ds, hops);
    LayoutTheorem(a, ds);
    StructAccepts(a, ds);
    PathSum(C11, a, ds, hops, x);
    PutListC11(a, ds, 0);
    PutListC11(a, Target(ds, hops), 0);
    SameAt(CompileStruct(a, ds).value.table, PlaceStruct(a, ds, 0), Dotted(hops, x));
  }

  // ----- which references keep their members

  /** Every member `x` of the referenced structure is in the table as `p.x`, with its type and count. */
  ghost predicate AllThere(p: string, own: Table, ownFields: map<string, Field>, t: Table, fields: map<string, Field>) {
    forall x :: x in own ==>
      && Join(p, x) in t && t[Join(p, x)].ctype == own[x].ctype
      && x in ownFields && Join(p, x) in fields && fields[Join(p, x)].count == ownFields[x].count
  }

  lemma ThereIsKept(p: string, own: Table, ownFields: map<string, Field>, t: Table, fields: map<string, Field>)
    requires own.Keys == ownFields.Keys && forall k :: k in own ==> own[k].ctype == ownFields[k].ctype
    requires t.Keys == fields.Keys && forall k :: k in t ==> t[k].ctype == fields[k].ctype
    ensures AllThere(p, own, ownFields, t, fields) <==> Kept(p, ownFields, fields)
  {
    hide Join;
  }

  lemma KeptExact(ds: seq<Def>, pos: Position, p: string, own: seq<Def>)
    requires ValidPosition(ds, pos) && AcceptedList(ds, false) && ElementAt(ds, pos) == Sub(UnderList(p, own))
    requires !Starred(p) && StarlessList(own) && AcceptedList(own, false)
    ensures Kept(p, ListFields(own), ListFields(ds)) <==> CarriedList(p, own)
  {
    hide *;
    if p == "" {
      NothingInFrontOf(own);
    }
    if CarriedList(p, own) {
      FitsIs(p, own);
      forall x | x in ListNames(own)
        ensures Join(p, x) in ListNames(ds)
        ensures ListFields(ds)[Join(p, x)].ctype == ListFields(own)[x].ctype
        ensures ListFields(ds)[Join(p, x)].count == ListFields(own)[x].count
      {
        KeptMember(ds, pos, p, own, x);
      }
      KeptIs(p, ListFields(own), ListFields(ds));
    } else {
      ListFieldsGenuine(ds);
      if Kept(p, ListFields(own), ListFields(ds)) {
        KeptCarried(p, own, false, ListFields(ds));
      }
    }
  }

  lemma FitsIs(p: string, ds: seq<Def>)
    ensures FitsList(p, ds) <==> !Starred(p) && StarlessList(ds) && CarriedList(p, ds)
  {
    hide Starred, StarlessList, CarriedList;
  }

  lemma KeptIs(p: string, f: map<string, Field>, g: map<string, Field>)
    requires forall x :: x in f ==> Join(p, x) in g && g[Join(p, x)].ctype == f[x].ctype && g[Join(p, x)].count == f[x].count
    ensures Kept(p, f, g)
  {
    hide Join;
  }

  lemma KeptMember(ds: seq<Def>, pos: Position, p: string, own: seq<Def>, x: string)
    requires ValidPosition(ds, pos) && AcceptedList(ds, false) && ElementAt(ds, pos) == Sub(UnderList(p, own))
    requires FitsList(p, own) && x in ListNames(own)
    ensures Join(p, x) in ListNames(ds)
    ensures ListFields(ds)[Join(p, x)].ctype == ListFields(own)[x].ctype
    ensures ListFields(ds)[Join(p, x)].count == ListFields(own)[x].count
  {
    hide *;
    FitsIs(p, own);
    NameUnder(p, own, x);
    SubIs(C11, X64Unix, UnderList(p, own), 0);
    NestedPart(C11, X64Unix, ds, false, pos, Join(p, x), 0);
    if p == "" {
      NothingInFrontOf(own);
      JoinIs(p, x);
    } else {
      ListFieldsUnder(p, own);
      KindAt(ListFields(own), x);
      KindAt(ListFields(UnderList(p, own)), Join(p, x));
      RenamedAt(p, Kinds(ListFields(own)), Kinds(ListFields(UnderList(p, own))), x);
    }
  }

  lemma KindAt(f: map<string, Field>, x: string)
    requires x in f
    ensures x in Kinds(f) && Kinds(f)[x] == (f[x].ctype, f[x].count)
  {
  }

  /** For every definition that refers to a declared structure anywhere and compiles: every member of
      the structure is in the table under the reference's name, with its own type and count, if and
      only if that name carries the structure's member texts. */
  lemma ReferenceExact(a: Arch, spell: Speller, resolve: Resolver, reg: Registry, items: seq<Entry>, pos: Position,
                       ds: seq<Def>, own: seq<Def>)
    requires ValidEntry(reg, items, pos) && IsReference(reg, EntryAt(reg, items, pos))
    requires Declared(spell, resolve, reg, EntryAt(reg, items, pos).kind, own)
    requires NamesReferences(reg, reg[EntryAt(reg, items, pos).kind])
    requires Expand(spell, reg, List(items), "", 0).Some?
    requires DefsOf(resolve, Expand(spell, reg, List(items), "", 0).value) == Some(ds)
    requires CompileStruct(a, ds).Some? && CompileStruct(a, own).Some?
    ensures var p := EntryAt(reg, items, pos).elem;
            AllThere(p, CompileStruct(a, own).value.table, ListFields(own), CompileStruct(a, ds).value.table, ListFields(ds))
            <==> CarriedList(p, own)
  {
    hide *;
    var e := EntryAt(reg, items, pos);
    ReferenceIsSub(spell, resolve, reg, items, pos, 0, ds, own);
    DeclaredStarless(spell, resolve, reg, e.kind, own);
    Unstarred(reg, e);
    StructAccepts(a, ds);
    StructAccepts(a, own);
    LookupTheorem(a, ds);
    LookupTheorem(a, own);
    ThereIsKept(e.elem, CompileStruct(a, own).value.table, ListFields(own), CompileStruct(a, ds).value.table, ListFields(ds));
    KeptExact(ds, pos, e.elem, own);
  }

  lemma Unstarred(reg: Registry, e: Entry)
    requires IsReference(reg, e)
    ensures !Starred(e.elem) && e.kind in reg
  {
  }

  // ----- an array of references

  lemma ArrayOfReferences()
    ensures forall t :: FieldOf(t, "pts(3).x") == Field("pts", t, 3)
    ensures forall t :: FieldOf(t, "pts(3).y") == Field("pts", t, 3)
    ensures ParseArray("pts(3)") == ("pts", 3)
  {
    hide *;
    ArrayText("pts(3).x");
    ArrayText("pts(3).y");
    ArrayText("pts(3)");
    forall t ensures FieldOf(t, "pts(3).x") == Field("pts", t, 3) && FieldOf(t, "pts(3).y") == Field("pts", t, 3) {
      NoStar("pts(3).x");
      NoStar("pts(3).y");
      FieldIs(t, "pts(3).x");
      FieldIs(t, "pts(3).y");
    }
  }

  lemma NoStar(e: string)
    requires e != "" && e[0] != '*'
    ensures !Starred(e)
  {
  }

  lemma ArrayText(s: string)
    requires |s| >= 6 && s[..6] == "pts(3)"
    ensures ParseArray(s) == ("pts", 3)
  {
    hide StrToL, CountText, FirstEnd, Cut, ParseArray, SkipDelims, TokenLength;
    assert s[0] == 'p' && s[1] == 't' && s[2] == 's' && s[3] == '(' && s[4] == '3' && s[5] == ')';
    FirstIs(s, 0, 3);
    CutIs(s);
    ParseIs(s);
    var rest := s[4..];
    CountIs(rest, 0, 1);
    DecimalReads(3);
    assert rest[0..1] == "3" && Decimal(3) == "3";
    assert s[..3] == "pts";
  }

  /** The members of the declaration of `Pt`, and what a reference `Pt pts(3)` makes of them. */
  predicate Ints(members: seq<Entry>) {
    members != [] && forall i :: 0 <= i < |members| ==>
      members[i].kind == "int" && members[i].sub == NoList && !Starred(members[i].elem)
  }

  function Dots(members: seq<Entry>): seq<Entry> {
    seq(|members|, i requires 0 <= i < |members| => Entry("int", "pts(3)." + members[i].elem, NoList))
  }

  function Uses(spell: Speller, members: seq<Entry>): Option<seq<Entry>> {
    Expand(spell, DeclareAll(spell, [Declaration("Pt", List(members))]), List([Entry("Pt", "pts(3)", NoList)]), "", 0)
  }

  lemma UseExpands(spell: Speller, members: seq<Entry>)
    requires Ints(members)
    ensures Uses(spell, members) == Some([Group(spell, "struct", Dots(members))])
  {
    hide Group;
    var d := Declaration("Pt", List(members));
    ExpandIs(spell, map[], members, "", 0, members);
    assert [d][..0] == [] && DeclareAll(spell, []) == map[];
    var reg := DeclareAll(spell, [d]);
    assert reg == Declare(spell, map[], d) == map["Pt" := members];
    assert Join("", "pts(3)") == "pts(3)" && "pts(3)" + "." == "pts(3).";
    forall i | 0 <= i < |members| ensures ExpandEntry(spell, reg, members[i], "pts(3)", 1) == Some(Dots(members)[i]) {
      assert members[i].kind[0] == 'i' && "Pt"[0] == 'P';
    }
    ExpandIs(spell, reg, members, "pts(3)", 1, Dots(members));
    ExpandIs(spell, reg, [Entry("Pt", "pts(3)", NoList)], "", 0, [Group(spell, "struct", Dots(members))]);
  }

  lemma UseDefs(spell: Speller, resolve: Resolver, members: seq<Entry>, leaves: seq<Def>)
    requires Ints(members) && resolve("int") == Some(Int) && |leaves| == |members|
    requires forall i :: 0 <= i < |members| ==> leaves[i] == Leaf(Int, "pts(3)." + members[i].elem)
    ensures DefsOf(resolve, [Group(spell, "struct", Dots(members))]) == Some([Sub(leaves)])
  {
    var items := Dots(members);
    assert forall i :: 0 <= i < |items| ==> DefOf(resolve, items[i]) == Some(leaves[i]);
    assert DefsOf(resolve, items).value == leaves;
    var g := Group(spell, "struct", items);
    assert DefOf(resolve, g) == Some(Sub(leaves));
    assert DefsOf(resolve, [g]).value == [Sub(leaves)];
  }

  lemma OneLeaf(a: Arch)
    ensures var ds := [Sub([Leaf(Int, "pts(3).x")])];
            && AcceptedList(ds, false) && ListNames(ds) == {"pts"} && Separated(a, ds)
            && "pts" in ListFields(ds) && ListFields(ds)["pts"] == Field("pts", Int, 3)
  {
    ArrayOfReferences();
    var l := Leaf(Int, "pts(3).x");
    hide *;
    Single(a, l);
    Single(a, Sub([l]));
    LeafAlone(a, l);
    SubAlone(a, [l]);
  }

  lemma Single(a: Arch, d: Def)
    ensures AcceptedList([d], false) <==> AcceptedDef(d, false)
    ensures ListNames([d]) == Names(d) && ListFields([d]) == Fields(d)
    ensures Separated(a, [d]) <==> SeparatedDef(a, d)
  {
    hide AcceptedDef, Names, Fields, SeparatedDef;
    assert [d][..0] == [];
    NothingSeparated(a);
  }

  lemma NothingSeparated(a: Arch)
    ensures Separated(a, []) && ListFields([]) == map[] && ListNames([]) == {}
  {
  }

  lemma LeafAlone(a: Arch, d: Def)
    requires d.Leaf?
    ensures AcceptedDef(d, false) && SeparatedDef(a, d)
    ensures Names(d) == {FieldOf(d.ctype, d.elem).name}
    ensures Fields(d) == map[FieldOf(d.ctype, d.elem).name := FieldOf(d.ctype, d.elem)]
  {
    hide FieldOf;
  }

  lemma SubAlone(a: Arch, items: seq<Def>)
    requires items != []
    ensures AcceptedDef(Sub(items), false) <==> AcceptedList(items, false)
    ensures Names(Sub(items)) == ListNames(items) && Fields(Sub(items)) == ListFields(items)
    ensures SeparatedDef(a, Sub(items)) <==> Separated(a, items)
  {
    hide AcceptedList, ListNames, ListFields, Separated;
  }

  lemma TwoLeaves()
    ensures !AcceptedList([Sub([Leaf(Int, "pts(3).x"), Leaf(Int, "pts(3).y")])], false)
  {
    ArrayOfReferences();
    hide FieldOf;
    var l, m := Leaf(Int, "pts(3).x"), Leaf(Int, "pts(3).y");
    assert [l, m][..1] == [l] && [l][..0] == [];
    assert "pts" in ListNames([l]) && "pts" in Names(m);
    assert !AcceptedList([l, m], false);
  }

  /** With `Pt {int x}` declared, `Pt pts(3)` compiles, to the C11 layout of what it expands to; but the
      only member of the table is an array `pts` of three ints, so there is no `pts(3).x`. */
  lemma ArrayOfReferencesLost(a: Arch, spell: Speller, resolve: Resolver)
    requires resolve("int") == Some(Int)
    ensures var r := Uses(spell, [Entry("int", "x", NoList)]);
            && r.Some? && DefsOf(resolve, r.value).Some?
            && var ds := DefsOf(resolve, r.value).value;
               && CompileStruct(a, ds).Some? && Separated(a, ds)
               && CompileStruct(a, ds).value.table.Keys == {"pts"}
               && "pts" in ListFields(ds) && ListFields(ds)["pts"] == Field("pts", Int, 3)
  {
    hide CompileStruct, DefsOf, Uses, Separated, ListFields, AcceptedList, ListNames;
    var members := [Entry("int", "x", NoList)];
    UseExpands(spell, members);
    UseDefs(spell, resolve, members, [Leaf(Int, "pts(3).x")]);
    OneLeaf(a);
    StructAccepts(a, [Sub([Leaf(Int, "pts(3).x")])]);
  }

  /** With `Pt {int x int y}` declared, `Pt pts(3)` is refused: both members are called `pts`. */
  lemma ArrayOfReferencesRefused(a: Arch, spell: Speller, resolve: Resolver)
    requires resolve("int") == Some(Int)
    ensures var r := Uses(spell, [Entry("int", "x", NoList), Entry("int", "y", NoList)]);
            && r.Some? && DefsOf(resolve, r.value).Some?
            && CompileStruct(a, DefsOf(resolve, r.value).value).None?
  {
    hide CompileStruct, DefsOf, Uses, AcceptedList;
    var members := [Entry("int", "x", NoList), Entry("int", "y", NoList)];
    UseExpands(spell, members);
    UseDefs(spell, resolve, members, [Leaf(Int, "pts(3).x"), Leaf(Int, "pts(3).y")]);
    TwoLeaves();
    StructAccepts(a, [Sub([Leaf(Int, "pts(3).x"), Leaf(Int, "pts(3).y")])]);
  }
}
