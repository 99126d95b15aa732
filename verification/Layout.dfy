/** The reference: where C11 section 6.7.2.1 puts the members of a definition.
    Paragraph 15: structure members have increasing offsets, none before the first; each is put
    at the lowest offset its alignment allows after the one before it.  Paragraph 16: every
    union member starts at the union's own offset and the union holds the largest of them.
    Paragraph 17: trailing padding rounds the size up to the alignment. */
module Layout {
  import opened CTypes
  import opened Rounding
  import opened Definitions

  /** A leaf's type, absolute offset and whole size. */
  datatype Slot = Slot(ctype: CType, offset: nat, size: nat)

  function Elements(f: Field): nat {
    if f.count == 0 then 1 else f.count
  }

  function FieldSize(a: Arch, f: Field): (n: nat)
    ensures n > 0
  {
    Elements(f) * MemSize(a, f.ctype)
  }

  function AlignOf(a: Arch, d: Def): (n: nat)
    ensures IsAlign(n) && n > 0
    decreases d
  {
    match d
    case Leaf(t, e) => AlignSize(a, FieldOf(t, e).ctype)
    case Sub(items) => ListAlign(a, items)
    case Uni(items) => ListAlign(a, items)
  }

  function ListAlign(a: Arch, ds: seq<Def>): (n: nat)
    ensures IsAlign(n) && n > 0
    decreases ds
  {
    if ds == [] then 1
    else Max(ListAlign(a, ds[..|ds| - 1]), AlignOf(a, ds[|ds| - 1]))
  }

  function SizeOf(a: Arch, d: Def): nat
    decreases d
  {
    match d
    case Leaf(t, e) => FieldSize(a, FieldOf(t, e))
    case Sub(items) => RoundUp(End(a, items), ListAlign(a, items))
    case Uni(items) => RoundUp(MaxSize(a, items), ListAlign(a, items))
  }

  /** Where the last member of a structure ends. */
  function End(a: Arch, ds: seq<Def>): nat
    decreases ds
  {
    if ds == [] then 0
    else RoundUp(End(a, ds[..|ds| - 1]), AlignOf(a, ds[|ds| - 1])) + SizeOf(a, ds[|ds| - 1])
  }

  function MaxSize(a: Arch, ds: seq<Def>): nat
    decreases ds
  {
    if ds == [] then 0
    else Max(MaxSize(a, ds[..|ds| - 1]), SizeOf(a, ds[|ds| - 1]))
  }

  /** The offset of member `i` of a structure. */
  function StartOf(a: Arch, ds: seq<Def>, i: nat): nat
    requires i < |ds|
  {
    RoundUp(End(a, ds[..i]), AlignOf(a, ds[i]))
  }

  /** Every leaf of `d`, when `d` is put at `base`. */
  function Place(a: Arch, d: Def, base: nat): map<string, Slot>
    decreases d
  {
    match d
    case Leaf(t, e) => var f := FieldOf(t, e); map[f.name := Slot(f.ctype, base, FieldSize(a, f))]
    case Sub(items) => PlaceStruct(a, items, base)
    case Uni(items) => PlaceUnion(a, items, base)
  }

  function PlaceStruct(a: Arch, ds: seq<Def>, base: nat): map<string, Slot>
    decreases ds
  {
    if ds == [] then map[]
    else PlaceStruct(a, ds[..|ds| - 1], base)
         + Place(a, ds[|ds| - 1], base + StartOf(a, ds, |ds| - 1))
  }

  function PlaceUnion(a: Arch, ds: seq<Def>, base: nat): map<string, Slot>
    decreases ds
  {
    if ds == [] then map[]
    else PlaceUnion(a, ds[..|ds| - 1], base) + Place(a, ds[|ds| - 1], base)
  }

  predicate UnionFree(d: Def)
    decreases d
  {
    match d
    case Leaf(_, _) => true
    case Sub(items) => UnionFreeList(items)
    case Uni(_) => false
  }

  predicate UnionFreeList(ds: seq<Def>)
    decreases ds
  {
    ds == [] || (UnionFreeList(ds[..|ds| - 1]) && UnionFree(ds[|ds| - 1]))
  }

  /** Exactly the lists in which no union occurs at any depth. */
  lemma {:induction false} UnionFreeIs(ds: seq<Def>)
    ensures UnionFreeList(ds) <==>
            forall i :: 0 <= i < |ds| ==> !ds[i].Uni? && (ds[i].Sub? ==> UnionFreeList(ds[i].items))
  {
    if ds != [] {
      var n := |ds| - 1;
      UnionFreeIs(ds[..n]);
      assert forall i :: 0 <= i < n ==> ds[..n][i] == ds[i];
      assert ds[n].Leaf? || ds[n].Sub? || ds[n].Uni?;
    }
  }

  // ----- facts about the reference

  lemma {:induction false} PlaceKeys(a: Arch, d: Def, base: nat)
    ensures Place(a, d, base).Keys == Names(d)
    decreases d
  {
    match d
    case Leaf(_, _) =>
    case Sub(items) => PlaceStructKeys(a, items, base);
    case Uni(items) => PlaceUnionKeys(a, items, base);
  }

  lemma {:induction false} PlaceStructKeys(a: Arch, ds: seq<Def>, base: nat)
    ensures PlaceStruct(a, ds, base).Keys == ListNames(ds)
    decreases ds
  {
    hide Place, Names, StartOf;
    if ds != [] {
      PlaceStructKeys(a, ds[..|ds| - 1], base);
      PlaceKeys(a, ds[|ds| - 1], base + StartOf(a, ds, |ds| - 1));
    }
  }

  lemma {:induction false} PlaceUnionKeys(a: Arch, ds: seq<Def>, base: nat)
    ensures PlaceUnion(a, ds, base).Keys == ListNames(ds)
    decreases ds
  {
    if ds != [] {
      PlaceUnionKeys(a, ds[..|ds| - 1], base);
      PlaceKeys(a, ds[|ds| - 1], base);
    }
  }

  /** Sizes are multiples of alignments, so arrays of a type need no gaps. */
  lemma {:induction false} SizeMultiple(a: Arch, d: Def)
    ensures Aligned(SizeOf(a, d), AlignOf(a, d))
  {
    match d
    case Leaf(t, e) =>
      var f := FieldOf(t, e);
      AlignedIsMultiple(MemSize(a, f.ctype), AlignSize(a, f.ctype));
      MulMultiple(Elements(f), MemSize(a, f.ctype), AlignSize(a, f.ctype));
    case Sub(items) => RoundUpLeast(End(a, items), ListAlign(a, items));
    case Uni(items) => RoundUpLeast(MaxSize(a, items), ListAlign(a, items));
  }

  /** A leaf `s` of something of the given size at `base` lies inside it, suitably aligned. */
  predicate Fits(a: Arch, s: Slot, base: nat, size: nat) {
    base <= s.offset && s.offset + s.size <= base + size && Aligned(s.offset, AlignSize(a, s.ctype))
  }

  predicate AllFit(a: Arch, m: map<string, Slot>, base: nat, size: nat) {
    forall k :: k in m ==> Fits(a, m[k], base, size)
  }

  /** Two groups of leaves inside parts of a range are together inside it. */
  lemma AllFitJoin(a: Arch, m: map<string, Slot>, n: map<string, Slot>,
                   base: nat, size: nat, base': nat, size': nat, whole: nat)
    requires AllFit(a, m, base, size) && AllFit(a, n, base', size')
    requires size <= whole && base <= base' && base' + size' <= base + whole
    ensures AllFit(a, m + n, base, whole)
  {
  }

  /** Every leaf is aligned for its own type and lies within the thing that contains it. */
  lemma {:induction false} PlaceFits(a: Arch, d: Def, base: nat)
    requires Aligned(base, AlignOf(a, d))
    ensures AllFit(a, Place(a, d, base), base, SizeOf(a, d))
    decreases d
  {
    match d
    case Leaf(_, _) =>
    case Sub(items) =>
      PlaceStructFits(a, items, base, ListAlign(a, items));
      RoundUpLeast(End(a, items), ListAlign(a, items));
    case Uni(items) =>
      PlaceUnionFits(a, items, base, ListAlign(a, items));
      RoundUpLeast(MaxSize(a, items), ListAlign(a, items));
  }

  /** One step of the recursion over a member list, as equations. */
  lemma ListStep(a: Arch, ds: seq<Def>, base: nat)
    requires ds != []
    ensures var init, d := ds[..|ds| - 1], ds[|ds| - 1];
            var start := StartOf(a, ds, |ds| - 1);
            PlaceStruct(a, ds, base) == PlaceStruct(a, init, base) + Place(a, d, base + start)
            && PlaceUnion(a, ds, base) == PlaceUnion(a, init, base) + Place(a, d, base)
            && ListAlign(a, init) <= ListAlign(a, ds) && AlignOf(a, d) <= ListAlign(a, ds)
            && MaxSize(a, init) <= MaxSize(a, ds) && SizeOf(a, d) <= MaxSize(a, ds)
            && End(a, ds) == start + SizeOf(a, d)
            && start == RoundUp(End(a, init), AlignOf(a, d))
  {
  }

  lemma ListEmpty(a: Arch, base: nat)
    ensures PlaceStruct(a, [], base) == map[] && PlaceUnion(a, [], base) == map[]
    ensures forall size :: AllFit(a, map[], base, size)
    ensures AllApart(map[])
  {
  }

  lemma {:induction false} PlaceStructFits(a: Arch, ds: seq<Def>, base: nat, al: nat)
    requires IsAlign(al) && ListAlign(a, ds) <= al && Aligned(base, al)
    ensures AllFit(a, PlaceStruct(a, ds, base), base, End(a, ds))
    decreases ds
  {
    hide *;
    if ds == [] { ListEmpty(a, base); return; }
    var init, d := ds[..|ds| - 1], ds[|ds| - 1];
    var start := StartOf(a, ds, |ds| - 1);
    ListStep(a, ds, base);
    RoundUpFrom(base, End(a, init), AlignOf(a, d), al);
    PlaceStructFits(a, init, base, al);
    PlaceFits(a, d, base + start);
    AllFitJoin(a, PlaceStruct(a, init, base), Place(a, d, base + start),
      base, End(a, init), base + start, SizeOf(a, d), End(a, ds));
  }

  lemma {:induction false} PlaceUnionFits(a: Arch, ds: seq<Def>, base: nat, al: nat)
    requires IsAlign(al) && ListAlign(a, ds) <= al && Aligned(base, al)
    ensures AllFit(a, PlaceUnion(a, ds, base), base, MaxSize(a, ds))
    decreases ds
  {
    hide *;
    if ds == [] { ListEmpty(a, base); return; }
    var init, d := ds[..|ds| - 1], ds[|ds| - 1];
    ListStep(a, ds, base);
    AlignDivides(base, AlignOf(a, d), al);
    PlaceUnionFits(a, init, base, al);
    PlaceFits(a, d, base);
    AllFitJoin(a, PlaceUnion(a, init, base), Place(a, d, base),
      base, MaxSize(a, init), base, SizeOf(a, d), MaxSize(a, ds));
  }

  predicate Apart(s: Slot, t: Slot) {
    s.offset + s.size <= t.offset || t.offset + t.size <= s.offset
  }

  predicate AllApart(m: map<string, Slot>) {
    forall j, k :: j in m && k in m && j != k ==> Apart(m[j], m[k])
  }

  lemma ApartSides(a: Arch, m: map<string, Slot>, n: map<string, Slot>, b: nat, s: nat, c: nat, t: nat)
    requires AllApart(m) && AllApart(n) && AllFit(a, m, b, s) && AllFit(a, n, c, t) && b + s <= c
    requires m.Keys !! n.Keys
    ensures AllApart(m + n)
  {
    forall j, k | j in m + n && k in m + n && j != k ensures Apart((m + n)[j], (m + n)[k]) {
      if j in n {
        assert Fits(a, n[j], c, t);
      } else {
        assert Fits(a, m[j], b, s);
      }
      if k in n {
        assert Fits(a, n[k], c, t);
      } else {
        assert Fits(a, m[k], b, s);
      }
    }
  }

  /** Without unions no two leaves share a byte. */
  lemma {:induction false} PlaceApart(a: Arch, d: Def, base: nat, inUnion: bool)
    requires AcceptedDef(d, inUnion) && UnionFree(d) && Aligned(base, AlignOf(a, d))
    ensures AllApart(Place(a, d, base))
    decreases d
  {
    match d
    case Leaf(_, _) =>
    case Sub(items) => PlaceStructApart(a, items, base, ListAlign(a, items));
  }

  lemma AcceptedStep(ds: seq<Def>)
    requires ds != [] && AcceptedList(ds, false) && UnionFreeList(ds)
    ensures var init, d := ds[..|ds| - 1], ds[|ds| - 1];
            AcceptedList(init, false) && AcceptedDef(d, false) && ListNames(init) !! Names(d)
            && UnionFreeList(init) && UnionFree(d)
  {
  }

  lemma {:induction false} PlaceStructApart(a: Arch, ds: seq<Def>, base: nat, al: nat)
    requires AcceptedList(ds, false) && UnionFreeList(ds)
    requires IsAlign(al) && ListAlign(a, ds) <= al && Aligned(base, al)
    ensures AllApart(PlaceStruct(a, ds, base))
    decreases ds
  {
    hide *;
    if ds == [] { ListEmpty(a, base); return; }
    var init, d := ds[..|ds| - 1], ds[|ds| - 1];
    var start := StartOf(a, ds, |ds| - 1);
    ListStep(a, ds, base);
    AcceptedStep(ds);
    RoundUpFrom(base, End(a, init), AlignOf(a, d), al);
    PlaceStructApart(a, init, base, al);
    PlaceStructFits(a, init, base, al);
    PlaceApart(a, d, base + start, false);
    PlaceFits(a, d, base + start);
    PlaceStructKeys(a, init, base);
    PlaceKeys(a, d, base + start);
    ApartSides(a, PlaceStruct(a, init, base), Place(a, d, base + start),
      base, End(a, init), base + start, SizeOf(a, d));
  }

  /** Member `i` starts at the lowest suitably aligned offset past the members before it. */
  lemma StartLeast(a: Arch, ds: seq<Def>, i: nat, at: nat)
    requires i < |ds| && End(a, ds[..i]) <= at && Aligned(at, AlignOf(a, ds[i]))
    ensures StartOf(a, ds, i) <= at
    ensures End(a, ds[..i]) <= StartOf(a, ds, i) && Aligned(StartOf(a, ds, i), AlignOf(a, ds[i]))
  {
    RoundUpLeast(End(a, ds[..i]), AlignOf(a, ds[i]));
  }

  lemma {:induction false} MaxSizeBound(a: Arch, ds: seq<Def>, d: Def)
    requires d in ds
    ensures SizeOf(a, d) <= MaxSize(a, ds) && AlignOf(a, d) <= ListAlign(a, ds)
    decreases |ds|
  {
    var init := ds[..|ds| - 1];
    if d != ds[|ds| - 1] {
      assert d in init;
      MaxSizeBound(a, init, d);
    }
  }

  /** Bounds on the members bound the whole union. */
  lemma {:induction false} MaxSizeLeast(a: Arch, ds: seq<Def>, size: nat, al: nat)
    requires al >= 1 && forall d :: d in ds ==> SizeOf(a, d) <= size && AlignOf(a, d) <= al
    ensures MaxSize(a, ds) <= size && ListAlign(a, ds) <= al
    decreases |ds|
  {
    if ds != [] {
      var init := ds[..|ds| - 1];
      assert forall d :: d in init ==> d in ds;
      assert ds[|ds| - 1] in ds;
      MaxSizeLeast(a, init, size, al);
    }
  }

  lemma UnionWithin(a: Arch, ds: seq<Def>, es: seq<Def>)
    requires forall d :: d in ds ==> d in es
    ensures MaxSize(a, ds) <= MaxSize(a, es) && ListAlign(a, ds) <= ListAlign(a, es)
  {
    forall d | d in ds ensures SizeOf(a, d) <= MaxSize(a, es) && AlignOf(a, d) <= ListAlign(a, es) {
      MaxSizeBound(a, es, d);
    }
    MaxSizeLeast(a, ds, MaxSize(a, es), ListAlign(a, es));
  }
}
