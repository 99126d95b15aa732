/** From a definition to the lens laws: what `CreateStruct` builds is fit for its instances. */
module FlatStructs {
  import opened CTypes
  import opened Rounding
  import opened Definitions
  import opened Layout
  import opened Compile
  import opened CompileTheorem
  import Instances

  /** The element counts of the leaves that are not inside any union. */
  function Counts(d: Def): map<string, nat>
    decreases d
  {
    match d
    case Leaf(t, e) => map[FieldOf(t, e).name := Elements(FieldOf(t, e))]
    case Sub(items) => ListCounts(items)
    case Uni(_) => map[]
  }

  function ListCounts(ds: seq<Def>): map<string, nat>
    decreases ds
  {
    if ds == [] then map[] else ListCounts(ds[..|ds| - 1]) + Counts(ds[|ds| - 1])
  }

  /** The recorded extent is the whole size of the member. */
  predicate Exact(a: Arch, t: Table, counts: map<string, nat>) {
    forall k :: k in counts ==>
      k in t && counts[k] > 0 && t[k].extent == counts[k] * MemSize(a, t[k].ctype)
  }

  lemma {:induction false} CountsNames(d: Def)
    ensures Counts(d).Keys <= Names(d)
    ensures UnionFree(d) ==> Counts(d).Keys == Names(d)
    decreases d
  {
    match d
    case Leaf(_, _) =>
    case Sub(items) => ListCountsNames(items);
    case Uni(_) =>
  }

  lemma {:induction false} ListCountsNames(ds: seq<Def>)
    ensures ListCounts(ds).Keys <= ListNames(ds)
    ensures UnionFreeList(ds) ==> ListCounts(ds).Keys == ListNames(ds)
    decreases ds
  {
    if ds != [] {
      ListCountsNames(ds[..|ds| - 1]);
      CountsNames(ds[|ds| - 1]);
    }
  }

  lemma ExactJoin(a: Arch, t: Table, counts: map<string, nat>, t': Table, counts': map<string, nat>)
    requires Exact(a, t, counts) && Exact(a, t', counts') && t.Keys !! t'.Keys
    ensures Exact(a, t + t', counts + counts')
  {
  }

  lemma ExactShifted(a: Arch, t: Table, counts: map<string, nat>, base: nat)
    requires Exact(a, t, counts)
    ensures Exact(a, Shifted(t, base, 0), counts)
  {
  }

  /** What one loop turn of `CreateStruct` adds to the table. */
  function Added(a: Arch, c: Cursor, d: Def): Table
    requires IsAlign(c.align) && StructStep(a, c, d).Some?
  {
    match d
    case Leaf(t, e) =>
      var f := FieldOf(t, e);
      map[f.name := Info(f.ctype, RoundUp(c.next, AlignSize(a, f.ctype)), FieldBytes(a, f))]
    case Sub(items) =>
      var child := CompileStruct(a, items).value;
      Shifted(child.table, RoundUp(c.next, child.align), 0)
    case Uni(items) =>
      var child := CompileUnion(a, items).value;
      Shifted(child.table, RoundUp(c.last, child.align), RoundUp(c.last, child.align))
  }

  lemma StepTable(a: Arch, c: Cursor, d: Def)
    requires IsAlign(c.align) && StructStep(a, c, d).Some?
    ensures StructStep(a, c, d).value.table == c.table + Added(a, c, d) && c.table.Keys !! Added(a, c, d).Keys
  {
    hide FieldBytes, RoundUp, CompileStruct, CompileUnion, Shifted, MemSize, AlignSize;
    match d {
      case Leaf(t, e) => InsertOne(c.table, FieldOf(t, e).name, Added(a, c, d)[FieldOf(t, e).name]);
      case Sub(items) => ShiftedNames(CompileStruct(a, items).value.table);
      case Uni(items) => ShiftedNames(CompileUnion(a, items).value.table);
    }
  }

  lemma InsertOne(t: Table, k: string, m: Info)
    ensures t[k := m] == t + map[k := m]
  {
  }

  lemma ShiftedNames(t: Table)
    ensures forall base: nat, grow: nat :: Shifted(t, base, grow).Keys == t.Keys
  {
  }

  lemma LoopLast(a: Arch, ds: seq<Def>)
    requires StructLoop(a, ds).Some? && ds != []
    ensures var init, d := ds[..|ds| - 1], ds[|ds| - 1];
            StructLoop(a, init).Some? && StructStep(a, StructLoop(a, init).value, d) == StructLoop(a, ds)
  {
    hide StructStep;
  }

  lemma CountsLast(ds: seq<Def>)
    requires ds != []
    ensures ListCounts(ds) == ListCounts(ds[..|ds| - 1]) + Counts(ds[|ds| - 1])
  {
  }

  lemma NothingExact(a: Arch, t: Table)
    ensures Exact(a, t, ListCounts([]))
  {
  }

  /** Outside unions the extents that guard array accesses are the members' true sizes. */
  lemma {:induction false} ExtentsExact(a: Arch, ds: seq<Def>)
    requires StructLoop(a, ds).Some?
    ensures Exact(a, StructLoop(a, ds).value.table, ListCounts(ds))
    decreases ds, 1
  {
    hide *;
    if ds == [] {
      NothingExact(a, StructLoop(a, ds).value.table);
    } else {
      var init, d := ds[..|ds| - 1], ds[|ds| - 1];
      LoopLast(a, ds);
      CountsLast(ds);
      StepTable(a, StructLoop(a, init).value, d);
      ExtentsExact(a, init);
      AddedExact(a, StructLoop(a, init).value, d);
      ExactJoin(a, StructLoop(a, init).value.table, ListCounts(init), Added(a, StructLoop(a, init).value, d), Counts(d));
    }
  }

  lemma {:induction false} AddedExact(a: Arch, c: Cursor, d: Def)
    requires IsAlign(c.align) && StructStep(a, c, d).Some?
    ensures Exact(a, Added(a, c, d), Counts(d))
    decreases d, 0
  {
    hide RoundUp;
    match d {
      case Leaf(_, _) =>
      case Sub(items) =>
        var child := CompileStruct(a, items).value;
        ExtentsExact(a, items);
        ExactShifted(a, child.table, ListCounts(items), RoundUp(c.next, child.align));
      case Uni(_) =>
    }
  }

  lemma {:induction false} UnionFreeSeparated(a: Arch, ds: seq<Def>)
    requires UnionFreeList(ds)
    ensures Separated(a, ds)
    decreases ds
  {
    if ds != [] {
      var init, d := ds[..|ds| - 1], ds[|ds| - 1];
      UnionFreeSeparated(a, init);
      assert init != [] ==> UnionFree(init[|init| - 1]);
      assert ClearsUnion(a, init, d);
      if d.Sub? {
        UnionFreeSeparated(a, d.items);
      }
    }
  }

  predicate ExactRef(a: Arch, ref: map<string, Slot>, counts: map<string, nat>) {
    forall k :: k in counts ==> k in ref && ref[k].size == counts[k] * MemSize(a, ref[k].ctype)
  }

  lemma ExactRefJoin(a: Arch, m: map<string, Slot>, counts: map<string, nat>, n: map<string, Slot>, counts': map<string, nat>)
    requires ExactRef(a, m, counts) && ExactRef(a, n, counts') && m.Keys !! n.Keys
    ensures ExactRef(a, m + n, counts + counts')
  {
  }

  lemma {:induction false} PlaceSizes(a: Arch, d: Def, base: nat, inUnion: bool)
    requires AcceptedDef(d, inUnion)
    ensures ExactRef(a, Place(a, d, base), Counts(d))
    decreases d
  {
    match d
    case Leaf(_, _) =>
    case Sub(items) => PlaceStructSizes(a, items, base);
    case Uni(_) =>
  }

  lemma NothingExactRef(a: Arch, ref: map<string, Slot>)
    ensures ExactRef(a, ref, ListCounts([]))
  {
  }

  lemma CountsStep(ds: seq<Def>)
    requires ds != [] && AcceptedList(ds, false)
    ensures var init, d := ds[..|ds| - 1], ds[|ds| - 1];
            && ListCounts(ds) == ListCounts(init) + Counts(d)
            && AcceptedList(init, false) && AcceptedDef(d, false) && ListNames(init) !! Names(d)
  {
  }

  lemma {:induction false} PlaceStructSizes(a: Arch, ds: seq<Def>, base: nat)
    requires AcceptedList(ds, false)
    ensures ExactRef(a, PlaceStruct(a, ds, base), ListCounts(ds))
    decreases ds
  {
    hide *;
    if ds == [] {
      NothingExactRef(a, PlaceStruct(a, ds, base));
    } else {
      var init, d := ds[..|ds| - 1], ds[|ds| - 1];
      var start := StartOf(a, ds, |ds| - 1);
      CountsStep(ds);
      ListStep(a, ds, base);
      PlaceStructSizes(a, init, base);
      PlaceSizes(a, d, base + start, false);
      PlaceStructKeys(a, init, base);
      PlaceKeys(a, d, base + start);
      ExactRefJoin(a, PlaceStruct(a, init, base), ListCounts(init), Place(a, d, base + start), Counts(d));
    }
  }

  /** Every accepted union-free definition compiles to a table whose members are aligned, do not
      share a byte and lie inside the finished size: the lens laws hold for its instances. */
  lemma FlatWellPlaced(a: Arch, ds: seq<Def>)
    requires ds != [] && AcceptedList(ds, false) && UnionFreeList(ds)
    ensures CompileStruct(a, ds).Some?
    ensures var c := CompileStruct(a, ds).value;
            && Instances.WellPlaced(a, c.table, ListCounts(ds), c.next)
            && forall k :: k in c.table ==> Aligned(c.table[k].offset, AlignSize(a, c.table[k].ctype))
  {
    var ref, counts := PlaceStruct(a, ds, 0), ListCounts(ds);
    LayoutTheorem(a, ds);
    var c := CompileStruct(a, ds).value;
    UnionFreeSeparated(a, ds);
    ExtentsExact(a, ds);
    PlaceStructSizes(a, ds, 0);
    ListCountsNames(ds);
    PlaceStructFits(a, ds, 0, ListAlign(a, ds));
    PlaceStructApart(a, ds, 0, ListAlign(a, ds));
    RoundUpLeast(End(a, ds), ListAlign(a, ds));
    FromReference(a, c.table, ref, counts, c.next, End(a, ds));
  }

  lemma FromReference(a: Arch, t: Table, ref: map<string, Slot>, counts: map<string, nat>, size: nat, end: nat)
    requires Same(t, ref) && Exact(a, t, counts) && ExactRef(a, ref, counts) && counts.Keys == t.Keys
    requires AllFit(a, ref, 0, end) && AllApart(ref) && end <= size
    ensures Instances.WellPlaced(a, t, counts, size)
    ensures forall k :: k in t ==> Aligned(t[k].offset, AlignSize(a, t[k].ctype))
  {
    forall k | k in t
      ensures t[k].extent == ref[k].size && Fits(a, ref[k], 0, end)
    {
    }
    forall j, k | j in t && k in t && j != k ensures Instances.Apart(t[j], t[k]) {
      assert Apart(ref[j], ref[k]);
    }
  }
}
