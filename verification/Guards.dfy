/** The byte extents that guard array accesses: what `CreateStruct` records for every leaf, inside
    unions and out, and exactly which leaves that leaves unguarded. */
module Guards {
  import opened Options
  import opened CTypes
  import opened Rounding
  import opened Definitions
  import opened Layout
  import opened Compile
  import opened CompileTheorem
  import FlatStructs
  import opened Instances
  import TypeLookup
  import Unions

  // ----- where the code puts things, from the definition alone

  /** The bytes the code takes for an element. */
  function CodeBytes(a: Arch, d: Def): nat
    decreases d, 0
  {
    match d
    case Leaf(t, e) => FieldSize(a, FieldOf(t, e))
    case Sub(items) => RoundUp(CodeEnd(a, items), ListAlign(a, items))
    case Uni(items) => RoundUp(Largest(a, items), ListAlign(a, items))
  }

  /** `nextoffset` after a list of members. */
  function CodeEnd(a: Arch, ds: seq<Def>): nat
    decreases ds, 1
  {
    if ds == [] then 0
    else
      var init, d := ds[..|ds| - 1], ds[|ds| - 1];
      (if d.Uni? then UnionBase(a, init, d) else RoundUp(CodeEnd(a, init), AlignOf(a, d))) + CodeBytes(a, d)
  }

  /** `lastoffset` after a list of members: a union leaves it at its own start. */
  function CodeLast(a: Arch, ds: seq<Def>): nat
    decreases ds, 2
  {
    if ds == [] then 0
    else if ds[|ds| - 1].Uni? then UnionBase(a, ds[..|ds| - 1], ds[|ds| - 1])
    else CodeEnd(a, ds)
  }

  /** Where a union goes that follows `init` in a structure. */
  function UnionBase(a: Arch, init: seq<Def>, d: Def): nat
    decreases init, 3
  {
    RoundUp(CodeLast(a, init), AlignOf(a, d))
  }

  function Largest(a: Arch, ds: seq<Def>): nat
    decreases ds, 1
  {
    if ds == [] then 0 else Max(Largest(a, ds[..|ds| - 1]), CodeBytes(a, ds[|ds| - 1]))
  }

  /** The running size of a union: a nested list starts it afresh. */
  function Running(a: Arch, ds: seq<Def>): nat
    decreases ds, 1
  {
    if ds == [] then 0
    else
      var d := ds[|ds| - 1];
      if d.Leaf? then Max(MemSize(a, FieldOf(d.ctype, d.elem).ctype), RoundUp(Running(a, ds[..|ds| - 1]), AlignOf(a, d)))
      else CodeBytes(a, d)
  }

  // ----- the recorded extents

  /** The element counts of all leaves. */
  function LeafCounts(d: Def): map<string, nat>
    decreases d
  {
    match d
    case Leaf(t, e) => map[FieldOf(t, e).name := Elements(FieldOf(t, e))]
    case Sub(items) => AllCounts(items)
    case Uni(items) => AllCounts(items)
  }

  function AllCounts(ds: seq<Def>): map<string, nat>
    decreases ds
  {
    if ds == [] then map[] else AllCounts(ds[..|ds| - 1]) + LeafCounts(ds[|ds| - 1])
  }

  function Raised(excess: map<string, nat>, base: nat): map<string, nat> {
    map k | k in excess :: excess[k] + base
  }

  /** By how many bytes the recorded extent of each leaf of a structure exceeds the leaf: the sum of
      the bases at which the unions around it were inserted, and for a direct member of a union what
      the union's running size exceeds it by. */
  function Excess(a: Arch, ds: seq<Def>): map<string, nat>
    decreases ds, 1
  {
    if ds == [] then map[]
    else
      var init, d := ds[..|ds| - 1], ds[|ds| - 1];
      Excess(a, init) + MemberExcess(a, init, d)
  }

  function MemberExcess(a: Arch, init: seq<Def>, d: Def): map<string, nat>
    decreases d, 0
  {
    match d
    case Leaf(t, e) => map[FieldOf(t, e).name := 0]
    case Sub(items) => Excess(a, items)
    case Uni(items) => Raised(UnionExcess(a, items), UnionBase(a, init, d))
  }

  function UnionExcess(a: Arch, ds: seq<Def>): map<string, nat>
    decreases ds, 1
  {
    if ds == [] then map[]
    else
      var init, d := ds[..|ds| - 1], ds[|ds| - 1];
      UnionExcess(a, init) + AlternativeExcess(a, init, d)
  }

  function AlternativeExcess(a: Arch, init: seq<Def>, d: Def): map<string, nat>
    decreases d, 0
  {
    match d
    case Leaf(t, e) =>
      var f := FieldOf(t, e);
      map[f.name := Max(0, RoundUp(Running(a, init), AlignOf(a, d)) - MemSize(a, f.ctype))]
    case Sub(items) => Excess(a, items)
    case Uni(items) => UnionExcess(a, items)
  }

  /** Each extent is the leaf's own size plus its excess. */
  predicate Extents(a: Arch, t: Table, counts: map<string, nat>, excess: map<string, nat>) {
    && t.Keys == counts.Keys == excess.Keys
    && forall k :: k in t ==> counts[k] > 0 && t[k].extent == counts[k] * MemSize(a, t[k].ctype) + excess[k]
  }

  lemma ExtentsJoin(a: Arch, t: Table, c: map<string, nat>, x: map<string, nat>,
                    t': Table, c': map<string, nat>, x': map<string, nat>)
    requires Extents(a, t, c, x) && Extents(a, t', c', x') && t.Keys !! t'.Keys
    ensures Extents(a, t + t', c + c', x + x')
  {
  }

  lemma ExtentsShifted(a: Arch, t: Table, c: map<string, nat>, x: map<string, nat>, base: nat, grow: nat)
    requires Extents(a, t, c, x)
    ensures Extents(a, Shifted(t, base, grow), c, Raised(x, grow))
    ensures grow == 0 ==> Raised(x, grow) == x
  {
  }

  lemma ExtentsOne(a: Arch, k: string, m: Info, n: nat, excess: nat)
    requires n > 0 && m.extent == n * MemSize(a, m.ctype) + excess
    ensures Extents(a, map[k := m], map[k := n], map[k := excess])
  {
  }

  /** The recursions over a member list, as equations. */
  lemma LastOf(a: Arch, ds: seq<Def>)
    requires ds != []
    ensures var init, d := ds[..|ds| - 1], ds[|ds| - 1];
            && AllCounts(ds) == AllCounts(init) + LeafCounts(d)
            && Excess(a, ds) == Excess(a, init) + MemberExcess(a, init, d)
            && UnionExcess(a, ds) == UnionExcess(a, init) + AlternativeExcess(a, init, d)
            && Largest(a, ds) == Max(Largest(a, init), CodeBytes(a, d))
            && CodeEnd(a, ds) == (if d.Uni? then UnionBase(a, init, d) else RoundUp(CodeEnd(a, init), AlignOf(a, d)))
                                 + CodeBytes(a, d)
            && CodeLast(a, ds) == (if d.Uni? then UnionBase(a, init, d) else CodeEnd(a, ds))
            && UnionBase(a, init, d) == RoundUp(CodeLast(a, init), AlignOf(a, d))
            && Running(a, ds) == (if d.Leaf? then Max(MemSize(a, FieldOf(d.ctype, d.elem).ctype),
                                                      RoundUp(Running(a, init), AlignOf(a, d)))
                                  else CodeBytes(a, d))
  {
    hide RoundUp, AlignOf, MemSize;
  }

  lemma GroupIs(a: Arch, d: Def, init: seq<Def>)
    requires !d.Leaf?
    ensures LeafCounts(d) == AllCounts(d.items)
    ensures d.Sub? ==> MemberExcess(a, init, d) == AlternativeExcess(a, init, d) == Excess(a, d.items)
                       && CodeBytes(a, d) == RoundUp(CodeEnd(a, d.items), ListAlign(a, d.items))
    ensures d.Uni? ==> MemberExcess(a, init, d) == Raised(UnionExcess(a, d.items), UnionBase(a, init, d))
                       && AlternativeExcess(a, init, d) == UnionExcess(a, d.items)
                       && CodeBytes(a, d) == RoundUp(Largest(a, d.items), ListAlign(a, d.items))
    ensures AlignOf(a, d) == ListAlign(a, d.items)
  {
    hide RoundUp;
  }

  // ----- what the compiler records

  /** The state after a structure's member list. */
  predicate StructState(a: Arch, ds: seq<Def>, c: Cursor) {
    && c.next == CodeEnd(a, ds) && c.last == CodeLast(a, ds) && c.align == ListAlign(a, ds)
    && Extents(a, c.table, AllCounts(ds), Excess(a, ds))
  }

  predicate UnionStateOf(a: Arch, ds: seq<Def>, c: Cursor) {
    && c.next == Running(a, ds) && c.last == 0 && c.align == ListAlign(a, ds)
    && Extents(a, c.table, AllCounts(ds), UnionExcess(a, ds))
    && CodeMax(a, ds) == Largest(a, ds)
  }

  /** A finished child. */
  predicate ChildState(a: Arch, d: Def, c: Cursor)
    requires !d.Leaf?
  {
    && c.next == CodeBytes(a, d) && c.align == AlignOf(a, d)
    && Extents(a, c.table, AllCounts(d.items), if d.Sub? then Excess(a, d.items) else UnionExcess(a, d.items))
  }

  /** A table after one more member. */
  lemma StructMore(a: Arch, ds: seq<Def>, c: Cursor, t: Table, c': Cursor)
    requires ds != [] && StructState(a, ds[..|ds| - 1], c) && c.table.Keys !! t.Keys
    requires Extents(a, t, LeafCounts(ds[|ds| - 1]), MemberExcess(a, ds[..|ds| - 1], ds[|ds| - 1]))
    requires c'.table == c.table + t && c'.align == Max(AlignOf(a, ds[|ds| - 1]), c.align)
    requires c'.next == CodeEnd(a, ds) && c'.last == CodeLast(a, ds)
    ensures StructState(a, ds, c')
  {
    hide *;
    var init, d := ds[..|ds| - 1], ds[|ds| - 1];
    StateParts(a, init, c);
    StateParts(a, ds, c');
    LastOf(a, ds);
    AlignLast(a, ds);
    ExtentsJoin(a, c.table, AllCounts(init), Excess(a, init), t, LeafCounts(d), MemberExcess(a, init, d));
  }

  lemma StateParts(a: Arch, ds: seq<Def>, c: Cursor)
    ensures StructState(a, ds, c) <==>
            && c.next == CodeEnd(a, ds) && c.last == CodeLast(a, ds) && c.align == ListAlign(a, ds)
            && Extents(a, c.table, AllCounts(ds), Excess(a, ds))
    ensures UnionStateOf(a, ds, c) <==>
            && c.next == Running(a, ds) && c.last == 0 && c.align == ListAlign(a, ds)
            && Extents(a, c.table, AllCounts(ds), UnionExcess(a, ds)) && CodeMax(a, ds) == Largest(a, ds)
  {
  }

  lemma AlignLast(a: Arch, ds: seq<Def>)
    requires ds != []
    ensures ListAlign(a, ds) == Max(ListAlign(a, ds[..|ds| - 1]), AlignOf(a, ds[|ds| - 1]))
    ensures IsAlign(ListAlign(a, ds)) && IsAlign(AlignOf(a, ds[|ds| - 1]))
    ensures CodeMax(a, ds) == Max(CodeMax(a, ds[..|ds| - 1]), CodeSize(a, ds[|ds| - 1]))
  {
    hide AlignOf, CodeSize;
  }

  lemma {:induction false} StructCursors(a: Arch, ds: seq<Def>)
    requires StructLoop(a, ds).Some?
    ensures StructState(a, ds, StructLoop(a, ds).value)
    decreases ds, 1
  {
    hide *;
    if ds == [] {
      StartState(a);
      return;
    }
    var init, d := ds[..|ds| - 1], ds[|ds| - 1];
    FlatStructs.LoopLast(a, ds);
    var c, c' := StructLoop(a, init).value, StructLoop(a, ds).value;
    StructCursors(a, init);
    StateParts(a, init, c);
    LastOf(a, ds);
    match d {
      case Leaf(_, _) => StructLeafMore(a, ds, c, c');
      case Sub(items) =>
        NestedStep(a, c, d, c');
        ChildCursors(a, d);
        StructSubMore(a, ds, c, CompileStruct(a, items).value, c');
      case Uni(items) =>
        NestedStep(a, c, d, c');
        ChildCursors(a, d);
        StructUniMore(a, ds, c, CompileUnion(a, items).value, c');
    }
  }

  lemma StartState(a: Arch)
    ensures StructLoop(a, []).Some? && StructState(a, [], StructLoop(a, []).value)
    ensures UnionLoop(a, []).Some? && UnionStateOf(a, [], UnionLoop(a, []).value.c)
  {
  }

  lemma NestedStep(a: Arch, c: Cursor, d: Def, c': Cursor)
    requires !d.Leaf? && IsAlign(c.align) && StructStep(a, c, d) == Some(c')
    ensures d.Sub? ==> CompileStruct(a, d.items).Some? && Compile.InsertStruct(c, CompileStruct(a, d.items).value) == Some(c')
    ensures d.Uni? ==> CompileUnion(a, d.items).Some? && Compile.InsertUnion(c, CompileUnion(a, d.items).value) == Some(c')
  {
  }

  lemma StructLeafMore(a: Arch, ds: seq<Def>, c: Cursor, c': Cursor)
    requires ds != [] && ds[|ds| - 1].Leaf? && StructState(a, ds[..|ds| - 1], c) && IsAlign(c.align)
    requires StructStep(a, c, ds[|ds| - 1]) == Some(c')
    ensures StructState(a, ds, c')
  {
    hide *;
    var init, d := ds[..|ds| - 1], ds[|ds| - 1];
    var f := FieldOf(d.ctype, d.elem);
    StateParts(a, init, c);
    LastOf(a, ds);
    LeafStep(a, c, d, init, c');
    var t := map[f.name := Info(f.ctype, RoundUp(c.next, AlignOf(a, d)), FieldBytes(a, f))];
    ExtentsOne(a, f.name, t[f.name], Elements(f), 0);
    StructMore(a, ds, c, t, c');
  }

  lemma LeafStep(a: Arch, c: Cursor, d: Def, init: seq<Def>, c': Cursor)
    requires d.Leaf? && IsAlign(c.align) && StructStep(a, c, d) == Some(c')
    ensures var f := FieldOf(d.ctype, d.elem);
            var at, bytes := RoundUp(c.next, AlignOf(a, d)), FieldBytes(a, f);
            var t := map[f.name := Info(f.ctype, at, bytes)];
            && c'.table == c.table + t && c.table.Keys !! t.Keys
            && c'.next == c'.last == at + bytes && c'.align == Max(AlignOf(a, d), c.align)
            && bytes == CodeBytes(a, d) == Elements(f) * MemSize(a, f.ctype) && Elements(f) > 0
            && LeafCounts(d) == map[f.name := Elements(f)] && MemberExcess(a, init, d) == map[f.name := 0]
  {
    hide RoundUp, MemSize, AlignSize, FieldOf;
  }

  lemma StructSubMore(a: Arch, ds: seq<Def>, c: Cursor, child: Cursor, c': Cursor)
    requires ds != [] && ds[|ds| - 1].Sub? && StructState(a, ds[..|ds| - 1], c) && ChildState(a, ds[|ds| - 1], child)
    requires IsAlign(child.align) && Compile.InsertStruct(c, child) == Some(c')
    ensures StructState(a, ds, c')
  {
    hide *;
    var init, d := ds[..|ds| - 1], ds[|ds| - 1];
    StateParts(a, init, c);
    LastOf(a, ds);
    ChildIs(a, d, child);
    GroupIs(a, d, init);
    InsertStructStep(a, init, d, c, child, c');
    var at := RoundUp(c.next, child.align);
    ExtentsShifted(a, child.table, AllCounts(d.items), Excess(a, d.items), at, 0);
    StructMore(a, ds, c, Shifted(child.table, at, 0), c');
  }

  lemma StructUniMore(a: Arch, ds: seq<Def>, c: Cursor, child: Cursor, c': Cursor)
    requires ds != [] && ds[|ds| - 1].Uni? && StructState(a, ds[..|ds| - 1], c) && ChildState(a, ds[|ds| - 1], child)
    requires IsAlign(child.align) && Compile.InsertUnion(c, child) == Some(c')
    ensures StructState(a, ds, c')
  {
    hide *;
    var init, d := ds[..|ds| - 1], ds[|ds| - 1];
    StateParts(a, init, c);
    LastOf(a, ds);
    ChildIs(a, d, child);
    GroupIs(a, d, init);
    InsertUnionStep(a, init, d, c, child, c');
    var at := RoundUp(c.last, child.align);
    ExtentsShifted(a, child.table, AllCounts(d.items), UnionExcess(a, d.items), at, at);
    StructMore(a, ds, c, Shifted(child.table, at, at), c');
  }

  lemma ChildIs(a: Arch, d: Def, c: Cursor)
    requires !d.Leaf?
    ensures ChildState(a, d, c) <==>
            && c.next == CodeBytes(a, d) && c.align == AlignOf(a, d)
            && Extents(a, c.table, AllCounts(d.items), if d.Sub? then Excess(a, d.items) else UnionExcess(a, d.items))
  {
  }

  /** A nested list, compiled and finished. */
  lemma {:induction false} ChildCursors(a: Arch, d: Def)
    requires !d.Leaf? && (if d.Sub? then CompileStruct(a, d.items).Some? else CompileUnion(a, d.items).Some?)
    ensures ChildState(a, d, if d.Sub? then CompileStruct(a, d.items).value else CompileUnion(a, d.items).value)
    ensures IsAlign(AlignOf(a, d))
    decreases d, 0
  {
    hide *;
    GroupIs(a, d, []);
    if d.Sub? {
      var c := CompileStruct(a, d.items).value;
      Finished(a, d.items);
      StructCursors(a, d.items);
      StateParts(a, d.items, StructLoop(a, d.items).value);
      ChildIs(a, d, c);
    } else {
      var c := CompileUnion(a, d.items).value;
      FinishedUnion(a, d.items);
      UnionCursors(a, d.items);
      StateParts(a, d.items, UnionLoop(a, d.items).value.c);
      ChildIs(a, d, c);
    }
    AlwaysAligned(a, d);
  }

  lemma AlwaysAligned(a: Arch, d: Def)
    ensures IsAlign(AlignOf(a, d))
  {
  }

  lemma Finished(a: Arch, ds: seq<Def>)
    requires CompileStruct(a, ds).Some?
    ensures StructLoop(a, ds).Some?
    ensures var c, l := CompileStruct(a, ds).value, StructLoop(a, ds).value;
            IsAlign(l.align) && c.table == l.table && c.align == l.align && c.next == RoundUp(l.next, l.align)
  {
    hide RoundUp, StructLoop;
  }

  /** The finished size of a union is that of its largest member rounded up. */
  lemma FinishedUnion(a: Arch, ds: seq<Def>)
    requires CompileUnion(a, ds).Some?
    ensures UnionLoop(a, ds).Some?
    ensures var c, l := CompileUnion(a, ds).value, UnionLoop(a, ds).value.c;
            c.table == l.table && c.align == l.align && c.next == RoundUp(CodeMax(a, ds), ListAlign(a, ds))
  {
    UnionAccepts(a, ds);
    Unions.UnionTheorem(a, ds);
    hide RoundUp, UnionLoop;
  }

  lemma {:induction false} UnionCursors(a: Arch, ds: seq<Def>)
    requires UnionLoop(a, ds).Some?
    ensures UnionStateOf(a, ds, UnionLoop(a, ds).value.c)
    decreases ds, 1
  {
    hide *;
    if ds == [] {
      StartState(a);
      return;
    }
    var init, d := ds[..|ds| - 1], ds[|ds| - 1];
    UnionLast(a, ds);
    var u, u' := UnionLoop(a, init).value, UnionLoop(a, ds).value;
    UnionCursors(a, init);
    if d.Leaf? {
      UnionLeafMore(a, ds, u, u');
    } else {
      NestedAlternative(a, u, d, u');
      ChildCursors(a, d);
      UnionNestedMore(a, ds, u, if d.Sub? then CompileStruct(a, d.items).value else CompileUnion(a, d.items).value, u');
    }
  }

  lemma UnionLast(a: Arch, ds: seq<Def>)
    requires UnionLoop(a, ds).Some? && ds != []
    ensures var init, d := ds[..|ds| - 1], ds[|ds| - 1];
            && UnionLoop(a, init).Some? && UnionStep(a, UnionLoop(a, init).value, d) == UnionLoop(a, ds)
  {
    hide UnionStep;
  }

  lemma NestedAlternative(a: Arch, u: UnionState, d: Def, u': UnionState)
    requires !d.Leaf? && IsAlign(u.c.align) && u.c.last == 0 && UnionStep(a, u, d) == Some(u')
    ensures if d.Sub? then CompileStruct(a, d.items).Some? else CompileUnion(a, d.items).Some?
  {
  }

  lemma UnionMore(a: Arch, ds: seq<Def>, c: Cursor, t: Table, c': Cursor)
    requires ds != [] && UnionStateOf(a, ds[..|ds| - 1], c) && c.table.Keys !! t.Keys
    requires Extents(a, t, LeafCounts(ds[|ds| - 1]), AlternativeExcess(a, ds[..|ds| - 1], ds[|ds| - 1]))
    requires c'.table == c.table + t && c'.align == Max(AlignOf(a, ds[|ds| - 1]), c.align)
    requires c'.next == Running(a, ds) && c'.last == 0 && CodeSize(a, ds[|ds| - 1]) == CodeBytes(a, ds[|ds| - 1])
    ensures UnionStateOf(a, ds, c')
  {
    hide *;
    var init, d := ds[..|ds| - 1], ds[|ds| - 1];
    StateParts(a, init, c);
    StateParts(a, ds, c');
    LastOf(a, ds);
    AlignLast(a, ds);
    ExtentsJoin(a, c.table, AllCounts(init), UnionExcess(a, init), t, LeafCounts(d), AlternativeExcess(a, init, d));
  }

  lemma UnionLeafMore(a: Arch, ds: seq<Def>, u: UnionState, u': UnionState)
    requires ds != [] && ds[|ds| - 1].Leaf? && UnionStateOf(a, ds[..|ds| - 1], u.c) && IsAlign(u.c.align) && u.c.last == 0
    requires UnionStep(a, u, ds[|ds| - 1]) == Some(u')
    ensures UnionStateOf(a, ds, u'.c)
  {
    hide *;
    var init, d := ds[..|ds| - 1], ds[|ds| - 1];
    var f := FieldOf(d.ctype, d.elem);
    StateParts(a, init, u.c);
    LastOf(a, ds);
    AlternativeStep(a, u, d, init, u');
    var t := map[f.name := Info(f.ctype, 0, u'.c.next)];
    ExtentsOne(a, f.name, t[f.name], 1, AlternativeExcess(a, init, d)[f.name]);
    UnionMore(a, ds, u.c, t, u'.c);
  }

  lemma AlternativeStep(a: Arch, u: UnionState, d: Def, init: seq<Def>, u': UnionState)
    requires d.Leaf? && IsAlign(u.c.align) && u.c.last == 0 && u.c.next == Running(a, init)
    requires UnionStep(a, u, d) == Some(u')
    ensures var f := FieldOf(d.ctype, d.elem);
            var t := map[f.name := Info(f.ctype, 0, u'.c.next)];
            && u'.c.table == u.c.table + t && u.c.table.Keys !! t.Keys
            && u'.c.next == Max(MemSize(a, f.ctype), RoundUp(u.c.next, AlignOf(a, d))) && u'.c.last == 0
            && u'.c.align == Max(AlignOf(a, d), u.c.align)
            && LeafCounts(d) == map[f.name := 1] && f.name in AlternativeExcess(a, init, d)
            && AlternativeExcess(a, init, d) == map[f.name := AlternativeExcess(a, init, d)[f.name]]
            && u'.c.next == 1 * MemSize(a, f.ctype) + AlternativeExcess(a, init, d)[f.name]
            && CodeSize(a, d) == CodeBytes(a, d)
  {
    hide FieldOf, Running;
    assert RoundUp(0, AlignOf(a, d)) == 0;
  }

  lemma UnionNestedMore(a: Arch, ds: seq<Def>, u: UnionState, child: Cursor, u': UnionState)
    requires ds != [] && !ds[|ds| - 1].Leaf? && UnionStateOf(a, ds[..|ds| - 1], u.c) && IsAlign(u.c.align) && u.c.last == 0
    requires ChildState(a, ds[|ds| - 1], child) && IsAlign(child.align)
    requires var d := ds[|ds| - 1];
             if d.Sub? then CompileStruct(a, d.items) == Some(child) else CompileUnion(a, d.items) == Some(child)
    requires UnionStep(a, u, ds[|ds| - 1]) == Some(u')
    ensures UnionStateOf(a, ds, u'.c)
  {
    hide *;
    var init, d := ds[..|ds| - 1], ds[|ds| - 1];
    StateParts(a, init, u.c);
    LastOf(a, ds);
    ChildIs(a, d, child);
    GroupIs(a, d, init);
    NestedAlternativeStep(a, u, d, child, u');
    var excess := if d.Sub? then Excess(a, d.items) else UnionExcess(a, d.items);
    ExtentsShifted(a, child.table, AllCounts(d.items), excess, 0, 0);
    UnionMore(a, ds, u.c, Shifted(child.table, 0, 0), u'.c);
  }

  lemma NestedAlternativeStep(a: Arch, u: UnionState, d: Def, child: Cursor, u': UnionState)
    requires !d.Leaf? && IsAlign(u.c.align) && u.c.last == 0 && IsAlign(child.align) && child.align == AlignOf(a, d)
    requires if d.Sub? then CompileStruct(a, d.items) == Some(child) else CompileUnion(a, d.items) == Some(child)
    requires UnionStep(a, u, d) == Some(u')
    ensures var t := Shifted(child.table, 0, 0);
            && u'.c.table == u.c.table + t && u.c.table.Keys !! t.Keys
            && u'.c.next == child.next == CodeSize(a, d) && u'.c.last == 0 && u'.c.align == Max(AlignOf(a, d), u.c.align)
  {
    hide AlignOf, CompileStruct, CompileUnion;
    assert RoundUp(0, child.align) == 0;
  }

  // ----- the theorem

  /** For every accepted definition and every leaf, inside unions or not: the recorded extent is the
      leaf's own size plus its excess, and the bounds check keeps indices that are not negative
      inside the leaf if and only if the excess is below its element count. */
  lemma GuardTheorem(a: Arch, ds: seq<Def>, k: string)
    requires CompileStruct(a, ds).Some? && k in CompileStruct(a, ds).value.table
    ensures k in AllCounts(ds) && k in Excess(a, ds) && AllCounts(ds)[k] > 0
    ensures var m, n, excess := CompileStruct(a, ds).value.table[k], AllCounts(ds)[k], Excess(a, ds)[k];
            && m.extent == n * MemSize(a, m.ctype) + excess
            && (GuardSound(a, m, n) <==> excess < n)
  {
    hide *;
    Finished(a, ds);
    StructCursors(a, ds);
    StateParts(a, ds, StructLoop(a, ds).value);
    ExtentAt(a, StructLoop(a, ds).value.table, AllCounts(ds), Excess(a, ds), k);
    ExcessGuard(a, CompileStruct(a, ds).value.table[k], AllCounts(ds)[k], Excess(a, ds)[k]);
  }

  lemma ExtentAt(a: Arch, t: Table, counts: map<string, nat>, excess: map<string, nat>, k: string)
    requires Extents(a, t, counts, excess) && k in t
    ensures k in counts && k in excess && counts[k] > 0
    ensures t[k].extent == counts[k] * MemSize(a, t[k].ctype) + excess[k]
  {
  }

  /** The base of a union is its C11 offset, where the layout is the C11 layout. */
  lemma BaseIsOffset(a: Arch, init: seq<Def>, d: Def)
    requires d.Uni? && Separated(a, init + [d]) && StructLoop(a, init).Some?
    ensures UnionBase(a, init, d) == StartOf(a, init + [d], |init|)
  {
    hide *;
    StructCursors(a, init);
    StateParts(a, init, StructLoop(a, init).value);
    StructLoopHolds(a, init);
    SeparatedBase(a, init, d, StructLoop(a, init).value);
  }

  lemma SeparatedBase(a: Arch, init: seq<Def>, d: Def, c: Cursor)
    requires d.Uni? && Separated(a, init + [d]) && StructInv(a, init, c) && c.last == CodeLast(a, init)
    ensures UnionBase(a, init, d) == StartOf(a, init + [d], |init|)
  {
    assert (init + [d])[..|init|] == init && (init + [d])[|init|] == d;
    assert UnionBase(a, init, d) == RoundUp(c.last, AlignOf(a, d));
    UnionStart(a, init, d, c, AlignOf(a, d));
  }

  // ----- two definitions whose arrays are not guarded

  lemma PlainField(t: CType, x: char)
    requires Unions.PlainChar(x)
    ensures FieldOf(t, [x]) == Field([x], t, 0)
  {
    PlainName([x]);
  }

  lemma PairField(t: CType, x: char)
    requires Unions.PlainChar(x)
    ensures FieldOf(t, [x] + "(2)") == Field([x], t, 2)
  {
    ArrayNameReads([x], 2);
    assert Decimal(2) == "2";
    assert [x] + "(" + "2" + ")" == [x] + "(2)";
  }

  /** `double x; union {struct {char y(2)}}`. */
  function ShiftedPair(x: char, y: char): seq<Def> {
    [Leaf(Double, [x]), Uni([Sub([Leaf(Char, [y] + "(2)")])])]
  }

  /** `union {long x; char y}`. */
  function LongOrChar(x: char, y: char): seq<Def> {
    [Uni([Leaf(Long, [x]), Leaf(Char, [y])])]
  }

  lemma OneMember(a: Arch, d: Def)
    ensures AllCounts([d]) == LeafCounts(d) && Excess(a, [d]) == MemberExcess(a, [], d)
    ensures UnionExcess(a, [d]) == AlternativeExcess(a, [], d)
    ensures CodeEnd(a, [d]) == CodeBytes(a, d) && CodeLast(a, [d]) == if d.Uni? then 0 else CodeBytes(a, d)
    ensures UnionBase(a, [], d) == 0 && ListAlign(a, [d]) == AlignOf(a, d)
    ensures d.Leaf? ==> Running(a, [d]) == MemSize(a, FieldOf(d.ctype, d.elem).ctype)
    ensures AcceptedList([d], false) == AcceptedDef(d, false) && AcceptedList([d], true) == AcceptedDef(d, true)
    ensures ListNames([d]) == Names(d) && TypeLookup.ListFields([d]) == TypeLookup.Fields(d)
  {
    hide TypeLookup.Fields, CodeBytes, AlignOf, FieldOf, MemSize, AcceptedDef, Names, Excess, UnionExcess, LeafCounts, MemberExcess,
      AlternativeExcess, CodeEnd, CodeLast, Running, UnionBase;
    LastOf(a, [d]);
    assert [d][..0] == [];
    NothingYet(a, d);
  }

  lemma NothingYet(a: Arch, d: Def)
    ensures Excess(a, []) == map[] && UnionExcess(a, []) == map[] && AllCounts([]) == map[]
    ensures CodeEnd(a, []) == 0 && CodeLast(a, []) == 0 && Running(a, []) == 0 && RoundUp(0, AlignOf(a, d)) == 0
  {
  }

  lemma TwoMembers(a: Arch, d: Def, e: Def)
    ensures AllCounts([d, e]) == LeafCounts(d) + LeafCounts(e)
    ensures Excess(a, [d, e]) == Excess(a, [d]) + MemberExcess(a, [d], e)
    ensures UnionExcess(a, [d, e]) == UnionExcess(a, [d]) + AlternativeExcess(a, [d], e)
    ensures AcceptedList([d, e], false) == (AcceptedDef(d, false) && AcceptedDef(e, false) && Names(d) !! Names(e))
    ensures AcceptedList([d, e], true) == (AcceptedDef(d, true) && AcceptedDef(e, true) && Names(d) !! Names(e))
    ensures ListNames([d, e]) == Names(d) + Names(e)
    ensures TypeLookup.ListFields([d, e]) == TypeLookup.Fields(d) + TypeLookup.Fields(e)
  {
    hide TypeLookup.Fields, CodeBytes, AlignOf, FieldOf, MemSize, AcceptedDef, Names, Excess, UnionExcess, LeafCounts, MemberExcess,
      AlternativeExcess, CodeEnd, CodeLast, Running, UnionBase;
    LastOf(a, [d, e]);
    assert [d, e][..1] == [d];
    OneMember(a, d);
  }

  /** Inserting the union at base 8 makes the two-byte array ten bytes long: index 5 is let through. */
  lemma ShiftedPairUnguarded(a: Arch, x: char, y: char)
    requires Unions.PlainChar(x) && Unions.PlainChar(y) && x != y
    ensures var ds := ShiftedPair(x, y);
            && CompileStruct(a, ds).Some? && [y] in CompileStruct(a, ds).value.table
            && var m := CompileStruct(a, ds).value.table[[y]];
            && m.ctype == Char && m.extent == 10 && Admitted(a, m, 5) && !GuardSound(a, m, 2)
  {
    hide *;
    var ds := ShiftedPair(x, y);
    ShiftedPairFacts(a, x, y);
    StructAccepts(a, ds);
    GuardTheorem(a, ds, [y]);
    TypeLookup.LookupTheorem(a, ds);
    LetsThrough(a, CompileStruct(a, ds).value.table[[y]], 5);
  }

  lemma LetsThrough(a: Arch, m: Info, i: nat)
    requires m.ctype == Char
    ensures MemSize(a, Char) == 1 && (Admitted(a, m, i) <==> 2 * i <= m.extent)
  {
  }

  lemma ShiftedPairFacts(a: Arch, x: char, y: char)
    requires Unions.PlainChar(x) && Unions.PlainChar(y) && x != y
    ensures var ds := ShiftedPair(x, y);
            && ds != [] && AcceptedList(ds, false) && [y] in ListNames(ds)
            && [y] in AllCounts(ds) && AllCounts(ds)[[y]] == 2 && [y] in Excess(a, ds) && Excess(a, ds)[[y]] == 8
            && [y] in TypeLookup.ListFields(ds) && TypeLookup.ListFields(ds)[[y]].ctype == Char
  {
    PlainField(Double, x);
    PairField(Char, y);
    var d, inner := Leaf(Double, [x]), Leaf(Char, [y] + "(2)");
    hide FieldOf;
    OneMember(a, inner);
    OneMember(a, Sub([inner]));
    OneMember(a, d);
    TwoMembers(a, d, Uni([Sub([inner])]));
  }

  /** A `char` that follows a `long` in a union gets the union's eight bytes for its own: index 4 is
      let through, although there is no base to blame. */
  lemma LongOrCharUnguarded(x: char, y: char)
    requires Unions.PlainChar(x) && Unions.PlainChar(y) && x != y
    ensures var ds := LongOrChar(x, y);
            && CompileStruct(X64Unix, ds).Some? && [y] in CompileStruct(X64Unix, ds).value.table
            && var m := CompileStruct(X64Unix, ds).value.table[[y]];
            && m.ctype == Char && m.extent == 8 && Admitted(X64Unix, m, 4) && !GuardSound(X64Unix, m, 1)
  {
    hide *;
    var ds := LongOrChar(x, y);
    LongOrCharFacts(x, y);
    StructAccepts(X64Unix, ds);
    GuardTheorem(X64Unix, ds, [y]);
    TypeLookup.LookupTheorem(X64Unix, ds);
    LetsThrough(X64Unix, CompileStruct(X64Unix, ds).value.table[[y]], 4);
  }

  lemma LongOrCharFacts(x: char, y: char)
    requires Unions.PlainChar(x) && Unions.PlainChar(y) && x != y
    ensures var ds := LongOrChar(x, y);
            && ds != [] && AcceptedList(ds, false) && [y] in ListNames(ds)
            && [y] in AllCounts(ds) && AllCounts(ds)[[y]] == 1 && [y] in Excess(X64Unix, ds) && Excess(X64Unix, ds)[[y]] == 7
            && [y] in TypeLookup.ListFields(ds) && TypeLookup.ListFields(ds)[[y]].ctype == Char
  {
    PlainField(Long, x);
    PlainField(Char, y);
    var d, e := Leaf(Long, [x]), Leaf(Char, [y]);
    hide FieldOf;
    OneMember(X64Unix, d);
    TwoMembers(X64Unix, d, e);
    OneMember(X64Unix, Uni([d, e]));
    assert RoundUp(8, 1) == 8;
  }
}
