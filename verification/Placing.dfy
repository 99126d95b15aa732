/** Where a definition's leaves go, by the rule of C11 and by the rule of the code; the compiled table
    follows the code's rule for every accepted definition. */
module Placing {
  import opened Options
  import opened CTypes
  import opened Rounding
  import opened Definitions
  import opened Layout
  import opened Compile
  import opened CompileTheorem
  import opened Guards
  import FlatStructs

  datatype Rule = C11 | Code

  /** Where member `i` of a structure starts. */
  function Start(r: Rule, a: Arch, ds: seq<Def>, i: nat): nat
    requires i < |ds|
  {
    match r
    case C11 => StartOf(a, ds, i)
    case Code =>
      if ds[i].Uni? then UnionBase(a, ds[..i], ds[i]) else RoundUp(CodeEnd(a, ds[..i]), AlignOf(a, ds[i]))
  }

  /** Every leaf of `d`, when `d` is put at `base`. */
  function Put(r: Rule, a: Arch, d: Def, base: nat): (m: map<string, Slot>)
    ensures m.Keys == Names(d)
    decreases d
  {
    match d
    case Leaf(t, e) => var f := FieldOf(t, e); map[f.name := Slot(f.ctype, base, FieldSize(a, f))]
    case Sub(items) => PutList(r, a, items, false, base)
    case Uni(items) => PutList(r, a, items, true, base)
  }

  /** The members of a structure one after the other, those of a union at the same place. */
  function PutList(r: Rule, a: Arch, ds: seq<Def>, inUnion: bool, base: nat): (m: map<string, Slot>)
    ensures m.Keys == ListNames(ds)
    decreases ds
  {
    if ds == [] then map[]
    else
      var n := |ds| - 1;
      PutList(r, a, ds[..n], inUnion, base) + Put(r, a, ds[n], base + (if inUnion then 0 else Start(r, a, ds, n)))
  }

  lemma PutLast(r: Rule, a: Arch, ds: seq<Def>, inUnion: bool, base: nat)
    requires ds != []
    ensures var n := |ds| - 1;
            PutList(r, a, ds, inUnion, base) ==
            PutList(r, a, ds[..n], inUnion, base) + Put(r, a, ds[n], base + (if inUnion then 0 else Start(r, a, ds, n)))
  {
    hide Start;
  }

  // ----- the rule of C11 is the reference

  lemma {:induction false} PutC11(a: Arch, d: Def, base: nat)
    ensures Put(C11, a, d, base) == Place(a, d, base)
    decreases d, 0
  {
    match d
    case Leaf(_, _) =>
    case Sub(items) => PutListC11(a, items, base);
    case Uni(items) => PutListC11(a, items, base);
  }

  lemma {:induction false} PutListC11(a: Arch, ds: seq<Def>, base: nat)
    ensures PutList(C11, a, ds, false, base) == PlaceStruct(a, ds, base)
    ensures PutList(C11, a, ds, true, base) == PlaceUnion(a, ds, base)
    decreases ds, 1
  {
    hide *;
    if ds == [] {
      ListEmpty(a, base);
      PutNothing(C11, a, base);
    } else {
      var n := |ds| - 1;
      PutLast(C11, a, ds, false, base);
      PutLast(C11, a, ds, true, base);
      ListStep(a, ds, base);
      StartC11(a, ds, n);
      PutListC11(a, ds[..n], base);
      PutC11(a, ds[n], base + StartOf(a, ds, n));
      PutC11(a, ds[n], base);
    }
  }

  lemma StartC11(a: Arch, ds: seq<Def>, i: nat)
    requires i < |ds|
    ensures Start(C11, a, ds, i) == StartOf(a, ds, i)
  {
  }

  lemma PutNothing(r: Rule, a: Arch, base: nat)
    ensures forall inUnion :: PutList(r, a, [], inUnion, base) == map[]
  {
  }

  // ----- moving

  lemma {:induction false} PutMoved(r: Rule, a: Arch, d: Def, base: nat, shift: nat)
    ensures Moved(Put(r, a, d, base), Put(r, a, d, base + shift), shift)
    decreases d, 0
  {
    match d
    case Leaf(_, _) =>
    case Sub(items) => PutListMoved(r, a, items, false, base, shift);
    case Uni(items) => PutListMoved(r, a, items, true, base, shift);
  }

  lemma {:induction false} PutListMoved(r: Rule, a: Arch, ds: seq<Def>, inUnion: bool, base: nat, shift: nat)
    ensures Moved(PutList(r, a, ds, inUnion, base), PutList(r, a, ds, inUnion, base + shift), shift)
    decreases ds, 1
  {
    hide *;
    if ds == [] {
      PutNothing(r, a, base);
      PutNothing(r, a, base + shift);
      MovedEmpty(shift);
    } else {
      var n := |ds| - 1;
      PutLast(r, a, ds, inUnion, base);
      PutLast(r, a, ds, inUnion, base + shift);
      var at := base + (if inUnion then 0 else Start(r, a, ds, n));
      assert base + shift + (at - base) == at + shift;
      PutListMoved(r, a, ds[..n], inUnion, base, shift);
      PutMoved(r, a, ds[n], at, shift);
      MovedJoin(PutList(r, a, ds[..n], inUnion, base), PutList(r, a, ds[..n], inUnion, base + shift),
        Put(r, a, ds[n], at), Put(r, a, ds[n], at + shift), shift);
    }
  }

  // ----- the rule of the code is the compiled table

  lemma SameJoin(t: Table, m: map<string, Slot>, t': Table, m': map<string, Slot>)
    requires Same(t, m) && Same(t', m')
    ensures Same(t + t', m + m')
  {
  }

  lemma SameShifted(t: Table, m: map<string, Slot>, m': map<string, Slot>, at: nat, grow: nat)
    requires Same(t, m) && Moved(m, m', at)
    ensures Same(Shifted(t, at, grow), m')
  {
  }

  /** One more member, at its start. */
  lemma PutNext(a: Arch, ds: seq<Def>, inUnion: bool, t: Table, t': Table)
    requires ds != [] && Same(t, PutList(Code, a, ds[..|ds| - 1], inUnion, 0))
    requires Same(t', Put(Code, a, ds[|ds| - 1], if inUnion then 0 else Start(Code, a, ds, |ds| - 1)))
    ensures Same(t + t', PutList(Code, a, ds, inUnion, 0))
  {
    hide *;
    var n := |ds| - 1;
    PutLast(Code, a, ds, inUnion, 0);
    SameJoin(t, PutList(Code, a, ds[..n], inUnion, 0), t', Put(Code, a, ds[n], if inUnion then 0 else Start(Code, a, ds, n)));
  }

  /** A child's table, moved to where the child is put. */
  lemma PutChild(a: Arch, d: Def, child: Table, at: nat, grow: nat)
    requires Same(child, Put(Code, a, d, 0))
    ensures Same(Shifted(child, at, grow), Put(Code, a, d, at))
  {
    hide *;
    PutMoved(Code, a, d, 0, at);
    SameShifted(child, Put(Code, a, d, 0), Put(Code, a, d, at), at, grow);
  }

  lemma {:induction false} StructPut(a: Arch, ds: seq<Def>)
    requires StructLoop(a, ds).Some?
    ensures Same(StructLoop(a, ds).value.table, PutList(Code, a, ds, false, 0))
    decreases ds, 1
  {
    hide *;
    if ds == [] {
      NothingPut(a);
      return;
    }
    var n := |ds| - 1;
    var init, d := ds[..n], ds[n];
    FlatStructs.LoopLast(a, ds);
    var c, c' := StructLoop(a, init).value, StructLoop(a, ds).value;
    StructCursors(a, init);
    StateParts(a, init, c);
    StartIs(a, ds);
    AlwaysAligned(a, d);
    StructPut(a, init);
    LoopAligned(a, init);
    match d {
      case Leaf(_, _) =>
        LeafStep(a, c, d, init, c');
        LeafPut(a, d, Start(Code, a, ds, n), FieldBytes(a, FieldOf(d.ctype, d.elem)));
        PutNext(a, ds, false, c.table, LeafTable(d, Start(Code, a, ds, n), FieldBytes(a, FieldOf(d.ctype, d.elem))));
      case Sub(items) =>
        NestedStep(a, c, d, c');
        ChildPut(a, d);
        ChildCursors(a, d);
        var child := CompileStruct(a, items).value;
        ChildIs(a, d, child);
        InsertedTable(c, child, c', false);
        PutChild(a, d, child.table, Start(Code, a, ds, n), 0);
        PutNext(a, ds, false, c.table, Shifted(child.table, Start(Code, a, ds, n), 0));
      case Uni(items) =>
        NestedStep(a, c, d, c');
        ChildPut(a, d);
        ChildCursors(a, d);
        var child := CompileUnion(a, items).value;
        ChildIs(a, d, child);
        InsertedTable(c, child, c', true);
        var at := Start(Code, a, ds, n);
        PutChild(a, d, child.table, at, at);
        PutNext(a, ds, false, c.table, Shifted(child.table, at, at));
    }
  }

  lemma NothingPut(a: Arch)
    ensures StructLoop(a, []) == Some(START) && Same(START.table, PutList(Code, a, [], false, 0))
    ensures UnionLoop(a, []) == Some(UnionState(START, 0)) && Same(START.table, PutList(Code, a, [], true, 0))
  {
  }

  lemma LoopAligned(a: Arch, ds: seq<Def>)
    requires StructLoop(a, ds).Some?
    ensures IsAlign(StructLoop(a, ds).value.align)
  {
    hide *;
  }

  lemma StartIs(a: Arch, ds: seq<Def>)
    requires ds != []
    ensures var init, d := ds[..|ds| - 1], ds[|ds| - 1];
            Start(Code, a, ds, |ds| - 1) == RoundUp(if d.Uni? then CodeLast(a, init) else CodeEnd(a, init), AlignOf(a, d))
  {
    hide RoundUp, AlignOf;
  }

  function LeafTable(d: Def, at: nat, extent: nat): Table
    requires d.Leaf?
  {
    var f := FieldOf(d.ctype, d.elem);
    map[f.name := Info(f.ctype, at, extent)]
  }

  lemma LeafPut(a: Arch, d: Def, at: nat, extent: nat)
    requires d.Leaf?
    ensures var f := FieldOf(d.ctype, d.elem); LeafTable(d, at, extent) == map[f.name := Info(f.ctype, at, extent)]
    ensures Same(LeafTable(d, at, extent), Put(Code, a, d, at))
  {
  }

  lemma InsertedTable(c: Cursor, child: Cursor, c': Cursor, union: bool)
    requires child.align > 0
    requires (if union then Compile.InsertUnion(c, child) else Compile.InsertStruct(c, child)) == Some(c')
    ensures var at := RoundUp(if union then c.last else c.next, child.align);
            c'.table == c.table + Shifted(child.table, at, if union then at else 0)
  {
    hide RoundUp, Shifted;
  }

  /** A nested list, compiled on its own. */
  lemma {:induction false} ChildPut(a: Arch, d: Def)
    requires !d.Leaf? && (if d.Sub? then CompileStruct(a, d.items).Some? else CompileUnion(a, d.items).Some?)
    ensures Same((if d.Sub? then CompileStruct(a, d.items) else CompileUnion(a, d.items)).value.table, Put(Code, a, d, 0))
    decreases d, 0
  {
    hide *;
    GroupPut(a, d, 0);
    if d.Sub? {
      Finished(a, d.items);
      StructPut(a, d.items);
    } else {
      FinishedUnion(a, d.items);
      UnionPut(a, d.items);
    }
  }

  lemma GroupPut(a: Arch, d: Def, base: nat)
    requires !d.Leaf?
    ensures forall r :: Put(r, a, d, base) == PutList(r, a, d.items, d.Uni?, base)
  {
    hide PutList;
  }

  lemma {:induction false} UnionPut(a: Arch, ds: seq<Def>)
    requires UnionLoop(a, ds).Some?
    ensures Same(UnionLoop(a, ds).value.c.table, PutList(Code, a, ds, true, 0))
    decreases ds, 1
  {
    hide *;
    if ds == [] {
      NothingPut(a);
      return;
    }
    var n := |ds| - 1;
    var init, d := ds[..n], ds[n];
    UnionLast(a, ds);
    var u, u' := UnionLoop(a, init).value, UnionLoop(a, ds).value;
    UnionCursors(a, init);
    StateParts(a, init, u.c);
    UnionAligned(a, init);
    UnionPut(a, init);
    if d.Leaf? {
      AlternativeStep(a, u, d, init, u');
      LeafPut(a, d, 0, u'.c.next);
      PutNext(a, ds, true, u.c.table, LeafTable(d, 0, u'.c.next));
    } else {
      NestedAlternative(a, u, d, u');
      ChildPut(a, d);
      ChildCursors(a, d);
      var child := if d.Sub? then CompileStruct(a, d.items).value else CompileUnion(a, d.items).value;
      ChildIs(a, d, child);
      NestedAlternativeStep(a, u, d, child, u');
      PutChild(a, d, child.table, 0, 0);
      PutNext(a, ds, true, u.c.table, Shifted(child.table, 0, 0));
    }
  }

  lemma UnionAligned(a: Arch, ds: seq<Def>)
    requires UnionLoop(a, ds).Some?
    ensures IsAlign(UnionLoop(a, ds).value.c.align) && UnionLoop(a, ds).value.c.last == 0
  {
    hide *;
  }

  /** For every accepted definition, unions side by side included, the compiled table puts every leaf
      at the sum of the code's starts on the way to it. */
  lemma CodePlaces(a: Arch, ds: seq<Def>)
    requires CompileStruct(a, ds).Some?
    ensures Same(CompileStruct(a, ds).value.table, PutList(Code, a, ds, false, 0))
  {
    hide *;
    Finished(a, ds);
    StructPut(a, ds);
  }
}
