/** The compiled table against the reference layout: when they agree, and when they cannot. */
module CompileTheorem {
  import opened Options
  import opened CTypes
  import opened Rounding
  import opened Definitions
  import opened Layout
  import opened Compile

  // ----- when the cursors of structure.c stay right

  /** After a union `last` still points at the union's start, and the next union starts from
      `last`.  That is harmless exactly when aligning for the second union already clears the
      first one. */
  predicate ClearsUnion(a: Arch, init: seq<Def>, d: Def) {
    init != [] && init[|init| - 1].Uni? && d.Uni? ==>
      End(a, init) <= RoundUp(StartOf(a, init, |init| - 1), AlignOf(a, d))
  }

  predicate SeparatedDef(a: Arch, d: Def)
    decreases d
  {
    match d
    case Leaf(_, _) => true
    case Sub(items) => Separated(a, items)
    case Uni(items) => SeparatedUnion(a, items)
  }

  predicate Separated(a: Arch, ds: seq<Def>)
    decreases ds
  {
    ds == [] ||
    (Separated(a, ds[..|ds| - 1]) && SeparatedDef(a, ds[|ds| - 1])
     && ClearsUnion(a, ds[..|ds| - 1], ds[|ds| - 1]))
  }

  predicate SeparatedUnion(a: Arch, ds: seq<Def>)
    decreases ds
  {
    ds == [] || (SeparatedUnion(a, ds[..|ds| - 1]) && SeparatedDef(a, ds[|ds| - 1]))
  }

  // ----- comparing a table with the reference

  predicate Below(t: Table, ref: map<string, Slot>) {
    t.Keys == ref.Keys && forall k :: k in t ==> t[k].ctype == ref[k].ctype && t[k].offset <= ref[k].offset
  }

  /** Every leaf has the reference's type and offset. */
  predicate Same(t: Table, ref: map<string, Slot>) {
    t.Keys == ref.Keys && forall k :: k in t ==> t[k].ctype == ref[k].ctype && t[k].offset == ref[k].offset
  }

  /** Some leaf is placed too low. */
  predicate TooLow(t: Table, ref: map<string, Slot>) {
    exists k :: k in t && k in ref && t[k].offset < ref[k].offset
  }

  predicate Agrees(t: Table, ref: map<string, Slot>, sep: bool) {
    Below(t, ref) && (if sep then Same(t, ref) else TooLow(t, ref))
  }

  lemma AgreesJoin(t: Table, ref: map<string, Slot>, sep: bool,
                   t': Table, ref': map<string, Slot>, sep': bool)
    requires Agrees(t, ref, sep) && Agrees(t', ref', sep') && t.Keys !! t'.Keys
    ensures Agrees(t + t', ref + ref', sep && sep')
  {
    if !sep {
      var k :| k in t && k in ref && t[k].offset < ref[k].offset;
      assert (t + t')[k].offset < (ref + ref')[k].offset;
    } else if !sep' {
      var k :| k in t' && k in ref' && t'[k].offset < ref'[k].offset;
      assert (t + t')[k].offset < (ref + ref')[k].offset;
    }
  }

  /** The reference, moved: every offset moves by the base. */
  predicate Moved(ref: map<string, Slot>, ref': map<string, Slot>, shift: nat) {
    ref.Keys == ref'.Keys
    && forall k :: k in ref ==> ref'[k] == Slot(ref[k].ctype, ref[k].offset + shift, ref[k].size)
  }

  lemma MovedEmpty(shift: nat)
    ensures Moved(map[], map[], shift)
  {
  }

  lemma MovedJoin(m: map<string, Slot>, m': map<string, Slot>,
                  n: map<string, Slot>, n': map<string, Slot>, shift: nat)
    requires Moved(m, m', shift) && Moved(n, n', shift)
    ensures Moved(m + n, m' + n', shift)
  {
  }

  lemma {:induction false} PlaceMoved(a: Arch, d: Def, base: nat, shift: nat)
    ensures Moved(Place(a, d, base), Place(a, d, base + shift), shift)
    decreases d
  {
    match d
    case Leaf(_, _) =>
    case Sub(items) => PlaceStructMoved(a, items, base, shift);
    case Uni(items) => PlaceUnionMoved(a, items, base, shift);
  }

  lemma {:induction false} PlaceStructMoved(a: Arch, ds: seq<Def>, base: nat, shift: nat)
    ensures Moved(PlaceStruct(a, ds, base), PlaceStruct(a, ds, base + shift), shift)
    decreases ds
  {
    hide *;
    if ds == [] {
      ListEmpty(a, base);
      ListEmpty(a, base + shift);
      MovedEmpty(shift);
      return;
    }
    var init, d := ds[..|ds| - 1], ds[|ds| - 1];
    var start := StartOf(a, ds, |ds| - 1);
    ListStep(a, ds, base);
    ListStep(a, ds, base + shift);
    assert base + start + shift == base + shift + start;
    PlaceStructMoved(a, init, base, shift);
    PlaceMoved(a, d, base + start, shift);
    MovedJoin(PlaceStruct(a, init, base), PlaceStruct(a, init, base + shift),
      Place(a, d, base + start), Place(a, d, base + shift + start), shift);
  }

  lemma {:induction false} PlaceUnionMoved(a: Arch, ds: seq<Def>, base: nat, shift: nat)
    ensures Moved(PlaceUnion(a, ds, base), PlaceUnion(a, ds, base + shift), shift)
    decreases ds
  {
    if ds != [] {
      PlaceUnionMoved(a, ds[..|ds| - 1], base, shift);
      PlaceMoved(a, ds[|ds| - 1], base, shift);
    }
  }

  /** Flattening: adding the child's base to each of its offsets keeps the agreement when the
      base is right, and a base that is too low puts every leaf too low. */
  lemma AgreesShifted(t: Table, ref: map<string, Slot>, sep: bool,
                      at: nat, grow: nat, ref': map<string, Slot>, at': nat)
    requires Agrees(t, ref, sep) && Moved(ref, ref', at') && at <= at' && t != map[]
    ensures Agrees(Shifted(t, at, grow), ref', sep && at == at')
  {
    var s := Shifted(t, at, grow);
    if !sep {
      var k :| k in t && k in ref && t[k].offset < ref[k].offset;
      assert s[k].offset < ref'[k].offset;
    } else if at < at' {
      var k :| k in t;
      assert k in ref && s[k].offset < ref'[k].offset;
    }
  }

  // ----- what holds of the cursors after each loop turn

  /** Where `last` should be: at the last union's start, else at the end. */
  function LastRef(a: Arch, ds: seq<Def>): nat {
    if ds != [] && ds[|ds| - 1].Uni? then StartOf(a, ds, |ds| - 1) else End(a, ds)
  }

  predicate StructInv(a: Arch, ds: seq<Def>, c: Cursor) {
    && c.align == ListAlign(a, ds)
    && c.last <= c.next <= End(a, ds)
    && (ds != [] ==> c.next > 0)
    && Agrees(c.table, PlaceStruct(a, ds, 0), Separated(a, ds))
    && (Separated(a, ds) ==> c.next == End(a, ds) && c.last == LastRef(a, ds))
  }

  /** What a finished child gives its parent. */
  predicate ChildInv(a: Arch, d: Def, c: Cursor) {
    && c.align == AlignOf(a, d)
    && 0 < c.next <= SizeOf(a, d) && Aligned(c.next, c.align)
    && c.table != map[]
    && Agrees(c.table, Place(a, d, 0), SeparatedDef(a, d))
    && (SeparatedDef(a, d) ==> c.next == SizeOf(a, d))
  }

  /** One more member: table, alignment and end, given where the code and the reference put it. */
  lemma StructExtend(a: Arch, init: seq<Def>, d: Def, c: Cursor, t: Table, at: nat, size: nat, c': Cursor)
    requires StructInv(a, init, c) && c.table.Keys !! t.Keys
    requires at <= StartOf(a, init + [d], |init|)
    requires Agrees(t, Place(a, d, StartOf(a, init + [d], |init|)),
                    SeparatedDef(a, d) && at == StartOf(a, init + [d], |init|))
    requires 0 < size <= SizeOf(a, d) && (SeparatedDef(a, d) ==> size == SizeOf(a, d))
    requires Separated(a, init) ==> (at == StartOf(a, init + [d], |init|) <==> ClearsUnion(a, init, d))
    requires c'.table == c.table + t && c'.next == at + size && c'.align == Max(AlignOf(a, d), c.align)
    requires c'.last == if d.Uni? then at else at + size
    ensures StructInv(a, init + [d], c')
  {
    var ds := init + [d];
    var start := StartOf(a, ds, |init|);
    assert ds[..|ds| - 1] == init && ds[|ds| - 1] == d;
    ListStep(a, ds, 0);
    assert ListAlign(a, ds) == Max(ListAlign(a, init), AlignOf(a, d));
    var sepInit, sepHere := Separated(a, init), SeparatedDef(a, d) && at == start;
    assert Separated(a, ds) == (sepInit && SeparatedDef(a, d) && ClearsUnion(a, init, d));
    AgreesJoin(c.table, PlaceStruct(a, init, 0), sepInit, t, Place(a, d, start), sepHere);
    assert LastRef(a, ds) == if d.Uni? then start else End(a, ds);
    hide *;
    assert Agrees(c'.table, PlaceStruct(a, ds, 0), sepInit && sepHere);
  }

  lemma SplitLast(ds: seq<Def>)
    requires ds != []
    ensures ds == ds[..|ds| - 1] + [ds[|ds| - 1]]
  {
  }

  lemma LeafAgrees(a: Arch, d: Def, at: nat, extent: nat, start: nat)
    requires d.Leaf? && at <= start
    ensures var f := FieldOf(d.ctype, d.elem);
            Agrees(map[f.name := Info(f.ctype, at, extent)], Place(a, d, start), at == start)
  {
    var f := FieldOf(d.ctype, d.elem);
    var t := map[f.name := Info(f.ctype, at, extent)];
    if at < start {
      assert t[f.name].offset < Place(a, d, start)[f.name].offset;
    }
  }

  lemma LeafBytes(a: Arch, d: Def)
    requires d.Leaf?
    ensures FieldBytes(a, FieldOf(d.ctype, d.elem)) == SizeOf(a, d) > 0
  {
  }

  /** A value or array member. */
  lemma StructLeaf(a: Arch, init: seq<Def>, d: Def, c: Cursor, c': Cursor)
    requires d.Leaf? && StructInv(a, init, c) && AddMember(a, c, FieldOf(d.ctype, d.elem)) == Some(c')
    ensures StructInv(a, init + [d], c')
  {
    hide *;
    var f := FieldOf(d.ctype, d.elem);
    var at, bytes := RoundUp(c.next, AlignOf(a, d)), FieldBytes(a, f);
    var start := StartOf(a, init + [d], |init|);
    var t := map[f.name := Info(f.ctype, at, bytes)];
    LeafBytes(a, d);
    StartAppended(a, init, d);
    AddMemberStep(a, init, d, c, c');
    RoundUpMono(c.next, End(a, init), AlignOf(a, d));
    LeafAgrees(a, d, at, bytes, start);
    StructExtend(a, init, d, c, t, at, bytes, c');
  }

  lemma AddMemberStep(a: Arch, init: seq<Def>, d: Def, c: Cursor, c': Cursor)
    requires d.Leaf? && StructInv(a, init, c) && AddMember(a, c, FieldOf(d.ctype, d.elem)) == Some(c')
    ensures var f := FieldOf(d.ctype, d.elem);
            var at, bytes := RoundUp(c.next, AlignOf(a, d)), FieldBytes(a, f);
            var t := map[f.name := Info(f.ctype, at, bytes)];
            && c'.table == c.table + t && c.table.Keys !! t.Keys
            && c'.next == c'.last == at + bytes && c'.align == Max(AlignOf(a, d), c.align)
    ensures SeparatedDef(a, d) && ClearsUnion(a, init, d)
    ensures c.next <= End(a, init) && (Separated(a, init) ==> c.next == End(a, init))
  {
    hide FieldBytes, RoundUp, PlaceStruct, End, SizeOf, StartOf;
  }

  lemma StartAppended(a: Arch, init: seq<Def>, d: Def)
    ensures StartOf(a, init + [d], |init|) == RoundUp(End(a, init), AlignOf(a, d))
  {
    assert (init + [d])[..|init|] == init && (init + [d])[|init|] == d;
  }

  lemma InvFacts(a: Arch, init: seq<Def>, c: Cursor, d: Def, child: Cursor)
    requires StructInv(a, init, c) && ChildInv(a, d, child)
    ensures c.last <= c.next <= End(a, init) && (Separated(a, init) ==> c.next == End(a, init))
    ensures IsAlign(child.align) && child.align == AlignOf(a, d) && child.table != map[]
    ensures 0 < child.next <= SizeOf(a, d) && (SeparatedDef(a, d) ==> child.next == SizeOf(a, d))
    ensures Agrees(child.table, Place(a, d, 0), SeparatedDef(a, d))
  {
  }

  /** A nested structure. */
  lemma StructSub(a: Arch, init: seq<Def>, d: Def, c: Cursor, child: Cursor, c': Cursor)
    requires d.Sub? && StructInv(a, init, c) && ChildInv(a, d, child) && InsertStruct(c, child) == Some(c')
    ensures StructInv(a, init + [d], c')
  {
    hide *;
    InvFacts(a, init, c, d, child);
    var at, start := RoundUp(c.next, child.align), StartOf(a, init + [d], |init|);
    StartAppended(a, init, d);
    InsertStructStep(a, init, d, c, child, c');
    RoundUpMono(c.next, End(a, init), child.align);
    PlaceMoved(a, d, 0, start);
    AgreesShifted(child.table, Place(a, d, 0), SeparatedDef(a, d), at, 0, Place(a, d, start), start);
    StructExtend(a, init, d, c, Shifted(child.table, at, 0), at, child.next, c');
  }

  lemma InsertStructStep(a: Arch, init: seq<Def>, d: Def, c: Cursor, child: Cursor, c': Cursor)
    requires d.Sub? && child.align > 0 && InsertStruct(c, child) == Some(c')
    ensures var at := RoundUp(c.next, child.align);
            var t := Shifted(child.table, at, 0);
            && c'.table == c.table + t && c.table.Keys !! t.Keys
            && c'.next == c'.last == at + child.next && c'.align == Max(child.align, c.align)
    ensures ClearsUnion(a, init, d)
  {
  }

  /** A nested union: it starts from `last`, not from `next`. */
  lemma StructUni(a: Arch, init: seq<Def>, d: Def, c: Cursor, child: Cursor, c': Cursor)
    requires d.Uni? && StructInv(a, init, c) && ChildInv(a, d, child) && InsertUnion(c, child) == Some(c')
    ensures StructInv(a, init + [d], c')
  {
    hide *;
    InvFacts(a, init, c, d, child);
    var at, start := RoundUp(c.last, child.align), StartOf(a, init + [d], |init|);
    StartAppended(a, init, d);
    InsertUnionStep(a, init, d, c, child, c');
    RoundUpMono(c.last, End(a, init), child.align);
    UnionStart(a, init, d, c, child.align);
    PlaceMoved(a, d, 0, start);
    AgreesShifted(child.table, Place(a, d, 0), SeparatedDef(a, d), at, at, Place(a, d, start), start);
    StructExtend(a, init, d, c, Shifted(child.table, at, at), at, child.next, c');
  }

  lemma InsertUnionStep(a: Arch, init: seq<Def>, d: Def, c: Cursor, child: Cursor, c': Cursor)
    requires d.Uni? && child.align > 0 && InsertUnion(c, child) == Some(c')
    ensures var at := RoundUp(c.last, child.align);
            var t := Shifted(child.table, at, at);
            && c'.table == c.table + t && c.table.Keys !! t.Keys
            && c'.next == at + child.next && c'.last == at && c'.align == Max(child.align, c.align)
  {
  }

  /** Aligning `last` gives the right start exactly when it clears a preceding union. */
  lemma UnionStart(a: Arch, init: seq<Def>, d: Def, c: Cursor, al: nat)
    requires d.Uni? && StructInv(a, init, c) && al == AlignOf(a, d)
    ensures Separated(a, init) ==>
              (RoundUp(c.last, al) == RoundUp(End(a, init), al) <==> ClearsUnion(a, init, d))
  {
    RoundUpLeast(c.last, al);
    RoundUpLeast(End(a, init), al);
    hide RoundUp, End, Aligned, AlignOf, PlaceStruct, SizeOf;
  }

  // ----- unions

  /** The byte size of a union element as compiled. */
  function CodeSize(a: Arch, d: Def): nat {
    match d
    case Leaf(t, e) => MemSize(a, FieldOf(t, e).ctype)
    case Sub(items) => if CompileStruct(a, items).Some? then CompileStruct(a, items).value.next else 0
    case Uni(items) => if CompileUnion(a, items).Some? then CompileUnion(a, items).value.next else 0
  }

  function CodeMax(a: Arch, ds: seq<Def>): nat {
    if ds == [] then 0 else Max(CodeMax(a, ds[..|ds| - 1]), CodeSize(a, ds[|ds| - 1]))
  }

  predicate UnionInv(a: Arch, ds: seq<Def>, u: UnionState) {
    && u.c.last == 0
    && u.c.align == ListAlign(a, ds)
    && Agrees(u.c.table, PlaceUnion(a, ds, 0), SeparatedUnion(a, ds))
    && CodeMax(a, ds) <= MaxSize(a, ds)
    && (SeparatedUnion(a, ds) ==> CodeMax(a, ds) == MaxSize(a, ds))
    && (ds != [] ==> CodeMax(a, ds) > 0)
    && CodeMax(a, ds) <= u.maxoffset <= RoundUp(CodeMax(a, ds), u.c.align)
    && u.c.next <= u.maxoffset
  }

  /** The running extent stays between the largest member and that rounded up. */
  lemma ExtentBound(m: nat, x: nat, al: nat, size: nat, al': nat, x': nat)
    requires IsAlign(al) && IsAlign(al') && m <= x <= RoundUp(m, al)
    requires x' <= Max(size, RoundUp(x, al'))
    ensures Max(x, x') <= RoundUp(Max(m, size), Max(al', al))
  {
    var top, big := Max(m, size), Max(al', al);
    RoundUpMono(m, top, al);
    RoundUpCoarser(top, al, big);
    RoundUpLeast(top, big);
    AlignDivides(RoundUp(top, big), al', big);
    RoundUpLeast(x, al');
  }

  lemma UnionExtend(a: Arch, init: seq<Def>, d: Def, u: UnionState, t: Table, size: nat, u': UnionState)
    requires UnionInv(a, init, u) && u.c.table.Keys !! t.Keys
    requires Agrees(t, Place(a, d, 0), SeparatedDef(a, d))
    requires size == CodeSize(a, d) && 0 < size <= SizeOf(a, d) && (SeparatedDef(a, d) ==> size == SizeOf(a, d))
    requires u'.c.table == u.c.table + t && u'.c.last == 0 && u'.c.align == Max(AlignOf(a, d), u.c.align)
    requires size <= u'.c.next <= Max(size, RoundUp(u.maxoffset, AlignOf(a, d)))
    requires u'.maxoffset == Max(u.maxoffset, u'.c.next)
    ensures UnionInv(a, init + [d], u')
  {
    hide Agrees, Place, PlaceUnion, PlaceStruct, RoundUp, SizeOf, AlignOf;
    var ds := init + [d];
    assert ds[..|ds| - 1] == init && ds[|ds| - 1] == d;
    ListStep(a, ds, 0);
    assert ListAlign(a, ds) == Max(ListAlign(a, init), AlignOf(a, d));
    assert MaxSize(a, ds) == Max(MaxSize(a, init), SizeOf(a, d));
    assert CodeMax(a, ds) == Max(CodeMax(a, init), size);
    assert SeparatedUnion(a, ds) == (SeparatedUnion(a, init) && SeparatedDef(a, d));
    AgreesJoin(u.c.table, PlaceUnion(a, init, 0), SeparatedUnion(a, init), t, Place(a, d, 0), SeparatedDef(a, d));
    ExtentBound(CodeMax(a, init), u.maxoffset, u.c.align, size, AlignOf(a, d), u'.c.next);
  }

  lemma UnionLeaf(a: Arch, init: seq<Def>, d: Def, u: UnionState, u': UnionState)
    requires d.Leaf? && UnionInv(a, init, u) && UnionStep(a, u, d) == Some(u')
    ensures UnionInv(a, init + [d], u')
  {
    var f := FieldOf(d.ctype, d.elem);
    var size := MemSize(a, f.ctype);
    var t := map[f.name := Info(f.ctype, 0, u'.c.next)];
    UnionLeafStep(a, u, d, u');
    assert size == SizeOf(a, d) && SeparatedDef(a, d) && size == CodeSize(a, d);
    hide *;
    LeafAgrees(a, d, 0, u'.c.next, 0);
    UnionExtend(a, init, d, u, t, size, u');
  }

  lemma UnionLeafStep(a: Arch, u: UnionState, d: Def, u': UnionState)
    requires d.Leaf? && IsAlign(u.c.align) && u.c.last == 0 && u.c.next <= u.maxoffset
    requires UnionStep(a, u, d) == Some(u')
    ensures var f := FieldOf(d.ctype, d.elem);
            var t := map[f.name := Info(f.ctype, 0, u'.c.next)];
            && f.count == 0 && u'.c.table == u.c.table + t && u.c.table.Keys !! t.Keys
            && u'.c.align == Max(AlignOf(a, d), u.c.align) && u'.c.last == 0
            && MemSize(a, f.ctype) <= u'.c.next
            && u'.c.next <= Max(MemSize(a, f.ctype), RoundUp(u.maxoffset, AlignOf(a, d)))
            && u'.maxoffset == Max(u.maxoffset, u'.c.next)
  {
    RoundUpMono(u.c.next, u.maxoffset, AlignOf(a, d));
    assert RoundUp(0, AlignOf(a, d)) == 0;
  }

  lemma UnionNested(a: Arch, init: seq<Def>, d: Def, u: UnionState, child: Cursor, u': UnionState)
    requires !d.Leaf? && UnionInv(a, init, u) && ChildInv(a, d, child) && UnionStep(a, u, d) == Some(u')
    requires if d.Sub? then CompileStruct(a, d.items) == Some(child) else CompileUnion(a, d.items) == Some(child)
    ensures UnionInv(a, init + [d], u')
  {
    hide *;
    InvFactsUnion(a, init, u, d, child);
    AlignedAtLeast(child.next, child.align);
    UnionNestedStep(a, u, d, child, u');
    PlaceMoved(a, d, 0, 0);
    AgreesShifted(child.table, Place(a, d, 0), SeparatedDef(a, d), 0, 0, Place(a, d, 0), 0);
    UnionExtend(a, init, d, u, Shifted(child.table, 0, 0), child.next, u');
  }

  lemma InvFactsUnion(a: Arch, init: seq<Def>, u: UnionState, d: Def, child: Cursor)
    requires UnionInv(a, init, u) && ChildInv(a, d, child)
    ensures u.c.last == 0 && u.c.next <= u.maxoffset && u.c.align > 0 && IsAlign(u.c.align)
    ensures IsAlign(child.align) && child.align == AlignOf(a, d) && child.table != map[]
    ensures 0 < child.next <= SizeOf(a, d) && Aligned(child.next, child.align)
    ensures SeparatedDef(a, d) ==> child.next == SizeOf(a, d)
    ensures Agrees(child.table, Place(a, d, 0), SeparatedDef(a, d))
  {
  }

  lemma UnionNestedStep(a: Arch, u: UnionState, d: Def, child: Cursor, u': UnionState)
    requires !d.Leaf? && IsAlign(u.c.align) && u.c.last == 0 && IsAlign(child.align)
    requires child.align <= child.next && child.align == AlignOf(a, d)
    requires if d.Sub? then CompileStruct(a, d.items) == Some(child) else CompileUnion(a, d.items) == Some(child)
    requires UnionStep(a, u, d) == Some(u')
    ensures var t := Shifted(child.table, 0, 0);
            && u'.c.table == u.c.table + t && u.c.table.Keys !! t.Keys
            && u'.c.next == child.next && u'.c.last == 0 && u'.c.align == Max(child.align, u.c.align)
            && u'.maxoffset == Max(u.maxoffset, child.next) && CodeSize(a, d) == child.next
    ensures forall x {:trigger Max(child.next, x)} :: child.next <= Max(child.next, x)
  {
    assert RoundUp(0, child.align) == 0;
  }

  lemma AlignedAtLeast(n: nat, al: nat)
    requires IsAlign(al) && n > 0 && Aligned(n, al)
    ensures al <= n
  {
  }

  // ----- acceptance

  /** `CreateStruct` gets through exactly the accepted lists, and its table has their names. */
  lemma {:induction false} StructLoopAccepts(a: Arch, ds: seq<Def>)
    ensures StructLoop(a, ds).Some? <==> AcceptedList(ds, false)
    ensures StructLoop(a, ds).Some? ==> StructLoop(a, ds).value.table.Keys == ListNames(ds)
    decreases ds, 1
  {
    if ds != [] {
      var init, d := ds[..|ds| - 1], ds[|ds| - 1];
      StructLoopAccepts(a, init);
      match d {
        case Leaf(_, _) =>
        case Sub(items) => StructAccepts(a, items);
        case Uni(items) => UnionAccepts(a, items);
      }
    }
  }

  lemma {:induction false} StructAccepts(a: Arch, ds: seq<Def>)
    ensures CompileStruct(a, ds).Some? <==> ds != [] && AcceptedList(ds, false)
    ensures CompileStruct(a, ds).Some? ==> CompileStruct(a, ds).value.table.Keys == ListNames(ds)
    decreases ds, 2
  {
    StructLoopAccepts(a, ds);
  }

  lemma {:induction false} UnionLoopAccepts(a: Arch, ds: seq<Def>)
    ensures UnionLoop(a, ds).Some? <==> AcceptedList(ds, true)
    ensures UnionLoop(a, ds).Some? ==> UnionLoop(a, ds).value.c.table.Keys == ListNames(ds)
    decreases ds, 1
  {
    if ds != [] {
      var init, d := ds[..|ds| - 1], ds[|ds| - 1];
      UnionLoopAccepts(a, init);
      match d {
        case Leaf(_, _) =>
        case Sub(items) => StructAccepts(a, items);
        case Uni(items) => UnionAccepts(a, items);
      }
    }
  }

  lemma {:induction false} UnionAccepts(a: Arch, ds: seq<Def>)
    ensures CompileUnion(a, ds).Some? <==> ds != [] && AcceptedList(ds, true)
    ensures CompileUnion(a, ds).Some? ==> CompileUnion(a, ds).value.table.Keys == ListNames(ds)
    decreases ds, 2
  {
    UnionLoopAccepts(a, ds);
  }

  // ----- the main induction

  lemma {:induction false} StructLoopHolds(a: Arch, ds: seq<Def>)
    requires StructLoop(a, ds).Some?
    ensures StructInv(a, ds, StructLoop(a, ds).value)
    decreases ds, 1
  {
    if ds != [] {
      var init, d := ds[..|ds| - 1], ds[|ds| - 1];
      var c, c' := StructLoop(a, init).value, StructLoop(a, ds).value;
      SplitLast(ds);
      StructLoopHolds(a, init);
      match d {
        case Leaf(_, _) =>
          StructLeaf(a, init, d, c, c');
        case Sub(items) =>
          StructHolds(a, items);
          StructSub(a, init, d, c, CompileStruct(a, items).value, c');
        case Uni(items) =>
          UnionHolds(a, items);
          StructUni(a, init, d, c, CompileUnion(a, items).value, c');
      }
    }
  }

  lemma {:induction false} StructHolds(a: Arch, ds: seq<Def>)
    requires CompileStruct(a, ds).Some?
    ensures ChildInv(a, Sub(ds), CompileStruct(a, ds).value)
    decreases ds, 2
  {
    StructLoopHolds(a, ds);
    var c := StructLoop(a, ds).value;
    RoundUpMono(c.next, End(a, ds), c.align);
    RoundUpLeast(c.next, c.align);
    StructAccepts(a, ds);
    NamesNotEmpty(ds, false);
  }

  lemma {:induction false} UnionLoopHolds(a: Arch, ds: seq<Def>)
    requires UnionLoop(a, ds).Some?
    ensures UnionInv(a, ds, UnionLoop(a, ds).value)
    decreases ds, 1
  {
    if ds != [] {
      var init, d := ds[..|ds| - 1], ds[|ds| - 1];
      var u, u' := UnionLoop(a, init).value, UnionLoop(a, ds).value;
      SplitLast(ds);
      UnionLoopHolds(a, init);
      match d {
        case Leaf(_, _) =>
          UnionLeaf(a, init, d, u, u');
        case Sub(items) =>
          StructHolds(a, items);
          UnionNested(a, init, d, u, CompileStruct(a, items).value, u');
        case Uni(items) =>
          UnionHolds(a, items);
          UnionNested(a, init, d, u, CompileUnion(a, items).value, u');
      }
    }
  }

  lemma {:induction false} UnionHolds(a: Arch, ds: seq<Def>)
    requires CompileUnion(a, ds).Some?
    ensures ChildInv(a, Uni(ds), CompileUnion(a, ds).value)
    decreases ds, 2
  {
    UnionLoopHolds(a, ds);
    UnionSize(a, ds);
    var m, al := CodeMax(a, ds), UnionLoop(a, ds).value.c.align;
    RoundUpMono(m, MaxSize(a, ds), al);
    RoundUpLeast(m, al);
    UnionAccepts(a, ds);
    NamesNotEmpty(ds, true);
  }

  /** Although the cursor is reset for each member, the finished union is as large as its largest
      member rounded up to its largest alignment. */
  lemma {:induction false} UnionSize(a: Arch, ds: seq<Def>)
    requires UnionLoop(a, ds).Some? && CompileUnion(a, ds).Some? && UnionInv(a, ds, UnionLoop(a, ds).value)
    ensures CompileUnion(a, ds).value.next == RoundUp(CodeMax(a, ds), UnionLoop(a, ds).value.c.align)
  {
    var u := UnionLoop(a, ds).value;
    var m := CodeMax(a, ds);
    RoundUpMono(m, u.maxoffset, u.c.align);
    RoundUpLeast(m, u.c.align);
    RoundUpLeast(u.maxoffset, u.c.align);
    assert CompileUnion(a, ds).value.next == RoundUp(u.maxoffset, u.c.align);
  }

  lemma {:induction false} NamesNotEmpty(ds: seq<Def>, inUnion: bool)
    requires ds != [] && AcceptedList(ds, inUnion)
    ensures ListNames(ds) != {}
    decreases ds
  {
    var d := ds[|ds| - 1];
    match d {
      case Leaf(t, e) => assert FieldOf(t, e).name in ListNames(ds);
      case Sub(items) =>
        NamesNotEmpty(items, false);
        var k :| k in ListNames(items);
        assert k in ListNames(ds);
      case Uni(items) =>
        NamesNotEmpty(items, true);
        var k :| k in ListNames(items);
        assert k in ListNames(ds);
    }
  }

  /** What `CreateStruct` and `CreateUnion` hand out always has a member. */
  lemma CompiledNotEmpty(a: Arch, ds: seq<Def>)
    ensures CompileStruct(a, ds).Some? ==> CompileStruct(a, ds).value.table.Keys != {}
    ensures UnionBody(a, ds).Some? ==> UnionBody(a, ds).value.table.Keys != {}
  {
    StructAccepts(a, ds);
    UnionAccepts(a, ds);
    if CompileStruct(a, ds).Some? { NamesNotEmpty(ds, false); }
    if UnionBody(a, ds).Some? { NamesNotEmpty(ds, true); }
  }

  // ----- the theorem

  /** `CreateStruct` accepts exactly the well-formed definitions.  Its size and alignment are then
      never above the reference ones, and every leaf has its C11 type and offset if and only if
      no union follows a sibling union it does not clear; in that case the size is right too. */
  lemma LayoutTheorem(a: Arch, ds: seq<Def>)
    ensures CompileStruct(a, ds).Some? <==> ds != [] && AcceptedList(ds, false)
    ensures CompileStruct(a, ds).Some? ==>
              var c, ref := CompileStruct(a, ds).value, PlaceStruct(a, ds, 0);
              && c.table.Keys == ListNames(ds)
              && c.align == AlignOf(a, Sub(ds)) && c.next <= SizeOf(a, Sub(ds))
              && (Same(c.table, ref) <==> Separated(a, ds))
              && (Separated(a, ds) ==> c.next == SizeOf(a, Sub(ds)))
  {
    StructAccepts(a, ds);
    if CompileStruct(a, ds).Some? {
      StructHolds(a, ds);
    }
  }
}
