/** What `CreateStruct` and `CreateUnion` compute, cursor by cursor, on values. */
module Compile {
  import opened Options
  import opened CTypes
  import opened Rounding
  import opened Definitions

  /** A member record: its type, its offset and its byte extent (`nextoffset` of the member). */
  datatype Info = Info(ctype: CType, offset: nat, extent: nat)

  type Table = map<string, Info>

  /** A structure under construction: the member table and the three cursors. */
  datatype Cursor = Cursor(table: Table, next: nat, last: nat, align: nat)

  const START := Cursor(map[], 0, 0, 1)

  function FieldBytes(a: Arch, f: Field): nat {
    if f.count > 0 then f.count * MemSize(a, f.ctype) else MemSize(a, f.ctype)
  }

  /** `cinv_structure_addmember_value` and `cinv_structure_addmember_array`. */
  function AddMember(a: Arch, c: Cursor, f: Field): Option<Cursor> {
    if f.name in c.table then None
    else
      var sz, align := FieldBytes(a, f), AlignSize(a, f.ctype);
      var at := RoundUp(c.next, align);
      Some(Cursor(c.table[f.name := Info(f.ctype, at, sz)], at + sz, at + sz, Max(align, c.align)))
  }

  /** `cinv_structure_addmember_union`. */
  function AddUnionMember(a: Arch, c: Cursor, f: Field): Option<Cursor>
    requires c.last <= c.next && c.align > 0
    ensures AddUnionMember(a, c, f).Some? ==>
              AddUnionMember(a, c, f).value.last <= AddUnionMember(a, c, f).value.next
  {
    if f.name in c.table then None
    else
      var sz, align := MemSize(a, f.ctype), AlignSize(a, f.ctype);
      var next, last := RoundUp(c.next, align), RoundUp(c.last, align);
      RoundUpMono(c.last, c.next, align);
      var next' := if sz > next - last then last + sz else next;
      Some(Cursor(c.table[f.name := Info(f.ctype, last, next' - last)], next', last, Max(align, c.align)))
  }

  /** The members of a child, moved to `base`; `grow` is what the loop adds to their extents. */
  function Shifted(t: Table, base: nat, grow: nat): Table {
    map k | k in t :: Info(t[k].ctype, t[k].offset + base, t[k].extent + grow)
  }

  /** `cinv_structure_insert_struct` of a finished child. */
  function InsertStruct(c: Cursor, child: Cursor): Option<Cursor>
    requires child.align > 0
  {
    if c.table.Keys !! child.table.Keys then
      var at := RoundUp(c.next, child.align);
      Some(Cursor(c.table + Shifted(child.table, at, 0), at + child.next, at + child.next,
                  Max(child.align, c.align)))
    else None
  }

  /** `cinv_structure_insert_union_struct` of a finished child, after its caller has aligned the
      cursors: note that it starts again from `last`, and adds the base to every extent. */
  function InsertUnion(c: Cursor, child: Cursor): Option<Cursor>
    requires child.align > 0
  {
    if c.table.Keys !! child.table.Keys then
      var last := RoundUp(c.last, child.align);
      Some(Cursor(c.table + Shifted(child.table, last, last), last + child.next, last,
                  Max(child.align, c.align)))
    else None
  }

  /** The alignment that precedes `cinv_structure_insert_union_struct` and stays when that refuses. */
  function Realigned(c: Cursor, child: Cursor): Cursor
    requires child.align > 0
  {
    var last := RoundUp(c.last, child.align);
    c.(next := last, last := last, align := Max(child.align, c.align))
  }

  /** `cinv_structure_finish`. */
  function Finish(c: Cursor): Cursor
    requires c.align > 0
  {
    var next := RoundUp(c.next, c.align);
    c.(next := next, last := next)
  }

  /** One turn of the loop in `CreateStruct`. */
  function StructStep(a: Arch, c: Cursor, d: Def): (r: Option<Cursor>)
    requires IsAlign(c.align)
    ensures r.Some? ==> IsAlign(r.value.align)
    decreases d, 0
  {
    match d
    case Leaf(t, e) => AddMember(a, c, FieldOf(t, e))
    case Sub(items) =>
      var child := CompileStruct(a, items);
      if child.None? then None else InsertStruct(c, child.value)
    case Uni(items) =>
      var child := CompileUnion(a, items);
      if child.None? then None else InsertUnion(c, child.value)
  }

  function StructLoop(a: Arch, ds: seq<Def>): (r: Option<Cursor>)
    ensures r.Some? ==> IsAlign(r.value.align)
    decreases ds, 1
  {
    if ds == [] then Some(START)
    else
      var c := StructLoop(a, ds[..|ds| - 1]);
      if c.None? then None else StructStep(a, c.value, ds[|ds| - 1])
  }

  /** `CreateStruct`: None is an error return. */
  function CompileStruct(a: Arch, ds: seq<Def>): (r: Option<Cursor>)
    ensures r.Some? ==> IsAlign(r.value.align)
    decreases ds, 2
  {
    var c := StructLoop(a, ds);
    if ds == [] || c.None? then None else Some(Finish(c.value))
  }

  /** `CreateUnion` also carries `maxoffset`. */
  datatype UnionState = UnionState(c: Cursor, maxoffset: nat)

  /** One turn of the loop in `CreateUnion`, run on a fresh structure (so `last` stays 0). */
  function UnionStep(a: Arch, u: UnionState, d: Def): (r: Option<UnionState>)
    requires IsAlign(u.c.align) && u.c.last == 0
    ensures r.Some? ==> IsAlign(r.value.c.align) && r.value.c.last == 0
    decreases d, 0
  {
    match d
    case Leaf(t, e) =>
      var f := FieldOf(t, e);
      if f.count > 0 then None
      else
        var c := AddUnionMember(a, u.c, f);
        if c.None? then None
        else Some(UnionState(c.value, Max(u.maxoffset, c.value.next - c.value.last)))
    case Sub(items) =>
      var child := CompileStruct(a, items);
      if child.None? then None
      else
        var c := InsertUnion(u.c, child.value);
        if c.None? then None
        else Some(UnionState(c.value,
          Max(Max(u.maxoffset, c.value.next - c.value.last), child.value.align)))
    case Uni(items) =>
      var child := CompileUnion(a, items);
      if child.None? then None
      else
        var c := InsertUnion(u.c, child.value);
        if c.None? then None
        else Some(UnionState(c.value, Max(u.maxoffset, c.value.next - c.value.last)))
  }

  function UnionLoop(a: Arch, ds: seq<Def>): (r: Option<UnionState>)
    ensures r.Some? ==> IsAlign(r.value.c.align) && r.value.c.last == 0
    decreases ds, 1
  {
    if ds == [] then Some(UnionState(START, 0))
    else
      var u := UnionLoop(a, ds[..|ds| - 1]);
      if u.None? then None else UnionStep(a, u.value, ds[|ds| - 1])
  }

  /** `CreateUnion` on a fresh structure, up to its return. */
  function UnionBody(a: Arch, ds: seq<Def>): (r: Option<Cursor>)
    ensures r.Some? ==> IsAlign(r.value.align)
    decreases ds, 2
  {
    var u := UnionLoop(a, ds);
    if ds == [] || u.None? then None
    else
      var c := u.value.c;
      var next := if u.value.maxoffset > c.next - c.last then c.last + u.value.maxoffset else c.next;
      Some(c.(next := next))
  }

  /** `CreateUnion` followed by its caller's `cinv_structure_finish`. */
  function CompileUnion(a: Arch, ds: seq<Def>): (r: Option<Cursor>)
    ensures r.Some? ==> IsAlign(r.value.align)
    decreases ds, 3
  {
    var c := UnionBody(a, ds);
    if c.None? then None else Some(Finish(c.value))
  }
}
