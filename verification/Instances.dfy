/** Reading and writing structure instances by member name (`cinv_structure_instance_*`). */
module Instances {
  import opened Options
  import opened CTypes
  import opened Memory
  import opened Compile
  import opened Structures

  /** The bounds check of the three array functions.  The index is a C `int`, and nothing before the
      check rejects a negative one. */
  predicate Admitted(a: Arch, m: Info, index: int) {
    (MemSize(a, m.ctype) + 1) * index <= m.extent
  }

  /** One call of `setvalue`, `zerovalue`, `setarrayvalue` or `zeroarrayvalue`. */
  datatype Op =
    | Set(name: string, value: Bytes)
    | Zero(name: string)
    | SetAt(name: string, index: int, value: Bytes)
    | ZeroAt(name: string, index: int)
  {
    /** The element index the call addresses. */
    function Index(): int {
      if SetAt? || ZeroAt? then index else 0
    }

    /** Whether the call gets past its checks. */
    predicate Effective(a: Arch, t: Table) {
      name in t && (SetAt? || ZeroAt? ==> Admitted(a, t[name], index))
    }

    /** The bytes the call copies. */
    function Payload(a: Arch, t: Table): (v: Bytes)
      requires WellFormed(a, t) && name in t
      ensures |v| == MemSize(a, t[name].ctype)
    {
      var sz := MemSize(a, t[name].ctype);
      if Set? || SetAt? then value[..sz] else Zeros(sz)
    }

    /** The value buffer is large enough for the member's type. */
    predicate WellFormed(a: Arch, t: Table) {
      (Set? || SetAt?) && name in t ==> MemSize(a, t[name].ctype) <= |value|
    }
  }

  /** Where element `index` of member `name` starts, from the start of the instance. */
  function ElementOffset(a: Arch, t: Table, name: string, index: int): int
    requires name in t
  {
    t[name].offset + MemSize(a, t[name].ctype) * index
  }

  /** Every negative index passes the check, and the element it addresses starts below the member. */
  lemma NegativeEscapes(a: Arch, m: Info, index: int)
    requires index < 0
    ensures Admitted(a, m, index)
    ensures m.offset + MemSize(a, m.ctype) * index + MemSize(a, m.ctype) <= m.offset
  {
    MulMono(MemSize(a, m.ctype), index, -1);
    MulMono(MemSize(a, m.ctype) + 1, index, -1);
  }

  /** Outside unions, what the check admits stays inside the member exactly when the index is not
      negative. */
  lemma AdmittedInside(a: Arch, m: Info, n: nat, index: int)
    requires m.extent == n * MemSize(a, m.ctype) && n > 0 && Admitted(a, m, index)
    ensures 0 <= index <==>
            0 <= MemSize(a, m.ctype) * index && MemSize(a, m.ctype) * index + MemSize(a, m.ctype) <= m.extent
    ensures 0 <= index ==> index < n
  {
    var sz := MemSize(a, m.ctype);
    if index < 0 {
      NegativeEscapes(a, m, index);
    } else if index >= n {
      PastTheEnd(sz, n, index);
    } else {
      MulMono(sz, index + 1, n);
      MulMono(sz, 0, index);
      assert sz * (index + 1) == sz * index + sz;
    }
  }

  lemma PastTheEnd(sz: nat, n: nat, index: nat)
    requires 0 < n <= index
    ensures n * sz < (sz + 1) * index
  {
    MulMono(sz + 1, n, index);
    assert (sz + 1) * n == sz * n + n;
  }

  lemma MulMono(k: nat, x: int, y: int)
    requires x <= y
    ensures k * x <= k * y
  {
  }

  /** The check is too strict for long arrays: it lets every element through only up to one more
      element than the element size. */
  lemma AdmitsAll(a: Arch, m: Info, n: nat)
    requires m.extent == n * MemSize(a, m.ctype) && n > 0
    ensures (forall i: int :: 0 <= i < n ==> Admitted(a, m, i)) <==> n <= MemSize(a, m.ctype) + 1
  {
    var sz := MemSize(a, m.ctype);
    assert (sz + 1) * (n - 1) == sz * n + n - sz - 1;
    if n <= sz + 1 {
      forall i: int | 0 <= i < n ensures Admitted(a, m, i) {
        MulMono(sz + 1, i, n - 1);
      }
    } else {
      assert !Admitted(a, m, n - 1);
    }
  }

  /** Of the indices that are not negative, the check lets only those of the `n` elements pass. */
  ghost predicate GuardSound(a: Arch, m: Info, n: nat) {
    forall i: int :: 0 <= i && Admitted(a, m, i) ==> i < n
  }

  /** A record whose extent exceeds the size of its `n` elements by `excess` lets an access past
      them exactly when the excess is at least `n`. */
  lemma ExcessGuard(a: Arch, m: Info, n: nat, excess: nat)
    requires m.extent == n * MemSize(a, m.ctype) + excess && n > 0
    ensures GuardSound(a, m, n) <==> excess < n
  {
    var sz := MemSize(a, m.ctype);
    assert (sz + 1) * n == sz * n + n;
    if excess < n {
      forall i: int | 0 <= i && Admitted(a, m, i) ensures i < n {
        if i >= n {
          MulMono(sz + 1, n, i);
        }
      }
    } else {
      assert Admitted(a, m, n);
    }
  }

  // ----- calls on an instance in memory

  /** The bytes a call writes lie in memory. */
  predicate Mapped(a: Arch, t: Table, base: nat, len: nat, op: Op) {
    op.Effective(a, t) ==>
      var at := base + ElementOffset(a, t, op.name, op.Index());
      0 <= at && at + MemSize(a, t[op.name].ctype) <= len
  }

  /** The memory after one call on the instance at `base`; a rejected call changes nothing. */
  function Step(a: Arch, t: Table, base: nat, m: Bytes, op: Op): (r: Bytes)
    requires op.WellFormed(a, t) && Mapped(a, t, base, |m|, op)
    ensures |r| == |m|
  {
    if op.Effective(a, t) then Write(m, base + ElementOffset(a, t, op.name, op.Index()), op.Payload(a, t)) else m
  }

  predicate AllMapped(a: Arch, t: Table, base: nat, len: nat, ops: seq<Op>) {
    forall op :: op in ops ==> op.WellFormed(a, t) && Mapped(a, t, base, len, op)
  }

  function Run(a: Arch, t: Table, base: nat, m: Bytes, ops: seq<Op>): (r: Bytes)
    requires AllMapped(a, t, base, |m|, ops)
    ensures |r| == |m|
  {
    if ops == [] then m
    else Step(a, t, base, Run(a, t, base, m, ops[..|ops| - 1]), ops[|ops| - 1])
  }

  /** The byte at `p` after the last accepted call of a run that covers it. */
  function LastByte(a: Arch, t: Table, base: nat, ops: seq<Op>, p: nat, before: bv8): bv8
    requires forall op :: op in ops ==> op.WellFormed(a, t)
  {
    if ops == [] then before
    else
      var op, init := ops[|ops| - 1], ops[..|ops| - 1];
      if op.Effective(a, t) then
        var from := p - base - ElementOffset(a, t, op.name, op.Index());
        if 0 <= from < MemSize(a, t[op.name].ctype) then op.Payload(a, t)[from] else LastByte(a, t, base, init, p, before)
      else LastByte(a, t, base, init, p, before)
  }

  /** Over every run of calls, on any structure, unions and negative indices included, every byte of
      memory is what the last accepted call that covers it wrote there. */
  lemma {:induction false} ByteLaw(a: Arch, t: Table, base: nat, m: Bytes, ops: seq<Op>, p: nat)
    requires AllMapped(a, t, base, |m|, ops) && p < |m|
    ensures Run(a, t, base, m, ops)[p] == LastByte(a, t, base, ops, p, m[p])
    decreases |ops|
  {
    hide MemSize, Step, Mapped;
    if ops != [] {
      var init, op := ops[..|ops| - 1], ops[|ops| - 1];
      ByteLaw(a, t, base, m, init, p);
      StepIs(a, t, base, Run(a, t, base, m, init), op);
    }
  }

  /** Element `index` of member `name` lies in memory. */
  predicate Seen(a: Arch, t: Table, base: nat, len: nat, name: string, index: int) {
    name in t && 0 <= base + ElementOffset(a, t, name, index)
    && base + ElementOffset(a, t, name, index) + MemSize(a, t[name].ctype) <= len
  }

  /** Element `index` of member `name`, as `getvalue`/`getarrayvalue` let the caller see it. */
  function ReadElement(a: Arch, t: Table, base: nat, m: Bytes, name: string, index: int): Bytes
    requires Seen(a, t, base, |m|, name, index)
  {
    var at := base + ElementOffset(a, t, name, index);
    m[at..at + MemSize(a, t[name].ctype)]
  }

  /** The bytes last written to an element by the accepted calls of a run, else what it held. */
  function LastWritten(a: Arch, t: Table, ops: seq<Op>, name: string, index: int, before: Bytes): Bytes
    requires forall op :: op in ops ==> op.WellFormed(a, t)
  {
    if ops == [] then before
    else
      var op := ops[|ops| - 1];
      if op.Effective(a, t) && op.name == name && op.Index() == index then op.Payload(a, t)
      else LastWritten(a, t, ops[..|ops| - 1], name, index, before)
  }

  lemma WriteRead(m: Bytes, at: nat, v: Bytes, from: nat, n: nat)
    requires at + |v| <= |m| && from + n <= |m|
    ensures at == from && |v| == n ==> Write(m, at, v)[from..from + n] == v
    ensures at + |v| <= from || from + n <= at ==> Write(m, at, v)[from..from + n] == m[from..from + n]
  {
  }

  /** The call addresses this element, or no byte of it. */
  predicate AllOrNothing(a: Arch, t: Table, op: Op, name: string, index: int)
    requires name in t
  {
    op.Effective(a, t) && (op.name, op.Index()) != (name, index) ==>
      var at, from := ElementOffset(a, t, op.name, op.Index()), ElementOffset(a, t, name, index);
      at + MemSize(a, t[op.name].ctype) <= from || from + MemSize(a, t[name].ctype) <= at
  }

  lemma StepRead(a: Arch, t: Table, base: nat, m: Bytes, op: Op, name: string, index: int)
    requires Seen(a, t, base, |m|, name, index) && op.WellFormed(a, t) && Mapped(a, t, base, |m|, op)
    requires AllOrNothing(a, t, op, name, index)
    ensures ReadElement(a, t, base, Step(a, t, base, m, op), name, index) ==
              if op.Effective(a, t) && op.name == name && op.Index() == index then op.Payload(a, t)
              else ReadElement(a, t, base, m, name, index)
  {
    hide Write, MemSize;
    if op.Effective(a, t) {
      var at, from := ElementOffset(a, t, op.name, op.Index()), ElementOffset(a, t, name, index);
      WriteRead(m, base + at, op.Payload(a, t), base + from, MemSize(a, t[name].ctype));
    }
  }

  /** On any structure, over every run of calls that address an element as a whole or not at all, it
      reads back the last bytes written to it, and keeps what it held if nobody wrote it. */
  lemma {:induction false} ElementLaw(a: Arch, t: Table, base: nat, m: Bytes, ops: seq<Op>, name: string, index: int)
    requires AllMapped(a, t, base, |m|, ops) && Seen(a, t, base, |m|, name, index)
    requires forall op :: op in ops ==> AllOrNothing(a, t, op, name, index)
    ensures ReadElement(a, t, base, Run(a, t, base, m, ops), name, index) ==
              LastWritten(a, t, ops, name, index, ReadElement(a, t, base, m, name, index))
    decreases |ops|
  {
    hide Mapped, Step, AllOrNothing, ReadElement;
    if ops != [] {
      var init := ops[..|ops| - 1];
      ElementLaw(a, t, base, m, init, name, index);
      StepRead(a, t, base, Run(a, t, base, m, init), ops[|ops| - 1], name, index);
    }
  }

  // ----- a finished structure whose members do not share bytes

  predicate Apart(m: Info, n: Info) {
    m.offset + m.extent <= n.offset || n.offset + n.extent <= m.offset
  }

  /** Every member is an array of `counts[k]` elements (1 for a plain value) of its own. */
  predicate WellPlaced(a: Arch, t: Table, counts: map<string, nat>, size: nat) {
    && counts.Keys == t.Keys
    && (forall k :: k in t ==>
          counts[k] > 0 && t[k].extent == counts[k] * MemSize(a, t[k].ctype) && t[k].offset + t[k].extent <= size)
    && (forall j, k :: j in t && k in t && j != k ==> Apart(t[j], t[k]))
  }

  /** A call with an index that is not negative never leaves its member. */
  lemma OpInside(a: Arch, t: Table, counts: map<string, nat>, size: nat, op: Op)
    requires WellPlaced(a, t, counts, size) && op.Effective(a, t) && 0 <= op.Index()
    ensures op.Index() < counts[op.name]
    ensures t[op.name].offset <= ElementOffset(a, t, op.name, op.Index())
    ensures ElementOffset(a, t, op.name, op.Index()) + MemSize(a, t[op.name].ctype)
            <= t[op.name].offset + t[op.name].extent <= size
  {
    var m, n := t[op.name], counts[op.name];
    assert Admitted(a, m, op.Index());
    AdmittedInside(a, m, n, op.Index());
  }

  lemma ElementInside(a: Arch, t: Table, counts: map<string, nat>, size: nat, name: string, index: nat)
    requires WellPlaced(a, t, counts, size) && name in t && index < counts[name]
    ensures t[name].offset <= ElementOffset(a, t, name, index)
    ensures ElementOffset(a, t, name, index) + MemSize(a, t[name].ctype) <= t[name].offset + t[name].extent <= size
  {
    var sz := MemSize(a, t[name].ctype);
    MulMono(sz, index + 1, counts[name]);
    MulMono(sz, 0, index);
    assert sz * (index + 1) == sz * index + sz;
  }

  /** Different elements do not overlap. */
  lemma ElementsApart(a: Arch, t: Table, counts: map<string, nat>, size: nat, name: string, index: nat,
                      name': string, index': nat)
    requires WellPlaced(a, t, counts, size) && name in t && name' in t
    requires index < counts[name] && index' < counts[name'] && (name, index) != (name', index')
    ensures var at, at' := ElementOffset(a, t, name, index), ElementOffset(a, t, name', index');
            at + MemSize(a, t[name].ctype) <= at' || at' + MemSize(a, t[name'].ctype) <= at
  {
    ElementInside(a, t, counts, size, name, index);
    ElementInside(a, t, counts, size, name', index');
    if name == name' {
      var sz := MemSize(a, t[name].ctype);
      if index < index' {
        MulMono(sz, index + 1, index');
        assert sz * (index + 1) == sz * index + sz;
      } else {
        MulMono(sz, index' + 1, index);
        assert sz * (index' + 1) == sz * index' + sz;
      }
    } else {
      assert Apart(t[name], t[name']);
    }
  }

  /** Without unions: every run of calls whose indices are not negative stays inside the instance, and
      every element reads back the last bytes written to it. */
  lemma LensLaw(a: Arch, t: Table, counts: map<string, nat>, size: nat, base: nat, m: Bytes, ops: seq<Op>,
                name: string, index: nat)
    requires WellPlaced(a, t, counts, size) && base + size <= |m|
    requires forall op :: op in ops ==> op.WellFormed(a, t) && 0 <= op.Index()
    requires name in t && index < counts[name]
    ensures AllMapped(a, t, base, |m|, ops) && Seen(a, t, base, |m|, name, index)
    ensures ReadElement(a, t, base, Run(a, t, base, m, ops), name, index) ==
              LastWritten(a, t, ops, name, index, ReadElement(a, t, base, m, name, index))
  {
    hide WellPlaced, MemSize;
    ElementInside(a, t, counts, size, name, index);
    forall op | op in ops ensures Mapped(a, t, base, |m|, op) && AllOrNothing(a, t, op, name, index) {
      if op.Effective(a, t) {
        OpInside(a, t, counts, size, op);
        if (op.name, op.Index()) != (name, index) {
          ElementsApart(a, t, counts, size, op.name, op.Index(), name, index);
        }
      }
    }
    ElementLaw(a, t, base, m, ops, name, index);
  }

  // ----- the functions of structure.c, on the bytes

  /** `get_member_with_size`. */
  method GetMember(st: Structure, name: string) returns (found: bool, offset: nat, sz: nat, extent: nat)
    requires st.Valid()
    ensures found <==> name in st.table
    ensures found ==> offset == st.table[name].offset && extent == st.table[name].extent
                      && sz == MemSize(st.arch, st.table[name].ctype)
  {
    st.SameNames();
    if name !in st.members {
      return false, 0, 0, 0;
    }
    var m := st.members[name];
    assert m.View() == st.table[name];
    return true, m.offset, MemSize(st.arch, m.ctype), m.extent;
  }

  /** The zeroing loop. */
  method ZeroIn(inst: array<bv8>, at: nat, len: nat)
    requires at + len <= inst.Length
    modifies inst
    ensures inst[..] == Write(old(inst[..]), at, Zeros(len))
  {
    var ptr, sz := at, len;
    while sz != 0
      invariant 0 <= sz <= len && ptr == at + (len - sz)
      invariant inst[..] == Write(old(inst[..]), at, Zeros(len - sz))
    {
      inst[ptr] := 0;
      ptr := ptr + 1;
      sz := sz - 1;
    }
  }

  /** A call, spelled out. */
  lemma StepIs(a: Arch, t: Table, base: nat, m: Bytes, op: Op)
    requires op.WellFormed(a, t) && Mapped(a, t, base, |m|, op)
    ensures op.Index() == if op.SetAt? || op.ZeroAt? then op.index else 0
    ensures op.Effective(a, t) <==>
            op.name in t && (op.SetAt? || op.ZeroAt? ==> (MemSize(a, t[op.name].ctype) + 1) * op.index <= t[op.name].extent)
    ensures op.Effective(a, t) ==>
              var at, sz := base + ElementOffset(a, t, op.name, op.Index()), MemSize(a, t[op.name].ctype);
              && 0 <= at && at + sz <= |m|
              && at == base + t[op.name].offset + sz * op.Index()
              && op.Payload(a, t) == (if op.Set? || op.SetAt? then op.value[..sz] else Zeros(sz))
              && Step(a, t, base, m, op) == Write(m, at, op.Payload(a, t))
    ensures !op.Effective(a, t) ==> Step(a, t, base, m, op) == m
  {
  }

  lemma LargeEnough(a: Arch, t: Table, op: Op)
    ensures op.WellFormed(a, t) <==> ((op.Set? || op.SetAt?) && op.name in t ==> MemSize(a, t[op.name].ctype) <= |op.value|)
  {
  }

  // ----- the same in bytes

  /** The member exists, and an array index times one byte more than the element size is no more than
      the recorded extent. */
  predicate Accepts(a: Arch, t: Table, name: string, asArray: bool, index: int) {
    name in t && (asArray ==> (MemSize(a, t[name].ctype) + 1) * index <= t[name].extent)
  }

  /** The bytes of the addressed element are the first of the value, and no other byte has changed. */
  predicate Copied(a: Arch, t: Table, base: nat, m: Bytes, m': Bytes, name: string, asArray: bool, index: int, value: Bytes) {
    |m'| == |m| &&
    if !Accepts(a, t, name, asArray, index) then m' == m
    else
      var sz := MemSize(a, t[name].ctype);
      var at := base + t[name].offset + sz * (if asArray then index else 0);
      0 <= at && at + sz <= |m| && sz <= |value|
      && forall k :: 0 <= k < |m| ==> m'[k] == if at <= k < at + sz then value[k - at] else m[k]
  }

  /** The bytes of the addressed element are 0, and no other byte has changed. */
  predicate Cleared(a: Arch, t: Table, base: nat, m: Bytes, m': Bytes, name: string, asArray: bool, index: int) {
    |m'| == |m| &&
    if !Accepts(a, t, name, asArray, index) then m' == m
    else
      var sz := MemSize(a, t[name].ctype);
      var at := base + t[name].offset + sz * (if asArray then index else 0);
      0 <= at && at + sz <= |m|
      && forall k :: 0 <= k < |m| ==> m'[k] == if at <= k < at + sz then 0 else m[k]
  }

  /** Overwriting, byte by byte. */
  lemma WriteBytes(m: Bytes, at: nat, v: Bytes, sz: nat)
    requires sz <= |v| && at + sz <= |m|
    ensures |Write(m, at, v[..sz])| == |m|
    ensures forall k :: 0 <= k < |m| ==> Write(m, at, v[..sz])[k] == if at <= k < at + sz then v[k - at] else m[k]
  {
  }

  lemma CallInBytes(a: Arch, t: Table, base: nat, m: Bytes, name: string, asArray: bool, index: int, value: Bytes)
    requires name in t ==> MemSize(a, t[name].ctype) <= |value|
    requires Mapped(a, t, base, |m|, SetOp(asArray, name, index, value))
    ensures var op := SetOp(asArray, name, index, value);
            && op.WellFormed(a, t)
            && (op.Effective(a, t) <==> Accepts(a, t, name, asArray, index))
            && Copied(a, t, base, m, Step(a, t, base, m, op), name, asArray, index, value)
  {
    hide Write, MemSize, Mapped, ElementOffset, Step, Op.Effective, Op.Payload, Op.Index;
    var op := SetOp(asArray, name, index, value);
    StepIs(a, t, base, m, op);
    if op.Effective(a, t) {
      WriteBytes(m, base + ElementOffset(a, t, op.name, op.Index()), value, MemSize(a, t[name].ctype));
    }
  }

  lemma ZeroInBytes(a: Arch, t: Table, base: nat, m: Bytes, name: string, asArray: bool, index: int)
    requires Mapped(a, t, base, |m|, if asArray then ZeroAt(name, index) else Zero(name))
    ensures var op := if asArray then ZeroAt(name, index) else Zero(name);
            && op.WellFormed(a, t)
            && (op.Effective(a, t) <==> Accepts(a, t, name, asArray, index))
            && Cleared(a, t, base, m, Step(a, t, base, m, op), name, asArray, index)
  {
    hide Write, MemSize, Mapped, ElementOffset, Step, Op.Effective, Op.Payload, Op.Index;
    var op := if asArray then ZeroAt(name, index) else Zero(name);
    StepIs(a, t, base, m, op);
    if op.Effective(a, t) {
      var sz := MemSize(a, t[name].ctype);
      assert Zeros(sz)[..sz] == Zeros(sz);
      WriteBytes(m, base + ElementOffset(a, t, op.name, op.Index()), Zeros(sz), sz);
    }
  }

  /** `cinv_structure_instance_setvalue` and `..._setarrayvalue` on the instance at `base`; a missing
      value is an error. */
  method SetElement(st: Structure, mem: array<bv8>, base: nat, name: string,
                    asArray: bool, index: int, value: Option<Bytes>) returns (ok: bool)
    requires st.Valid()
    requires value.Some? && name in st.table ==> MemSize(st.arch, st.table[name].ctype) <= |value.value|
    requires value.Some? ==> Mapped(st.arch, st.table, base, mem.Length, SetOp(asArray, name, index, value.value))
    modifies mem
    ensures value.None? ==> !ok && mem[..] == old(mem[..])
    ensures value.Some? ==>
              var op := SetOp(asArray, name, index, value.value);
              && ok == op.Effective(st.arch, st.table) && op.WellFormed(st.arch, st.table)
              && mem[..] == Step(st.arch, st.table, base, old(mem[..]), op)
    ensures ok <==> value.Some? && Accepts(st.arch, st.table, name, asArray, index)
    ensures value.Some? ==>
              Copied(st.arch, st.table, base, old(mem[..]), mem[..], name, asArray, index, value.value)
  {
    hide *;
    if value.None? {
      return false;
    }
    CallInBytes(st.arch, st.table, base, mem[..], name, asArray, index, value.value);
    ghost var op := SetOp(asArray, name, index, value.value);
    SetOpIs(asArray, name, index, value.value);
    LargeEnough(st.arch, st.table, op);
    StepIs(st.arch, st.table, base, mem[..], op);
    var found, offset, sz, extent := GetMember(st, name);
    if !found || (asArray && (sz + 1) * index > extent) {
      return false;
    }
    var _ := Put(mem, base + offset + sz * (if asArray then index else 0), value.value[..sz]);
    ok := true;
  }

  function SetOp(asArray: bool, name: string, index: int, value: Bytes): Op {
    if asArray then SetAt(name, index, value) else Set(name, value)
  }

  lemma SetOpIs(asArray: bool, name: string, index: int, value: Bytes)
    ensures SetOp(asArray, name, index, value) == if asArray then SetAt(name, index, value) else Set(name, value)
  {
  }

  /** `cinv_structure_instance_zerovalue` and `..._zeroarrayvalue`. */
  method ZeroElement(st: Structure, mem: array<bv8>, base: nat, name: string,
                     asArray: bool, index: int) returns (ok: bool)
    requires st.Valid()
    requires Mapped(st.arch, st.table, base, mem.Length, if asArray then ZeroAt(name, index) else Zero(name))
    modifies mem
    ensures var op := if asArray then ZeroAt(name, index) else Zero(name);
            && ok == op.Effective(st.arch, st.table)
            && mem[..] == Step(st.arch, st.table, base, old(mem[..]), op)
    ensures ok <==> Accepts(st.arch, st.table, name, asArray, index)
    ensures Cleared(st.arch, st.table, base, old(mem[..]), mem[..], name, asArray, index)
  {
    hide *;
    ZeroInBytes(st.arch, st.table, base, mem[..], name, asArray, index);
    ghost var op := if asArray then ZeroAt(name, index) else Zero(name);
    LargeEnough(st.arch, st.table, op);
    StepIs(st.arch, st.table, base, mem[..], op);
    var found, offset, sz, extent := GetMember(st, name);
    if !found || (asArray && (sz + 1) * index > extent) {
      return false;
    }
    ZeroIn(mem, base + offset + sz * (if asArray then index else 0), sz);
    ok := true;
  }

  /** `cinv_structure_instance_getvalue` and `..._getarrayvalue`: the position from the instance's
      start, below it for a negative index. */
  method GetElement(st: Structure, name: string, asArray: bool, index: int) returns (at: Option<int>)
    requires st.Valid()
    ensures at.Some? <==> name in st.table && (asArray ==> Admitted(st.arch, st.table[name], index))
    ensures at.Some? ==> at.value == ElementOffset(st.arch, st.table, name, if asArray then index else 0)
    ensures at.Some? <==> Accepts(st.arch, st.table, name, asArray, index)
    ensures at.Some? ==>
              var m := st.table[name]; at.value == m.offset + MemSize(st.arch, m.ctype) * (if asArray then index else 0)
  {
    var found, offset, sz, extent := GetMember(st, name);
    if !found || (asArray && (sz + 1) * index > extent) {
      return None;
    }
    return Some(offset + sz * (if asArray then index else 0));
  }
}
