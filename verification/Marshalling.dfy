/** `Natives.marshalArray` and `unmarshalArray`: Java arrays to native memory and back. */
module Marshalling {
  import opened Options
  import opened CTypes
  import opened Memory
  import opened Rounding
  import opened Definitions
  import opened Layout
  import opened Natives

  /** A Java value: null, a number or pointer as its native bytes, or an object with its fields. */
  datatype JObject = Null | Prim(bytes: Bytes) | Rec(fields: seq<JObject>)

  // ----- the layout of a native structure

  /** The C definition of a member; names play no part in a layout. */
  function Shape(m: Member): Def
    decreases m
  {
    match m
    case Value(_, t) => Leaf(t, "m")
    case Struct(_, st) => Sub(Shapes(st.members))
  }

  function Shapes(ms: seq<Member>): (ds: seq<Def>)
    ensures |ds| == |ms|
    decreases ms
  {
    seq(|ms|, i requires 0 <= i < |ms| => Shape(ms[i]))
  }

  function Size(a: Arch, m: Member): nat {
    SizeOf(a, Shape(m))
  }

  /** `sizeStruct`. */
  function StructSize(a: Arch, ms: seq<Member>): nat {
    SizeOf(a, Sub(Shapes(ms)))
  }

  /** `getMemberPtrStruct`, relative to the structure. */
  function Offset(a: Arch, ms: seq<Member>, i: nat): nat
    requires i < |ms|
  {
    StartOf(a, Shapes(ms), i)
  }

  lemma PlainMember(t: CType)
    ensures FieldOf(t, "m") == Field("m", t, 0)
  {
    PlainName("m");
  }

  lemma ValueSize(a: Arch, m: Member)
    requires m.Value?
    ensures Size(a, m) == MemSize(a, m.ctype) && AlignOf(a, Shape(m)) == AlignSize(a, m.ctype)
  {
    PlainMember(m.ctype);
  }

  /** The arithmetic of `addmember_value`, `addmember_struct` and `finish` on a member list: the
      cursors put every member where the reference does. */
  method LayOut(a: Arch, ms: seq<Member>) returns (offsets: seq<nat>, size: nat, alignment: nat)
    ensures |offsets| == |ms| && forall i :: 0 <= i < |ms| ==> offsets[i] == Offset(a, ms, i)
    ensures size == StructSize(a, ms) && alignment == AlignOf(a, Sub(Shapes(ms)))
    decreases ms
  {
    hide *;
    var nextoffset := 0;
    offsets, alignment := [], 1;
    NothingLaid(a, ms);
    while |offsets| < |ms|
      invariant |offsets| <= |ms|
      invariant nextoffset == End(a, Shapes(ms)[..|offsets|]) && alignment == ListAlign(a, Shapes(ms)[..|offsets|])
      invariant forall i :: 0 <= i < |offsets| ==> offsets[i] == Offset(a, ms, i)
    {
      var m := ms[|offsets|];
      NextLaid(a, ms, |offsets|);
      var sz, align;
      match m {
        case Value(_, t) =>
          ValueSize(a, m);
          sz, align := MemSize(a, t), AlignSize(a, t);
        case Struct(_, st) =>
          var _, inner, al := LayOut(a, st.members);
          StructShape(a, m);
          sz, align := inner, al;
      }
      nextoffset := RoundUp(nextoffset, align);
      offsets := offsets + [nextoffset];
      nextoffset := nextoffset + sz;
      alignment := Rounding.Max(alignment, align);
    }
    AllLaid(a, ms);
    size := RoundUp(nextoffset, alignment);
  }

  lemma NothingLaid(a: Arch, ms: seq<Member>)
    ensures End(a, Shapes(ms)[..0]) == 0 && ListAlign(a, Shapes(ms)[..0]) == 1
  {
  }

  lemma NextLaid(a: Arch, ms: seq<Member>, k: nat)
    requires k < |ms|
    ensures var ds, al := Shapes(ms), AlignOf(a, Shape(ms[k]));
            && Offset(a, ms, k) == RoundUp(End(a, ds[..k]), al)
            && End(a, ds[..k + 1]) == Offset(a, ms, k) + Size(a, ms[k])
            && ListAlign(a, ds[..k + 1]) == Rounding.Max(ListAlign(a, ds[..k]), al)
  {
    var init := Shapes(ms)[..k + 1];
    assert init[..k] == Shapes(ms)[..k] && init[k] == Shape(ms[k]);
  }

  lemma AllLaid(a: Arch, ms: seq<Member>)
    ensures Shapes(ms)[..|ms|] == Shapes(ms)
    ensures StructSize(a, ms) == RoundUp(End(a, Shapes(ms)), ListAlign(a, Shapes(ms)))
    ensures AlignOf(a, Sub(Shapes(ms))) == ListAlign(a, Shapes(ms))
  {
  }

  lemma StructShape(a: Arch, m: Member)
    requires m.Struct?
    ensures Size(a, m) == StructSize(a, m.st.members) && AlignOf(a, Shape(m)) == AlignOf(a, Sub(Shapes(m.st.members)))
  {
  }

  lemma {:induction false} EndMono(a: Arch, ds: seq<Def>, i: nat)
    requires i <= |ds|
    ensures End(a, ds[..i]) <= End(a, ds)
    decreases |ds|
  {
    if i < |ds| {
      var n := |ds| - 1;
      RoundUpLeast(End(a, ds[..n]), AlignOf(a, ds[n]));
      EndMono(a, ds[..n], i);
      assert ds[..n][..i] == ds[..i];
    } else {
      assert ds[..i] == ds;
    }
  }

  /** Members follow one another inside the structure. */
  lemma MembersApart(a: Arch, ms: seq<Member>, i: nat, j: nat)
    requires i < j <= |ms|
    ensures Offset(a, ms, i) + Size(a, ms[i]) <= if j < |ms| then Offset(a, ms, j) else StructSize(a, ms)
  {
    var ds := Shapes(ms);
    var init := ds[..i + 1];
    assert init[..i] == ds[..i] && init[i] == ds[i];
    assert End(a, init) == Offset(a, ms, i) + Size(a, ms[i]);
    EndMono(a, ds[..j], i + 1);
    assert ds[..j][..i + 1] == init;
    if j < |ms| {
      RoundUpLeast(End(a, ds[..j]), AlignOf(a, ds[j]));
    } else {
      assert ds[..j] == ds;
      RoundUpLeast(End(a, ds), ListAlign(a, ds));
    }
  }

  // ----- what memory holds

  /** `o` can be a field of this type.  Objects, pointers and boxed numbers may be null. */
  predicate Typed(a: Arch, m: Member, o: JObject)
    decreases m
  {
    match m
    case Value(_, t) => o == Null || (o.Prim? && |o.bytes| == MemSize(a, t))
    case Struct(_, st) => o == Null || (o.Rec? && AllTyped(a, st.members, o.fields))
  }

  predicate AllTyped(a: Arch, ms: seq<Member>, os: seq<JObject>)
    decreases ms
  {
    |os| == |ms| && forall i :: 0 <= i < |ms| ==> Typed(a, ms[i], os[i])
  }

  /** How marshalling ends: a null object throws, a null pointer or number in a field is passed to
      native code, which asks for its class (undefined in JNI). */
  datatype Fate = Done | Threw | Undefined

  /** The first null in field order decides. */
  function FateOf(m: Member, o: JObject): Fate
    decreases m, 1
  {
    match m
    case Value(_, _) => if o.Null? then Undefined else Done
    case Struct(_, st) => if o.Rec? then FieldsFate(st.members, o.fields) else Threw
  }

  function FieldsFate(ms: seq<Member>, os: seq<JObject>): Fate
    decreases ms, 0
  {
    if ms == [] || |os| < |ms| then Done
    else
      var n := |ms| - 1;
      var before := FieldsFate(ms[..n], os[..n]);
      if before != Done then before else FateOf(ms[n], os[n])
  }

  /** A tree without nulls. */
  predicate NullFree(o: JObject)
    decreases o
  {
    match o
    case Null => false
    case Prim(_) => true
    case Rec(fields) => forall i :: 0 <= i < |fields| ==> NullFree(fields[i])
  }

  /** Marshalling succeeds exactly on trees without nulls. */
  lemma {:induction false} DoneExactly(a: Arch, m: Member, o: JObject)
    requires Typed(a, m, o)
    ensures FateOf(m, o) == Done <==> NullFree(o)
    decreases m, 1
  {
    if m.Struct? && o.Rec? {
      AllDone(a, m.st.members, o.fields);
    }
  }

  lemma {:induction false} AllDone(a: Arch, ms: seq<Member>, os: seq<JObject>)
    requires AllTyped(a, ms, os)
    ensures FieldsFate(ms, os) == Done <==> forall i :: 0 <= i < |os| ==> NullFree(os[i])
    decreases ms, 0
  {
    if ms != [] {
      var n := |ms| - 1;
      AllDone(a, ms[..n], os[..n]);
      DoneExactly(a, ms[n], os[n]);
      assert os == os[..n] + [os[n]];
    }
  }

  /** The first null of a tree, and the member it stands for. */
  function FirstNull(m: Member, o: JObject): Option<Member>
    decreases m, 1
  {
    if o.Null? then Some(m)
    else if m.Struct? && o.Rec? then FirstIn(m.st.members, o.fields)
    else None
  }

  function FirstIn(ms: seq<Member>, os: seq<JObject>): Option<Member>
    decreases ms, 0
  {
    if ms == [] || os == [] then None
    else
      var first := FirstNull(ms[0], os[0]);
      if first.Some? then first else FirstIn(ms[1..], os[1..])
  }

  lemma {:induction false} FirstInLast(ms: seq<Member>, os: seq<JObject>)
    requires 0 < |ms| == |os|
    ensures var n := |ms| - 1;
            var before := FirstIn(ms[..n], os[..n]);
            FirstIn(ms, os) == if before.Some? then before else FirstNull(ms[n], os[n])
  {
    var n := |ms| - 1;
    if n > 0 {
      FirstInLast(ms[1..], os[1..]);
      assert ms[1..][..n - 1] == ms[..n][1..] && os[1..][..n - 1] == os[..n][1..];
    }
  }

  /** What the first null stands for tells how marshalling ends: where an object belongs it throws,
      where a number or a pointer belongs native code is handed the null. */
  lemma {:induction false} FateByFirstNull(a: Arch, m: Member, o: JObject)
    requires Typed(a, m, o)
    ensures match FirstNull(m, o)
            case None => FateOf(m, o) == Done
            case Some(Struct(_, _)) => FateOf(m, o) == Threw
            case Some(Value(_, _)) => FateOf(m, o) == Undefined
    decreases m, 1
  {
    if m.Struct? && o.Rec? {
      FateByFirstIn(a, m.st.members, o.fields);
    }
  }

  lemma {:induction false} FateByFirstIn(a: Arch, ms: seq<Member>, os: seq<JObject>)
    requires AllTyped(a, ms, os)
    ensures match FirstIn(ms, os)
            case None => FieldsFate(ms, os) == Done
            case Some(Struct(_, _)) => FieldsFate(ms, os) == Threw
            case Some(Value(_, _)) => FieldsFate(ms, os) == Undefined
    decreases ms, 0
  {
    if ms != [] {
      var n := |ms| - 1;
      FirstInLast(ms, os);
      FateByFirstIn(a, ms[..n], os[..n]);
      FateByFirstNull(a, ms[n], os[n]);
    }
  }

  /** The bytes at `at` are those of `o`. */
  predicate Holds(a: Arch, mem: Bytes, at: nat, m: Member, o: JObject)
    decreases m
  {
    && at + Size(a, m) <= |mem|
    && match m
       case Value(_, t) => o == Prim(mem[at..at + Size(a, m)])
       case Struct(_, st) => o.Rec? && AllHeld(a, mem, at, st.members, o.fields)
  }

  predicate AllHeld(a: Arch, mem: Bytes, at: nat, ms: seq<Member>, os: seq<JObject>)
    decreases ms
  {
    |os| == |ms| && forall i :: 0 <= i < |ms| ==> Holds(a, mem, at + Offset(a, ms, i), ms[i], os[i])
  }

  /** Memory that differs only outside `[from, to)`. */
  predicate Agree(m: Bytes, m': Bytes, from: int, to: int) {
    |m| == |m'| && forall k :: from <= k < to && 0 <= k < |m| ==> m[k] == m'[k]
  }

  lemma HoldsIs(a: Arch, mem: Bytes, at: nat, m: Member, o: JObject)
    ensures Holds(a, mem, at, m, o) <==>
            && at + Size(a, m) <= |mem|
            && (m.Value? ==> o == Prim(mem[at..at + Size(a, m)]))
            && (m.Struct? ==> o.Rec? && AllHeld(a, mem, at, m.st.members, o.fields))
  {
    hide AllHeld, Size;
  }

  lemma HeldIs(a: Arch, mem: Bytes, at: nat, ms: seq<Member>, os: seq<JObject>)
    ensures AllHeld(a, mem, at, ms, os) <==>
            |os| == |ms| && forall i :: 0 <= i < |ms| ==> Holds(a, mem, at + Offset(a, ms, i), ms[i], os[i])
  {
    hide Holds, Offset;
  }

  lemma AgreeWithin(m: Bytes, m': Bytes, from: int, to: int, from': int, to': int)
    requires Agree(m, m', from, to) && from <= from' && to' <= to
    ensures Agree(m, m', from', to')
    ensures 0 <= from' <= to' <= |m| ==> m[from'..to'] == m'[from'..to']
  {
  }

  /** What is held depends on the bytes it occupies only. */
  lemma {:induction false} HoldsFrame(a: Arch, mem: Bytes, mem': Bytes, at: nat, m: Member, o: JObject)
    requires Holds(a, mem, at, m, o) && Agree(mem, mem', at, at + Size(a, m))
    ensures Holds(a, mem', at, m, o)
    decreases m, 1
  {
    hide *;
    HoldsIs(a, mem, at, m, o);
    HoldsIs(a, mem', at, m, o);
    AgreeWithin(mem, mem', at, at + Size(a, m), at, at + Size(a, m));
    AgreeLength(mem, mem', at, at + Size(a, m));
    if m.Struct? {
      StructShape(a, m);
      HeldFrame(a, mem, mem', at, m.st.members, o.fields);
    }
  }

  lemma AgreeLength(m: Bytes, m': Bytes, from: int, to: int)
    requires Agree(m, m', from, to)
    ensures |m| == |m'|
  {
  }

  lemma {:induction false} HeldFrame(a: Arch, mem: Bytes, mem': Bytes, at: nat, ms: seq<Member>, os: seq<JObject>)
    requires AllHeld(a, mem, at, ms, os) && Agree(mem, mem', at, at + StructSize(a, ms))
    ensures AllHeld(a, mem', at, ms, os)
    decreases ms, 0
  {
    hide *;
    HeldIs(a, mem, at, ms, os);
    forall i | 0 <= i < |ms| ensures Holds(a, mem', at + Offset(a, ms, i), ms[i], os[i]) {
      MembersApart(a, ms, i, |ms|);
      var from := at + Offset(a, ms, i);
      AgreeWithin(mem, mem', at, at + StructSize(a, ms), from, from + Size(a, ms[i]));
      HoldsFrame(a, mem, mem', from, ms[i], os[i]);
    }
    HeldIs(a, mem', at, ms, os);
  }

  // ----- marshalling

  /** `marshalStruct`: every field goes to its own place and nothing outside the structure is
      touched, however it ends. */
  method MarshalStruct(a: Arch, mem: array<bv8>, outp: nat, o: JObject, st: NativeStruct) returns (fate: Fate, next: nat)
    requires o == Null || (o.Rec? && AllTyped(a, st.members, o.fields))
    requires outp + StructSize(a, st.members) <= mem.Length
    modifies mem
    ensures fate == if o.Null? then Threw else FieldsFate(st.members, o.fields)
    ensures fate == Done ==> o.Rec? && AllHeld(a, mem[..], outp, st.members, o.fields)
    ensures fate == Done ==> next == outp + StructSize(a, st.members)
    ensures Agree(old(mem[..]), mem[..], 0, outp)
    ensures Agree(old(mem[..]), mem[..], outp + StructSize(a, st.members), mem.Length)
    decreases st
  {
    hide *;
    ghost var before := mem[..];
    ghost var size := StructSize(a, st.members);
    AgreeSelf(before, 0, outp);
    AgreeSelf(before, outp + size, |before|);
    next := outp;
    if o.Null? {
      return Threw, next;
    }
    var ms := st.members;
    var offsets, sz, _ := LayOut(a, ms);
    TypedIs(a, ms, o.fields);
    NoFields(ms, o.fields);
    var i := 0;
    while i < |ms|
      invariant 0 <= i <= |ms|
      invariant forall j :: 0 <= j < i ==> Holds(a, mem[..], outp + Offset(a, ms, j), ms[j], o.fields[j])
      invariant FieldsFate(ms[..i], o.fields[..i]) == Done
      invariant Agree(before, mem[..], 0, outp) && Agree(before, mem[..], outp + size, |before|)
    {
      MembersApart(a, ms, i, |ms|);
      ghost var was := mem[..];
      NextField(ms, o.fields, i);
      fate := MarshalMember(a, mem, outp + offsets[i], o.fields[i], ms[i]);
      AgreeTrans(before, was, mem[..], 0, outp, 0, outp + Offset(a, ms, i));
      AgreeTrans(before, was, mem[..], outp + size, |before|, outp + Offset(a, ms, i) + Size(a, ms[i]), |before|);
      if fate != Done {
        FirstFate(ms, o.fields, i + 1);
        return fate, next;
      }
      forall j | 0 <= j < i ensures Holds(a, mem[..], outp + Offset(a, ms, j), ms[j], o.fields[j]) {
        MembersApart(a, ms, j, i);
        AgreeWithin(was, mem[..], 0, outp + Offset(a, ms, i),
          outp + Offset(a, ms, j), outp + Offset(a, ms, j) + Size(a, ms[j]));
        HoldsFrame(a, was, mem[..], outp + Offset(a, ms, j), ms[j], o.fields[j]);
      }
      i := i + 1;
    }
    assert ms[..i] == ms && o.fields[..i] == o.fields;
    HeldIs(a, mem[..], outp, ms, o.fields);
    fate, next := Done, outp + sz;
  }

  lemma NoFields(ms: seq<Member>, os: seq<JObject>)
    ensures FieldsFate(ms[..0], os[..0]) == Done
  {
  }

  lemma NextField(ms: seq<Member>, os: seq<JObject>, i: nat)
    requires i < |ms| == |os| && FieldsFate(ms[..i], os[..i]) == Done
    ensures FieldsFate(ms[..i + 1], os[..i + 1]) == FateOf(ms[i], os[i])
  {
    assert ms[..i + 1][..i] == ms[..i] && os[..i + 1][..i] == os[..i];
  }

  /** Nothing after the first failing field is looked at. */
  lemma {:induction false} FirstFate(ms: seq<Member>, os: seq<JObject>, i: nat)
    requires i <= |ms| == |os| && FieldsFate(ms[..i], os[..i]) != Done
    ensures FieldsFate(ms, os) == FieldsFate(ms[..i], os[..i])
    decreases |ms| - i
  {
    if i < |ms| {
      assert ms[..i + 1][..i] == ms[..i] && os[..i + 1][..i] == os[..i];
      FirstFate(ms, os, i + 1);
    } else {
      assert ms[..i] == ms && os[..i] == os;
    }
  }

  /** One field: a nested structure or a value. */
  method MarshalMember(a: Arch, mem: array<bv8>, p: nat, val: JObject, m: Member) returns (fate: Fate)
    requires Typed(a, m, val) && p + Size(a, m) <= mem.Length
    modifies mem
    ensures fate == FateOf(m, val)
    ensures fate == Done ==> Holds(a, mem[..], p, m, val)
    ensures Agree(old(mem[..]), mem[..], 0, p) && Agree(old(mem[..]), mem[..], p + Size(a, m), mem.Length)
    decreases m
  {
    hide *;
    MemberIs(a, m, val);
    match m {
      case Struct(_, st) =>
        StructShape(a, m);
        var next;
        fate, next := MarshalStruct(a, mem, p, val, st);
        if fate == Done {
          HoldsIs(a, mem[..], p, m, val);
        }
      case Value(_, t) =>
        ghost var before := mem[..];
        if val.Null? {
          AgreeSelf(before, 0, p);
          AgreeSelf(before, p + Size(a, m), |before|);
          return Undefined;
        }
        ValueSize(a, m);
        var end := Put(mem, p, val.bytes);
        WroteValue(before, p, val.bytes);
        HoldsIs(a, mem[..], p, m, val);
        fate := Done;
    }
  }

  lemma AgreeSelf(m: Bytes, from: int, to: int)
    ensures Agree(m, m, from, to)
  {
  }

  lemma AgreeTrans(m: Bytes, n: Bytes, k: Bytes, from: int, to: int, from': int, to': int)
    requires Agree(m, n, from, to) && Agree(n, k, from', to') && from' <= from && to <= to'
    ensures Agree(m, k, from, to)
  {
  }

  lemma TypedIs(a: Arch, ms: seq<Member>, os: seq<JObject>)
    ensures AllTyped(a, ms, os) <==> |os| == |ms| && forall i :: 0 <= i < |ms| ==> Typed(a, ms[i], os[i])
  {
  }

  lemma MemberIs(a: Arch, m: Member, o: JObject)
    requires Typed(a, m, o)
    ensures m.Value? ==> o == Null || (o.Prim? && |o.bytes| == MemSize(a, m.ctype))
    ensures m.Struct? ==> o == Null || (o.Rec? && AllTyped(a, m.st.members, o.fields))
    ensures FateOf(m, o) == if m.Struct? && o.Rec? then FieldsFate(m.st.members, o.fields)
                            else if m.Struct? then Threw else if o.Null? then Undefined else Done
  {
  }

  lemma WroteValue(mem: Bytes, at: nat, v: Bytes)
    requires at + |v| <= |mem|
    ensures var w := Write(mem, at, v);
            w[at..at + |v|] == v && Agree(mem, w, 0, at) && Agree(mem, w, at + |v|, |mem|)
  {
  }

  // ----- unmarshalling

  /** Memory holds one value only. */
  lemma {:induction false} HoldsOnce(a: Arch, mem: Bytes, at: nat, m: Member, o: JObject, o': JObject)
    requires Holds(a, mem, at, m, o) && Holds(a, mem, at, m, o')
    ensures o == o'
    decreases m, 1
  {
    hide *;
    HoldsIs(a, mem, at, m, o);
    HoldsIs(a, mem, at, m, o');
    if m.Struct? {
      HeldOnce(a, mem, at, m.st.members, o.fields, o'.fields);
    }
  }

  lemma {:induction false} HeldOnce(a: Arch, mem: Bytes, at: nat, ms: seq<Member>, os: seq<JObject>, os': seq<JObject>)
    requires AllHeld(a, mem, at, ms, os) && AllHeld(a, mem, at, ms, os')
    ensures os == os'
    decreases ms, 0
  {
    hide *;
    HeldIs(a, mem, at, ms, os);
    HeldIs(a, mem, at, ms, os');
    forall i | 0 <= i < |ms| ensures os[i] == os'[i] {
      HoldsOnce(a, mem, at + Offset(a, ms, i), ms[i], os[i], os'[i]);
    }
  }

  /** What is read from memory can be marshalled again, and nothing in it is null. */
  lemma {:induction false} HeldTyped(a: Arch, mem: Bytes, at: nat, m: Member, o: JObject)
    requires Holds(a, mem, at, m, o)
    ensures Typed(a, m, o) && Typed(a, m, Null) && NullFree(o)
    decreases m, 1
  {
    hide Size, Offset, AllHeld;
    HoldsIs(a, mem, at, m, o);
    if m.Value? {
      ValueSize(a, m);
    } else {
      AllHeldTyped(a, mem, at, m.st.members, o.fields);
    }
  }

  lemma {:induction false} AllHeldTyped(a: Arch, mem: Bytes, at: nat, ms: seq<Member>, os: seq<JObject>)
    requires AllHeld(a, mem, at, ms, os)
    ensures AllTyped(a, ms, os) && forall i :: 0 <= i < |os| ==> NullFree(os[i])
    decreases ms, 0
  {
    hide Size, Offset, Holds, Typed, NullFree;
    HeldIs(a, mem, at, ms, os);
    forall i | 0 <= i < |ms| ensures Typed(a, ms[i], os[i]) && NullFree(os[i]) {
      HeldTyped(a, mem, at + Offset(a, ms, i), ms[i], os[i]);
    }
  }

  /** `unmarshalStruct`. */
  method UnmarshalStruct(a: Arch, mem: Bytes, ptr: nat, st: NativeStruct) returns (ret: JObject)
    requires ptr + StructSize(a, st.members) <= |mem|
    ensures ret.Rec? && AllHeld(a, mem, ptr, st.members, ret.fields)
    decreases st
  {
    hide *;
    var ms := st.members;
    var offsets, _, _ := LayOut(a, ms);
    var fields: seq<JObject> := [];
    while |fields| < |ms|
      invariant |fields| <= |ms|
      invariant forall j :: 0 <= j < |fields| ==> Holds(a, mem, ptr + Offset(a, ms, j), ms[j], fields[j])
    {
      MembersApart(a, ms, |fields|, |ms|);
      var val := UnmarshalMember(a, mem, ptr + offsets[|fields|], ms[|fields|]);
      fields := fields + [val];
    }
    HeldIs(a, mem, ptr, ms, fields);
    ret := Rec(fields);
  }

  method UnmarshalMember(a: Arch, mem: Bytes, p: nat, m: Member) returns (val: JObject)
    requires p + Size(a, m) <= |mem|
    ensures Holds(a, mem, p, m, val)
    decreases m
  {
    hide *;
    match m {
      case Struct(_, st) =>
        StructShape(a, m);
        val := UnmarshalStruct(a, mem, p, st);
      case Value(_, t) =>
        ValueSize(a, m);
        val := Prim(mem[p..p + MemSize(a, t)]);
    }
    HoldsIs(a, mem, p, m, val);
  }

  // ----- arrays

  /** `marshalBasic`: a null pointer element becomes address 0. */
  function Filled(a: Arch, elt: Member, o: JObject): JObject {
    if o.Null? && elt.Value? && elt.ctype.Ptr? then Prim(Zeros(MemSize(a, Ptr))) else o
  }

  /** How marshalling one element ends: a null number throws before native code sees it. */
  function ElementFate(elt: Member, o: JObject): Fate {
    if elt.Value? && o.Null? then if elt.ctype.Ptr? then Done else Threw else FateOf(elt, o)
  }

  /** The first element that fails decides. */
  function ElementsFate(elt: Member, vals: seq<JObject>): Fate {
    if vals == [] then Done
    else
      var n := |vals| - 1;
      var before := ElementsFate(elt, vals[..n]);
      if before != Done then before else ElementFate(elt, vals[n])
  }

  lemma FilledIs(a: Arch, elt: Member, o: JObject)
    requires Typed(a, elt, o)
    ensures Typed(a, elt, Filled(a, elt, o))
    ensures !(elt.Value? && o.Null? && !elt.ctype.Ptr?) ==> ElementFate(elt, o) == FateOf(elt, Filled(a, elt, o))
    ensures elt.Value? && o.Null? && !elt.ctype.Ptr? ==> ElementFate(elt, o) == Threw
    ensures ElementFate(elt, o) == Done <==> NullFree(Filled(a, elt, o))
  {
    hide AllTyped;
    DoneExactly(a, elt, Filled(a, elt, o));
  }

  lemma NextElement(elt: Member, vals: seq<JObject>, i: nat)
    requires i < |vals| && ElementsFate(elt, vals[..i]) == Done
    ensures ElementsFate(elt, vals[..i + 1]) == ElementFate(elt, vals[i])
  {
    assert vals[..i + 1][..i] == vals[..i];
  }

  lemma {:induction false} FirstElementFate(elt: Member, vals: seq<JObject>, i: nat)
    requires i <= |vals| && ElementsFate(elt, vals[..i]) != Done
    ensures ElementsFate(elt, vals) == ElementsFate(elt, vals[..i])
    decreases |vals| - i
  {
    if i < |vals| {
      assert vals[..i + 1][..i] == vals[..i];
      FirstElementFate(elt, vals, i + 1);
    } else {
      assert vals[..i] == vals;
    }
  }

  /** An array is marshalled exactly when no null is left in it. */
  lemma {:induction false} ElementsDone(a: Arch, elt: Member, vals: seq<JObject>)
    requires forall i :: 0 <= i < |vals| ==> Typed(a, elt, vals[i])
    ensures ElementsFate(elt, vals) == Done <==> forall i :: 0 <= i < |vals| ==> NullFree(Filled(a, elt, vals[i]))
  {
    hide Typed, NullFree, Filled, ElementFate;
    if vals != [] {
      var n := |vals| - 1;
      ElementsDone(a, elt, vals[..n]);
      FilledIs(a, elt, vals[n]);
      assert vals == vals[..n] + [vals[n]];
    }
  }

  // ----- the same with the null pointers spelled out

  /** An element that can be marshalled: a null stands for a pointer, anything else has no nulls. */
  predicate Fine(elt: Member, o: JObject) {
    if o == Null then elt.Value? && elt.ctype == CType.Ptr else NullFree(o)
  }

  /** A null pointer is written as zeros, 8 on x64 and 4 elsewhere; any other element as it is. */
  predicate Written(a: Arch, mem: Bytes, at: nat, elt: Member, o: JObject) {
    if o == Null then
      var size := if a == X64Unix then 8 else 4;
      at + size <= |mem| && forall k :: at <= k < at + size ==> mem[k] == 0
    else Holds(a, mem, at, elt, o)
  }

  /** A null pointer comes back as address 0, any other element as it was. */
  predicate CameBack(a: Arch, o: JObject, got: JObject) {
    if o != Null then got == o
    else if a == X64Unix then got == Prim([0, 0, 0, 0, 0, 0, 0, 0])
    else got == Prim([0, 0, 0, 0])
  }

  lemma FineIs(a: Arch, elt: Member, o: JObject)
    ensures NullFree(Filled(a, elt, o)) <==> Fine(elt, o)
    ensures Fine(elt, o) ==> CameBack(a, o, Filled(a, elt, o))
  {
  }

  lemma WrittenIs(a: Arch, mem: Bytes, at: nat, elt: Member, o: JObject)
    requires Fine(elt, o) && Holds(a, mem, at, elt, Filled(a, elt, o))
    ensures Written(a, mem, at, elt, o)
  {
    hide NullFree, AllHeld, Size;
    if o == Null {
      ValueSize(a, elt);
      var zeros := Filled(a, elt, o).bytes;
      forall k | at <= k < at + |zeros| ensures mem[k] == 0 {
        assert mem[k] == mem[at..at + |zeros|][k - at];
      }
    }
  }

  /** The first element that is not fine ends the loop: a null throws, and an object with a null in
      it ends as that null does in a structure. */
  lemma FirstElementDecides(a: Arch, elt: Member, vals: seq<JObject>, i: nat)
    requires forall j :: 0 <= j < |vals| ==> Typed(a, elt, vals[j])
    requires i < |vals| && !Fine(elt, vals[i]) && forall j :: 0 <= j < i ==> Fine(elt, vals[j])
    ensures vals[i] == Null ==> ElementsFate(elt, vals) == Threw
    ensures match FirstNull(elt, vals[i])
            case None => false
            case Some(Struct(_, _)) => ElementsFate(elt, vals) == Threw
            case Some(Value(_, _)) => vals[i] != Null ==> ElementsFate(elt, vals) == Undefined
  {
    hide Typed, NullFree, ElementsFate, FirstNull, Filled, Fine, FateOf;
    forall j | 0 <= j < |vals| ensures NullFree(Filled(a, elt, vals[j])) <==> Fine(elt, vals[j]) {
      FineIs(a, elt, vals[j]);
    }
    ElementsDone(a, elt, vals[..i]);
    NextElement(elt, vals, i);
    OneFails(a, elt, vals[i]);
    FirstElementFate(elt, vals, i + 1);
  }

  lemma OneFails(a: Arch, elt: Member, o: JObject)
    requires Typed(a, elt, o) && !Fine(elt, o)
    ensures ElementFate(elt, o) != Done && (o == Null ==> ElementFate(elt, o) == Threw)
    ensures match FirstNull(elt, o)
            case None => false
            case Some(Struct(_, _)) => ElementFate(elt, o) == Threw
            case Some(Value(_, _)) => o != Null ==> ElementFate(elt, o) == Undefined
  {
    hide AllTyped, FirstIn, FieldsFate;
    FilledIs(a, elt, o);
    FineIs(a, elt, o);
    FateByFirstNull(a, elt, o);
  }

  /** Where element `i` of the array starts. */
  function At(a: Arch, elt: Member, i: nat): nat {
    i * Size(a, elt)
  }

  lemma ElementStep(a: Arch, elt: Member, i: nat, n: nat)
    requires i < n
    ensures At(a, elt, i + 1) == At(a, elt, i) + Size(a, elt) <= At(a, elt, n)
  {
    hide Size;
    Multiples(i, n, Size(a, elt));
  }

  lemma Multiples(i: nat, n: nat, size: nat)
    requires i < n
    ensures (i + 1) * size == i * size + size
    ensures (i + 1) * size <= n * size
  {
  }

  lemma FirstElement(a: Arch, elt: Member)
    ensures At(a, elt, 0) == 0
  {
  }

  /** `marshalArray`: element `i` at `i` element sizes, the buffer filled to its last byte. */
  method MarshalArray(a: Arch, elt: Member, vals: seq<JObject>) returns (fate: Fate, buf: array<bv8>)
    requires forall i :: 0 <= i < |vals| ==> Typed(a, elt, vals[i])
    ensures fresh(buf) && buf.Length == At(a, elt, |vals|)
    ensures fate == ElementsFate(elt, vals)
    ensures fate == Done ==> forall i :: 0 <= i < |vals| ==> Holds(a, buf[..], At(a, elt, i), elt, Filled(a, elt, vals[i]))
    ensures fate == Done <==> forall i :: 0 <= i < |vals| ==> Fine(elt, vals[i])
    ensures fate == Done ==> forall i :: 0 <= i < |vals| ==> Written(a, buf[..], At(a, elt, i), elt, vals[i])
  {
    hide *;
    ElementsFine(a, elt, vals);
    var size := Size(a, elt);
    buf := new bv8[At(a, elt, |vals|)];
    FirstElement(a, elt);
    NoElements(elt, vals);
    var r, i := 0, 0;
    while i < |vals|
      invariant 0 <= i <= |vals| && r == At(a, elt, i)
      invariant ElementsFate(elt, vals[..i]) == Done
      invariant forall j :: 0 <= j < i ==> Holds(a, buf[..], At(a, elt, j), elt, Filled(a, elt, vals[j]))
    {
      ElementStep(a, elt, i, |vals|);
      FilledIs(a, elt, vals[i]);
      NextElement(elt, vals, i);
      var o := Filled(a, elt, vals[i]);
      if elt.Value? && vals[i].Null? && !elt.ctype.Ptr? {
        FirstElementFate(elt, vals, i + 1);
        return Threw, buf;
      }
      ghost var was := buf[..];
      fate := MarshalMember(a, buf, r, o, elt);
      if fate != Done {
        FirstElementFate(elt, vals, i + 1);
        return fate, buf;
      }
      forall j | 0 <= j < i ensures Holds(a, buf[..], At(a, elt, j), elt, Filled(a, elt, vals[j])) {
        ElementStep(a, elt, j, i);
        AgreeWithin(was, buf[..], 0, r, At(a, elt, j), At(a, elt, j) + size);
        HoldsFrame(a, was, buf[..], At(a, elt, j), elt, Filled(a, elt, vals[j]));
      }
      r, i := r + size, i + 1;
    }
    assert vals[..i] == vals;
    fate := Done;
    forall j | 0 <= j < |vals| ensures Written(a, buf[..], At(a, elt, j), elt, vals[j]) {
      WrittenIs(a, buf[..], At(a, elt, j), elt, vals[j]);
    }
  }

  lemma ElementsFine(a: Arch, elt: Member, vals: seq<JObject>)
    requires forall i :: 0 <= i < |vals| ==> Typed(a, elt, vals[i])
    ensures ElementsFate(elt, vals) == Done <==> forall i :: 0 <= i < |vals| ==> Fine(elt, vals[i])
  {
    hide *;
    ElementsDone(a, elt, vals);
    forall i | 0 <= i < |vals| ensures NullFree(Filled(a, elt, vals[i])) <==> Fine(elt, vals[i]) {
      FineIs(a, elt, vals[i]);
    }
  }

  lemma NoElements(elt: Member, vals: seq<JObject>)
    ensures ElementsFate(elt, vals[..0]) == Done
  {
  }

  /** `unmarshalArray`, over as many elements as the target array has. */
  method UnmarshalArray(a: Arch, elt: Member, mem: Bytes, numels: nat) returns (arr: seq<JObject>)
    requires At(a, elt, numels) <= |mem|
    ensures |arr| == numels && forall i :: 0 <= i < numels ==> Holds(a, mem, At(a, elt, i), elt, arr[i])
  {
    hide *;
    var elsize := Size(a, elt);
    FirstElement(a, elt);
    var p := 0;
    arr := [];
    while |arr| < numels
      invariant |arr| <= numels && p == At(a, elt, |arr|)
      invariant forall i :: 0 <= i < |arr| ==> Holds(a, mem, At(a, elt, i), elt, arr[i])
    {
      ElementStep(a, elt, |arr|, numels);
      var toset := UnmarshalMember(a, mem, p, elt);
      arr := arr + [toset];
      p := p + elsize;
    }
  }

  /** An array of a type comes back from native memory as it went in, null pointers as address 0.
      A class for an element type must lead to no cycle and no refused field. */
  method ArrayThrough(a: Arch, n: Natives, eltype: FieldType, vals: seq<JObject>)
    returns (elt: Option<Member>, arr: Option<seq<JObject>>)
    requires Closed(n.world) && Entries(n.world, n.structs) && Placeholders(n.structs) == {}
    requires !eltype.Unsupported? && (eltype.Nested? ==> eltype.cls in n.world)
    requires forall m, i :: 0 <= i < |vals| && DescribesField(n.world, JavaField("", eltype), m) ==>
               Typed(a, m, vals[i])
    modifies n
    ensures elt.Some? <==> eltype.Basic? || Sound(n.world, eltype.cls)
    ensures elt.Some? ==> DescribesField(n.world, JavaField("", eltype), elt.value)
    ensures elt.None? ==> arr.None?
    ensures elt.Some? ==>
              (arr.Some? <==> forall i :: 0 <= i < |vals| ==> Fine(elt.value, vals[i]))
    ensures elt.Some? && arr.Some? ==>
              |arr.value| == |vals| && forall i :: 0 <= i < |vals| ==> CameBack(a, vals[i], arr.value[i])
  {
    hide Typed, NullFree, Sound, Closed, Entries, Placeholders, At, Holds, Filled, ElementsFate, Fine, CameBack, Written;
    elt, arr := None, None;
    if eltype.Basic? {
      elt := Some(Value("", eltype.ctype));
    } else {
      var st := Describe(n, eltype.cls);
      if st.None? {
        return;
      }
      elt := Some(Struct("", st.value));
    }
    var m := elt.value;
    assert DescribesField(n.world, JavaField("", eltype), m);
    var fate, buf := MarshalArray(a, m, vals);
    if fate != Done {
      return;
    }
    var got := UnmarshalArray(a, m, buf[..], |vals|);
    forall i | 0 <= i < |vals| ensures CameBack(a, vals[i], got[i]) {
      HoldsOnce(a, buf[..], At(a, m, i), m, got[i], Filled(a, m, vals[i]));
      FineIs(a, m, vals[i]);
    }
    arr := Some(got);
  }
}
