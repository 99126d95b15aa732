/** The layouts of the ports in numbers: where `CreateStruct` puts a value, or an array, of each type
    after a `char`, and what every offset of that type is a multiple of. */
module PortLayouts {
  import opened Options
  import opened CTypes
  import opened Rounding
  import opened Definitions
  import opened Layout
  import opened Compile
  import opened CompileTheorem
  import opened Placing

  /** `{char c; t x(n)}` for `n` > 0, and `{char c; t x}` for 0. */
  function CharThen(t: CType, n: nat): seq<Def> {
    [Leaf(Char, "c"), Leaf(t, if n == 0 then "x" else "x" + "(" + Decimal(n) + ")")]
  }

  /** It compiles; `x` has the given offset and bytes, and the finished structure the given size. */
  predicate Lays(a: Arch, t: CType, n: nat, offset: nat, bytes: nat, size: nat) {
    var r := CompileStruct(a, CharThen(t, n));
    && r.Some?
    && r.value.table == map["c" := Info(Char, 0, 1), "x" := Info(t, offset, bytes)]
    && r.value.next == size
  }

  lemma CharThenReads(t: CType, n: nat)
    ensures FieldOf(Char, "c") == Field("c", Char, 0)
    ensures FieldOf(t, CharThen(t, n)[1].elem) == Field("x", t, n)
  {
    PlainName("c");
    PlainName("x");
    if n > 0 {
      ArrayNameReads("x", n);
      assert ("x" + "(" + Decimal(n) + ")")[0] == 'x';
    }
  }

  /** The compiled structure, in terms of one size and one alignment. */
  lemma CharThenCompiles(a: Arch, t: CType, n: nat)
    ensures var sz, align := MemSize(a, t), AlignSize(a, t);
            var bytes := if n > 0 then n * sz else sz;
            Lays(a, t, n, align, bytes, RoundUp(align + bytes, align))
  {
    CharThenReads(t, n);
    FirstStep(a);
    SecondStep(a, t, n);
    hide StructStep, SecondCursor, CompileStruct, Lays, FieldOf, Decimal;
    CompileSteps(a, CharThen(t, n), AfterFirst(), SecondCursor(a, t, n));
    LaysIs(a, t, n);
  }

  function AfterFirst(): Cursor {
    Cursor(map["c" := Info(Char, 0, 1)], 1, 1, 1)
  }

  function SecondCursor(a: Arch, t: CType, n: nat): Cursor {
    var sz, align := MemSize(a, t), AlignSize(a, t);
    var bytes := if n > 0 then n * sz else sz;
    Cursor(map["c" := Info(Char, 0, 1), "x" := Info(t, align, bytes)], align + bytes, align + bytes, align)
  }

  lemma FirstStep(a: Arch)
    ensures StructStep(a, START, Leaf(Char, "c")) == Some(AfterFirst())
  {
    PlainName("c");
    assert RoundUp(0, 1) == 0;
  }

  lemma SecondStep(a: Arch, t: CType, n: nat)
    ensures StructStep(a, AfterFirst(), CharThen(t, n)[1]) == Some(SecondCursor(a, t, n))
  {
    CharThenReads(t, n);
    hide FieldOf, Decimal;
    assert RoundUp(1, AlignSize(a, t)) == AlignSize(a, t);
  }

  lemma CompileSteps(a: Arch, ds: seq<Def>, c: Cursor, c': Cursor)
    requires |ds| == 2 && IsAlign(c.align) && StructStep(a, START, ds[0]) == Some(c) && StructStep(a, c, ds[1]) == Some(c')
    ensures IsAlign(c'.align) && CompileStruct(a, ds) == Some(Finish(c'))
  {
    hide StructStep;
    assert ds[..1] == [ds[0]] && ds[..1][..0] == [];
    assert StructLoop(a, []) == Some(START);
    assert StructLoop(a, ds[..1]) == Some(c);
  }

  lemma LaysIs(a: Arch, t: CType, n: nat)
    requires CompileStruct(a, CharThen(t, n)) == Some(Finish(SecondCursor(a, t, n)))
    ensures var sz, align := MemSize(a, t), AlignSize(a, t);
            var bytes := if n > 0 then n * sz else sz;
            Lays(a, t, n, align, bytes, RoundUp(align + bytes, align))
  {
    hide CompileStruct, RoundUp;
  }

  /** `{char c; t x}` on every port. */
  lemma AfterChar()
    ensures var a := X64Unix;
            && Lays(a, Char, 0, 1, 1, 2) && Lays(a, Short, 0, 2, 2, 4) && Lays(a, Int, 0, 4, 4, 8)
            && Lays(a, Long, 0, 8, 8, 16) && Lays(a, ExtraLong, 0, 8, 8, 16) && Lays(a, Float, 0, 4, 4, 8)
            && Lays(a, Double, 0, 8, 8, 16) && Lays(a, Ptr, 0, 8, 8, 16)
    ensures forall a :: a == SparcUnix || a == PpcOsx ==>
              && Lays(a, Char, 0, 1, 1, 2) && Lays(a, Short, 0, 2, 2, 4) && Lays(a, Int, 0, 4, 4, 8)
              && Lays(a, Long, 0, 4, 4, 8) && Lays(a, ExtraLong, 0, 4, 8, 12) && Lays(a, Float, 0, 4, 4, 8)
              && Lays(a, Double, 0, 8, 8, 16) && Lays(a, Ptr, 0, 4, 4, 8)
    ensures var a := X86Win;
            && Lays(a, Char, 0, 1, 1, 2) && Lays(a, Short, 0, 2, 2, 4) && Lays(a, Int, 0, 4, 4, 8)
            && Lays(a, Long, 0, 4, 4, 8) && Lays(a, ExtraLong, 0, 8, 8, 16) && Lays(a, Float, 0, 4, 4, 8)
            && Lays(a, Double, 0, 8, 8, 16) && Lays(a, Ptr, 0, 4, 4, 8)
  {
    hide Lays, CharThen;
    forall a ensures Lays(a, Char, 0, 1, 1, 2) && Lays(a, Short, 0, 2, 2, 4) && Lays(a, Int, 0, 4, 4, 8)
                     && Lays(a, Float, 0, 4, 4, 8) && Lays(a, Double, 0, 8, 8, 16)
    {
      OneLays(a, Char, 1, 1, 2);
      OneLays(a, Short, 2, 2, 4);
      OneLays(a, Int, 4, 4, 8);
      OneLays(a, Float, 4, 4, 8);
      OneLays(a, Double, 8, 8, 16);
    }
    forall a | a != X64Unix ensures Lays(a, Long, 0, 4, 4, 8) && Lays(a, Ptr, 0, 4, 4, 8) {
      OneLays(a, Long, 4, 4, 8);
      OneLays(a, Ptr, 4, 4, 8);
    }
    OneLays(X64Unix, Long, 8, 8, 16);
    OneLays(X64Unix, Ptr, 8, 8, 16);
    OneLays(X64Unix, ExtraLong, 8, 8, 16);
    OneLays(X86Win, ExtraLong, 8, 8, 16);
    OneLays(SparcUnix, ExtraLong, 4, 8, 12);
    OneLays(PpcOsx, ExtraLong, 4, 8, 12);
  }

  lemma OneLays(a: Arch, t: CType, offset: nat, bytes: nat, size: nat)
    requires AlignSize(a, t) == offset && MemSize(a, t) == bytes && RoundUp(offset + bytes, offset) == size
    ensures Lays(a, t, 0, offset, bytes, size)
  {
    hide Lays;
    CharThenCompiles(a, t, 0);
  }

  /** An array of `n` elements starts where a value does and takes `n` times its bytes. */
  lemma ArrayAfterChar(a: Arch, t: CType, n: nat, offset: nat, bytes: nat, size: nat)
    requires n > 0 && Lays(a, t, 0, offset, bytes, size)
    ensures offset > 0
    ensures Lays(a, t, n, offset, n * bytes, RoundUp(offset + n * bytes, offset))
  {
    hide Lays, MemSize, AlignSize, RoundUp;
    CharThenCompiles(a, t, 0);
    CharThenCompiles(a, t, n);
    LaysOnce(a, t, 0, offset, bytes, size, AlignSize(a, t), MemSize(a, t), RoundUp(AlignSize(a, t) + MemSize(a, t), AlignSize(a, t)));
  }

  lemma LaysOnce(a: Arch, t: CType, n: nat, o: nat, b: nat, s: nat, o': nat, b': nat, s': nat)
    requires Lays(a, t, n, o, b, s) && Lays(a, t, n, o', b', s')
    ensures o == o' && b == b' && s == s'
  {
    hide CompileStruct;
    var m := CompileStruct(a, CharThen(t, n)).value.table["x"];
  }

  // ----- every offset

  predicate AllAligned(a: Arch, m: map<string, Slot>) {
    forall k :: k in m ==> Aligned(m[k].offset, AlignSize(a, m[k].ctype))
  }

  lemma AllAlignedJoin(a: Arch, m: map<string, Slot>, n: map<string, Slot>)
    requires AllAligned(a, m) && AllAligned(a, n)
    ensures AllAligned(a, m + n)
  {
  }

  lemma {:induction false} PutAligned(a: Arch, d: Def, base: nat)
    requires Aligned(base, AlignOf(a, d))
    ensures AllAligned(a, Put(Code, a, d, base))
    decreases d, 0
  {
    match d
    case Leaf(_, _) =>
    case Sub(items) => PutListAligned(a, items, false, base, ListAlign(a, items));
    case Uni(items) => PutListAligned(a, items, true, base, ListAlign(a, items));
  }

  lemma {:induction false} PutListAligned(a: Arch, ds: seq<Def>, inUnion: bool, base: nat, al: nat)
    requires IsAlign(al) && ListAlign(a, ds) <= al && Aligned(base, al)
    ensures AllAligned(a, PutList(Code, a, ds, inUnion, base))
    decreases ds, 1
  {
    hide *;
    if ds == [] {
      PutNothing(Code, a, base);
      NothingAligned(a);
      return;
    }
    var n := |ds| - 1;
    PutLast(Code, a, ds, inUnion, base);
    ListStep(a, ds, base);
    Guards.AlwaysAligned(a, ds[n]);
    PutListAligned(a, ds[..n], inUnion, base, al);
    StartIs(a, ds);
    if inUnion {
      AlignDivides(base, AlignOf(a, ds[n]), al);
    } else {
      RoundUpFrom(base, if ds[n].Uni? then Guards.CodeLast(a, ds[..n]) else Guards.CodeEnd(a, ds[..n]), AlignOf(a, ds[n]), al);
    }
    PutAligned(a, ds[n], base + (if inUnion then 0 else Start(Code, a, ds, n)));
    AllAlignedJoin(a, PutList(Code, a, ds[..n], inUnion, base),
      Put(Code, a, ds[n], base + (if inUnion then 0 else Start(Code, a, ds, n))));
  }

  lemma NothingAligned(a: Arch)
    ensures AllAligned(a, map[])
  {
  }

  lemma ZeroAligned(a: Arch, ds: seq<Def>)
    ensures Aligned(0, ListAlign(a, ds)) && IsAlign(ListAlign(a, ds))
  {
  }

  lemma OneAligned(a: Arch, t: Table, m: map<string, Slot>, k: string)
    requires Same(t, m) && AllAligned(a, m) && k in t
    ensures Aligned(t[k].offset, AlignSize(a, t[k].ctype))
  {
  }

  lemma Multiples(a: Arch, t: CType, offset: nat)
    requires Aligned(offset, AlignSize(a, t))
    ensures t == Short ==> offset % 2 == 0
    ensures t == Int || t == Float ==> offset % 4 == 0
    ensures t == Double ==> offset % 8 == 0
    ensures t == Long || t == Ptr ==> offset % (if a == X64Unix then 8 else 4) == 0
    ensures t == ExtraLong ==> offset % (if a == X64Unix || a == X86Win then 8 else 4) == 0
  {
    AlignedIsMultiple(offset, AlignSize(a, t));
  }

  /** For every accepted definition, unions side by side included, every leaf has an offset that suits
      its type. */
  lemma OffsetsSuit(a: Arch, ds: seq<Def>, k: string)
    requires CompileStruct(a, ds).Some? && k in CompileStruct(a, ds).value.table
    ensures var m := CompileStruct(a, ds).value.table[k];
            && (m.ctype == Short ==> m.offset % 2 == 0)
            && (m.ctype == Int || m.ctype == Float ==> m.offset % 4 == 0)
            && (m.ctype == Double ==> m.offset % 8 == 0)
            && (m.ctype == Long || m.ctype == Ptr ==> m.offset % (if a == X64Unix then 8 else 4) == 0)
            && (m.ctype == ExtraLong ==> m.offset % (if a == X64Unix || a == X86Win then 8 else 4) == 0)
  {
    hide *;
    CodePlaces(a, ds);
    ZeroAligned(a, ds);
    PutListAligned(a, ds, false, 0, ListAlign(a, ds));
    OneAligned(a, CompileStruct(a, ds).value.table, PutList(Code, a, ds, false, 0), k);
    Multiples(a, CompileStruct(a, ds).value.table[k].ctype, CompileStruct(a, ds).value.table[k].offset);
  }
}
