/** The eight C types of the library and the size tables of its ports. */
module CTypes {

  /** CINV_T_CHAR .. CINV_T_PTR, the index into the size and value tables. */
  datatype CType = Char | Short | Int | Long | ExtraLong | Float | Double | Ptr

  /** One port of the library: each has its own `arch_size_*` functions. */
  datatype Arch = X64Unix | SparcUnix | PpcOsx | X86Win

  /** Bytes a value occupies in memory (`structsize_out`). */
  function MemSize(a: Arch, t: CType): (n: nat)
    ensures n == 1 || n == 2 || n == 4 || n == 8
  {
    match t
    case Char => 1
    case Short => 2
    case Int => 4
    case Long => if a.X64Unix? then 8 else 4
    case ExtraLong => 8
    case Float => 4
    case Double => 8
    case Ptr => if a.X64Unix? then 8 else 4
  }

  /** Alignment inside a structure; `get_size` presets 1, which `arch_size_char` leaves alone. */
  function AlignSize(a: Arch, t: CType): (n: nat)
    ensures n == 1 || n == 2 || n == 4 || n == 8
    ensures MemSize(a, t) % n == 0
  {
    match t
    case Char => 1
    case Short => 2
    case Int => 4
    case Long => if a.X64Unix? then 8 else 4
    case ExtraLong => if a.SparcUnix? || a.PpcOsx? then 4 else 8
    case Float => 4
    case Double => 8
    case Ptr => if a.X64Unix? then 8 else 4
  }

  /** Bytes a value occupies as a parameter on the stack (`stacksize_out`). */
  function StackSize(a: Arch, t: CType): (n: nat)
    ensures n == 4 || n == 8
    ensures MemSize(a, t) <= n
  {
    if a.X64Unix? then
      if t.Float? then 4 else 8
    else
      if t.ExtraLong? || t.Double? then 8 else 4
  }
}

/** Rounding an offset up to an alignment, as every `addmember` function does. */
module Rounding {

  /** The alignments the ports use: powers of two, so each divides every larger one. */
  predicate IsAlign(a: int) {
    a == 1 || a == 2 || a == 4 || a == 8
  }

  /** `n` is a multiple of the alignment `a`, read off its remainder by the largest alignment. */
  predicate Aligned(n: int, a: nat) {
    var r := n % 8;
    (a == 2 ==> r == 0 || r == 2 || r == 4 || r == 6) && (a == 4 ==> r == 0 || r == 4) && (a == 8 ==> r == 0)
  }

  lemma AlignedIsMultiple(n: nat, a: nat)
    requires IsAlign(a)
    ensures Aligned(n, a) <==> n % a == 0
  {
    if a == 2 {
      assert Aligned(n, 2) <==> n % 2 == 0;
    } else if a == 4 {
      assert Aligned(n, 4) <==> n % 4 == 0;
    }
  }

  function Max(x: int, y: int): (m: int)
    ensures m >= x && m >= y && (m == x || m == y)
  {
    if x > y then x else y
  }

  /** The padding arithmetic of structure.c: step to the next multiple unless already on one. */
  function RoundUp(n: nat, a: nat): nat
    requires a > 0
  {
    if n % a == 0 then n else n + (a - n % a)
  }

  lemma RoundUp2(n: nat)
    ensures n <= RoundUp(n, 2) < n + 2 && Aligned(RoundUp(n, 2), 2)
  {
  }

  lemma RoundUp4(n: nat)
    ensures n <= RoundUp(n, 4) < n + 4 && Aligned(RoundUp(n, 4), 4)
  {
  }

  lemma RoundUp8(n: nat)
    ensures n <= RoundUp(n, 8) < n + 8 && Aligned(RoundUp(n, 8), 8)
  {
  }

  /** Two multiples closer than the alignment are the same. */
  lemma AlignedGap(m: nat, n: nat, a: nat)
    requires IsAlign(a) && Aligned(m, a) && Aligned(n, a) && m < n + a
    ensures m <= n
  {
  }

  /** RoundUp yields the lowest suitably aligned offset: no smaller multiple would do. */
  lemma RoundUpLeast(n: nat, a: nat)
    requires IsAlign(a)
    ensures n <= RoundUp(n, a) < n + a
    ensures Aligned(RoundUp(n, a), a)
    ensures forall m: nat :: n <= m && Aligned(m, a) ==> RoundUp(n, a) <= m
  {
    RoundUp2(n);
    RoundUp4(n);
    RoundUp8(n);
    assert RoundUp(n, 1) == n && Aligned(n, 1);
    hide RoundUp, Aligned;
    forall m: nat | n <= m && Aligned(m, a) ensures RoundUp(n, a) <= m {
      AlignedGap(RoundUp(n, a), m, a);
    }
  }

  lemma RoundUpMono(m: nat, n: nat, a: nat)
    requires IsAlign(a) && m <= n
    ensures RoundUp(m, a) <= RoundUp(n, a)
  {
    RoundUpLeast(m, a);
    RoundUpLeast(n, a);
    hide RoundUp, Aligned;
  }

  /** A multiple of the larger alignment is a multiple of the smaller one. */
  lemma AlignDivides(n: nat, a: nat, b: nat)
    requires IsAlign(a) && IsAlign(b) && a <= b && Aligned(n, b)
    ensures Aligned(n, a)
  {
  }

  lemma AlignedShift(base: int, n: int, a: nat)
    requires IsAlign(a) && Aligned(base, a)
    ensures Aligned(base + n, a) <==> Aligned(n, a)
  {
  }

  /** Rounding relative to a base aligned for something at least as strict. */
  lemma RoundUpFrom(base: nat, n: nat, b: nat, a: nat)
    requires IsAlign(a) && IsAlign(b) && b <= a && Aligned(base, a)
    ensures n <= RoundUp(n, b) && Aligned(base + RoundUp(n, b), b)
  {
    AlignDivides(base, b, a);
    AlignedShift(base, RoundUp(n, b), b);
    RoundUpLeast(n, b);
  }

  /** Rounding to the larger of two alignments can only move the result up. */
  lemma RoundUpCoarser(n: nat, a: nat, b: nat)
    requires IsAlign(a) && IsAlign(b) && a <= b
    ensures RoundUp(n, a) <= RoundUp(n, b)
    ensures Aligned(RoundUp(n, b), a)
  {
    RoundUpLeast(n, a);
    RoundUpLeast(n, b);
    AlignDivides(RoundUp(n, b), a, b);
  }

  lemma {:induction false} MulMultiple(k: nat, s: nat, a: nat)
    requires IsAlign(a) && Aligned(s, a)
    ensures Aligned(k * s, a)
  {
    if k > 0 {
      MulMultiple(k - 1, s, a);
      assert k * s == (k - 1) * s + s;
      AlignedShift((k - 1) * s, s, a);
    }
  }
}
