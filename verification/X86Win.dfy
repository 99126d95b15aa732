/** `lib/arch/gcc_x86_win.c`: a fastcall function takes its first two word-sized integers in
    registers; every other convention takes everything on the stack. */
module X86Win {
  import opened CTypes
  import opened Memory
  import opened Calls
  import opened Numbers

  const X86 := Port(Arch.X86Win, false, false)

  /** ecx and edx. */
  class ArchRegParms {
    var first: Word
    var second: Word
  }

  /** `is_ok_register`. */
  predicate IsOk(t: CType) {
    !t.Float? && !t.Double? && !t.ExtraLong?
  }

  /** Parameters before `n` that could go in a register. */
  function Eligible(types: seq<CType>, n: nat): nat
    requires n <= |types|
  {
    if n == 0 then 0 else Eligible(types, n - 1) + (if IsOk(types[n - 1]) then 1 else 0)
  }

  lemma {:induction false} EligibleMono(types: seq<CType>, m: nat, n: nat)
    requires m <= n <= |types|
    ensures Eligible(types, m) <= Eligible(types, n)
    decreases n
  {
    if m < n {
      EligibleMono(types, m, n - 1);
    }
  }

  predicate IsReg(fastcall: bool, types: seq<CType>, i: nat)
    requires i < |types|
  {
    fastcall && IsOk(types[i]) && Eligible(types, i) < 2
  }

  /** `arch_is_register_parm`: leaving the loop early changes nothing, although the type tested at
      the end is then that of an earlier parameter. */
  method IsRegisterParm(fastcall: bool, types: seq<CType>, index: nat) returns (r: bool)
    requires index < |types|
    ensures r == IsReg(fastcall, types, index)
    ensures r <==> fastcall && types[index] != Float && types[index] != Double && types[index] != ExtraLong
                   && SmallIntsBefore(types, index) < 2
  {
    EligibleIs(types, index);
    if !fastcall {
      return false;
    }
    var numeligible, i := 0, 0;
    while i < index
      invariant 0 <= i <= index && numeligible == Eligible(types, i) < 2
    {
      if IsOk(types[i]) {
        numeligible := numeligible + 1;
      }
      if numeligible == 2 {
        EligibleMono(types, i + 1, index);
        break;
      }
      i := i + 1;
    }
    r := numeligible < 2 && IsOk(types[i]);
  }

  ghost predicate Classified(fastcall: bool, types: seq<CType>, regs: seq<bool>) {
    |regs| == |types| && forall i :: 0 <= i < |types| ==> regs[i] == IsReg(fastcall, types, i)
  }

  /** The classification loop of `cinv_function_create`. */
  method Classify(fastcall: bool, types: seq<CType>) returns (regs: seq<bool>)
    ensures Classified(fastcall, types, regs)
  {
    regs := [];
    while |regs| < |types|
      invariant |regs| <= |types| && forall i :: 0 <= i < |regs| ==> regs[i] == IsReg(fastcall, types, i)
    {
      var r := IsRegisterParm(fastcall, types, |regs|);
      regs := regs + [r];
    }
  }

  /** Parameter `i` is in its register, if it has one. */
  predicate InRegisters(fastcall: bool, types: seq<CType>, params: seq<Bytes>, first: Word, second: Word, i: nat)
    requires i < |types| && Fitting(X86, types, params)
  {
    IsReg(fastcall, types, i) ==>
      (if Eligible(types, i) == 0 then first else second) == Widened(false, params[i], 4)
  }

  /** How many of the first `n` types are integers or pointers of at most four bytes. */
  function SmallIntsBefore(types: seq<CType>, n: nat): nat
    requires n <= |types|
  {
    if n == 0 then 0
    else
      var t := types[n - 1];
      SmallIntsBefore(types, n - 1)
      + (if t == Char || t == Short || t == Int || t == Long || t == Ptr then 1 else 0)
  }

  lemma {:induction false} EligibleIs(types: seq<CType>, n: nat)
    requires n <= |types|
    ensures Eligible(types, n) == SmallIntsBefore(types, n)
  {
    if n > 0 {
      EligibleIs(types, n - 1);
    }
  }

  /** Of a fastcall function, the first such parameter is in ecx and the second in edx, a 4-byte one
      byte for byte, a narrower one with the number it stands for. */
  predicate Arrived(fastcall: bool, types: seq<CType>, params: seq<Bytes>, first: Word, second: Word, i: nat)
    requires i < |types| == |params|
  {
    var n, t := SmallIntsBefore(types, i), types[i];
    fastcall && (t == Char || t == Short || t == Int || t == Long || t == Ptr) && n < 2 ==>
      var reg := if n == 0 then first else second;
      Signed(false, reg) == Signed(false, params[i]) && (|params[i]| == 4 ==> reg == params[i])
  }

  lemma HasArrived(fastcall: bool, types: seq<CType>, params: seq<Bytes>, first: Word, second: Word, i: nat)
    requires i < |types| && Fitting(X86, types, params)
    requires InRegisters(fastcall, types, params, first, second, i)
    ensures Arrived(fastcall, types, params, first, second, i)
  {
    hide Signed;
    EligibleIs(types, i);
    if IsOk(types[i]) {
      WidenedNumber(false, params[i], 4);
    }
  }

  /** The room of a parameter on the stack, and its bytes there. */
  lemma StackInNumbers(types: seq<CType>, regs: seq<bool>, params: seq<Bytes>, stack: Bytes, i: nat, at: nat, room: nat)
    requires |regs| == |types| && i < |types| && Fitting(X86, types, params)
    requires OnStack(X86, types, regs, params, stack, |types|)
    requires at == Position(X86, types, regs, i)
    requires room == if types[i] == ExtraLong || types[i] == Double then 8 else 4
    ensures (i == 0 ==> at == 0) && Position(X86, types, regs, i + 1) == at + (if regs[i] then 0 else room)
    ensures !regs[i] ==>
              && |params[i]| <= room && at + room <= |stack|
              && forall k :: at <= k < at + room ==>
                   stack[k] == if k - at < |params[i]| then params[i][k - at] else 0
  {
    hide OnStack, Fitting;
    if !regs[i] {
      StackBytes(X86, types, regs, params, stack, i, at, room);
    }
  }

  lemma FirstKept(fastcall: bool, types: seq<CType>, params: seq<Bytes>, first: Word, second: Word, i: nat, j: nat, v: Word)
    requires j < i < |types| && Fitting(X86, types, params) && Eligible(types, i) == 0
    requires InRegisters(fastcall, types, params, first, second, j)
    ensures InRegisters(fastcall, types, params, v, second, j)
  {
    EligibleMono(types, j + 1, i);
  }

  lemma NowInRegisters(fastcall: bool, types: seq<CType>, params: seq<Bytes>, first: Word, second: Word, i: nat)
    requires i < |types| && Fitting(X86, types, params)
    requires IsOk(types[i]) && Eligible(types, i) == 0 ==> first == Widened(false, params[i], 4)
    requires IsOk(types[i]) && Eligible(types, i) == 1 ==> second == Widened(false, params[i], 4)
    ensures InRegisters(fastcall, types, params, first, second, i)
  {
  }

  lemma NoRegisters(types: seq<CType>, params: seq<Bytes>, first: Word, second: Word, i: nat)
    requires i < |types| && Fitting(X86, types, params)
    ensures InRegisters(false, types, params, first, second, i)
  {
  }

  lemma SecondKept(fastcall: bool, types: seq<CType>, params: seq<Bytes>, first: Word, second: Word, i: nat, j: nat, v: Word)
    requires j < i < |types| && Fitting(X86, types, params) && Eligible(types, i) == 1
    requires InRegisters(fastcall, types, params, first, second, j)
    ensures InRegisters(fastcall, types, params, first, v, j)
  {
    EligibleMono(types, j + 1, i);
  }

  /** Past the second eligible parameter nothing else goes in a register. */
  lemma NoneLeft(fastcall: bool, types: seq<CType>, params: seq<Bytes>, first: Word, second: Word, i: nat, j: nat)
    requires i <= j < |types| && Fitting(X86, types, params) && Eligible(types, i) == 2
    ensures InRegisters(fastcall, types, params, first, second, j) && Eligible(types, |types|) >= 2
  {
    EligibleMono(types, i, j);
    EligibleMono(types, i, |types|);
  }

  /** `arch_set_register_parms`. */
  method SetRegisterParms(fastcall: bool, regparms: ArchRegParms, params: seq<Bytes>, types: seq<CType>)
    requires Fitting(X86, types, params)
    modifies regparms
    ensures forall i :: 0 <= i < |types| ==> InRegisters(fastcall, types, params, regparms.first, regparms.second, i)
    ensures !fastcall || Eligible(types, |types|) == 0 ==> regparms.first == old(regparms.first)
    ensures !fastcall || Eligible(types, |types|) <= 1 ==> regparms.second == old(regparms.second)
    ensures forall i :: 0 <= i < |types| ==> Arrived(fastcall, types, params, regparms.first, regparms.second, i)
    ensures !fastcall || SmallIntsBefore(types, |types|) == 0 ==> regparms.first == old(regparms.first)
    ensures !fastcall || SmallIntsBefore(types, |types|) <= 1 ==> regparms.second == old(regparms.second)
  {
    hide InRegisters, Arrived, Widened;
    EligibleIs(types, |types|);
    if !fastcall {
      forall i | 0 <= i < |types|
        ensures InRegisters(fastcall, types, params, regparms.first, regparms.second, i)
        ensures Arrived(fastcall, types, params, regparms.first, regparms.second, i)
      {
        NoRegisters(types, params, regparms.first, regparms.second, i);
        HasArrived(fastcall, types, params, regparms.first, regparms.second, i);
      }
      return;
    }
    var numeligible, i := 0, 0;
    while i < |types|
      invariant 0 <= i <= |types| && numeligible == Eligible(types, i) < 2
      invariant forall j :: 0 <= j < i ==> InRegisters(fastcall, types, params, regparms.first, regparms.second, j)
      invariant numeligible == 0 ==> regparms.first == old(regparms.first)
      invariant regparms.second == old(regparms.second)
    {
      if IsOk(types[i]) {
        var v := Widened(false, params[i], 4);
        if numeligible == 0 {
          forall j | 0 <= j < i
            ensures InRegisters(fastcall, types, params, v, regparms.second, j)
          {
            FirstKept(fastcall, types, params, regparms.first, regparms.second, i, j, v);
          }
          regparms.first := v;
        } else {
          forall j | 0 <= j < i
            ensures InRegisters(fastcall, types, params, regparms.first, v, j)
          {
            SecondKept(fastcall, types, params, regparms.first, regparms.second, i, j, v);
          }
          regparms.second := v;
        }
        numeligible := numeligible + 1;
      }
      NowInRegisters(fastcall, types, params, regparms.first, regparms.second, i);
      if numeligible == 2 {
        EligibleMono(types, i + 1, |types|);
        forall j | i + 1 <= j < |types|
          ensures InRegisters(fastcall, types, params, regparms.first, regparms.second, j)
        {
          NoneLeft(fastcall, types, params, regparms.first, regparms.second, i + 1, j);
        }
        break;
      }
      i := i + 1;
    }
    forall i | 0 <= i < |types| ensures Arrived(fastcall, types, params, regparms.first, regparms.second, i) {
      HasArrived(fastcall, types, params, regparms.first, regparms.second, i);
    }
  }

  /** What the register read leaves in the buffer `po` of parameter `i`. */
  function Got(fastcall: bool, types: seq<CType>, first: Word, second: Word, po: Bytes, i: nat): Bytes
    requires i < |types|
  {
    if !IsReg(fastcall, types, i) then po
    else Narrowed(false, if Eligible(types, i) == 0 then first else second, Mem(X86, types[i]))
  }

  /** `arch_get_register_parms`. */
  method GetRegisterParms(fastcall: bool, regparms: ArchRegParms, out: array<Bytes>, types: seq<CType>)
    requires out.Length == |types|
    modifies out
    ensures forall i :: 0 <= i < |types| ==>
              out[i] == Got(fastcall, types, regparms.first, regparms.second, old(out[i]), i)
  {
    if !fastcall {
      return;
    }
    var numeligible, i := 0, 0;
    while i < |types|
      invariant 0 <= i <= |types| && numeligible == Eligible(types, i) < 2
      invariant forall j :: 0 <= j < i ==>
                  out[j] == Got(fastcall, types, regparms.first, regparms.second, old(out[j]), j)
      invariant forall j :: i <= j < |types| ==> out[j] == old(out[j])
    {
      if IsOk(types[i]) {
        out[i] := Narrowed(false, if numeligible == 0 then regparms.first else regparms.second, Mem(X86, types[i]));
        numeligible := numeligible + 1;
      }
      if numeligible == 2 {
        forall j | i < j <= |types| ensures Eligible(types, j) >= 2 {
          EligibleMono(types, i + 1, j);
        }
        break;
      }
      i := i + 1;
    }
  }

  /** Every parameter is read from the one place it was put. */
  lemma Delivered(fastcall: bool, types: seq<CType>, params: seq<Bytes>, first: Word, second: Word, po: Bytes, i: nat)
    requires i < |types| && Fitting(X86, types, params)
    requires InRegisters(fastcall, types, params, first, second, i)
    requires !IsReg(fastcall, types, i) ==> po == params[i]
    ensures Got(fastcall, types, first, second, po, i) == params[i]
  {
  }

  /** A whole call: `invoke` marshals into registers and stack, and the thunk reads both back. */
  method CallThrough(fastcall: bool, types: seq<CType>, params: seq<Bytes>, regparms: ArchRegParms, buffers: seq<Bytes>)
    returns (regs: seq<bool>, ok: bool, out: array<Bytes>)
    requires Fitting(X86, types, params) && Fitting(X86, types, buffers)
    modifies regparms
    ensures Classified(fastcall, types, regs) && (ok <==> Position(X86, types, regs, |types|) <= 0x7FFF)
    ensures ok ==> out[..] == params
  {
    hide Position, InRegisters, OnStack, Got;
    out := new Bytes[0];
    regs := Classify(fastcall, types);
    var stacksize;
    ok, stacksize := ComputeStackSize(X86, types, regs);
    if !ok {
      return;
    }
    SetRegisterParms(fastcall, regparms, params, types);
    var stack := new bv8[stacksize];
    PutStack(X86, types, regs, params, stack);
    var read := ReadFrame(X86, types, regs, stack[..], buffers);
    out := new Bytes[|types|](i requires 0 <= i < |types| => read[i]);
    GetRegisterParms(fastcall, regparms, out, types);
    forall i | 0 <= i < |types| ensures out[i] == params[i] {
      if !regs[i] {
        StackDelivers(X86, types, regs, params, stack[..], buffers, i);
      }
      Delivered(fastcall, types, params, regparms.first, regparms.second, read[i], i);
    }
  }
}

/** The return record of the 32-bit ports and its 8-byte values. */
module Returns {
  import opened Memory

  class ArchRetValue {
    const bigEndian: bool
    var ivallow: Word
    var ivalhigh: Word

    constructor (big: bool)
      ensures bigEndian == big
    {
      bigEndian := big;
      ivallow, ivalhigh := [0, 0, 0, 0], [0, 0, 0, 0];
    }

    /** `arch_setval_extralong`. */
    method SetExtraLong(val: Quad)
      modifies this
      ensures Joined(bigEndian, ivalhigh, ivallow) == val
    {
      ivalhigh := if bigEndian then val[..4] else val[4..];
      ivallow := if bigEndian then val[4..] else val[..4];
      JoinedParts(bigEndian, val);
    }

    /** `arch_getval_extralong`: the value comes back exactly when the low word does not spill. */
    method GetExtraLong() returns (outval: Quad)
      ensures outval == Spilled(bigEndian, ivalhigh, ivallow)
      ensures outval == Joined(bigEndian, ivalhigh, ivallow) <==> SpillsHarmlessly(bigEndian, ivalhigh, ivallow)
    {
      SpillExact(bigEndian, ivalhigh, ivallow);
      outval := Spilled(bigEndian, ivalhigh, ivallow);
    }
  }

  lemma JoinedParts(bigEndian: bool, val: Quad)
    ensures val[..4] + val[4..] == val
  {
  }

  /** The smallest value the record garbles. */
  lemma TopBitGarbles()
    ensures Spilled(false, [0, 0, 0, 0], [0, 0, 0, 0x80]) == [0, 0, 0, 0x80, 0xFF, 0xFF, 0xFF, 0xFF]
  {
    assert OrAll([0, 0, 0, 0], 0xFF) == [0xFF, 0xFF, 0xFF, 0xFF];
  }
}
