/** `lib/arch/gcc_ppc_osx.c`: eight word registers and thirteen floating ones; a floating parameter
    uses up word registers as well. */
module Ppc {
  import opened CTypes
  import opened Memory
  import opened Calls
  import opened Numbers

  const PPC := Port(PpcOsx, true, true)

  /** r3 .. r10 and f1 .. f13. */
  const INT_REGISTERS := 8
  const FLT_REGISTERS := 13

  /** The conversions of the floating unit; a register always holds a `double`. */
  datatype Fpu = Fpu(widen: Word -> Quad, round: Quad -> Word)

  /** A `float` survives being held as a `double`. */
  ghost predicate Faithful(u: Fpu) {
    forall f: Word :: u.round(u.widen(f)) == f
  }

  /** There are such conversions: padding with zeros and cutting them off is one. */
  lemma SomeFpu() returns (u: Fpu)
    ensures Faithful(u)
  {
    u := Fpu(f => f + [0, 0, 0, 0], d => d[..4]);
    forall f: Word ensures u.round(u.widen(f)) == f {
      assert (f + [0, 0, 0, 0])[..4] == f;
    }
  }

  predicate IsFlt(t: CType) {
    t.Float? || t.Double?
  }

  /** Word registers and floating registers used up by the parameters before `n`. */
  function Ints(types: seq<CType>, n: nat): nat
    requires n <= |types|
  {
    if n == 0 then 0
    else Ints(types, n - 1) + (if types[n - 1].Double? || types[n - 1].ExtraLong? then 2 else 1)
  }

  function Flts(types: seq<CType>, n: nat): nat
    requires n <= |types|
  {
    if n == 0 then 0 else Flts(types, n - 1) + (if IsFlt(types[n - 1]) then 1 else 0)
  }

  lemma {:induction false} CountsMono(types: seq<CType>, m: nat, n: nat)
    requires m <= n <= |types|
    ensures Ints(types, m) + (n - m) <= Ints(types, n) && Flts(types, m) <= Flts(types, n)
    decreases n
  {
    if m < n {
      CountsMono(types, m, n - 1);
    }
  }

  /** Floating parameters use up word registers too, so the word count never falls behind. */
  lemma {:induction false} IntsAhead(types: seq<CType>, n: nat)
    requires n <= |types|
    ensures Flts(types, n) <= Ints(types, n)
  {
    if n > 0 {
      IntsAhead(types, n - 1);
    }
  }

  /** The register test as written: counts taken after the parameter itself. */
  predicate IsReg(types: seq<CType>, i: nat)
    requires i < |types|
  {
    (IsFlt(types[i]) && Flts(types, i + 1) <= FLT_REGISTERS) || Ints(types, i + 1) <= INT_REGISTERS
  }

  /** Room left in the parameter's own class: what the set and get loops go by. */
  predicate HasRegister(types: seq<CType>, i: nat)
    requires i < |types|
  {
    if IsFlt(types[i]) then Flts(types, i) < FLT_REGISTERS else Ints(types, i) < INT_REGISTERS
  }

  /** An 8-byte integer whose second word no longer fits: half loaded, but read from the stack. */
  predicate Straddles(types: seq<CType>, i: nat)
    requires i < |types|
  {
    types[i].ExtraLong? && Ints(types, i) == INT_REGISTERS - 1
  }

  /** The test and the loops agree on every parameter but a straddling one. */
  lemma TestMeetsLoops(types: seq<CType>, i: nat)
    requires i < |types|
    ensures IsReg(types, i) <==> HasRegister(types, i) && !Straddles(types, i)
  {
    IntsAhead(types, i);
  }

  /** `arch_is_register_parm`. */
  method IsRegisterParm(types: seq<CType>, index: nat) returns (r: bool)
    requires index < |types|
    ensures r == IsReg(types, index)
    ensures r <==> ((types[index] == Float || types[index] == Double) && FloatsBefore(types, index + 1) <= 13)
                   || WordsBefore(types, index + 1) <= 8
  {
    CountsAre(types, index + 1);
    var numints, numflts, i := 0, 0, 0;
    while i <= index
      invariant 0 <= i <= index + 1 && numints == Ints(types, i) && numflts == Flts(types, i)
    {
      if IsFlt(types[i]) {
        numflts := numflts + 1;
        numints := numints + (if types[i].Float? then 1 else 2);
      } else if types[i].ExtraLong? {
        numints := numints + 2;
      } else {
        numints := numints + 1;
      }
      i := i + 1;
    }
    r := (IsFlt(types[index]) && numflts <= FLT_REGISTERS) || numints <= INT_REGISTERS;
  }

  ghost predicate Classified(types: seq<CType>, regs: seq<bool>) {
    |regs| == |types| && forall i :: 0 <= i < |types| ==> regs[i] == IsReg(types, i)
  }

  /** The classification loop of `cinv_function_create`. */
  method Classify(types: seq<CType>) returns (regs: seq<bool>)
    ensures Classified(types, regs)
  {
    regs := [];
    while |regs| < |types|
      invariant |regs| <= |types| && forall i :: 0 <= i < |regs| ==> regs[i] == IsReg(types, i)
    {
      var r := IsRegisterParm(types, |regs|);
      regs := regs + [r];
    }
  }

  /** The word registers after `set_int`. */
  function Loaded(ints: seq<Word>, index: nat, p: Bytes, t: CType): (r: seq<Word>)
    requires |ints| == INT_REGISTERS && index < INT_REGISTERS && |p| == Mem(PPC, t) && !IsFlt(t)
    ensures |r| == INT_REGISTERS
  {
    if !t.ExtraLong? then ints[index := Widened(true, p, 4)]
    else if index < INT_REGISTERS - 1 then ints[index := p[..4]][index + 1 := p[4..]]
    else ints[index := p[..4]]
  }

  method SetInt(ints: array<Word>, index: nat, p: Bytes, t: CType)
    requires ints.Length == INT_REGISTERS && index < INT_REGISTERS && |p| == Mem(PPC, t) && !IsFlt(t)
    modifies ints
    ensures ints[..] == Loaded(old(ints[..]), index, p, t)
    ensures t == ExtraLong ==> |p| == 8 && ints[index] == p[..4] && (index < 7 ==> ints[index + 1] == p[4..])
    ensures t != ExtraLong ==> Signed(true, ints[index]) == Signed(true, p) && (|p| == 4 ==> ints[index] == p)
    ensures forall r :: 0 <= r < 8 && r != index && (r != index + 1 || t != ExtraLong) ==> ints[r] == old(ints[r])
  {
    hide Widened, Signed;
    if t.ExtraLong? {
      ints[index] := p[..4];
      if index < INT_REGISTERS - 1 {
        ints[index + 1] := p[4..];
      }
    } else {
      WidenedNumber(true, p, 4);
      WidenedWord(true, p);
      ints[index] := Widened(true, p, 4);
    }
  }

  function AsDouble(u: Fpu, t: CType, p: Bytes): Quad
    requires IsFlt(t) && |p| == Mem(PPC, t)
  {
    if t.Float? then u.widen(p) else p
  }

  /** Parameter `i` is in its registers, as far as its class has any left. */
  predicate InRegisters(u: Fpu, types: seq<CType>, params: seq<Bytes>, ints: seq<Word>, flts: seq<Quad>, i: nat)
    requires |ints| == INT_REGISTERS && |flts| == FLT_REGISTERS && i < |types| && Fitting(PPC, types, params)
  {
    var k, x := Ints(types, i), Flts(types, i);
    HasRegister(types, i) ==>
      if IsFlt(types[i]) then flts[x] == AsDouble(u, types[i], params[i])
      else if types[i].ExtraLong? then
        ints[k] == params[i][..4] && (k + 1 < INT_REGISTERS ==> ints[k + 1] == params[i][4..])
      else ints[k] == Widened(true, params[i], 4)
  }

  lemma {:induction false} CountsAre(types: seq<CType>, n: nat)
    requires n <= |types|
    ensures Flts(types, n) == FloatsBefore(types, n) && Ints(types, n) == WordsBefore(types, n)
  {
    if n > 0 {
      CountsAre(types, n - 1);
    }
  }

  /** The first thirteen floating parameters are in f1 .. f13, a `float` as a `double`; an integer
      parameter among the first eight words is in r3 .. r10, an 8-byte one high word first, a 4-byte
      one byte for byte, a narrower one with the number it stands for. */
  predicate Arrived(u: Fpu, types: seq<CType>, params: seq<Bytes>, ints: seq<Word>, flts: seq<Quad>, i: nat)
    requires |ints| == 8 && |flts| == 13 && i < |types| == |params|
  {
    var w, x := WordsBefore(types, i), FloatsBefore(types, i);
    if types[i] == Float then x < 13 ==> |params[i]| == 4 && flts[x] == u.widen(params[i])
    else if types[i] == Double then x < 13 ==> flts[x] == params[i]
    else
      w < 8 ==>
        if types[i] == ExtraLong then
          |params[i]| == 8 && ints[w] == params[i][..4] && (w < 7 ==> ints[w + 1] == params[i][4..])
        else Signed(true, ints[w]) == Signed(true, params[i]) && (|params[i]| == 4 ==> ints[w] == params[i])
  }

  lemma FloatArrived(u: Fpu, types: seq<CType>, params: seq<Bytes>, ints: seq<Word>, flts: seq<Quad>, i: nat)
    requires |ints| == INT_REGISTERS && |flts| == FLT_REGISTERS && i < |types| && Fitting(PPC, types, params)
    requires InRegisters(u, types, params, ints, flts, i) && IsFlt(types[i])
    ensures Arrived(u, types, params, ints, flts, i)
  {
    hide Ints, Flts, FloatsBefore, WordsBefore;
    CountsAre(types, i);
  }

  lemma IntArrived(u: Fpu, types: seq<CType>, params: seq<Bytes>, ints: seq<Word>, flts: seq<Quad>, i: nat)
    requires |ints| == INT_REGISTERS && |flts| == FLT_REGISTERS && i < |types| && Fitting(PPC, types, params)
    requires InRegisters(u, types, params, ints, flts, i) && !IsFlt(types[i])
    ensures Arrived(u, types, params, ints, flts, i)
  {
    hide Signed, Widened, Ints, Flts, FloatsBefore, WordsBefore;
    CountsAre(types, i);
    if !types[i].ExtraLong? {
      WidenedNumber(true, params[i], 4);
      WidenedWord(true, params[i]);
    }
  }

  lemma HasArrived(u: Fpu, types: seq<CType>, params: seq<Bytes>, ints: seq<Word>, flts: seq<Quad>, i: nat)
    requires |ints| == INT_REGISTERS && |flts| == FLT_REGISTERS && i < |types| && Fitting(PPC, types, params)
    requires InRegisters(u, types, params, ints, flts, i)
    ensures Arrived(u, types, params, ints, flts, i)
  {
    hide *;
    if IsFlt(types[i]) {
      FloatArrived(u, types, params, ints, flts, i);
    } else {
      IntArrived(u, types, params, ints, flts, i);
    }
  }

  /** Which parameters are garbled: 8-byte integers wholly in registers whose low word is negative,
      unless the high word is all ones. */
  lemma GarbledIs(types: seq<CType>, i: nat, param: Bytes)
    requires i < |types| && |param| == Mem(PPC, types[i])
    ensures Garbled(types, i, param) <==>
            && types[i] == ExtraLong && WordsBefore(types, i) + 2 <= 8
            && param[4] & 0x80 != 0 && param[..4] != [0xFF, 0xFF, 0xFF, 0xFF]
  {
    CountsAre(types, i + 1);
  }

  /** The room of a parameter on the stack, and its bytes there; register parameters have room too. */
  lemma StackInNumbers(types: seq<CType>, regs: seq<bool>, params: seq<Bytes>, stack: Bytes, i: nat, at: nat, room: nat)
    requires |regs| == |types| && i < |types| && Fitting(PPC, types, params)
    requires OnStack(PPC, types, regs, params, stack, |types|)
    requires at == Position(PPC, types, regs, i)
    requires room == if types[i] == ExtraLong || types[i] == Double then 8 else 4
    ensures (i == 0 ==> at == 0) && Position(PPC, types, regs, i + 1) == at + room
    ensures !regs[i] ==>
              && |params[i]| <= room && at + room <= |stack|
              && forall k :: at <= k < at + room ==>
                   stack[k] == if k - at < room - |params[i]| then 0 else params[i][k - at - (room - |params[i]|)]
  {
    hide OnStack, Fitting;
    if !regs[i] {
      StackBytes(PPC, types, regs, params, stack, i, at, room);
    }
  }

  lemma NowInRegisters(u: Fpu, types: seq<CType>, params: seq<Bytes>, ints: seq<Word>, flts: seq<Quad>, i: nat)
    requires |ints| == INT_REGISTERS && |flts| == FLT_REGISTERS && i < |types| && Fitting(PPC, types, params)
    ensures var k, x := Ints(types, i), Flts(types, i);
            if !HasRegister(types, i) then InRegisters(u, types, params, ints, flts, i)
            else if IsFlt(types[i]) then
              InRegisters(u, types, params, ints, flts[x := AsDouble(u, types[i], params[i])], i)
            else InRegisters(u, types, params, Loaded(ints, k, params[i], types[i]), flts, i)
  {
  }

  lemma StillInRegisters(u: Fpu, types: seq<CType>, params: seq<Bytes>, ints: seq<Word>, flts: seq<Quad>, i: nat, j: nat)
    requires |ints| == INT_REGISTERS && |flts| == FLT_REGISTERS && j < i < |types| && Fitting(PPC, types, params)
    requires InRegisters(u, types, params, ints, flts, j)
    ensures var k, x := Ints(types, i), Flts(types, i);
            HasRegister(types, i) ==>
              if IsFlt(types[i]) then
                InRegisters(u, types, params, ints, flts[x := AsDouble(u, types[i], params[i])], j)
              else InRegisters(u, types, params, Loaded(ints, k, params[i], types[i]), flts, j)
  {
    hide Widened, AsDouble, Fitting, Mem;
    CountsMono(types, j + 1, i);
  }

  lemma OthersKept(types: seq<CType>, params: seq<Bytes>, ints: seq<Word>, i: nat, r: nat)
    requires |ints| == INT_REGISTERS && i < |types| && Fitting(PPC, types, params)
    requires !IsFlt(types[i]) && Ints(types, i + 1) <= r < INT_REGISTERS
    ensures Ints(types, i) <= r && Loaded(ints, Ints(types, i), params[i], types[i])[r] == ints[r]
  {
  }

  /** `arch_set_register_parms`: every parameter whose class has a register left gets it, and no
      later one disturbs it. */
  method SetRegisterParms(u: Fpu, ints: array<Word>, flts: array<Quad>, params: seq<Bytes>, types: seq<CType>)
    requires ints.Length == INT_REGISTERS && flts.Length == FLT_REGISTERS && Fitting(PPC, types, params)
    modifies ints, flts
    ensures forall i :: 0 <= i < |types| ==> InRegisters(u, types, params, ints[..], flts[..], i)
    ensures forall r :: Ints(types, |types|) <= r < INT_REGISTERS ==> ints[r] == old(ints[r])
    ensures forall r :: Flts(types, |types|) <= r < FLT_REGISTERS ==> flts[r] == old(flts[r])
    ensures forall i :: 0 <= i < |types| ==> Arrived(u, types, params, ints[..], flts[..], i)
    ensures forall r :: WordsBefore(types, |types|) <= r < 8 ==> ints[r] == old(ints[r])
    ensures forall r :: FloatsBefore(types, |types|) <= r < 13 ==> flts[r] == old(flts[r])
  {
    hide InRegisters, Arrived, Loaded, AsDouble;
    var numints, numflts, i := 0, 0, 0;
    while i < |types|
      invariant 0 <= i <= |types| && numints == Ints(types, i) && numflts == Flts(types, i)
      invariant forall j :: 0 <= j < i ==> InRegisters(u, types, params, ints[..], flts[..], j)
      invariant forall r :: numints <= r < INT_REGISTERS ==> ints[r] == old(ints[r])
      invariant forall r :: numflts <= r < FLT_REGISTERS ==> flts[r] == old(flts[r])
    {
      ghost var was := (ints[..], flts[..]);
      NowInRegisters(u, types, params, was.0, was.1, i);
      if IsFlt(types[i]) {
        if numflts < FLT_REGISTERS {
          flts[numflts] := AsDouble(u, types[i], params[i]);
          assert flts[..] == was.1[numflts := flts[numflts]];
          forall j | 0 <= j < i ensures InRegisters(u, types, params, ints[..], flts[..], j) {
            StillInRegisters(u, types, params, was.0, was.1, i, j);
          }
        }
        numflts := numflts + 1;
        numints := numints + (if types[i].Float? then 1 else 2);
      } else {
        if numints < INT_REGISTERS {
          SetInt(ints, numints, params[i], types[i]);
          forall j | 0 <= j < i ensures InRegisters(u, types, params, ints[..], flts[..], j) {
            StillInRegisters(u, types, params, was.0, was.1, i, j);
          }
          forall r | Ints(types, i + 1) <= r < INT_REGISTERS ensures ints[r] == old(ints[r]) {
            OthersKept(types, params, was.0, i, r);
            assert ints[..][r] == was.0[r];
          }
        }
        numints := numints + (if types[i].ExtraLong? then 2 else 1);
      }
      i := i + 1;
    }
    CountsAre(types, |types|);
    forall i | 0 <= i < |types| ensures Arrived(u, types, params, ints[..], flts[..], i) {
      HasArrived(u, types, params, ints[..], flts[..], i);
    }
  }

  /** What the register read leaves in the buffer `po` of parameter `i`. */
  function Got(u: Fpu, types: seq<CType>, ints: seq<Word>, flts: seq<Quad>, po: Bytes, i: nat): (r: Bytes)
    requires |ints| == INT_REGISTERS && |flts| == FLT_REGISTERS && i < |types|
  {
    if !HasRegister(types, i) then po
    else if IsFlt(types[i]) then FetchedFlt(u, flts, Flts(types, i), types[i])
    else FetchedInt(ints, Ints(types, i), types[i], po)
  }

  /** `get_flt` and `get_int`; the latter leaves a straddling 8-byte value alone. */
  function FetchedFlt(u: Fpu, flts: seq<Quad>, index: nat, t: CType): Bytes
    requires index < |flts|
  {
    if t.Float? then u.round(flts[index]) else flts[index]
  }

  function FetchedInt(ints: seq<Word>, index: nat, t: CType, po: Bytes): Bytes
    requires |ints| == INT_REGISTERS && index < INT_REGISTERS && !IsFlt(t)
  {
    if !t.ExtraLong? then Narrowed(true, ints[index], Mem(PPC, t))
    else if index < INT_REGISTERS - 1 then Spilled(true, ints[index], ints[index + 1])
    else po
  }

  /** `arch_get_register_parms`. */
  method GetRegisterParms(u: Fpu, ints: seq<Word>, flts: seq<Quad>, out: array<Bytes>, types: seq<CType>)
    requires |ints| == INT_REGISTERS && |flts| == FLT_REGISTERS && out.Length == |types|
    modifies out
    ensures forall i :: 0 <= i < |types| ==> out[i] == Got(u, types, ints, flts, old(out[i]), i)
  {
    hide FetchedFlt, FetchedInt;
    var numints, numflts, i := 0, 0, 0;
    while i < |types|
      invariant 0 <= i <= |types| && numints == Ints(types, i) && numflts == Flts(types, i)
      invariant forall j :: 0 <= j < i ==> out[j] == Got(u, types, ints, flts, old(out[j]), j)
      invariant forall j :: i <= j < |types| ==> out[j] == old(out[j])
    {
      if IsFlt(types[i]) {
        if numflts < FLT_REGISTERS {
          out[i] := FetchedFlt(u, flts, numflts, types[i]);
        }
        numflts := numflts + 1;
        numints := numints + (if types[i].Float? then 1 else 2);
      } else {
        if numints < INT_REGISTERS {
          out[i] := FetchedInt(ints, numints, types[i], out[i]);
        }
        numints := numints + (if types[i].ExtraLong? then 2 else 1);
      }
      i := i + 1;
    }
  }

  /** An 8-byte integer that lies in two registers and whose low word spills over the high one. */
  ghost predicate Garbled(types: seq<CType>, i: nat, param: Bytes)
    requires i < |types| && |param| == Mem(PPC, types[i])
  {
    types[i].ExtraLong? && IsReg(types, i) && !SpillsHarmlessly(true, param[..4], param[4..])
  }

  /** Every parameter is read from the one place it was put: its registers, or the stack for a
      parameter without room, a straddling one included.  Only a garbled one differs. */
  lemma Delivered(u: Fpu, types: seq<CType>, params: seq<Bytes>, ints: seq<Word>, flts: seq<Quad>, po: Bytes, i: nat)
    requires |ints| == INT_REGISTERS && |flts| == FLT_REGISTERS && i < |types| && Fitting(PPC, types, params)
    requires Faithful(u) && InRegisters(u, types, params, ints, flts, i)
    requires !IsReg(types, i) ==> po == params[i]
    ensures Got(u, types, ints, flts, po, i) == params[i] <==> !Garbled(types, i, params[i])
  {
    TestMeetsLoops(types, i);
    var p := params[i];
    if types[i].ExtraLong? {
      SpillExact(true, p[..4], p[4..]);
      assert p[..4] + p[4..] == p;
    }
  }

  /** A whole call: `invoke` marshals into registers and stack, and the thunk reads both back. */
  method CallThrough(u: Fpu, types: seq<CType>, params: seq<Bytes>, ints: array<Word>, flts: array<Quad>,
                     buffers: seq<Bytes>)
    returns (regs: seq<bool>, ok: bool, out: array<Bytes>)
    requires Fitting(PPC, types, params) && Fitting(PPC, types, buffers) && Faithful(u)
    requires ints.Length == INT_REGISTERS && flts.Length == FLT_REGISTERS
    modifies ints, flts
    ensures Classified(types, regs) && (ok <==> Position(PPC, types, regs, |types|) <= 0x7FFF)
    ensures ok ==> out.Length == |types|
    ensures ok ==> forall i :: 0 <= i < |types| ==> (out[i] == params[i] <==> !Garbled(types, i, params[i]))
  {
    hide Position, InRegisters, OnStack, Got, Garbled;
    out := new Bytes[0];
    regs := Classify(types);
    var stacksize;
    ok, stacksize := ComputeStackSize(PPC, types, regs);
    if !ok {
      return;
    }
    SetRegisterParms(u, ints, flts, params, types);
    var stack := new bv8[stacksize];
    PutStack(PPC, types, regs, params, stack);
    var read := ReadFrame(PPC, types, regs, stack[..], buffers);
    out := new Bytes[|types|](i requires 0 <= i < |types| => read[i]);
    GetRegisterParms(u, ints[..], flts[..], out, types);
    forall i | 0 <= i < |types| ensures out[i] == params[i] <==> !Garbled(types, i, params[i]) {
      if !regs[i] {
        StackDelivers(PPC, types, regs, params, stack[..], buffers, i);
      }
      Delivered(u, types, params, ints[..], flts[..], read[i], i);
    }
  }
}
