/** `lib/arch/gcc_x64_unix.c`: six integer and eight SSE registers, counted separately. */
module X64 {
  import opened CTypes
  import opened Memory
  import opened Calls
  import opened Numbers

  const X64 := Port(X64Unix, false, false)

  /** rdi, rsi, rdx, rcx, r8, r9 and xmm0 .. xmm7. */
  const INT_REGISTERS := 6
  const SSE_REGISTERS := 8

  predicate IsFlt(t: CType) {
    t.Float? || t.Double?
  }

  /** Integer and floating parameters before `n`. */
  function Ints(types: seq<CType>, n: nat): nat
    requires n <= |types|
  {
    if n == 0 then 0 else Ints(types, n - 1) + (if IsFlt(types[n - 1]) then 0 else 1)
  }

  function Flts(types: seq<CType>, n: nat): nat
    requires n <= |types|
  {
    if n == 0 then 0 else Flts(types, n - 1) + (if IsFlt(types[n - 1]) then 1 else 0)
  }

  lemma {:induction false} CountsMono(types: seq<CType>, m: nat, n: nat)
    requires m <= n <= |types|
    ensures Ints(types, m) <= Ints(types, n) && Flts(types, m) <= Flts(types, n)
    decreases n
  {
    if m < n {
      CountsMono(types, m, n - 1);
    }
  }

  /** The register test as written. */
  predicate IsReg(types: seq<CType>, i: nat)
    requires i < |types|
  {
    (IsFlt(types[i]) && Flts(types, i) < SSE_REGISTERS) || Ints(types, i) < INT_REGISTERS
  }

  /** The rule of section 3.2.3 of the System V AMD64 ABI: the next register of the class, if there
      is one. */
  predicate HasRegister(types: seq<CType>, i: nat)
    requires i < |types|
  {
    if IsFlt(types[i]) then Flts(types, i) < SSE_REGISTERS else Ints(types, i) < INT_REGISTERS
  }

  /** A floating parameter past the SSE registers while integer registers remain. */
  predicate Lost(types: seq<CType>, i: nat)
    requires i < |types|
  {
    IsFlt(types[i]) && Flts(types, i) >= SSE_REGISTERS && Ints(types, i) < INT_REGISTERS
  }

  /** The test departs from the rule for exactly the lost parameters. */
  lemma TestMeetsRule(types: seq<CType>, i: nat)
    requires i < |types|
    ensures IsReg(types, i) == HasRegister(types, i) <==> !Lost(types, i)
  {
    if Lost(types, i) {
      assert IsReg(types, i) && !HasRegister(types, i);
    }
  }

  /** Nine doubles are enough to lose the last one. */
  lemma NinthDoubleLost()
    ensures var types := seq(9, _ => Double); Lost(types, 8)
  {
    var types := seq(9, _ => Double);
    AllFloating(types, 8);
  }

  lemma {:induction false} AllFloating(types: seq<CType>, n: nat)
    requires n <= |types| && forall i :: 0 <= i < |types| ==> IsFlt(types[i])
    ensures Flts(types, n) == n && Ints(types, n) == 0
  {
    if n > 0 {
      AllFloating(types, n - 1);
    }
  }

  /** `arch_is_register_parm`. */
  method IsRegisterParm(types: seq<CType>, index: nat) returns (r: bool)
    requires index < |types|
    ensures r == IsReg(types, index)
    ensures r <==> ((types[index] == Float || types[index] == Double) && FloatsBefore(types, index) < 8)
                   || index - FloatsBefore(types, index) < 6
  {
    CountsAre(types, index);
    var numints, numflts, i := 0, 0, 0;
    while i < index
      invariant 0 <= i <= index && numints == Ints(types, i) && numflts == Flts(types, i)
    {
      if IsFlt(types[i]) {
        numflts := numflts + 1;
      } else {
        numints := numints + 1;
      }
      i := i + 1;
    }
    r := (IsFlt(types[index]) && numflts < SSE_REGISTERS) || numints < INT_REGISTERS;
  }

  ghost predicate Classified(types: seq<CType>, regs: seq<bool>) {
    |regs| == |types| && forall i :: 0 <= i < |types| ==> regs[i] == IsReg(types, i)
  }

  /** The classification loop of `cinv_function_create`. */
  method Classify(types: seq<CType>) returns (regs: seq<bool>)
    ensures Classified(types, regs)
  {
    regs := [];
    while |regs| < |types|
      invariant |regs| <= |types| && forall i :: 0 <= i < |regs| ==> regs[i] == IsReg(types, i)
    {
      var r := IsRegisterParm(types, |regs|);
      regs := regs + [r];
    }
  }

  /** Parameter `i` is in its register, if its class has one left.  A `float` fills only the lower
      half of its register. */
  predicate InRegisters(types: seq<CType>, params: seq<Bytes>, ints: seq<Quad>, flts: seq<Quad>, i: nat)
    requires |ints| == INT_REGISTERS && |flts| == SSE_REGISTERS && i < |types| && Fitting(X64, types, params)
  {
    var k, x := Ints(types, i), Flts(types, i);
    HasRegister(types, i) ==>
      if IsFlt(types[i]) then flts[x][..|params[i]|] == params[i] else ints[k] == Widened(false, params[i], 8)
  }

  lemma {:induction false} CountsAre(types: seq<CType>, n: nat)
    requires n <= |types|
    ensures Flts(types, n) == FloatsBefore(types, n) && Ints(types, n) == n - FloatsBefore(types, n)
  {
    if n > 0 {
      CountsAre(types, n - 1);
    }
  }

  /** The first eight floating parameters are in xmm0 .. xmm7, byte for byte; the first six others are
      in the integer registers with the numbers they stand for. */
  predicate Arrived(types: seq<CType>, params: seq<Bytes>, ints: seq<Quad>, flts: seq<Quad>, i: nat)
    requires |ints| == 6 && |flts| == 8 && i < |types| == |params|
  {
    var x := FloatsBefore(types, i);
    if types[i] == Float || types[i] == Double then
      x < 8 ==> |params[i]| <= 8 && flts[x][..|params[i]|] == params[i]
    else 0 <= i - x < 6 ==> Signed(false, ints[i - x]) == Signed(false, params[i])
  }

  lemma HasArrived(types: seq<CType>, params: seq<Bytes>, ints: seq<Quad>, flts: seq<Quad>, i: nat)
    requires |ints| == INT_REGISTERS && |flts| == SSE_REGISTERS && i < |types| && Fitting(X64, types, params)
    requires InRegisters(types, params, ints, flts, i)
    ensures Arrived(types, params, ints, flts, i)
  {
    hide Signed, Widened, Ints, Flts, FloatsBefore;
    CountsAre(types, i);
    WidenedNumber(false, params[i], 8);
  }

  /** Which parameters are lost. */
  lemma LostIs(types: seq<CType>, i: nat)
    requires i < |types|
    ensures Lost(types, i) <==> (types[i] == Float || types[i] == Double)
                                && FloatsBefore(types, i) >= 8 && i - FloatsBefore(types, i) < 6
  {
    CountsAre(types, i);
  }

  /** The room of a parameter on the stack, and its bytes there. */
  lemma StackInNumbers(types: seq<CType>, regs: seq<bool>, params: seq<Bytes>, stack: Bytes, i: nat, at: nat, room: nat)
    requires |regs| == |types| && i < |types| && Fitting(X64, types, params)
    requires OnStack(X64, types, regs, params, stack, |types|)
    requires at == Position(X64, types, regs, i)
    requires room == if types[i] == Float then 4 else 8
    ensures (i == 0 ==> at == 0) && Position(X64, types, regs, i + 1) == at + (if regs[i] then 0 else room)
    ensures !regs[i] ==>
              && |params[i]| <= room && at + room <= |stack|
              && forall k :: at <= k < at + room ==>
                   stack[k] == if k - at < |params[i]| then params[i][k - at] else 0
  {
    hide OnStack, Fitting;
    if !regs[i] {
      StackBytes(X64, types, regs, params, stack, i, at, room);
    }
  }

  lemma NowInRegisters(types: seq<CType>, params: seq<Bytes>, ints: seq<Quad>, flts: seq<Quad>, i: nat)
    requires |ints| == INT_REGISTERS && |flts| == SSE_REGISTERS && i < |types| && Fitting(X64, types, params)
    ensures var k, x := Ints(types, i), Flts(types, i);
            if !HasRegister(types, i) then InRegisters(types, params, ints, flts, i)
            else if IsFlt(types[i]) then InRegisters(types, params, ints, flts[x := Write(flts[x], 0, params[i])], i)
            else InRegisters(types, params, ints[k := Widened(false, params[i], 8)], flts, i)
  {
  }

  lemma StillInRegisters(types: seq<CType>, params: seq<Bytes>, ints: seq<Quad>, flts: seq<Quad>, i: nat, j: nat, v: Quad)
    requires |ints| == INT_REGISTERS && |flts| == SSE_REGISTERS && j < i < |types| && Fitting(X64, types, params)
    requires InRegisters(types, params, ints, flts, j)
    ensures var k, x := Ints(types, i), Flts(types, i);
            && (IsFlt(types[i]) && x < SSE_REGISTERS ==> InRegisters(types, params, ints, flts[x := v], j))
            && (!IsFlt(types[i]) && k < INT_REGISTERS ==> InRegisters(types, params, ints[k := v], flts, j))
  {
    CountsMono(types, j + 1, i);
  }

  /** `arch_set_register_parms`: every parameter whose class has a register left gets it, and no
      later one disturbs it. */
  method SetRegisterParms(ints: array<Quad>, flts: array<Quad>, params: seq<Bytes>, types: seq<CType>)
    requires ints.Length == INT_REGISTERS && flts.Length == SSE_REGISTERS && Fitting(X64, types, params)
    modifies ints, flts
    ensures forall i :: 0 <= i < |types| ==> InRegisters(types, params, ints[..], flts[..], i)
    ensures forall r :: Ints(types, |types|) <= r < INT_REGISTERS ==> ints[r] == old(ints[r])
    ensures forall r :: Flts(types, |types|) <= r < SSE_REGISTERS ==> flts[r] == old(flts[r])
    ensures forall i :: 0 <= i < |types| ==> Arrived(types, params, ints[..], flts[..], i)
    ensures FloatsBefore(types, |types|) == |types| ==> ints[..] == old(ints[..])
    ensures FloatsBefore(types, |types|) == 0 ==> flts[..] == old(flts[..])
  {
    hide InRegisters, Arrived, Widened, Write;
    var numints, numflts, i := 0, 0, 0;
    while i < |types|
      invariant 0 <= i <= |types| && numints == Ints(types, i) && numflts == Flts(types, i)
      invariant forall j :: 0 <= j < i ==> InRegisters(types, params, ints[..], flts[..], j)
      invariant forall r :: numints <= r < INT_REGISTERS ==> ints[r] == old(ints[r])
      invariant forall r :: numflts <= r < SSE_REGISTERS ==> flts[r] == old(flts[r])
    {
      ghost var was := (ints[..], flts[..]);
      NowInRegisters(types, params, was.0, was.1, i);
      if IsFlt(types[i]) {
        if numflts < SSE_REGISTERS {
          flts[numflts] := Write(flts[numflts], 0, params[i]);
          assert flts[..] == was.1[numflts := flts[numflts]];
          forall j | 0 <= j < i ensures InRegisters(types, params, ints[..], flts[..], j) {
            StillInRegisters(types, params, was.0, was.1, i, j, flts[numflts]);
          }
        }
        numflts := numflts + 1;
      } else {
        if numints < INT_REGISTERS {
          ints[numints] := Widened(false, params[i], 8);
          assert ints[..] == was.0[numints := ints[numints]];
          forall j | 0 <= j < i ensures InRegisters(types, params, ints[..], flts[..], j) {
            StillInRegisters(types, params, was.0, was.1, i, j, ints[numints]);
          }
        }
        numints := numints + 1;
      }
      i := i + 1;
    }
    CountsAre(types, |types|);
    forall i | 0 <= i < |types| ensures Arrived(types, params, ints[..], flts[..], i) {
      HasArrived(types, params, ints[..], flts[..], i);
    }
  }

  /** What the register read leaves in the buffer `po` of parameter `i`. */
  function Got(types: seq<CType>, ints: seq<Quad>, flts: seq<Quad>, po: Bytes, i: nat): (r: Bytes)
    requires |ints| == INT_REGISTERS && |flts| == SSE_REGISTERS && i < |types|
  {
    if !HasRegister(types, i) then po
    else if IsFlt(types[i]) then flts[Flts(types, i)][..Mem(X64, types[i])]
    else Narrowed(false, ints[Ints(types, i)], Mem(X64, types[i]))
  }

  /** `arch_get_register_parms`. */
  method GetRegisterParms(ints: seq<Quad>, flts: seq<Quad>, out: array<Bytes>, types: seq<CType>)
    requires |ints| == INT_REGISTERS && |flts| == SSE_REGISTERS && out.Length == |types|
    modifies out
    ensures forall i :: 0 <= i < |types| ==> out[i] == Got(types, ints, flts, old(out[i]), i)
  {
    hide Narrowed;
    var numints, numflts, i := 0, 0, 0;
    while i < |types|
      invariant 0 <= i <= |types| && numints == Ints(types, i) && numflts == Flts(types, i)
      invariant forall j :: 0 <= j < i ==> out[j] == Got(types, ints, flts, old(out[j]), j)
      invariant forall j :: i <= j < |types| ==> out[j] == old(out[j])
    {
      if IsFlt(types[i]) {
        if numflts < SSE_REGISTERS {
          out[i] := flts[numflts][..Mem(X64, types[i])];
        }
        numflts := numflts + 1;
      } else {
        if numints < INT_REGISTERS {
          out[i] := Narrowed(false, ints[numints], Mem(X64, types[i]));
        }
        numints := numints + 1;
      }
      i := i + 1;
    }
  }

  /** Each parameter is read from the place it was put, except a lost one: it was put nowhere, and
      its fresh buffer is handed to the callback as it is. */
  lemma Delivered(types: seq<CType>, params: seq<Bytes>, ints: seq<Quad>, flts: seq<Quad>, po: Bytes, i: nat)
    requires |ints| == INT_REGISTERS && |flts| == SSE_REGISTERS && i < |types| && Fitting(X64, types, params)
    requires InRegisters(types, params, ints, flts, i)
    requires !IsReg(types, i) ==> po == params[i]
    ensures Got(types, ints, flts, po, i) == if Lost(types, i) then po else params[i]
  {
    TestMeetsRule(types, i);
  }

  /** A whole call: `invoke` marshals into registers and stack, and the thunk reads both back. */
  method CallThrough(types: seq<CType>, params: seq<Bytes>, ints: array<Quad>, flts: array<Quad>, buffers: seq<Bytes>)
    returns (regs: seq<bool>, ok: bool, out: array<Bytes>)
    requires Fitting(X64, types, params) && Fitting(X64, types, buffers)
    requires ints.Length == INT_REGISTERS && flts.Length == SSE_REGISTERS
    modifies ints, flts
    ensures Classified(types, regs) && (ok <==> Position(X64, types, regs, |types|) <= 0x7FFF)
    ensures ok ==> out.Length == |types|
    ensures ok ==> forall i :: 0 <= i < |types| ==> out[i] == if Lost(types, i) then buffers[i] else params[i]
  {
    hide Position, InRegisters, OnStack, Got;
    out := new Bytes[0];
    regs := Classify(types);
    var stacksize;
    ok, stacksize := ComputeStackSize(X64, types, regs);
    if !ok {
      return;
    }
    SetRegisterParms(ints, flts, params, types);
    var stack := new bv8[stacksize];
    PutStack(X64, types, regs, params, stack);
    var read := ReadFrame(X64, types, regs, stack[..], buffers);
    out := new Bytes[|types|](i requires 0 <= i < |types| => read[i]);
    GetRegisterParms(ints[..], flts[..], out, types);
    forall i | 0 <= i < |types| ensures out[i] == if Lost(types, i) then buffers[i] else params[i] {
      if !regs[i] {
        StackDelivers(X64, types, regs, params, stack[..], buffers, i);
      }
      Delivered(types, params, ints[..], flts[..], read[i], i);
    }
  }
}
