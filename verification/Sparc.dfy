/** `lib/arch/gcc_sparc_unix.c`: the first six words of parameters travel in registers, and an
    8-byte one may straddle the last register and the stack. */
module Sparc {
  import opened CTypes
  import opened Memory
  import opened Calls
  import opened Numbers

  const SPARC := Port(SparcUnix, true, true)

  /** The parameter registers io0 .. io5. */
  const REGISTERS := 6

  predicate Wide(t: CType) {
    t.ExtraLong? || t.Double?
  }

  /** Words taken by the parameters before `n`. */
  function Words(types: seq<CType>, n: nat): nat
    requires n <= |types|
  {
    if n == 0 then 0 else Words(types, n - 1) + (if Wide(types[n - 1]) then 2 else 1)
  }

  lemma {:induction false} WordsMono(types: seq<CType>, m: nat, n: nat)
    requires m <= n <= |types|
    ensures Words(types, m) + (n - m) <= Words(types, n)
    decreases n
  {
    if m < n {
      WordsMono(types, m, n - 1);
    }
  }

  /** A parameter counts as a register parameter when its last word still fits. */
  predicate IsReg(types: seq<CType>, i: nat)
    requires i < |types|
  {
    Words(types, i + 1) <= REGISTERS
  }

  /** `arch_is_register_parm`. */
  method IsRegisterParm(types: seq<CType>, index: nat) returns (r: bool)
    requires index < |types|
    ensures r == IsReg(types, index)
    ensures r <==> WordsBefore(types, index + 1) <= 6
  {
    WordsAre(types, index + 1);
    var num, i := 0, 0;
    while i <= index
      invariant 0 <= i <= index + 1 && num == Words(types, i)
    {
      num := num + (if Wide(types[i]) then 2 else 1);
      i := i + 1;
    }
    r := num <= REGISTERS;
  }

  ghost predicate Classified(types: seq<CType>, regs: seq<bool>) {
    |regs| == |types| && forall i :: 0 <= i < |types| ==> regs[i] == IsReg(types, i)
  }

  /** The classification loop of `cinv_function_create`. */
  method Classify(types: seq<CType>) returns (regs: seq<bool>)
    ensures Classified(types, regs)
  {
    regs := [];
    while |regs| < |types|
      invariant |regs| <= |types| && forall i :: 0 <= i < |regs| ==> regs[i] == IsReg(types, i)
    {
      var r := IsRegisterParm(types, |regs|);
      regs := regs + [r];
    }
  }

  /** The register file after `set_parm`: a narrow value is widened to a word; of an 8-byte value
      the high word goes first and the low word only if there is a next register. */
  function Loaded(file: seq<Word>, index: nat, p: Bytes, t: CType): (r: seq<Word>)
    requires |file| == REGISTERS && index < REGISTERS && |p| == Mem(SPARC, t)
    ensures |r| == REGISTERS
  {
    if !Wide(t) then file[index := Widened(true, p, 4)]
    else if index < REGISTERS - 1 then file[index := p[..4]][index + 1 := p[4..]]
    else file[index := p[..4]]
  }

  method SetParm(file: array<Word>, index: nat, p: Bytes, t: CType)
    requires file.Length == REGISTERS && index < REGISTERS && |p| == Mem(SPARC, t)
    modifies file
    ensures file[..] == Loaded(old(file[..]), index, p, t)
    ensures t == ExtraLong || t == Double ==>
              |p| == 8 && file[index] == p[..4] && (index < 5 ==> file[index + 1] == p[4..])
    ensures t != ExtraLong && t != Double ==>
              Signed(true, file[index]) == Signed(true, p) && (|p| == 4 ==> file[index] == p)
    ensures forall r :: 0 <= r < 6 && r != index && (r != index + 1 || (t != ExtraLong && t != Double)) ==>
              file[r] == old(file[r])
  {
    hide Widened, Signed;
    if Wide(t) {
      file[index] := p[..4];
      if index < REGISTERS - 1 {
        file[index + 1] := p[4..];
      }
    } else {
      WidenedNumber(true, p, 4);
      WidenedWord(true, p);
      file[index] := Widened(true, p, 4);
    }
  }

  /** Parameter `i` is in the registers as far as it fits there. */
  predicate InRegisters(types: seq<CType>, params: seq<Bytes>, file: seq<Word>, i: nat)
    requires |file| == REGISTERS && i < |types| && Fitting(SPARC, types, params)
  {
    var w := Words(types, i);
    w < REGISTERS ==>
      if Wide(types[i]) then
        file[w] == params[i][..4] && (w + 1 < REGISTERS ==> file[w + 1] == params[i][4..])
      else file[w] == Widened(true, params[i], 4)
  }

  lemma {:induction false} WordsAre(types: seq<CType>, n: nat)
    requires n <= |types|
    ensures Words(types, n) == WordsBefore(types, n)
  {
    if n > 0 {
      WordsAre(types, n - 1);
    }
  }

  /** The first six words of parameters are in io0 .. io5: an 8-byte value high word first, a 4-byte
      value byte for byte, a narrower one with the number it stands for. */
  predicate Arrived(types: seq<CType>, params: seq<Bytes>, file: seq<Word>, i: nat)
    requires |file| == 6 && i < |types| == |params|
  {
    var w := WordsBefore(types, i);
    w < 6 ==>
      if types[i] == ExtraLong || types[i] == Double then
        |params[i]| == 8 && file[w] == params[i][..4] && (w < 5 ==> file[w + 1] == params[i][4..])
      else
        Signed(true, file[w]) == Signed(true, params[i]) && (|params[i]| == 4 ==> file[w] == params[i])
  }

  lemma HasArrived(types: seq<CType>, params: seq<Bytes>, file: seq<Word>, i: nat)
    requires |file| == REGISTERS && i < |types| && Fitting(SPARC, types, params) && InRegisters(types, params, file, i)
    ensures Arrived(types, params, file, i)
  {
    hide Signed, Widened, Words, WordsBefore;
    WordsAre(types, i);
    if !Wide(types[i]) {
      WidenedNumber(true, params[i], 4);
      WidenedWord(true, params[i]);
    }
  }

  /** Which parameters are garbled: 8-byte ones wholly in registers whose low word is negative, unless
      the high word is all ones. */
  lemma GarbledIs(types: seq<CType>, i: nat, param: Bytes)
    requires i < |types| && |param| == Mem(SPARC, types[i])
    ensures Garbled(types, i, param) <==>
            && (types[i] == ExtraLong || types[i] == Double) && WordsBefore(types, i) + 2 <= 6
            && param[4] & 0x80 != 0 && param[..4] != [0xFF, 0xFF, 0xFF, 0xFF]
  {
    WordsAre(types, i + 1);
  }

  /** The room of a parameter on the stack, and its bytes there; register parameters have room too. */
  lemma StackInNumbers(types: seq<CType>, regs: seq<bool>, params: seq<Bytes>, stack: Bytes, i: nat, at: nat, room: nat)
    requires |regs| == |types| && i < |types| && Fitting(SPARC, types, params)
    requires OnStack(SPARC, types, regs, params, stack, |types|)
    requires at == Position(SPARC, types, regs, i)
    requires room == if types[i] == ExtraLong || types[i] == Double then 8 else 4
    ensures (i == 0 ==> at == 0) && Position(SPARC, types, regs, i + 1) == at + room
    ensures !regs[i] ==>
              && |params[i]| <= room && at + room <= |stack|
              && forall k :: at <= k < at + room ==>
                   stack[k] == if k - at < room - |params[i]| then 0 else params[i][k - at - (room - |params[i]|)]
  {
    hide OnStack, Fitting;
    if !regs[i] {
      StackBytes(SPARC, types, regs, params, stack, i, at, room);
    }
  }

  lemma NowInRegisters(types: seq<CType>, params: seq<Bytes>, file: seq<Word>, i: nat)
    requires |file| == REGISTERS && i < |types| && Fitting(SPARC, types, params) && Words(types, i) < REGISTERS
    ensures InRegisters(types, params, Loaded(file, Words(types, i), params[i], types[i]), i)
  {
  }

  lemma StillInRegisters(types: seq<CType>, params: seq<Bytes>, file: seq<Word>, i: nat, j: nat)
    requires |file| == REGISTERS && j < i < |types| && Fitting(SPARC, types, params) && Words(types, i) < REGISTERS
    requires InRegisters(types, params, file, j)
    ensures InRegisters(types, params, Loaded(file, Words(types, i), params[i], types[i]), j)
  {
    hide Widened, Fitting, Mem;
    WordsMono(types, j + 1, i);
  }

  /** `arch_set_register_parms`: every parameter ends up in its own registers and no later one
      disturbs them; registers past the last parameter keep their contents. */
  method SetRegisterParms(file: array<Word>, params: seq<Bytes>, types: seq<CType>)
    requires file.Length == REGISTERS && Fitting(SPARC, types, params)
    modifies file
    ensures forall i :: 0 <= i < |types| ==> InRegisters(types, params, file[..], i)
    ensures forall r :: Words(types, |types|) <= r < REGISTERS ==> file[r] == old(file[r])
    ensures forall i :: 0 <= i < |types| ==> Arrived(types, params, file[..], i)
    ensures forall r :: WordsBefore(types, |types|) <= r < 6 ==> file[r] == old(file[r])
  {
    hide Arrived;
    var num, i := 0, 0;
    while i < |types|
      invariant 0 <= i <= |types|
      invariant if Words(types, i) < REGISTERS then num == Words(types, i) else num >= REGISTERS
      invariant forall j :: 0 <= j < i ==> InRegisters(types, params, file[..], j)
      invariant forall r :: Words(types, i) <= r < REGISTERS ==> file[r] == old(file[r])
    {
      if num < REGISTERS {
        ghost var before := file[..];
        SetParm(file, num, params[i], types[i]);
        forall j | 0 <= j < i ensures InRegisters(types, params, file[..], j) {
          StillInRegisters(types, params, before, i, j);
        }
        NowInRegisters(types, params, before, i);
        num := num + (if Wide(types[i]) then 2 else 1);
      }
      i := i + 1;
    }
    WordsAre(types, |types|);
    forall i | 0 <= i < |types| ensures Arrived(types, params, file[..], i) {
      HasArrived(types, params, file[..], i);
    }
  }

  /** What `get_parm` leaves in the buffer `po`: the straddling case keeps the low word that the
      frame read put there. */
  function Fetched(file: seq<Word>, index: nat, t: CType, po: Bytes): (r: Bytes)
    requires |file| == REGISTERS && index < REGISTERS
    requires |po| == Mem(SPARC, t)
    ensures |r| == |po|
  {
    if !Wide(t) then Narrowed(true, file[index], Mem(SPARC, t))
    else if index < REGISTERS - 1 then Spilled(true, file[index], file[index + 1])
    else Joined(true, file[index], po[4..])
  }

  /** The buffer of parameter `i` after the register read. */
  function Got(types: seq<CType>, file: seq<Word>, po: Bytes, i: nat): Bytes
    requires |file| == REGISTERS && i < |types| && |po| == Mem(SPARC, types[i])
  {
    if Words(types, i) < REGISTERS then Fetched(file, Words(types, i), types[i], po) else po
  }

  /** `arch_get_register_parms`. */
  method GetRegisterParms(file: seq<Word>, out: array<Bytes>, types: seq<CType>)
    requires |file| == REGISTERS && Fitting(SPARC, types, out[..])
    modifies out
    ensures forall i :: 0 <= i < |types| ==> out[i] == Got(types, file, old(out[i]), i)
  {
    hide Fetched, Position, Len;
    var num, i := 0, 0;
    while i < |types|
      invariant 0 <= i <= |types|
      invariant if Words(types, i) < REGISTERS then num == Words(types, i) else num >= REGISTERS
      invariant forall j :: 0 <= j < i ==> out[j] == Got(types, file, old(out[j]), j)
      invariant forall j :: i <= j < |types| ==> out[j] == old(out[j])
    {
      if num < REGISTERS {
        out[i] := Fetched(file, num, types[i], out[i]);
        num := num + (if Wide(types[i]) then 2 else 1);
      }
      i := i + 1;
    }
  }

  /** An 8-byte parameter that lies in two registers and whose low word spills over the high one. */
  ghost predicate Garbled(types: seq<CType>, i: nat, param: Bytes)
    requires i < |types| && |param| == Mem(SPARC, types[i])
  {
    Wide(types[i]) && IsReg(types, i) && !SpillsHarmlessly(true, param[..4], param[4..])
  }

  /** Every parameter comes back: a register parameter from its registers, a stack parameter from
      the stack, a straddling one from both.  The one exception is a garbled one. */
  lemma Delivered(types: seq<CType>, params: seq<Bytes>, file: seq<Word>, po: Bytes, i: nat)
    requires |file| == REGISTERS && i < |types| && Fitting(SPARC, types, params) && |po| == |params[i]|
    requires InRegisters(types, params, file, i)
    requires !IsReg(types, i) ==> po == params[i]
    ensures Got(types, file, po, i) == params[i] <==> !Garbled(types, i, params[i])
  {
    var p := params[i];
    if Wide(types[i]) {
      SpillExact(true, p[..4], p[4..]);
      assert p[..4] + p[4..] == p;
    }
  }

  /** A whole call: `invoke` marshals into registers and stack, and the thunk reads both back. */
  method CallThrough(types: seq<CType>, params: seq<Bytes>, file: array<Word>, buffers: seq<Bytes>)
    returns (regs: seq<bool>, ok: bool, out: array<Bytes>)
    requires Fitting(SPARC, types, params) && Fitting(SPARC, types, buffers) && file.Length == REGISTERS
    modifies file
    ensures Classified(types, regs) && (ok <==> Position(SPARC, types, regs, |types|) <= 0x7FFF)
    ensures ok ==> out.Length == |types|
    ensures ok ==> forall i :: 0 <= i < |types| ==> (out[i] == params[i] <==> !Garbled(types, i, params[i]))
  {
    hide Position, InRegisters, OnStack, Got, Garbled;
    out := new Bytes[0];
    regs := Classify(types);
    var stacksize;
    ok, stacksize := ComputeStackSize(SPARC, types, regs);
    if !ok {
      return;
    }
    SetRegisterParms(file, params, types);
    var stack := new bv8[stacksize];
    PutStack(SPARC, types, regs, params, stack);
    var read := ReadFrame(SPARC, types, regs, stack[..], buffers);
    out := new Bytes[|types|](i requires 0 <= i < |types| => read[i]);
    forall i | 0 <= i < |types| ensures |read[i]| == |params[i]| && (!IsReg(types, i) ==> read[i] == params[i]) {
      if !regs[i] {
        StackDelivers(SPARC, types, regs, params, stack[..], buffers, i);
      }
    }
    GetRegisterParms(file[..], out, types);
    forall i | 0 <= i < |types| ensures out[i] == params[i] <==> !Garbled(types, i, params[i]) {
      Delivered(types, params, file[..], read[i], i);
    }
  }
}
