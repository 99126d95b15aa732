/** `lib/cinvoke.c`: the stack side of a call and of a callback, for every port. */
module Calls {
  import opened CTypes
  import opened Memory

  /** What the port headers fix: ARCH_BIG_ENDIAN and ARCH_REGPARMS_IN_STACKSIZE. */
  datatype Port = Port(arch: Arch, bigEndian: bool, regParmsInStack: bool)

  function Len(p: Port, t: CType): nat {
    StackSize(p.arch, t)
  }

  function Mem(p: Port, t: CType): nat {
    MemSize(p.arch, t)
  }

  /** Whether a parameter takes room on the stack. */
  predicate Counted(p: Port, isReg: bool) {
    p.regParmsInStack || !isReg
  }

  /** The byte position of parameter `n`: the room all earlier ones take. */
  function Position(p: Port, types: seq<CType>, regs: seq<bool>, n: nat): nat
    requires |regs| == |types| && n <= |types|
  {
    if n == 0 then 0
    else Position(p, types, regs, n - 1) + (if Counted(p, regs[n - 1]) then Len(p, types[n - 1]) else 0)
  }

  lemma {:induction false} PositionMono(p: Port, types: seq<CType>, regs: seq<bool>, m: nat, n: nat)
    requires |regs| == |types| && m <= n <= |types|
    ensures Position(p, types, regs, m) <= Position(p, types, regs, n)
    decreases n
  {
    if m < n {
      PositionMono(p, types, regs, m, n - 1);
    }
  }

  /** A 16-bit signed store. */
  function ToShort(x: int): int {
    (x + 0x8000) % 0x1_0000 - 0x8000
  }

  /** The size loop of `cinv_function_create`, with its 16-bit counter: it fails exactly when the
      true byte sum does not fit, so the counter never wraps unnoticed. */
  method ComputeStackSize(p: Port, types: seq<CType>, regs: seq<bool>) returns (ok: bool, stacksize: int)
    requires |regs| == |types|
    ensures ok <==> Position(p, types, regs, |types|) <= 0x7FFF
    ensures ok ==> stacksize == Position(p, types, regs, |types|)
  {
    stacksize := 0;
    var index := 0;
    while index < |types|
      invariant 0 <= index <= |types|
      invariant stacksize == Position(p, types, regs, index) <= 0x7FFF
    {
      PositionMono(p, types, regs, index + 1, |types|);
      if !p.regParmsInStack && regs[index] {
        index := index + 1;
        continue;
      }
      stacksize := ToShort(stacksize + Len(p, types[index]));
      if stacksize < 0 {
        return false, stacksize;
      }
      index := index + 1;
    }
    ok := true;
  }

  // ----- the bytes of a call

  /** Every parameter buffer has its type's size. */
  predicate Fitting(p: Port, types: seq<CType>, params: seq<Bytes>) {
    |params| == |types| && forall i :: 0 <= i < |types| ==> |params[i]| == Mem(p, types[i])
  }

  /** A parameter as it lies on the stack: padded with zeros at the most significant end. */
  function Image(p: Port, t: CType, param: Bytes): (r: Bytes)
    requires |param| == Mem(p, t)
    ensures |r| == Len(p, t)
  {
    var pad := Zeros(Len(p, t) - Mem(p, t));
    if p.bigEndian then pad + param else param + pad
  }

  /** The stack holds the first `n` parameters that are not in registers. */
  ghost predicate OnStack(p: Port, types: seq<CType>, regs: seq<bool>, params: seq<Bytes>, stack: Bytes, n: nat)
    requires |regs| == |types| && n <= |types| && Fitting(p, types, params)
  {
    && Position(p, types, regs, n) <= |stack|
    && forall i :: 0 <= i < n && !regs[i] ==> Holds(p, types, regs, params, stack, i)
  }

  ghost predicate Holds(p: Port, types: seq<CType>, regs: seq<bool>, params: seq<Bytes>, stack: Bytes, i: nat)
    requires |regs| == |types| && i < |types| && Fitting(p, types, params)
  {
    var at := Position(p, types, regs, i);
    at + Len(p, types[i]) <= |stack| && stack[at..at + Len(p, types[i])] == Image(p, types[i], params[i])
  }

  lemma WriteTwice(stack: Bytes, at: nat, v: Bytes, w: Bytes)
    requires at + |v| + |w| <= |stack|
    ensures Write(Write(stack, at, v), at + |v|, w) == Write(stack, at, v + w)
  {
  }

  lemma WriteReads(stack: Bytes, at: nat, v: Bytes, from: nat, n: nat)
    requires at + |v| <= |stack| && from + n <= |stack|
    ensures Write(stack, at, v)[at..at + |v|] == v
    ensures from + n <= at ==> Write(stack, at, v)[from..from + n] == stack[from..from + n]
  {
  }

  /** Writing the next parameter past the earlier ones keeps them. */
  lemma OnStackNext(p: Port, types: seq<CType>, regs: seq<bool>, params: seq<Bytes>, stack: Bytes, n: nat)
    requires |regs| == |types| && n < |types| && Fitting(p, types, params)
    requires OnStack(p, types, regs, params, stack, n) && Position(p, types, regs, |types|) <= |stack|
    ensures regs[n] ==> OnStack(p, types, regs, params, stack, n + 1)
    ensures !regs[n] ==>
              var at := Position(p, types, regs, n);
              at + Len(p, types[n]) <= |stack|
              && OnStack(p, types, regs, params, Write(stack, at, Image(p, types[n], params[n])), n + 1)
  {
    PositionMono(p, types, regs, n + 1, |types|);
    if !regs[n] {
      var at, image := Position(p, types, regs, n), Image(p, types[n], params[n]);
      var stack' := Write(stack, at, image);
      WriteReads(stack, at, image, 0, 0);
      forall i | 0 <= i < n && !regs[i] ensures Holds(p, types, regs, params, stack', i) {
        PositionMono(p, types, regs, i + 1, n);
        assert Holds(p, types, regs, params, stack, i);
        WriteReads(stack, at, image, Position(p, types, regs, i), Len(p, types[i]));
      }
      assert Holds(p, types, regs, params, stack', n);
    }
  }

  /** The stack-copy loop of `cinv_function_invoke`: all writes stay within the stack size, and
      every parameter that is not in a register ends up at its position. */
  method PutStack(p: Port, types: seq<CType>, regs: seq<bool>, params: seq<Bytes>, stack: array<bv8>)
    requires |regs| == |types| && Fitting(p, types, params)
    requires stack.Length == Position(p, types, regs, |types|)
    modifies stack
    ensures OnStack(p, types, regs, params, stack[..], |types|)
  {
    hide Write, Image;
    var stackptr, i := 0, 0;
    while i < |types|
      invariant 0 <= i <= |types| && stackptr == Position(p, types, regs, i)
      invariant OnStack(p, types, regs, params, stack[..], i)
    {
      OnStackNext(p, types, regs, params, stack[..], i);
      if !regs[i] {
        stackptr := PutParam(p, types[i], params[i], stack, stackptr);
      } else if p.regParmsInStack {
        stackptr := stackptr + Len(p, types[i]);
      }
      i := i + 1;
    }
  }

  /** One parameter: padding and value, in the port's byte order. */
  method PutParam(p: Port, t: CType, param: Bytes, stack: array<bv8>, at: nat) returns (end: nat)
    requires |param| == Mem(p, t) && at + Len(p, t) <= stack.Length
    modifies stack
    ensures end == at + Len(p, t) && stack[..] == Write(old(stack[..]), at, Image(p, t, param))
  {
    hide Write;
    var diff := Len(p, t) - Mem(p, t);
    if p.bigEndian {
      WriteTwice(stack[..], at, Zeros(diff), param);
      end := Put(stack, at, Zeros(diff));
      end := Put(stack, end, param);
    } else {
      WriteTwice(stack[..], at, param, Zeros(diff));
      end := Put(stack, at, param);
      end := Put(stack, end, Zeros(diff));
    }
  }

  /** What the thunk reads for parameter `i`; a register parameter keeps its fresh buffer. */
  ghost function FrameRead(p: Port, types: seq<CType>, regs: seq<bool>, stack: Bytes, buffers: seq<Bytes>, i: nat): Bytes
    requires |regs| == |types| && |buffers| == |types| && i < |types|
    requires Position(p, types, regs, |types|) <= |stack|
  {
    PositionMono(p, types, regs, i + 1, |types|);
    if regs[i] then buffers[i]
    else
      var at := Position(p, types, regs, i) + (if p.bigEndian then Len(p, types[i]) - Mem(p, types[i]) else 0);
      stack[at..at + Mem(p, types[i])]
  }

  /** The frame-read loop of `cinv_cbthunk`, into buffers whose initial contents do not matter. */
  method ReadFrame(p: Port, types: seq<CType>, regs: seq<bool>, stack: Bytes, buffers: seq<Bytes>) returns (out: seq<Bytes>)
    requires |regs| == |types| && Fitting(p, types, buffers)
    requires Position(p, types, regs, |types|) <= |stack|
    ensures |out| == |types|
    ensures forall i :: 0 <= i < |types| ==> out[i] == FrameRead(p, types, regs, stack, buffers, i)
  {
    out := [];
    var frameptr, i := 0, 0;
    while i < |types|
      invariant 0 <= i <= |types| && frameptr == Position(p, types, regs, i) && |out| == i
      invariant forall j :: 0 <= j < i ==> out[j] == FrameRead(p, types, regs, stack, buffers, j)
    {
      PositionMono(p, types, regs, i + 1, |types|);
      var memsize, stacksize := Mem(p, types[i]), Len(p, types[i]);
      var diff := stacksize - memsize;
      if regs[i] {
        out := out + [buffers[i]];
        if p.regParmsInStack {
          frameptr := frameptr + stacksize;
        }
      } else if p.bigEndian {
        frameptr := frameptr + diff;
        out := out + [stack[frameptr..frameptr + memsize]];
        frameptr := frameptr + memsize;
      } else {
        out := out + [stack[frameptr..frameptr + memsize]];
        frameptr := frameptr + stacksize;
      }
      i := i + 1;
    }
  }

  /** What `invoke` put on the stack is what the thunk reads there, on every prototype, for both
      byte orders and whether or not register parameters are counted. */
  lemma StackDelivers(p: Port, types: seq<CType>, regs: seq<bool>, params: seq<Bytes>, stack: Bytes, buffers: seq<Bytes>, i: nat)
    requires |regs| == |types| && |buffers| == |types| && i < |types| && Fitting(p, types, params)
    requires OnStack(p, types, regs, params, stack, |types|) && !regs[i]
    ensures FrameRead(p, types, regs, stack, buffers, i) == params[i]
  {
    assert Holds(p, types, regs, params, stack, i);
    var at, len, mem := Position(p, types, regs, i), Len(p, types[i]), Mem(p, types[i]);
    var image := Image(p, types[i], params[i]);
    var skip := if p.bigEndian then len - mem else 0;
    assert stack[at..at + len][skip..skip + mem] == stack[at + skip..at + skip + mem];
    assert image[skip..skip + mem] == params[i];
  }

  // ----- the same in numbers

  /** How many of the first `n` types are floating. */
  function FloatsBefore(types: seq<CType>, n: nat): nat
    requires n <= |types|
  {
    if n == 0 then 0
    else FloatsBefore(types, n - 1) + (if types[n - 1] == Float || types[n - 1] == Double then 1 else 0)
  }

  /** How many 4-byte words the first `n` types take. */
  function WordsBefore(types: seq<CType>, n: nat): nat
    requires n <= |types|
  {
    if n == 0 then 0
    else WordsBefore(types, n - 1) + (if types[n - 1] == ExtraLong || types[n - 1] == Double then 2 else 1)
  }

  /** Every byte of a parameter's room on the stack: the value, and zeros at its other end. */
  lemma StackBytes(p: Port, types: seq<CType>, regs: seq<bool>, params: seq<Bytes>, stack: Bytes, i: nat, at: nat, len: nat)
    requires |regs| == |types| && i < |types| && Fitting(p, types, params)
    requires OnStack(p, types, regs, params, stack, |types|) && !regs[i]
    requires at == Position(p, types, regs, i) && len == Len(p, types[i])
    ensures |params[i]| <= len && at + len <= |stack|
    ensures forall k :: at <= k < at + len ==> stack[k] == RoomByte(p.bigEndian, len, params[i], k - at)
  {
    hide Position, Image, OnStack, Len, Mem, RoomByte;
    HoldsAt(p, types, regs, params, stack, i);
    ImageBytes(p, types[i], params[i]);
    forall k | at <= k < at + len ensures stack[k] == RoomByte(p.bigEndian, len, params[i], k - at) {
      assert stack[k] == stack[at..at + len][k - at];
    }
  }

  /** Byte `k` of a room of `len` bytes that holds `v`: zeros before it, or behind it. */
  function RoomByte(bigEndian: bool, len: nat, v: Bytes, k: nat): bv8
    requires |v| <= len && k < len
  {
    if bigEndian then if k < len - |v| then 0 else v[k - (len - |v|)]
    else if k < |v| then v[k] else 0
  }

  lemma HoldsAt(p: Port, types: seq<CType>, regs: seq<bool>, params: seq<Bytes>, stack: Bytes, i: nat)
    requires |regs| == |types| && i < |types| && Fitting(p, types, params)
    requires OnStack(p, types, regs, params, stack, |types|) && !regs[i]
    ensures |params[i]| == Mem(p, types[i])
    ensures var at := Position(p, types, regs, i);
            at + Len(p, types[i]) <= |stack| && stack[at..at + Len(p, types[i])] == Image(p, types[i], params[i])
  {
    assert Holds(p, types, regs, params, stack, i);
  }

  lemma ImageBytes(p: Port, t: CType, param: Bytes)
    requires |param| == Mem(p, t)
    ensures |param| <= Len(p, t) == |Image(p, t, param)|
    ensures forall k :: 0 <= k < Len(p, t) ==> Image(p, t, param)[k] == RoomByte(p.bigEndian, Len(p, t), param, k)
  {
  }
}
