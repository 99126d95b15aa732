/** A result that may be missing: the library's null returns and failed calls. */
module Options {
  datatype Option<T> = None | Some(value: T)
}

/** Raw memory: byte buffers, and machine words as the bytes they are stored in. */
module Memory {
  type Bytes = seq<bv8>

  /** A 32-bit and a 64-bit machine word, as they are laid out in memory. */
  type Word = w: Bytes | |w| == 4 witness [0, 0, 0, 0]
  type Quad = w: Bytes | |w| == 8 witness [0, 0, 0, 0, 0, 0, 0, 0]

  function Zeros(n: nat): (z: Bytes)
    ensures |z| == n && forall i :: 0 <= i < n ==> z[i] == 0
  {
    seq(n, _ => 0)
  }

  /** `m` after `v` is copied to offset `at`. */
  function Write(m: Bytes, at: nat, v: Bytes): (r: Bytes)
    requires at + |v| <= |m|
    ensures |r| == |m|
  {
    m[..at] + v + m[at + |v|..]
  }

  /** memcpy and its macro forms: the bytes of `v` one after the other. */
  method Put(stack: array<bv8>, at: nat, v: Bytes) returns (end: nat)
    requires at + |v| <= stack.Length
    modifies stack
    ensures end == at + |v| && stack[..] == Write(old(stack[..]), at, v)
  {
    var i := 0;
    while i < |v|
      invariant 0 <= i <= |v| && stack[..] == Write(old(stack[..]), at, v[..i])
    {
      stack[at + i] := v[i];
      i := i + 1;
    }
    assert v[..i] == v;
    end := at + i;
  }

  /** The byte C fills the upper half of a widened signed value with. */
  function SignFill(top: bv8): (f: bv8)
    ensures f == 0 || f == 0xFF
    ensures f == 0 <==> top & 0x80 == 0
  {
    if top & 0x80 == 0 then 0 else 0xFF
  }

  function Fill(n: nat, b: bv8): (z: Bytes)
    ensures |z| == n
  {
    seq(n, _ => b)
  }

  /** A signed value widened to `n` bytes; the top byte comes first on a big-endian machine. */
  function Widened(bigEndian: bool, b: Bytes, n: nat): (r: Bytes)
    requires 0 < |b| <= n
    ensures |r| == n && Narrowed(bigEndian, r, |b|) == b
  {
    if bigEndian then Fill(n - |b|, SignFill(b[0])) + b
    else b + Fill(n - |b|, SignFill(b[|b| - 1]))
  }

  /** The low `n` bytes of a word: C's conversion to a narrower integer. */
  function Narrowed(bigEndian: bool, w: Bytes, n: nat): (r: Bytes)
    requires n <= |w|
    ensures |r| == n
  {
    if bigEndian then w[|w| - n..] else w[..n]
  }

  function OrAll(w: Bytes, b: bv8): (r: Bytes)
    ensures |r| == |w| && forall i :: 0 <= i < |w| ==> r[i] == w[i] | b
  {
    seq(|w|, i requires 0 <= i < |w| => w[i] | b)
  }

  /** The byte holding the top bit of a word. */
  function TopByte(bigEndian: bool, w: Bytes): bv8
    requires |w| > 0
  {
    if bigEndian then w[0] else w[|w| - 1]
  }

  /** Two words laid side by side as one 8-byte value. */
  function Joined(bigEndian: bool, hi: Bytes, lo: Bytes): (r: Bytes)
    ensures |r| == |hi| + |lo|
  {
    if bigEndian then hi + lo else lo + hi
  }

  /** `hi << 32 | lo` in C when `lo` is a signed word: it is widened first, and its sign bits spill
      over the high word. */
  function Spilled(bigEndian: bool, hi: Bytes, lo: Bytes): (r: Bytes)
    requires |lo| > 0
    ensures |r| == |hi| + |lo|
  {
    Joined(bigEndian, OrAll(hi, SignFill(TopByte(bigEndian, lo))), lo)
  }

  /** The low word's top bit is clear, or the high word is all ones. */
  ghost predicate SpillsHarmlessly(bigEndian: bool, hi: Bytes, lo: Bytes)
    requires |lo| > 0
  {
    TopByte(bigEndian, lo) & 0x80 == 0 || forall i :: 0 <= i < |hi| ==> hi[i] == 0xFF
  }

  /** The two words are recombined exactly when the spill changes nothing. */
  lemma SpillExact(bigEndian: bool, hi: Bytes, lo: Bytes)
    requires |lo| > 0
    ensures Spilled(bigEndian, hi, lo) == Joined(bigEndian, hi, lo) <==> SpillsHarmlessly(bigEndian, hi, lo)
  {
    var fill := SignFill(TopByte(bigEndian, lo));
    var got := OrAll(hi, fill);
    forall i | 0 <= i < |hi| ensures got[i] == if fill == 0 then hi[i] else 0xFF {
      OrFill(hi[i]);
    }
    assert got == hi <==> forall i :: 0 <= i < |hi| ==> got[i] == hi[i];
    JoinedHalves(bigEndian, got, lo);
    JoinedHalves(bigEndian, hi, lo);
  }

  lemma OrFill(b: bv8)
    ensures b | 0 == b && b | 0xFF == 0xFF
  {
  }

  /** Both words can be read back from their join. */
  lemma JoinedHalves(bigEndian: bool, hi: Bytes, lo: Bytes)
    ensures var w := Joined(bigEndian, hi, lo);
            if bigEndian then w[..|hi|] == hi && w[|hi|..] == lo else w[..|lo|] == lo && w[|lo|..] == hi
  {
  }
}
