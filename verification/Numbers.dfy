/** Machine words as numbers: what C's conversion to a wider signed type stores. */
module Numbers {
  import opened Memory

  function Pow256(n: nat): (p: nat)
    ensures p > 0
  {
    if n == 0 then 1 else 256 * Pow256(n - 1)
  }

  /** The number that bytes in memory stand for, unsigned. */
  function Unsigned(bigEndian: bool, b: Bytes): nat {
    if b == [] then 0
    else if bigEndian then 256 * Unsigned(true, b[..|b| - 1]) + b[|b| - 1] as nat
    else b[0] as nat + 256 * Unsigned(false, b[1..])
  }

  /** The same in two's complement. */
  function Signed(bigEndian: bool, b: Bytes): int {
    var u := Unsigned(bigEndian, b);
    if 2 * u < Pow256(|b|) then u else u - Pow256(|b|)
  }

  lemma {:induction false} Pow256Add(m: nat, n: nat)
    ensures Pow256(m + n) == Pow256(m) * Pow256(n)
  {
    if m > 0 {
      Pow256Add(m - 1, n);
    }
  }

  lemma Regroup(p: nat, u: nat)
    ensures 256 * (p * u) == (256 * p) * u
  {
  }

  lemma NoBytes(bigEndian: bool)
    ensures Unsigned(bigEndian, []) == 0
  {
  }

  lemma LastByte(b: Bytes)
    requires b != []
    ensures Unsigned(true, b) == 256 * Unsigned(true, b[..|b| - 1]) + b[|b| - 1] as nat
  {
  }

  /** More significant bytes on a little-endian machine. */
  lemma {:induction false} HigherBytes(b: Bytes, c: Bytes)
    ensures Unsigned(false, b + c) == Unsigned(false, b) + Pow256(|b|) * Unsigned(false, c)
  {
    if b == [] {
      assert b + c == c;
    } else {
      HigherBytes(b[1..], c);
      assert (b + c)[1..] == b[1..] + c;
      Regroup(Pow256(|b| - 1), Unsigned(false, c));
    }
  }

  /** More significant bytes on a big-endian machine. */
  lemma {:induction false} LeadingBytes(c: Bytes, b: Bytes)
    ensures Unsigned(true, c + b) == Pow256(|b|) * Unsigned(true, c) + Unsigned(true, b)
  {
    hide Unsigned;
    NoBytes(true);
    if b == [] {
      assert c + b == c;
    } else {
      var n := |b| - 1;
      LeadingBytes(c, b[..n]);
      LastByte(c + b);
      LastByte(b);
      assert (c + b)[..|c + b| - 1] == c + b[..n] && (c + b)[|c + b| - 1] == b[n];
      Regroup(Pow256(n), Unsigned(true, c));
    }
  }

  lemma {:induction false} Below(bigEndian: bool, b: Bytes)
    ensures Unsigned(bigEndian, b) < Pow256(|b|)
  {
    if b != [] {
      Below(bigEndian, if bigEndian then b[..|b| - 1] else b[1..]);
    }
  }

  lemma {:induction false} Filled(bigEndian: bool, n: nat, f: bv8)
    ensures f == 0 ==> Unsigned(bigEndian, Fill(n, f)) == 0
    ensures f == 0xFF ==> Unsigned(bigEndian, Fill(n, f)) == Pow256(n) - 1
  {
    if n > 0 {
      assert Fill(n, f)[..n - 1] == Fill(n - 1, f) && Fill(n, f)[1..] == Fill(n - 1, f);
      Filled(bigEndian, n - 1, f);
    }
  }

  lemma TopBit(b: bv8)
    ensures b & 0x80 == 0 <==> b as nat < 128
  {
  }

  /** The top bit tells which half a number is in. */
  lemma HalfByTop(bigEndian: bool, b: Bytes)
    requires b != []
    ensures 2 * Unsigned(bigEndian, b) < Pow256(|b|) <==> TopByte(bigEndian, b) & 0x80 == 0
  {
    var n := |b| - 1;
    TopBit(TopByte(bigEndian, b));
    if bigEndian {
      assert b == b[..1] + b[1..];
      LeadingBytes(b[..1], b[1..]);
      Below(true, b[1..]);
      OneByte(true, b[0]);
      assert b[..1] == [b[0]];
      Halves(Pow256(n), b[0] as nat, Unsigned(true, b[1..]));
    } else {
      assert b == b[..n] + b[n..];
      HigherBytes(b[..n], b[n..]);
      Below(false, b[..n]);
      OneByte(false, b[n]);
      assert b[n..] == [b[n]];
      Halves(Pow256(n), b[n] as nat, Unsigned(false, b[..n]));
    }
  }

  lemma OneByte(bigEndian: bool, x: bv8)
    ensures Unsigned(bigEndian, [x]) == x as nat
  {
    assert [x][..0] == [] && [x][1..] == [];
  }

  lemma Halves(p: nat, top: nat, low: nat)
    requires low < p && top < 256
    ensures 2 * (p * top + low) < 256 * p <==> top < 128
  {
    if top < 128 {
      assert p * top <= p * 127;
    } else {
      assert p * top >= p * 128;
    }
  }

  /** Widening a signed value keeps its number, in either byte order. */
  lemma WidenedNumber(bigEndian: bool, b: Bytes, n: nat)
    requires 0 < |b| <= n
    ensures Signed(bigEndian, Widened(bigEndian, b, n)) == Signed(bigEndian, b)
  {
    var k, f := n - |b|, SignFill(TopByte(bigEndian, b));
    var r := Widened(bigEndian, b, n);
    HalfByTop(bigEndian, b);
    Below(bigEndian, b);
    Filled(bigEndian, k, f);
    Pow256Add(|b|, k);
    if bigEndian {
      LeadingBytes(Fill(k, f), b);
    } else {
      HigherBytes(b, Fill(k, f));
    }
    var u, p, q := Unsigned(bigEndian, b), Pow256(|b|), Pow256(k);
    assert Unsigned(bigEndian, r) == u + p * Unsigned(bigEndian, Fill(k, f));
    assert Pow256(n) == p * q;
    WideHalf(u, p, q, f == 0);
  }

  lemma WideHalf(u: nat, p: nat, q: nat, small: bool)
    requires u < p && q > 0 && (small <==> 2 * u < p)
    ensures small ==> 2 * (u + p * 0) < p * q
    ensures !small ==> 2 * (u + p * (q - 1)) >= p * q && u + p * (q - 1) - p * q == u - p
  {
    assert p * q >= p;
    assert p * (q - 1) == p * q - p;
  }

  /** A value of a word's size is loaded as it is. */
  lemma WidenedWord(bigEndian: bool, b: Bytes)
    requires |b| > 0
    ensures Widened(bigEndian, b, |b|) == b
  {
  }
}
