/** `pointerhelper.c`: tagged pointers and their text, `address^tag`. */
module PointerText {
  import opened Options
  import opened Definitions

  /** Width of an address: 8 hexadecimal digits on 32-bit platforms, 16 on 64-bit ones. */
  datatype Width = W32 | W64

  function Digits(w: Width): nat {
    if w.W32? then 8 else 16
  }

  function Pow16(d: nat): (p: nat)
    ensures p > 0
  {
    if d == 0 then 1 else 16 * Pow16(d - 1)
  }

  /** One more than the largest address. */
  function Limit(w: Width): nat {
    Pow16(Digits(w))
  }

  /** The internal representation: an address and a tag object, which may be missing. */
  datatype Pointer = Pointer(address: nat, tag: Option<string>)

  // ----- printing

  function HexDigit(n: nat): (c: char)
    requires n < 16
    ensures IsHex(c) && c != '^' && DigitValue(c) == n
  {
    if n < 10 then ('0' as int + n) as char else ('a' as int + n - 10) as char
  }

  predicate IsHex(c: char) {
    '0' <= c <= '9' || 'a' <= c <= 'f' || 'A' <= c <= 'F'
  }

  function DigitValue(c: char): (v: nat)
    requires IsHex(c)
    ensures v < 16
  {
    if c <= '9' then (c - '0') as nat
    else if c <= 'F' then (c - 'A') as nat + 10
    else (c - 'a') as nat + 10
  }

  /** The last `d` hexadecimal digits of `n`. */
  function Hex(n: nat, d: nat): (s: string)
    ensures |s| == d && forall i :: 0 <= i < d ==> IsHex(s[i]) && s[i] != '^'
  {
    if d == 0 then "" else Hex(n / 16, d - 1) + [HexDigit(n % 16)]
  }

  /** `TclhPrintAddress`. */
  function PrintAddress(w: Width, address: nat): string {
    "0x" + Hex(address, Digits(w))
  }

  function TagText(tag: Option<string>): string {
    if tag.None? then "" else tag.value
  }

  /** `UpdatePointerTypeString`. */
  function Print(w: Width, p: Pointer): string {
    PrintAddress(w, p.address) + "^" + TagText(p.tag)
  }

  // ----- parsing

  function SkipSpace(s: string): string {
    if s != "" && IsSpace(s[0]) then SkipSpace(s[1..]) else s
  }

  /** How many leading characters are digits of the base. */
  function Span(s: string, hex: bool): (n: nat)
    ensures n <= |s|
    ensures forall i :: 0 <= i < n ==> IsHex(s[i])
    ensures !hex ==> forall i :: 0 <= i < n ==> '0' <= s[i] <= '9'
    ensures n < |s| ==> !(if hex then IsHex(s[n]) else '0' <= s[n] <= '9')
  {
    if s != "" && (if hex then IsHex(s[0]) else '0' <= s[0] <= '9') then 1 + Span(s[1..], hex) else 0
  }

  function Number(s: string, base: nat): nat
    requires forall i :: 0 <= i < |s| ==> IsHex(s[i])
  {
    if s == "" then 0 else base * Number(s[..|s| - 1], base) + DigitValue(s[|s| - 1])
  }

  /** `%llx` and `%llu` (`%x` and `%u` on 32-bit platforms): blanks, a sign, an optional `0x` before
      hexadecimal digits, and the digits; too large a number saturates. */
  function Scan(w: Width, s: string, hex: bool): (r: Option<nat>)
    ensures r.Some? ==> r.value < Limit(w)
  {
    var t := SkipSpace(s);
    var negative := t != "" && t[0] == '-';
    var u := if t != "" && (t[0] == '-' || t[0] == '+') then t[1..] else t;
    var v := if hex && |u| > 2 && u[0] == '0' && (u[1] == 'x' || u[1] == 'X') && IsHex(u[2]) then u[2..] else u;
    var n := Span(v, hex);
    if n == 0 then None
    else
      var value := Number(v[..n], if hex then 16 else 10);
      Some(if value >= Limit(w) then Limit(w) - 1
           else if negative && value > 0 then Limit(w) - value
           else value)
  }

  /** The text after the first `^`, if there is one. */
  function AfterCaret(s: string): Option<string> {
    if s == "" then None
    else if s[0] == '^' then Some(s[1..])
    else AfterCaret(s[1..])
  }

  /** The address: `0x` and a hexadecimal number, or else a decimal number. */
  function ScanAddress(w: Width, s: string): (r: Option<nat>)
    ensures r.Some? ==> r.value < Limit(w)
  {
    var first := if "0x" <= s then Scan(w, s[2..], true) else None;
    if first.Some? then first else Scan(w, s, false)
  }

  /** `SetPointerFromAny`; None is an error return. */
  function Parse(w: Width, s: string): (r: Option<Pointer>)
    ensures r.Some? ==> r.value.address < Limit(w)
  {
    match ScanAddress(w, s)
    case Some(a) => Some(Pointer(a, Some(TagText(AfterCaret(s)))))
    case None => if s == "NULL" then Some(Pointer(0, None)) else None
  }

  // ----- round trips

  lemma {:induction false} HexReads(n: nat, d: nat)
    requires n < Pow16(d)
    ensures Number(Hex(n, d), 16) == n
  {
    if d > 0 {
      HexReads(n / 16, d - 1);
      assert Hex(n, d)[..d - 1] == Hex(n / 16, d - 1);
    }
  }

  lemma {:induction false} SpanStops(s: string, n: nat)
    requires n <= |s| && forall i :: 0 <= i < n ==> IsHex(s[i])
    requires n < |s| ==> !IsHex(s[n])
    ensures Span(s, true) == n
  {
    if n > 0 {
      SpanStops(s[1..], n - 1);
    }
  }

  lemma {:induction false} FirstCaret(s: string, tag: string)
    requires forall i :: 0 <= i < |s| ==> s[i] != '^'
    ensures AfterCaret(s + "^" + tag) == Some(tag)
  {
    if s != "" {
      FirstCaret(s[1..], tag);
      assert (s + "^" + tag)[1..] == s[1..] + "^" + tag;
    } else {
      assert (s + "^" + tag)[1..] == tag;
    }
  }

  /** A printed pointer reads back with the same address and tag, whatever the tag's text; only a
      missing tag comes back as an empty one. */
  lemma PrintParses(w: Width, p: Pointer)
    requires p.address < Limit(w)
    ensures Parse(w, Print(w, p)) == Some(Pointer(p.address, Some(TagText(p.tag))))
  {
    hide Pow16, Hex;
    var hex, tag := Hex(p.address, Digits(w)), TagText(p.tag);
    var s := Print(w, p);
    assert s == ("0x" + hex) + "^" + tag && s[2..] == hex + "^" + tag;
    var t := s[2..];
    HexReads(p.address, Digits(w));
    SpanStops(t, |hex|);
    assert t[..|hex|] == hex;
    assert IsHex(t[0]) && IsHex(t[1]);
    assert SkipSpace(t) == t;
    assert Scan(w, t, true) == Some(p.address);
    FirstCaret("0x" + hex, tag);
  }

  /** Two pointers with the same text. */
  predicate SameText(p: Pointer, q: Pointer) {
    p.address == q.address && TagText(p.tag) == TagText(q.tag)
  }

  /** Printing after parsing settles at once: the printed form of any accepted text reads as the
      same pointer and prints as itself. */
  lemma ParsePrints(w: Width, s: string)
    requires Parse(w, s).Some?
    ensures var t := Print(w, Parse(w, s).value);
            && Parse(w, t).Some? && SameText(Parse(w, t).value, Parse(w, s).value)
            && Print(w, Parse(w, t).value) == t
  {
    PrintParses(w, Parse(w, s).value);
  }

  /** Different pointers have different texts. */
  lemma PrintInjective(w: Width, p: Pointer, q: Pointer)
    requires p.address < Limit(w) && q.address < Limit(w)
    ensures Print(w, p) == Print(w, q) <==> SameText(p, q)
  {
    PrintParses(w, p);
    PrintParses(w, q);
  }

  // ----- the texts, character by character

  /** The first address that does not fit. */
  lemma Limits()
    ensures Limit(W32) == 0x1_0000_0000 && Limit(W64) == 0x1_0000_0000_0000_0000
  {
    assert Pow16(4) == 0x1_0000;
    assert Pow16(8) == 0x1_0000_0000;
    assert Pow16(12) == 0x1_0000_0000_0000;
  }

  lemma HexDigits(n: nat)
    requires n < 16
    ensures HexDigit(n) == "0123456789abcdef"[n]
    ensures DigitValue("0123456789abcdef"[n]) == n && DigitValue("0123456789ABCDEF"[n]) == n
  {
  }

  lemma Product(d: nat, k: nat)
    ensures d * k >= 0
  {
  }

  lemma Steps(d: nat, x: int, y: int)
    ensures x < y ==> d * x + d <= d * y
  {
    if x < y {
      Product(d, y - x - 1);
      assert d * y == d * x + d + d * (y - x - 1);
    }
  }

  lemma DivideTwice(n: nat, p: nat)
    requires p > 0
    ensures n / (16 * p) == n / 16 / p
  {
    var d, q, e := 16 * p, n / 16 / p, n / (16 * p);
    assert n / 16 == p * q + n / 16 % p;
    assert 16 * (p * q) == d * q;
    assert n == d * e + n % d;
    Steps(d, q, e);
    Steps(d, e, q);
  }

  lemma {:induction false} HexAt(n: nat, d: nat, i: nat)
    requires i < d
    ensures Hex(n, d)[i] == "0123456789abcdef"[n / Pow16(d - 1 - i) % 16]
  {
    HexDigits(n % 16);
    if i < d - 1 {
      HexAt(n / 16, d - 1, i);
      DivideTwice(n, Pow16(d - 2 - i));
    } else {
      assert Pow16(0) == 1;
    }
  }

  /** The printed form: `0x`, 8 or 16 lower-case hexadecimal digits with leading zeros, `^`, the tag. */
  lemma PrintIs(w: Width, p: Pointer) returns (digits: string)
    ensures Print(w, p) == "0x" + digits + "^" + (if p.tag == None then "" else p.tag.value)
    ensures |digits| == if w == W32 then 8 else 16
    ensures forall i :: 0 <= i < |digits| ==> digits[i] == "0123456789abcdef"[p.address / Pow16(|digits| - 1 - i) % 16]
  {
    hide Hex, Pow16;
    digits := Hex(p.address, Digits(w));
    forall i | 0 <= i < |digits| ensures digits[i] == "0123456789abcdef"[p.address / Pow16(|digits| - 1 - i) % 16] {
      HexAt(p.address, |digits|, i);
    }
  }

  /** Blanks, perhaps a sign, and a decimal digit. */
  predicate StartsNumber(s: string) {
    if s == "" then false
    else if s[0] == ' ' || '\t' <= s[0] <= '\r' then StartsNumber(s[1..])
    else if s[0] == '+' || s[0] == '-' then |s| > 1 && '0' <= s[1] <= '9'
    else '0' <= s[0] <= '9'
  }

  lemma {:induction false} ScanStarts(w: Width, s: string)
    ensures Scan(w, s, false).Some? <==> StartsNumber(s)
  {
    hide Number, Limit;
    if s != "" && IsSpace(s[0]) {
      ScanStarts(w, s[1..]);
    }
  }

  /** The texts that stand for a pointer. */
  lemma ParseAccepts(w: Width, s: string)
    ensures Parse(w, s).Some? <==> s == "NULL" || StartsNumber(s)
    ensures Parse(w, "NULL") == Some(Pointer(0, None))
  {
    hide Scan;
    ScanStarts(w, s);
    ScanStarts(w, "NULL");
    assert "0x" <= s ==> s[0] == '0';
  }

  lemma {:induction false} DigitsSpan(d: string, rest: string)
    requires forall i :: 0 <= i < |d| ==> '0' <= d[i] <= '9'
    requires rest == "" || !('0' <= rest[0] <= '9')
    ensures Span(d + rest, false) == |d|
  {
    if d == "" {
      assert d + rest == rest;
    } else {
      DigitsSpan(d[1..], rest);
      assert (d + rest)[1..] == d[1..] + rest;
    }
  }

  lemma {:induction false} DecimalNumber(n: nat)
    ensures Number(Decimal(n), 10) == n
  {
    if n < 10 {
      var c := ('0' as int + n) as char;
      assert Decimal(n) == [c] && [c][..0] == "" && Number("", 10) == 0;
    } else {
      DecimalNumber(n / 10);
      assert Decimal(n)[..|Decimal(n)| - 1] == Decimal(n / 10);
    }
  }

  lemma ScanUnsigned(w: Width, s: string)
    requires s != "" && '0' <= s[0] <= '9'
    ensures Scan(w, s, false) ==
              var value := Number(s[..Span(s, false)], 10); Some(if value >= Limit(w) then Limit(w) - 1 else value)
  {
    hide Number, Limit;
  }

  lemma ScanMinus(w: Width, s: string, t: string)
    requires t != "" && '0' <= t[0] <= '9' && s != "" && s[0] == '-' && s[1..] == t
    ensures Scan(w, s, false) ==
              var value := Number(t[..Span(t, false)], 10);
              Some(if value >= Limit(w) then Limit(w) - 1 else if value > 0 then Limit(w) - value else 0)
  {
    hide Number, Limit;
  }

  lemma ScanDecimal(w: Width, n: nat, rest: string)
    requires rest == "" || !('0' <= rest[0] <= '9')
    ensures Scan(w, Decimal(n) + rest, false) == Some(if n < Limit(w) then n else Limit(w) - 1)
    ensures Scan(w, "-" + Decimal(n) + rest, false)
            == Some(if n == 0 then 0 else if n < Limit(w) then Limit(w) - n else Limit(w) - 1)
  {
    hide Number, Limit, Decimal, Span, Scan;
    var d := Decimal(n);
    var t := d + rest;
    DecimalNumber(n);
    DigitsSpan(d, rest);
    assert IsDigit(d[0]) && t[0] == d[0] && t[..|d|] == d;
    assert ("-" + d + rest)[1..] == t;
    ScanUnsigned(w, t);
    ScanMinus(w, "-" + d + rest, t);
  }

  /** Decimal texts with a tag: too large a number becomes the last address, and a minus sign counts
      down from the end of memory. */
  lemma ParseDecimal(w: Width, n: nat, tag: string)
    ensures Parse(w, Decimal(n) + "^" + tag)
            == Some(Pointer(if n < Limit(w) then n else Limit(w) - 1, Some(tag)))
    ensures Parse(w, "-" + Decimal(n) + "^" + tag)
            == Some(Pointer(if n == 0 then 0 else if n < Limit(w) then Limit(w) - n else Limit(w) - 1, Some(tag)))
  {
    hide Scan, Limit, Decimal;
    var d := Decimal(n);
    var s, t := d + "^" + tag, "-" + d + "^" + tag;
    ScanDecimal(w, n, "^" + tag);
    assert s == d + ("^" + tag) && t == "-" + d + ("^" + tag);
    FirstCaret(d, tag);
    FirstCaret("-" + d, tag);
    assert t[0] == '-' && s[1] != 'x' by {
      assert s[1] == if |d| > 1 then d[1] else '^';
    }
  }

  // ----- tags

  /** `Tclh_PointerTagMatch`. */
  predicate TagMatch(tag: Option<string>, expected: Option<string>) {
    expected.None? || (tag.Some? && (expected.value == "ptr" || tag.value == "ptr" || tag == expected))
  }

  /** The check of `Tclh_PointerUnwrap`: a null pointer without a tag passes as anything. */
  predicate Unwraps(p: Pointer, expected: Option<string>) {
    (p.address == 0 && p.tag.None?) || TagMatch(p.tag, expected)
  }

  /** Going through its text changes what a pointer unwraps as only if it had no tag, and then
      exactly when being null and being asked for under an empty tag or `ptr` disagree. */
  lemma TextKeepsUnwrapping(w: Width, p: Pointer, expected: Option<string>)
    requires p.address < Limit(w)
    ensures var q := Parse(w, Print(w, p)).value;
            (Unwraps(q, expected) <==> Unwraps(p, expected)) <==>
            p.tag.Some? || expected.None? || (p.address == 0 <==> expected.value == "ptr" || expected.value == "")
  {
    PrintParses(w, p);
  }

  // ----- the script value

  /** What a value stands for, whichever representations it has. */
  datatype Meaning = Meaning(address: nat, tag: string)

  function MeaningOf(p: Pointer): Meaning {
    Meaning(p.address, TagText(p.tag))
  }

  /** A Tcl value: its text and its pointer representation, each of which may be absent. */
  class TclObj {
    const width: Width
    var bytes: Option<string>
    var rep: Option<Pointer>

    /** The pointer this value reads as; None for other texts. */
    ghost function Value(): Option<Meaning>
      reads this
      requires Valid()
    {
      if rep.Some? then Some(MeaningOf(rep.value))
      else
        var p := Parse(width, bytes.value);
        if p.Some? then Some(MeaningOf(p.value)) else None
    }

    /** At least one representation, and two of them agree. */
    ghost predicate Valid()
      reads this
    {
      && (bytes.Some? || rep.Some?)
      && (rep.Some? ==> rep.value.address < Limit(width))
      && (rep.Some? && bytes.Some? ==>
            var p := Parse(width, bytes.value);
            p.Some? && MeaningOf(p.value) == MeaningOf(rep.value))
    }

    constructor FromText(w: Width, s: string)
      ensures Valid() && width == w && bytes == Some(s) && rep == None
    {
      width := w;
      bytes, rep := Some(s), None;
    }

    /** `Tclh_PointerWrap`. */
    constructor Wrap(w: Width, address: nat, tag: Option<string>)
      requires address < Limit(w)
      ensures Valid() && width == w && bytes == None && rep == Some(Pointer(address, tag))
      ensures Value() == Some(Meaning(address, TagText(tag)))
    {
      width := w;
      bytes, rep := None, Some(Pointer(address, tag));
    }

    /** `SetPointerFromAny`: succeeds exactly on the texts that stand for a pointer. */
    method SetPointerFromAny() returns (ok: bool)
      requires Valid()
      modifies this`rep
      ensures Valid() && Value() == old(Value())
      ensures ok <==> Value().Some?
      ensures ok <==> rep.Some?
      ensures rep == if old(rep).Some? then old(rep) else Parse(width, bytes.value)
    {
      if rep.None? {
        rep := Parse(width, bytes.value);
      }
      ok := rep.Some?;
    }

    /** `Tcl_GetString`, with `UpdatePointerTypeString` where there is no text yet. */
    method GetString() returns (s: string)
      requires Valid()
      modifies this`bytes
      ensures Valid() && Value() == old(Value())
      ensures bytes == Some(s) && (old(bytes).Some? ==> bytes == old(bytes))
      ensures old(bytes).None? ==> s == Print(width, rep.value)
    {
      if bytes.None? {
        PrintParses(width, rep.value);
        bytes := Some(Print(width, rep.value));
      }
      s := bytes.value;
    }

    /** Another use of the value takes its internal representation away. */
    method Shimmer()
      requires Valid()
      modifies this
      ensures Valid() && Value() == old(Value()) && rep.None?
      ensures old(bytes).None? ==> bytes == Some(Print(width, old(rep).value))
      ensures old(bytes).Some? ==> bytes == old(bytes)
    {
      var s := GetString();
      rep := None;
    }

    /** `Tclh_PointerUnwrap`. */
    method Unwrap(expected: Option<string>) returns (address: Option<nat>)
      requires Valid()
      modifies this`rep
      ensures Valid() && Value() == old(Value())
      ensures address.Some? <==> rep.Some? && Unwraps(rep.value, expected)
      ensures address.Some? <==>
                && rep.Some?
                && (|| expected == None
                    || (rep.value.address == 0 && rep.value.tag == None)
                    || (rep.value.tag.Some? &&
                          (rep.value.tag.value == "ptr" || expected == Some("ptr") || rep.value.tag == expected)))
      ensures address.Some? ==> address.value == rep.value.address == Value().value.address
      ensures rep == if old(rep).Some? then old(rep) else Parse(width, bytes.value)
    {
      var ok := SetPointerFromAny();
      if !ok || !Unwraps(rep.value, expected) {
        return None;
      }
      address := Some(rep.value.address);
    }
  }

  /** A pointer to something that is tagged `t` unwraps as `u` exactly when the tags are the same or
      one of them is `ptr`, and always where no tag is expected; it does so too after its text was all
      that was left of it. */
  method WrapUnwrap(w: Width, address: nat, t: string, u: string) returns (same: Option<nat>, any: Option<nat>, later: Option<nat>)
    requires 0 < address < Limit(w)
    ensures same == later == if t == u || t == "ptr" || u == "ptr" then Some(address) else None
    ensures any == Some(address)
  {
    hide Parse, Print;
    PrintParses(w, Pointer(address, Some(t)));
    var obj := new TclObj.Wrap(w, address, Some(t));
    same := obj.Unwrap(Some(u));
    any := obj.Unwrap(None);
    obj.Shimmer();
    later := obj.Unwrap(Some(u));
  }
}
