/** Structure definitions as the Tcl binding sees them, and the text of member names. */
module Definitions {
  import opened CTypes

  /** One element of a definition list: a type and a member name, or a nested list. */
  datatype Def =
    | Leaf(ctype: CType, elem: string)
    | Sub(items: seq<Def>)
    | Uni(items: seq<Def>)

  /** A member after its name text has been read: `count` is 0 for a plain value. */
  datatype Field = Field(name: string, ctype: CType, count: nat)

  // ----- text scanning, as strtok and strtol do it

  predicate IsDelim(c: char) {
    c == ')' || c == '('
  }

  /** How many leading characters are delimiters. */
  function SkipDelims(s: string): (n: nat)
    ensures n <= |s|
    ensures forall i :: 0 <= i < n ==> IsDelim(s[i])
    ensures n < |s| ==> !IsDelim(s[n])
  {
    if s == [] || !IsDelim(s[0]) then 0 else 1 + SkipDelims(s[1..])
  }

  /** How many leading characters are not delimiters: the length of a token. */
  function TokenLength(s: string): (n: nat)
    ensures n <= |s|
    ensures forall i :: 0 <= i < n ==> !IsDelim(s[i])
    ensures n < |s| ==> IsDelim(s[n])
  {
    if s == [] || IsDelim(s[0]) then 0 else 1 + TokenLength(s[1..])
  }

  predicate IsSpace(c: char) {
    c == ' ' || '\t' <= c <= '\r'
  }

  predicate IsDigit(c: char) {
    '0' <= c <= '9'
  }

  /** The value of the leading decimal digits, continuing from `acc`. */
  function DigitsValue(s: string, acc: nat): nat {
    if s == [] || !IsDigit(s[0]) then acc
    else DigitsValue(s[1..], 10 * acc + (s[0] - '0') as nat)
  }

  /** strtol in base 10: blanks, a sign, digits; 0 when there is no digit. */
  function StrToL(s: string): int {
    if s == [] then 0
    else if IsSpace(s[0]) then StrToL(s[1..])
    else if s[0] == '-' then 0 - DigitsValue(s[1..], 0) as int
    else if s[0] == '+' then DigitsValue(s[1..], 0)
    else DigitsValue(s, 0)
  }

  /** `parseArray`: cuts the name after its first token; the second token is the element count.
      The count is -1 without a second token and 0 when it does not start with a number. */
  function ParseArray(str: string): (r: (string, int)) {
    var start := SkipDelims(str);
    if start == |str| then (str, -1)
    else
      var end := start + TokenLength(str[start..]);
      if end == |str| then (str, -1)
      else
        var rest := str[end + 1..];
        var tok := rest[SkipDelims(rest)..];
        if tok == [] then (str[..end], -1)
        else if tok[0] == ' ' then (str[..end], 0)
        else (str[..end], StrToL(tok[..TokenLength(tok)]))
  }

  /** What `removeChar` leaves of a string. */
  function Without(s: string, c: char): string {
    if s == [] then []
    else (if s[0] == c then [] else [s[0]]) + Without(s[1..], c)
  }

  /** The inner loop of `removeChar`: closes the gap at `i`, terminator included. */
  method CloseGap(str: array<char>, i: nat, len: nat)
    requires i < len < str.Length
    modifies str
    ensures str[..len] == old(str[..i] + str[i + 1..len + 1])
  {
    var j := i;
    while j < len
      invariant i <= j <= len
      invariant forall k :: 0 <= k < i || j <= k < str.Length ==> str[k] == old(str[k])
      invariant forall k :: i <= k < j ==> str[k] == old(str[k + 1])
    {
      str[j] := str[j + 1];
      j := j + 1;
    }
  }

  lemma WithoutStep(kept: string, rest: string, c: char)
    requires rest != []
    ensures rest[0] == c ==> Without(rest, c) == Without(rest[1..], c)
    ensures rest[0] != c ==> kept + Without(rest, c) == kept + [rest[0]] + Without(rest[1..], c)
  {
  }

  /** The buffer holds the kept characters, the unread ones and the terminator. */
  lemma BufferStep(all: string, kept: string, rest: string, last: char)
    requires all == kept + rest + [last] && rest != []
    ensures all[|kept|] == rest[0]
    ensures all[..|kept|] + all[|kept| + 1..] == kept + rest[1..] + [last]
    ensures all == kept + [rest[0]] + rest[1..] + [last]
  {
  }

  /** `removeChar`, on the character buffer and its terminator. */
  method RemoveChar(str: array<char>, c: char, strlen: nat) returns (len: nat)
    requires strlen < str.Length
    modifies str
    ensures len <= strlen
    ensures str[..len + 1] == Without(old(str[..strlen]), c) + [old(str[strlen])]
  {
    hide Without;
    WithoutHead(c, "", c);
    len := strlen;
    var i := 0;
    ghost var text, last := str[..strlen], str[strlen];
    ghost var kept, rest := "", text;
    assert text + [last] == str[..strlen + 1];
    while i < len
      invariant i == |kept| && len == |kept| + |rest|
      invariant len <= strlen
      invariant kept + Without(rest, c) == Without(text, c)
      invariant str[..len + 1] == kept + rest + [last]
      decreases len - i
    {
      BufferStep(str[..len + 1], kept, rest, last);
      WithoutStep(kept, rest, c);
      if str[i] == c {
        CloseGap(str, i, len);
        len := len - 1;
      } else {
        kept := kept + [str[i]];
        i := i + 1;
      }
      rest := rest[1..];
    }
  }

  /** The member a definition element stands for: a leading `*` makes it a pointer, and a
      positive element count makes it an array and cuts the count off the name. */
  function FieldOf(ctype: CType, elem: string): Field {
    var star := elem != [] && elem[0] == '*';
    var e := if star then Without(elem, '*') else elem;
    var t := if star then Ptr else ctype;
    var (base, n) := ParseArray(e);
    if n > 0 then Field(base, t, n) else Field(e, t, 0)
  }

  // ----- names and acceptance

  function Names(d: Def): set<string>
    decreases d
  {
    match d
    case Leaf(t, e) => {FieldOf(t, e).name}
    case Sub(items) => ListNames(items)
    case Uni(items) => ListNames(items)
  }

  function ListNames(ds: seq<Def>): set<string>
    decreases ds
  {
    if ds == [] then {}
    else ListNames(ds[..|ds| - 1]) + Names(ds[|ds| - 1])
  }

  /** What `CreateStruct` (`inUnion` false) or `CreateUnion` accepts as one element. */
  predicate AcceptedDef(d: Def, inUnion: bool)
    decreases d
  {
    match d
    case Leaf(t, e) => inUnion ==> FieldOf(t, e).count == 0
    case Sub(items) => items != [] && AcceptedList(items, false)
    case Uni(items) => items != [] && AcceptedList(items, true)
  }

  /** No empty nested list, no array directly in a union, and no name twice. */
  predicate AcceptedList(ds: seq<Def>, inUnion: bool)
    decreases ds
  {
    ds == [] ||
    (AcceptedList(ds[..|ds| - 1], inUnion) && AcceptedDef(ds[|ds| - 1], inUnion) &&
     ListNames(ds[..|ds| - 1]) !! Names(ds[|ds| - 1]))
  }

  // ----- the text of array names

  /** A scan stops exactly at the first character of the other kind. */
  lemma {:induction false} SkipStops(s: string, n: nat)
    requires n <= |s|
    requires forall i :: 0 <= i < n ==> IsDelim(s[i])
    requires n < |s| ==> !IsDelim(s[n])
    ensures SkipDelims(s) == n
  {
    if n > 0 {
      SkipStops(s[1..], n - 1);
    }
  }

  lemma {:induction false} TokenStops(s: string, n: nat)
    requires n <= |s|
    requires forall i :: 0 <= i < n ==> !IsDelim(s[i])
    requires n < |s| ==> IsDelim(s[n])
    ensures TokenLength(s) == n
  {
    if n > 0 {
      TokenStops(s[1..], n - 1);
    }
  }

  /** Cutting is done after one pass: a cut name is not cut again. */
  lemma {:induction false} ParseArrayIdempotent(e: string)
    ensures ParseArray(ParseArray(e).0).0 == ParseArray(e).0
  {
    hide StrToL;
    var start := SkipDelims(e);
    if start < |e| {
      var len := TokenLength(e[start..]);
      var end := start + len;
      if end < |e| {
        var cut := e[..end];
        assert !IsDelim(e[start..][0]);
        SkipStops(cut, start);
        assert cut[start..] == e[start..][..len];
        TokenStops(cut[start..], len);
      }
    }
  }

  /** Decimal digits of a number. */
  function Decimal(n: nat): (s: string)
    ensures |s| > 0
    ensures forall i :: 0 <= i < |s| ==> IsDigit(s[i])
  {
    if n < 10 then [('0' as int + n) as char]
    else Decimal(n / 10) + [('0' as int + n % 10) as char]
  }

  lemma {:induction false} DigitsValueSplit(s: string, d: char, acc: nat)
    requires forall i :: 0 <= i < |s| ==> IsDigit(s[i])
    requires IsDigit(d)
    ensures DigitsValue(s + [d], acc) == 10 * DigitsValue(s, acc) + (d - '0') as nat
  {
    if s == [] {
      assert s + [d] == [d];
      assert DigitsValue([d][1..], 10 * acc + (d - '0') as nat) == 10 * acc + (d - '0') as nat;
    } else {
      assert (s + [d])[1..] == s[1..] + [d];
      DigitsValueSplit(s[1..], d, 10 * acc + (s[0] - '0') as nat);
    }
  }

  lemma {:induction false} DecimalReads(n: nat)
    ensures StrToL(Decimal(n)) == n
    ensures DigitsValue(Decimal(n), 0) == n
  {
    if n < 10 {
      var c := ('0' as int + n) as char;
      assert Decimal(n) == [c];
      assert DigitsValue([c], 0) == DigitsValue([c][1..], n);
    } else {
      DecimalReads(n / 10);
      DigitsValueSplit(Decimal(n / 10), ('0' as int + n % 10) as char, 0);
    }
    assert IsDigit(Decimal(n)[0]);
  }

  /** A name without parentheses is no array. */
  lemma PlainName(base: string)
    requires base != [] && forall i :: 0 <= i < |base| ==> !IsDelim(base[i])
    ensures ParseArray(base) == (base, -1)
  {
    SkipStops(base, 0);
    TokenStops(base, |base|);
    assert base[0..] == base;
  }

  /** A name in front of an opening parenthesis is cut off; the next token is the count. */
  lemma NameToken(base: string, rest: string)
    requires base != [] && forall i :: 0 <= i < |base| ==> !IsDelim(base[i])
    ensures ParseArray(base + "(" + rest) ==
              var tok := rest[SkipDelims(rest)..];
              (base, if tok == [] then -1 else if tok[0] == ' ' then 0 else StrToL(tok[..TokenLength(tok)]))
  {
    hide StrToL, SkipDelims, TokenLength;
    var e := base + "(" + rest;
    SkipStops(e, 0);
    assert e[0..] == e;
    TokenStops(e, |base|);
    assert e[..|base|] == base && e[|base| + 1..] == rest;
  }

  lemma CountToken(u: string, tail: string)
    requires (tail == "" || tail == ")") && forall i :: 0 <= i < |u| ==> !IsDelim(u[i])
    ensures SkipDelims(u + tail) == if u == "" then |tail| else 0
    ensures u != "" ==> TokenLength(u + tail) == |u| && (u + tail)[..|u|] == u
  {
    hide SkipDelims, TokenLength;
    var rest := u + tail;
    if u == "" {
      SkipStops(rest, |tail|);
    } else {
      assert rest[0] == u[0];
      SkipStops(rest, 0);
      TokenStops(rest, |u|);
    }
  }

  /** The text between the parentheses decides: no text is no array, a leading space is no number,
      and a missing last parenthesis does not matter. */
  lemma CountReads(base: string, u: string, tail: string)
    requires base != [] && forall i :: 0 <= i < |base| ==> !IsDelim(base[i])
    requires (tail == "" || tail == ")") && forall i :: 0 <= i < |u| ==> !IsDelim(u[i])
    ensures ParseArray(base + "(" + u + tail) == (base, if u == "" then -1 else if u[0] == ' ' then 0 else StrToL(u))
  {
    hide StrToL, SkipDelims, TokenLength, ParseArray;
    var rest := u + tail;
    NameToken(base, rest);
    CountToken(u, tail);
    assert rest[SkipDelims(rest)..] == if u == "" then [] else rest;
    assert base + "(" + rest == base + "(" + u + tail;
  }

  /** Numbers in text: a sign may precede the digits, and blanks the sign. */
  lemma SignedReads(n: nat, s: string)
    ensures StrToL("-" + Decimal(n)) == 0 - n && StrToL("+" + Decimal(n)) == n
    ensures StrToL("\t" + s) == StrToL(s) && StrToL(" " + s) == StrToL(s)
  {
    hide DigitsValue, Decimal;
    var d := Decimal(n);
    DecimalReads(n);
    assert ("-" + d)[1..] == d && ("+" + d)[1..] == d && ("\t" + s)[1..] == s && (" " + s)[1..] == s;
  }

  /** An array name reads back: `base(n)` is the array `base` of `n` elements. */
  lemma ArrayNameReads(base: string, n: nat)
    requires base != [] && forall i :: 0 <= i < |base| ==> !IsDelim(base[i])
    ensures ParseArray(base + "(" + Decimal(n) + ")") == (base, n as int)
  {
    hide Decimal, StrToL, ParseArray;
    var digits := Decimal(n);
    assert IsDigit(digits[0]);
    CountReads(base, digits, ")");
    DecimalReads(n);
  }

  // ----- what a member's text means

  lemma {:induction false} CharGone(s: string, c: char)
    ensures c !in Without(s, c)
  {
    if s != [] {
      CharGone(s[1..], c);
    }
  }

  lemma {:induction false} NothingGone(s: string, c: char)
    requires c !in s
    ensures Without(s, c) == s
  {
    if s != [] {
      NothingGone(s[1..], c);
      assert s == [s[0]] + s[1..];
    }
  }

  lemma WithoutHead(x: char, t: string, c: char)
    ensures Without([], c) == []
    ensures Without([x] + t, c) == (if x == c then "" else [x]) + Without(t, c)
  {
    assert ([x] + t)[1..] == t;
  }

  /** `removeChar` works character by character: it takes a text apart at any place. */
  lemma {:induction false} WithoutJoins(s: string, t: string, c: char)
    ensures Without(s + t, c) == Without(s, c) + Without(t, c)
  {
    hide Without;
    WithoutHead(c, t, c);
    if s == [] {
      assert s + t == t;
    } else {
      var x, rest := s[0], s[1..];
      WithoutJoins(rest, t, c);
      WithoutHead(x, rest, c);
      WithoutHead(x, rest + t, c);
      assert [x] + rest == s && [x] + (rest + t) == s + t;
    }
  }

  lemma StarGone(s: string)
    requires '*' !in s
    ensures Without("*" + s, '*') == s
  {
    NothingGone(s, '*');
    WithoutHead('*', s, '*');
    assert ['*'] + s == "*" + s;
  }

  lemma {:induction false} DecimalPlain(n: nat, c: char)
    requires !IsDigit(c)
    ensures c !in Decimal(n)
  {
  }

  /** The four kinds of member text: `x`, `x(n)`, `*x` and `*x(n)`. */
  lemma MemberTexts(t: CType, base: string, n: nat)
    requires base != [] && n > 0 && '*' !in base && forall i :: 0 <= i < |base| ==> base[i] != '(' && base[i] != ')'
    ensures FieldOf(t, base) == Field(base, t, 0)
    ensures FieldOf(t, "*" + base) == Field(base, Ptr, 0)
    ensures FieldOf(t, base + "(" + Decimal(n) + ")") == Field(base, t, n)
    ensures FieldOf(t, "*" + base + "(" + Decimal(n) + ")") == Field(base, Ptr, n)
  {
    hide ParseArray, Decimal, Without;
    var e := base + "(" + Decimal(n) + ")";
    PlainName(base);
    ArrayNameReads(base, n);
    DecimalPlain(n, '*');
    StarGone(base);
    StarGone(e);
    assert "*" + e == "*" + base + "(" + Decimal(n) + ")";
  }
}
