/** A path in front of a member's text: exactly when it ends up in front of the member's name and
    leaves the member's type and element count alone. */
module PathNames {
  import opened CTypes
  import opened Definitions
  import opened Expansion
  import opened TypeLookup

  // ----- the text

  /** The end of the first token of `parseArray`. */
  function FirstEnd(s: string): (n: nat)
    ensures SkipDelims(s) <= n <= |s|
  {
    SkipDelims(s) + TokenLength(s[SkipDelims(s)..])
  }

  /** A parenthesis follows the first token. */
  predicate Cut(p: string) {
    FirstEnd(p) < |p|
  }

  /** The element count `parseArray` reads from the text after the first token and its parenthesis. */
  function CountText(rest: string): int {
    var tok := rest[SkipDelims(rest)..];
    if tok == [] then -1 else if tok[0] == ' ' then 0 else StrToL(tok[..TokenLength(tok)])
  }

  /** The path `p` carries the member text `e`.  A parenthesis after the first token of `p` hides the
      one in `e`: then `p` itself must not read as an array, and `e` must not be one.  Otherwise only
      a member text that begins with a parenthesis can be misread. */
  predicate Carries(p: string, e: string) {
    p == "" ||
    (if Cut(p) then ParseArray(p).1 <= 0 && ParseArray(e).1 <= 0
     else e != "" && IsDelim(e[0]) ==> CountText(e) <= 0 && ParseArray(e).1 <= 0)
  }

  lemma ParseIs(s: string)
    ensures ParseArray(s) == if Cut(s) then (s[..FirstEnd(s)], CountText(s[FirstEnd(s) + 1..])) else (s, -1)
    ensures Cut(s) ==> 0 < FirstEnd(s) && IsDelim(s[FirstEnd(s)])
  {
    hide StrToL;
    var start := SkipDelims(s);
    if start < |s| {
      assert s[start..][0] == s[start];
      assert FirstEnd(s) < |s| ==> s[start..][TokenLength(s[start..])] == s[FirstEnd(s)];
    }
  }

  /** The first token of a text ends where one says it ends. */
  lemma FirstIs(s: string, start: nat, end: nat)
    requires start <= end <= |s| && (start == |s| || start < end)
    requires forall i :: 0 <= i < start ==> IsDelim(s[i])
    requires forall i :: start <= i < end ==> !IsDelim(s[i])
    requires end < |s| ==> IsDelim(s[end])
    ensures FirstEnd(s) == end && SkipDelims(s) == start
  {
    SkipStops(s, start);
    TokenStops(s[start..], end - start);
  }

  lemma FirstFacts(s: string)
    ensures forall i :: 0 <= i < SkipDelims(s) ==> IsDelim(s[i])
    ensures forall i :: SkipDelims(s) <= i < FirstEnd(s) ==> !IsDelim(s[i])
    ensures Cut(s) ==> SkipDelims(s) < FirstEnd(s)
    ensures SkipDelims(s) < |s| ==> SkipDelims(s) < FirstEnd(s)
  {
    hide *;
    EndIs(s);
    CutIs(s);
    TokenBounds(s, SkipDelims(s), TokenLength(s[SkipDelims(s)..]));
  }

  lemma EndIs(s: string)
    ensures FirstEnd(s) == SkipDelims(s) + TokenLength(s[SkipDelims(s)..])
  {
  }

  /** Digits end at a dot. */
  lemma {:induction false} DigitsDot(s: string, u: string, acc: nat)
    ensures DigitsValue(s + "." + u, acc) == DigitsValue(s, acc)
  {
    if s == "" {
      assert s + "." + u == "." + u;
    } else {
      assert (s + "." + u)[1..] == s[1..] + "." + u;
      if IsDigit(s[0]) {
        DigitsDot(s[1..], u, 10 * acc + (s[0] - '0') as nat);
      }
    }
  }

  lemma {:induction false} NumberDot(s: string, u: string)
    ensures StrToL(s + "." + u) == StrToL(s)
  {
    if s == "" {
      assert s + "." + u == "." + u;
    } else {
      assert (s + "." + u)[1..] == s[1..] + "." + u;
      NumberDot(s[1..], u);
      DigitsDot(s[1..], u, 0);
      DigitsDot(s, u, 0);
    }
  }

  /** The count is read from the first token that starts at `k` and ends at `end`. */
  lemma CountIs(s: string, k: nat, end: nat)
    requires k < end <= |s| && forall i :: 0 <= i < k ==> IsDelim(s[i])
    requires forall i :: k <= i < end ==> !IsDelim(s[i])
    requires end < |s| ==> IsDelim(s[end])
    ensures SkipDelims(s) == k && CountText(s) == if s[k] == ' ' then 0 else StrToL(s[k..end])
  {
    hide StrToL, SkipDelims, TokenLength;
    SkipStops(s, k);
    var tok := s[k..];
    TokenStops(tok, end - k);
    assert tok[..end - k] == s[k..end] && tok[0] == s[k];
  }

  /** What follows a path does not change the count that is read from the path. */
  lemma CountDot(r: string, e: string)
    ensures CountText(r + "." + e) == if SkipDelims(r) == |r| then 0 else CountText(r)
  {
    hide *;
    var k := SkipDelims(r);
    var l := TokenLength(r[k..]);
    TokenBounds(r, k, l);
    if k + l < |r| {
      TokenIn(r, k, k + l);
      CountWithin(r, e, k, k + l);
    } else {
      CountAcross(r, e, k);
      assert r[k..] == r[k..|r|];
      if k < |r| {
        TokenIn(r, k, |r|);
      } else {
        NoNumber();
      }
    }
  }

  lemma TokenBounds(r: string, k: nat, l: nat)
    requires k == SkipDelims(r) && l == TokenLength(r[k..])
    ensures k + l <= |r| && (k < |r| ==> l > 0)
    ensures forall i :: 0 <= i < k ==> IsDelim(r[i])
    ensures forall i :: k <= i < k + l ==> !IsDelim(r[i])
    ensures k + l < |r| ==> IsDelim(r[k + l])
  {
    hide IsDelim;
    forall i | k <= i < k + l ensures !IsDelim(r[i]) {
      assert r[i] == r[k..][i - k];
    }
    if k + l < |r| {
      assert r[k + l] == r[k..][l];
    }
    if k < |r| {
      assert r[k..][0] == r[k];
    }
  }

  lemma CountWithin(r: string, e: string, k: nat, end: nat)
    requires k < end < |r| && (forall i :: 0 <= i < k ==> IsDelim(r[i]))
    requires (forall i :: k <= i < end ==> !IsDelim(r[i])) && IsDelim(r[end])
    ensures CountText(r + "." + e) == if r[k] == ' ' then 0 else StrToL(r[k..end])
  {
    hide *;
    var s := r + "." + e;
    assert forall i :: 0 <= i < |r| ==> s[i] == r[i];
    CountIs(s, k, end);
    assert s[k..end] == r[k..end];
  }

  lemma CountAcross(r: string, e: string, k: nat)
    requires k <= |r| && (forall i :: 0 <= i < k ==> IsDelim(r[i])) && (forall i :: k <= i < |r| ==> !IsDelim(r[i]))
    ensures CountText(r + "." + e) == if k < |r| && r[k] == ' ' then 0 else StrToL(r[k..])
  {
    hide IsDelim, StrToL, CountText, TokenLength, SkipDelims;
    var s, l := r + "." + e, TokenLength(e);
    var m := |r| + 1 + l;
    forall i | k <= i < m ensures !IsDelim(s[i]) {
      if i > |r| {
        assert s[i] == e[i - |r| - 1];
      } else if i == |r| {
        DotIsNone();
      }
    }
    assert m < |s| ==> s[m] == e[l];
    CountIs(s, k, m);
    assert s[k..m] == r[k..] + "." + e[..l];
    NumberDot(r[k..], e[..l]);
  }

  lemma DotIsNone()
    ensures !IsDelim('.')
  {
  }

  lemma NoNumber()
    ensures StrToL("") == 0
  {
  }

  lemma TokenIn(r: string, k: nat, end: nat)
    requires k == SkipDelims(r) < end == k + TokenLength(r[k..])
    ensures end <= |r| && CountText(r) == if r[k] == ' ' then 0 else StrToL(r[k..end])
  {
    hide StrToL;
    var tok := r[k..];
    assert tok[..end - k] == r[k..end] && tok[0] == r[k];
  }

  // ----- a path in front of a member text

  lemma JoinAt(p: string, e: string, s: string)
    requires s == p + "." + e
    ensures |s| == |p| + 1 + |e| && s[|p|] == '.'
    ensures forall i :: 0 <= i < |p| ==> s[i] == p[i]
    ensures forall i :: |p| < i < |s| ==> s[i] == e[i - |p| - 1]
  {
  }

  /** A path whose first token reaches its end goes on in the member text. */
  lemma OpenPath(p: string, e: string, s: string)
    requires !Cut(p) && s == p + "." + e
    ensures var l := TokenLength(e);
            && FirstEnd(s) == |p| + 1 + l && |s| == |p| + 1 + |e|
            && (l == |e| ==> ParseArray(s) == (s, -1))
  {
    hide *;
    OpenScan(p, e, s);
    JoinLength(p, e, s);
    OpenParse(s, |p| + 1 + TokenLength(e));
  }

  /** Where the member text has a parenthesis, the name is cut there and the count read after it. */
  lemma OpenPart(p: string, e: string, s: string, l: nat)
    requires s == p + "." + e && FirstEnd(s) == |p| + 1 + l && l < |e|
    ensures ParseArray(s).0 == p + "." + e[..l] && ParseArray(s).1 == CountText(e[l + 1..])
  {
    hide *;
    JoinLength(p, e, s);
    OpenParse(s, |p| + 1 + l);
    JoinCut(p, e, s, l);
  }

  lemma JoinLength(p: string, e: string, s: string)
    requires s == p + "." + e
    ensures |s| == |p| + 1 + |e|
  {
  }

  lemma OpenParse(s: string, end: nat)
    requires FirstEnd(s) == end
    ensures end <= |s|
    ensures end == |s| ==> ParseArray(s) == (s, -1)
    ensures end < |s| ==> ParseArray(s).0 == s[..end] && ParseArray(s).1 == CountText(s[end + 1..])
  {
    hide *;
    CutIs(s);
    ParseIs(s);
  }

  lemma JoinCut(p: string, e: string, s: string, l: nat)
    requires s == p + "." + e && l < |e|
    ensures s[..|p| + 1 + l] == p + "." + e[..l] && s[|p| + 1 + l + 1..] == e[l + 1..]
  {
  }

  lemma OpenScan(p: string, e: string, s: string)
    requires !Cut(p) && s == p + "." + e
    ensures FirstEnd(s) == |p| + 1 + TokenLength(e)
  {
    hide *;
    var l := TokenLength(e);
    CutIs(p);
    FirstFacts(p);
    DotIsNone();
    JoinAt(p, e, s);
    OpenToken(p, e, s, SkipDelims(p), l);
    FirstIs(s, SkipDelims(p), |p| + 1 + l);
  }

  lemma OpenToken(p: string, e: string, s: string, k: nat, l: nat)
    requires k <= |p| && (forall i :: k <= i < |p| ==> !IsDelim(p[i])) && l == TokenLength(e)
    requires |s| == |p| + 1 + |e| && s[|p|] == '.' && (forall i :: 0 <= i < |p| ==> s[i] == p[i])
    requires forall i :: |p| < i < |s| ==> s[i] == e[i - |p| - 1]
    ensures forall i :: k <= i < |p| + 1 + l ==> !IsDelim(s[i])
    ensures |p| + 1 + l < |s| ==> IsDelim(s[|p| + 1 + l])
  {
    hide *;
    DotIsNone();
  }

  lemma CutIs(p: string)
    ensures Cut(p) <==> FirstEnd(p) < |p|
  {
  }

  /** A path with a parenthesis after its first token is cut there, whatever follows it. */
  lemma CutPath(p: string, e: string)
    requires Cut(p)
    ensures var s, end := p + "." + e, FirstEnd(p);
            && FirstEnd(s) == end < |p|
            && ParseArray(s).0 == p[..end] && (ParseArray(s).1 > 0 <==> ParseArray(p).1 > 0)
  {
    hide *;
    var s, end := p + "." + e, FirstEnd(p);
    CutIs(p);
    FirstFacts(p);
    ParseIs(p);
    assert forall i :: 0 <= i < |p| ==> s[i] == p[i];
    FirstIs(s, SkipDelims(p), end);
    CutIs(s);
    ParseIs(s);
    assert s[..end] == p[..end];
    assert s[end + 1..] == p[end + 1..] + "." + e;
    CountDot(p[end + 1..], e);
    NoCount(p[end + 1..]);
  }

  lemma NoCount(r: string)
    ensures SkipDelims(r) == |r| ==> CountText(r) == -1
  {
  }

  lemma LeadingText(e: string)
    requires e != ""
    ensures TokenLength(e) == 0 <==> IsDelim(e[0])
    ensures IsDelim(e[0]) ==> CountText(e[1..]) == CountText(e)
  {
    hide StrToL;
    if IsDelim(e[0]) {
      assert e[1..][SkipDelims(e[1..])..] == e[SkipDelims(e)..];
    }
  }

  /** Of a member text that does not begin with a parenthesis, the path sees what `parseArray` sees. */
  lemma TokenOnly(e: string)
    requires e != "" && !IsDelim(e[0])
    ensures var l := TokenLength(e); ParseArray(e) == if l == |e| then (e, -1) else (e[..l], CountText(e[l + 1..]))
  {
    hide StrToL, TokenLength;
    SkipStops(e, 0);
    assert e[0..] == e;
  }

  lemma FieldIs(t: CType, e: string)
    requires !Starred(e)
    ensures var (base, n) := ParseArray(e);
            FieldOf(t, e) == if n > 0 then Field(base, t, n) else Field(e, t, 0)
  {
    hide ParseArray;
  }

  lemma JoinIs(p: string, e: string)
    ensures Join(p, e) == if p == "" then e else p + "." + e
    ensures p != "" && !Starred(p) ==> !Starred(Join(p, e))
  {
  }

  lemma CarriesIs(p: string, e: string)
    ensures Carries(p, e) <==>
            p == "" ||
            (if Cut(p) then ParseArray(p).1 <= 0 && ParseArray(e).1 <= 0
             else e != "" && IsDelim(e[0]) ==> CountText(e) <= 0 && ParseArray(e).1 <= 0)
  {
    hide ParseArray, CountText, Cut;
  }

  /** The name of an array is a proper start of its text, and not empty. */
  lemma ArrayName(e: string)
    requires ParseArray(e).1 > 0
    ensures 0 < |ParseArray(e).0| < |e| && ParseArray(e).0 == e[..|ParseArray(e).0|]
    ensures !Cut(ParseArray(e).0)
  {
    hide *;
    ParseIs(e);
    CutIs(e);
    FirstFacts(e);
    var base := ParseArray(e).0;
    assert forall i :: 0 <= i < |base| ==> base[i] == e[i];
    FirstIs(base, SkipDelims(e), |base|);
    CutIs(base);
  }

  /** For every path and every unstarred member text: with the path in front, the member has the path
      in front of its name and the same type and count, if and only if the path carries the text. */
  lemma CarriesExact(t: CType, p: string, e: string)
    requires !Starred(p) && !Starred(e)
    ensures var f := FieldOf(t, e); FieldOf(t, Join(p, e)) == Field(Join(p, f.name), f.ctype, f.count) <==> Carries(p, e)
  {
    hide *;
    JoinIs(p, e);
    FieldIs(t, e);
    FieldIs(t, Join(p, e));
    CarriesIs(p, e);
    JoinIs(p, FieldOf(t, e).name);
    if ParseArray(e).1 > 0 {
      ArrayName(e);
    }
    if p == "" {
    } else if Cut(p) {
      CutPath(p, e);
    } else {
      OpenPath(p, e, Join(p, e));
      if TokenLength(e) < |e| {
        OpenPart(p, e, Join(p, e), TokenLength(e));
      }
      if e == "" {
        EmptyText();
      } else {
        LeadingText(e);
        if !IsDelim(e[0]) {
          TokenOnly(e);
        }
      }
    }
  }

  lemma EmptyText()
    ensures ParseArray("") == ("", -1) && TokenLength("") == 0
  {
  }

  lemma EditedField(t: CType, w: string)
    ensures var (base, n) := ParseArray(Edited(w));
            && FieldOf(t, w).count == (if n > 0 then n else 0)
            && FieldOf(t, w).name == (if n > 0 then base else Edited(w))
    ensures !Starred(w) ==> Edited(w) == w
  {
    hide ParseArray;
  }

  /** No text at all, starred or not, gives the name and the count that a path which does not carry
      `e` should have given. */
  lemma OnlyCarried(t: CType, t': CType, w: string, p: string, e: string)
    requires p != "" && !Starred(p) && !Starred(e)
    requires FieldOf(t', w).name == Join(p, FieldOf(t, e).name) && FieldOf(t', w).count == FieldOf(t, e).count
    ensures Carries(p, e)
  {
    hide *;
    EditedField(t, e);
    EditedField(t', w);
    var x := FieldOf(t, e).name;
    JoinIs(p, x);
    if ParseArray(e).1 <= 0 {
      FieldIs(t, e);
      FieldIs(t, Join(p, e));
      CarriesExact(t, p, e);
    } else {
      ArrayName(e);
      ArrayName(Edited(w));
      CarriesIs(p, e);
      CutIs(Join(p, x));
      if Cut(p) {
        CutPath(p, x);
        CutIs(p);
      } else {
        OpenPath(p, x, Join(p, x));
        LeadingText(x);
        assert x[0] == e[0];
      }
    }
  }

  // ----- whole definitions

  /** The definition with `p` in front of every member text. */
  function Under(p: string, d: Def): Def
    decreases d
  {
    match d
    case Leaf(t, e) => Leaf(t, Join(p, e))
    case Sub(items) => Sub(UnderList(p, items))
    case Uni(items) => Uni(UnderList(p, items))
  }

  function UnderList(p: string, ds: seq<Def>): (r: seq<Def>)
    ensures |r| == |ds|
    decreases ds
  {
    seq(|ds|, i requires 0 <= i < |ds| => Under(p, ds[i]))
  }

  /** The path carries every member text of the definition. */
  predicate Carried(p: string, d: Def)
    decreases d
  {
    match d
    case Leaf(_, e) => Carries(p, e)
    case Sub(items) => CarriedList(p, items)
    case Uni(items) => CarriedList(p, items)
  }

  predicate CarriedList(p: string, ds: seq<Def>)
    decreases ds
  {
    ds == [] || (CarriedList(p, ds[..|ds| - 1]) && Carried(p, ds[|ds| - 1]))
  }

  /** No member text begins with a star; expanding a definition takes the stars away. */
  predicate Starless(d: Def)
    decreases d
  {
    match d
    case Leaf(_, e) => !Starred(e)
    case Sub(items) => StarlessList(items)
    case Uni(items) => StarlessList(items)
  }

  predicate StarlessList(ds: seq<Def>)
    decreases ds
  {
    ds == [] || (StarlessList(ds[..|ds| - 1]) && Starless(ds[|ds| - 1]))
  }

  lemma UnderLast(p: string, ds: seq<Def>)
    requires ds != []
    ensures var n := |ds| - 1; UnderList(p, ds)[..n] == UnderList(p, ds[..n]) && UnderList(p, ds)[n] == Under(p, ds[n])
  {
  }

  /** `g` holds every member of `f` under the path, with its own type and count. */
  ghost predicate Kept(p: string, f: map<string, Field>, g: map<string, Field>) {
    forall x :: x in f ==> Join(p, x) in g && g[Join(p, x)].ctype == f[x].ctype && g[Join(p, x)].count == f[x].count
  }

  /** A member table that some member texts give. */
  ghost predicate Genuine(g: map<string, Field>) {
    forall k :: k in g ==> g[k].name == k && exists t, w :: g[k] == FieldOf(t, w)
  }

  lemma {:induction false} FieldsGenuine(d: Def)
    ensures Genuine(Fields(d))
    decreases d
  {
    match d
    case Leaf(t, e) => assert Fields(d)[FieldOf(t, e).name] == FieldOf(t, e);
    case Sub(items) => ListFieldsGenuine(items);
    case Uni(items) => ListFieldsGenuine(items);
  }

  lemma {:induction false} ListFieldsGenuine(ds: seq<Def>)
    ensures Genuine(ListFields(ds))
    decreases ds
  {
    if ds != [] {
      ListFieldsGenuine(ds[..|ds| - 1]);
      FieldsGenuine(ds[|ds| - 1]);
    }
  }

  /** If the members of an accepted structure are found under the path in any table, the path
      carries them all. */
  lemma {:induction false} KeptCarried(p: string, ds: seq<Def>, inUnion: bool, g: map<string, Field>)
    requires p != "" && !Starred(p) && StarlessList(ds) && AcceptedList(ds, inUnion)
    requires Genuine(g) && Kept(p, ListFields(ds), g)
    ensures CarriedList(p, ds)
    decreases ds, 1
  {
    hide FieldOf, Carries, Starred, Genuine, Join;
    if ds != [] {
      var init, d := ds[..|ds| - 1], ds[|ds| - 1];
      assert Kept(p, ListFields(init), g);
      assert Kept(p, Fields(d), g);
      KeptCarried(p, init, inUnion, g);
      KeptDef(p, d, inUnion, g);
    }
  }

  lemma {:induction false} KeptDef(p: string, d: Def, inUnion: bool, g: map<string, Field>)
    requires p != "" && !Starred(p) && Starless(d) && AcceptedDef(d, inUnion)
    requires Genuine(g) && Kept(p, Fields(d), g)
    ensures Carried(p, d)
    decreases d, 0
  {
    hide FieldOf, Carries, Starred, Join;
    match d
    case Leaf(t, e) =>
      var k := Join(p, FieldOf(t, e).name);
      assert k in g;
      var t', w :| g[k] == FieldOf(t', w);
      OnlyCarried(t, t', w, p, e);
    case Sub(items) => KeptCarried(p, items, false, g);
    case Uni(items) => KeptCarried(p, items, true, g);
  }

  lemma {:induction false} NothingInFront(d: Def)
    ensures Under("", d) == d && Carried("", d)
    decreases d, 0
  {
    match d
    case Leaf(_, _) =>
    case Sub(items) => NothingInFrontOf(items);
    case Uni(items) => NothingInFrontOf(items);
  }

  lemma {:induction false} NothingInFrontOf(ds: seq<Def>)
    ensures UnderList("", ds) == ds && CarriedList("", ds)
    decreases ds, 1
  {
    if ds != [] {
      UnderLast("", ds);
      NothingInFrontOf(ds[..|ds| - 1]);
      NothingInFront(ds[|ds| - 1]);
      assert UnderList("", ds) == UnderList("", ds)[..|ds| - 1] + [UnderList("", ds)[|ds| - 1]];
    }
  }

  /** `m'` is `m` with `p` in front of every key. */
  ghost predicate Renamed<T>(p: string, m: map<string, T>, m': map<string, T>) {
    && (forall k :: k in m ==> Join(p, k) in m' && m'[Join(p, k)] == m[k])
    && (forall k :: k in m' ==> |k| > |p| && k[|p| + 1..] in m && k == Join(p, k[|p| + 1..]))
  }

  lemma RenamedJoin<T>(p: string, m: map<string, T>, m': map<string, T>, n: map<string, T>, n': map<string, T>)
    requires p != "" && Renamed(p, m, m') && Renamed(p, n, n')
    ensures Renamed(p, m + n, m' + n')
  {
    forall k | k in m + n ensures Join(p, k) in m' + n' && (m' + n')[Join(p, k)] == (m + n)[k] {
      assert Join(p, k)[|p| + 1..] == k;
    }
  }

  lemma RenamedOne<T>(p: string, k: string, v: T)
    requires p != ""
    ensures Renamed(p, map[k := v], map[Join(p, k) := v])
  {
    assert Join(p, k)[|p| + 1..] == k;
  }

  /** A carried leaf under the path. */
  lemma FieldUnder(t: CType, p: string, e: string)
    requires Carries(p, e) && !Starred(p) && !Starred(e)
    ensures var f := FieldOf(t, e); FieldOf(t, Join(p, e)) == Field(Join(p, f.name), f.ctype, f.count)
  {
    CarriesExact(t, p, e);
  }

  /** The types and counts of the members, without their names. */
  function Kinds(f: map<string, Field>): map<string, (CType, nat)> {
    map k | k in f :: (f[k].ctype, f[k].count)
  }

  lemma KindsJoin(f: map<string, Field>, g: map<string, Field>)
    ensures Kinds(f + g) == Kinds(f) + Kinds(g)
  {
  }

  /** A carried definition has the same members under the path, and no others. */
  lemma {:induction false} FieldsUnder(p: string, d: Def)
    requires p != "" && !Starred(p) && Starless(d) && Carried(p, d)
    ensures Renamed(p, Kinds(Fields(d)), Kinds(Fields(Under(p, d))))
    decreases d, 0
  {
    hide FieldOf, Carries, Starred, Join, Renamed;
    match d
    case Leaf(t, e) =>
      FieldUnder(t, p, e);
      var f := FieldOf(t, e);
      RenamedOne(p, f.name, (f.ctype, f.count));
      assert Kinds(Fields(d)) == map[f.name := (f.ctype, f.count)];
      assert Kinds(Fields(Under(p, d))) == map[Join(p, f.name) := (f.ctype, f.count)];
    case Sub(items) => ListFieldsUnder(p, items);
    case Uni(items) => ListFieldsUnder(p, items);
  }

  lemma {:induction false} ListFieldsUnder(p: string, ds: seq<Def>)
    requires p != "" && !Starred(p) && StarlessList(ds) && CarriedList(p, ds)
    ensures Renamed(p, Kinds(ListFields(ds)), Kinds(ListFields(UnderList(p, ds))))
    decreases ds, 1
  {
    hide FieldOf, Carries, Starred, Join, Kinds;
    if ds == [] {
      assert Kinds(map[]) == map[] by {
        NoKinds();
      }
    } else {
      var init, d := ds[..|ds| - 1], ds[|ds| - 1];
      UnderLast(p, ds);
      ListFieldsUnder(p, init);
      FieldsUnder(p, d);
      KindsJoin(ListFields(init), Fields(d));
      KindsJoin(ListFields(UnderList(p, init)), Fields(Under(p, d)));
      RenamedJoin(p, Kinds(ListFields(init)), Kinds(ListFields(UnderList(p, init))), Kinds(Fields(d)), Kinds(Fields(Under(p, d))));
    }
  }

  lemma NoKinds()
    ensures Kinds(map[]) == map[]
  {
  }

  /** A path that itself reads as an array gives every member the one name it is cut to. */
  lemma {:induction false} OneName(p: string, ds: seq<Def>)
    requires !Starred(p) && ParseArray(p).1 > 0
    ensures ListNames(UnderList(p, ds)) <= {ParseArray(p).0}
    decreases ds, 1
  {
    hide ParseArray, FieldOf, Join;
    if ds != [] {
      UnderLast(p, ds);
      OneName(p, ds[..|ds| - 1]);
      OneNameDef(p, ds[|ds| - 1]);
    }
  }

  lemma {:induction false} OneNameDef(p: string, d: Def)
    requires !Starred(p) && ParseArray(p).1 > 0
    ensures Names(Under(p, d)) <= {ParseArray(p).0}
    decreases d, 0
  {
    hide ParseArray, FieldOf, Join, Starred;
    match d
    case Leaf(t, e) =>
      EmptyText();
      ParseIs(p);
      JoinIs(p, e);
      CutPath(p, e);
      FieldIs(t, Join(p, e));
    case Sub(items) => OneName(p, items);
    case Uni(items) => OneName(p, items);
  }
}
