/** Dotted names: a referenced structure's members are its own members with the path in front, and
    they lie where its own layout puts them. */
module Paths {
  import opened Options
  import opened Definitions
  import opened Expansion

  // ----- the text of the expansion

  /** The members of `e` with `p` in front of each name. */
  function Prefixed(spell: Speller, p: string, e: Entry): Entry
    decreases e
  {
    if IsKeyword(e.kind) && e.sub.List? then Group(spell, e.kind, PrefixedList(spell, p, e.sub.items))
    else Entry(e.kind, Join(p, e.elem), NoList)
  }

  function PrefixedList(spell: Speller, p: string, items: seq<Entry>): (r: seq<Entry>)
    ensures |r| == |items|
    decreases items
  {
    seq(|items|, i requires 0 <= i < |items| => Prefixed(spell, p, items[i]))
  }

  /** The path `p`, then `q`. */
  function Path(p: string, q: string): string {
    if q == "" then p else Join(p, q)
  }

  lemma PathJoin(p: string, q: string, elem: string)
    ensures Join(Path(p, q), elem) == Join(p, Join(q, elem))
    ensures Join(q, elem) != "" ==> Path(p, Join(q, elem)) == Join(Path(p, q), elem)
  {
    if p != "" && q != "" {
      assert Join(Path(p, q), elem) == (p + "." + q) + "." + elem;
      assert (p + "." + q) + "." + elem == p + "." + (q + "." + elem);
      assert q + "." + elem == Join(q, elem);
      assert Join(q, elem)[0] == q[0];
    }
  }

  /** No reference in the list, nested lists included, has an empty member name. */
  predicate NamesReferences(reg: Registry, items: seq<Entry>)
    decreases items
  {
    forall i :: 0 <= i < |items| ==> NamesReference(reg, items[i])
  }

  predicate NamesReference(reg: Registry, e: Entry)
    decreases e
  {
    if IsReference(reg, e) then e.elem != ""
    else IsKeyword(e.kind) && e.sub.List? ==> NamesReferences(reg, e.sub.items)
  }

  /** What one entry expands to, case by case. */
  lemma LeafEntry(spell: Speller, reg: Registry, e: Entry, p: string, q: string, depth: nat)
    requires depth <= MAX_DEPTH && !IsReference(reg, e) && !IsKeyword(e.kind)
    ensures ExpandEntry(spell, reg, e, q, depth).Some?
    ensures ExpandEntry(spell, reg, e, Path(p, q), depth)
            == Some(Prefixed(spell, p, ExpandEntry(spell, reg, e, q, depth).value))
  {
    PointerKind(e.kind);
    var elem := if Starred(e.elem) then Without(e.elem, '*') else e.elem;
    PathJoin(p, q, elem);
  }

  lemma GroupPrefixed(spell: Speller, p: string, kind: string, items: seq<Entry>)
    requires IsKeyword(kind)
    ensures Prefixed(spell, p, Group(spell, kind, items)) == Group(spell, kind, PrefixedList(spell, p, items))
  {
  }

  /** Expanding under a longer path only adds to the names. */
  lemma {:induction false} ExpandUnder(spell: Speller, reg: Registry, items: seq<Entry>, p: string, q: string, depth: nat)
    requires q != "" || NamesReferences(reg, items)
    requires Expand(spell, reg, List(items), q, depth).Some?
    ensures Expand(spell, reg, List(items), Path(p, q), depth)
            == Some(PrefixedList(spell, p, Expand(spell, reg, List(items), q, depth).value))
    decreases MAX_DEPTH + 1 - depth
  {
    var r := Expand(spell, reg, List(items), q, depth).value;
    var r' := PrefixedList(spell, p, r);
    forall i | 0 <= i < |items| ensures ExpandEntry(spell, reg, items[i], Path(p, q), depth) == Some(r'[i]) {
      ExpandAt(spell, reg, items, q, depth, i);
      var e := items[i];
      assert NamesReference(reg, e) || q != "";
      if IsReference(reg, e) {
        PathJoin(p, q, e.elem);
        assert Join(q, e.elem) != "";
        ExpandUnder(spell, reg, reg[e.kind], p, Join(q, e.elem), depth + 1);
        GroupPrefixed(spell, p, "struct", r[i].sub.items);
      } else if IsKeyword(e.kind) {
        ExpandUnder(spell, reg, e.sub.items, p, q, depth + 1);
        GroupPrefixed(spell, p, e.kind, r[i].sub.items);
      } else {
        LeafEntry(spell, reg, e, p, q, depth);
      }
    }
    ExpandIs(spell, reg, items, Path(p, q), depth, r');
  }

  function FirstLeaf(e: Entry): string
    decreases e
  {
    if e.sub.List? && e.sub.items != [] then FirstLeaf(e.sub.items[0]) else e.elem
  }

  lemma {:induction false} PrefixedLeaf(spell: Speller, p: string, e: Entry)
    requires p != "" && Expanded(e)
    ensures |FirstLeaf(Prefixed(spell, p, e))| == |p| + 1 + |FirstLeaf(e)|
    decreases e
  {
    if IsKeyword(e.kind) {
      PrefixedLeaf(spell, p, e.sub.items[0]);
    }
  }

  /** Every dot of a longer path shows up in the names. */
  lemma {:induction false} LongerLeaf(spell: Speller, reg: Registry, items: seq<Entry>, n: string, q: string, depth: nat)
    requires |n| > |q|
    requires Expand(spell, reg, List(items), n, depth).Some? && Expand(spell, reg, List(items), q, depth).Some?
    ensures |FirstLeaf(Expand(spell, reg, List(items), n, depth).value[0])| >=
            |FirstLeaf(Expand(spell, reg, List(items), q, depth).value[0])| + |n| - |q| + (if q == "" then 1 else 0)
    decreases MAX_DEPTH + 1 - depth
  {
    ExpandAt(spell, reg, items, n, depth, 0);
    ExpandAt(spell, reg, items, q, depth, 0);
    var e := items[0];
    if IsReference(reg, e) {
      LongerLeaf(spell, reg, reg[e.kind], Join(n, e.elem), Join(q, e.elem), depth + 1);
    } else if IsKeyword(e.kind) {
      LongerLeaf(spell, reg, e.sub.items, n, q, depth + 1);
    }
  }

  /** A reference with an empty name keeps its members' bare names at the top, but not under a path. */
  lemma {:induction false} NamelessReference(spell: Speller, reg: Registry, items: seq<Entry>, depth: nat)
    requires !NamesReferences(reg, items) && Expand(spell, reg, List(items), "", depth).Some?
    ensures Expand(spell, reg, List(items), "p", depth)
            != Some(PrefixedList(spell, "p", Expand(spell, reg, List(items), "", depth).value))
    decreases MAX_DEPTH + 1 - depth
  {
    var r := Expand(spell, reg, List(items), "", depth).value;
    var i :| 0 <= i < |items| && !NamesReference(reg, items[i]);
    var e := items[i];
    ExpandAt(spell, reg, items, "", depth, i);
    if Expand(spell, reg, List(items), "p", depth).Some? {
      ExpandAt(spell, reg, items, "p", depth, i);
      var inner := r[i].sub.items;
      if IsReference(reg, e) {
        GroupPrefixed(spell, "p", "struct", inner);
        ExpandShape(spell, reg, reg[e.kind], "", depth + 1);
        PrefixedLeaf(spell, "p", inner[0]);
        assert Join("p", "") == "p.";
        LongerLeaf(spell, reg, reg[e.kind], "p.", "", depth + 1);
      } else {
        GroupPrefixed(spell, "p", e.kind, inner);
        NamelessReference(spell, reg, e.sub.items, depth + 1);
      }
      assert Expand(spell, reg, List(items), "p", depth).value[i] != Prefixed(spell, "p", r[i]);
    }
  }

  /** The members of a structure under a path are its own members with the path in front, exactly
      when every reference in it has a name. */
  lemma PathExact(spell: Speller, reg: Registry, items: seq<Entry>, depth: nat)
    requires Expand(spell, reg, List(items), "", depth).Some?
    ensures NamesReferences(reg, items) <==>
            forall p :: p != "" ==> Expand(spell, reg, List(items), p, depth)
                                    == Some(PrefixedList(spell, p, Expand(spell, reg, List(items), "", depth).value))
  {
    if NamesReferences(reg, items) {
      forall p | p != ""
        ensures Expand(spell, reg, List(items), p, depth)
                == Some(PrefixedList(spell, p, Expand(spell, reg, List(items), "", depth).value))
      {
        ExpandUnder(spell, reg, items, p, "", depth);
      }
    } else {
      NamelessReference(spell, reg, items, depth);
    }
  }

  // ----- a structure declared under the name of a keyword

  /** A group that comes out of an expansion is expanded again as a reference if its keyword has been
      declared as a structure.  The result then differs from the first one: a union turns into a
      struct, and the members of a struct get the group's whole text for a path, as long as that text
      is longer than the path they had. */
  lemma KeywordDeclared(spell: Speller, reg: Registry, e: Entry, depth: nat)
    requires IsKeyword(e.kind) && e.kind in reg && (e.kind == "union" <==> Starred(e.elem))
    requires Expand(spell, reg, List([e]), "", depth).Some?
    requires var inner := Expand(spell, reg, List([e]), "", depth).value[0].sub;
             inner.List? ==> !Starred(spell(inner.items)) && |spell(inner.items)| > |e.elem|
    ensures var r := Expand(spell, reg, List([e]), "", depth);
            Expand(spell, reg, List(r.value), "", depth) != r
  {
    var r := Expand(spell, reg, List([e]), "", depth).value;
    ExpandAt(spell, reg, [e], "", depth, 0);
    var inner := r[0].sub.items;
    assert IsReference(reg, r[0]);
    if Expand(spell, reg, List(r), "", depth) == Some(r) {
      ExpandAt(spell, reg, r, "", depth, 0);
      if e.kind == "struct" {
        LongerLeaf(spell, reg, reg["struct"], spell(inner), e.elem, depth + 1);
      }
    }
  }
}
