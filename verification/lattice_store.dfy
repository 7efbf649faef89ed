/** What a lattice stores, and the plain meaning of its queries: filters over all edges in the order in
    which they were added. */
module LatticeStore {
  import opened Common
  import opened Utf8

  type Tag(==, !new)
  type Role(==, !new)
  type Item(==, !new)

  type Tags = set<Tag>

  datatype Mask = AnyTag | NoTag | OneOf(alternatives: seq<Tags>)

  predicate Matches(tags: Tags, mask: Mask) {
    mask.AnyTag? || (mask.OneOf? && exists alt :: alt in mask.alternatives && alt <= tags)
  }

  /** `canBeAppliedToImplicitSymbol`: looks for the symbol tag itself among the alternatives. */
  predicate AppliesToSymbol(symbol: Tags, mask: Mask) {
    mask.AnyTag? || (mask.OneOf? && symbol in mask.alternatives)
  }

  /** That is the same as matching, but for masks with an empty alternative and without the symbol tag. */
  lemma {:induction false} AppliesIffMatches(t: Tag, mask: Mask)
    ensures (AppliesToSymbol({t}, mask) <==> Matches({t}, mask))
       <==> !(mask.OneOf? && {} in mask.alternatives && {t} !in mask.alternatives)
  {
    forall alt: Tags | alt <= {t}
      ensures alt == {} || alt == {t}
    {
      if alt != {} {
        var x :| x in alt;
        assert alt == {t};
      }
    }
  }

  lemma MatchesMore(fewer: Tags, more: Tags, mask: Mask)
    requires fewer <= more && Matches(fewer, mask)
    ensures Matches(more, mask)
  {
  }

  // ---------- Edges ----------

  /** The symbol edge at a position of the text, or an edge of the graph by its number. */
  datatype EdgeDescriptor = Implicit(at: nat) | Explicit(id: nat)

  datatype EdgeUsage = EdgeUsage(edge: EdgeDescriptor, role: Option<Role>)

  /** A list of edges; without links, the symbol edges of the text from `begin` to `end`. */
  datatype EdgeSequence = EdgeSequence(links: seq<EdgeUsage>, begin: int, end: int)

  datatype Partition = Partition(tags: Tags, sequence: EdgeSequence, score: real, ruleId: int, treeChoice: int)

  /** Negative vertices are loose, the others are positions in the text. */
  datatype Edge = Edge(from: int, to: int, item: Item, tags: Tags, score: real, partitions: seq<Partition>)

  datatype Side = Outgoing | Incoming

  function End(e: Edge, side: Side): int {
    if side.Outgoing? then e.from else e.to
  }

  predicate Selected(edges: seq<Edge>, side: Side, v: int, mask: Mask, skip: set<nat>, id: nat)
    requires id < |edges|
  {
    End(edges[id], side) == v && Matches(edges[id].tags, mask) && id !in skip
  }

  /** The edges at `v` that match `mask` in the order in which they were added, without those to skip. */
  function Kept(edges: seq<Edge>, side: Side, v: int, mask: Mask, skip: set<nat>): seq<nat> {
    if edges == [] then []
    else
      var n: nat := |edges| - 1;
      Kept(edges[..n], side, v, mask, skip) + if Selected(edges, side, v, mask, skip, n) then [n] else []
  }

  lemma {:induction false} KeptMembers(edges: seq<Edge>, side: Side, v: int, mask: Mask, skip: set<nat>)
    ensures Ascending(Kept(edges, side, v, mask, skip))
    ensures forall id: nat :: id in Kept(edges, side, v, mask, skip) <==>
                           id < |edges| && Selected(edges, side, v, mask, skip, id)
    decreases |edges|
  {
    hide Matches;
    if edges != [] {
      var n: nat := |edges| - 1;
      KeptMembers(edges[..n], side, v, mask, skip);
      assert forall id: nat :: id < n ==>
               (Selected(edges, side, v, mask, skip, id) <==> Selected(edges[..n], side, v, mask, skip, id));
      hide Selected, Ascending;
      AscendMore(Kept(edges[..n], side, v, mask, skip), n);
    } else {
      assert Kept(edges, side, v, mask, skip) == [];
    }
  }

  lemma AscendMore(ids: seq<nat>, n: nat)
    requires Ascending(ids) && forall id :: id in ids ==> id < n
    ensures Ascending(ids + [n]) && ids + [] == ids
    ensures forall id: nat :: id in ids + [n] <==> id in ids || id == n
  {
    assert forall i :: 0 <= i < |ids| ==> ids[i] in ids;
  }

  lemma KeptAppend(edges: seq<Edge>, e: Edge, side: Side, v: int, mask: Mask, skip: set<nat>)
    requires |edges| !in skip
    ensures Kept(edges + [e], side, v, mask, skip)
         == Kept(edges, side, v, mask, skip) + if End(e, side) == v && Matches(e.tags, mask) then [|edges|] else []
  {
    hide Matches;
    assert (edges + [e])[..|edges|] == edges;
  }

  /** An edge that begins to match is among those skipped afterwards. */
  function Skipped(skip: set<nat>, id: nat, before: Tags, after: Tags, mask: Mask): set<nat> {
    if !Matches(before, mask) && Matches(after, mask) then skip + {id} else skip
  }

  /** An edge whose tags are enlarged stays where it is in a list, and is not put into any. */
  lemma {:induction false} KeptMerge(edges: seq<Edge>, id: nat, e: Edge, side: Side, v: int, mask: Mask,
                                    skip: set<nat>)
    requires id < |edges| && e.from == edges[id].from && e.to == edges[id].to && edges[id].tags <= e.tags
    ensures Kept(edges[id := e], side, v, mask, Skipped(skip, id, edges[id].tags, e.tags, mask))
         == Kept(edges, side, v, mask, skip)
    decreases |edges|
  {
    var n := |edges| - 1;
    var after, skip' := edges[id := e], Skipped(skip, id, edges[id].tags, e.tags, mask);
    if id < n {
      assert after[..n] == edges[..n][id := e];
      KeptMerge(edges[..n], id, e, side, v, mask, skip);
    } else {
      assert after[..n] == edges[..n];
      KeptFrame(edges[..n], side, v, mask, skip, skip');
      if Matches(edges[id].tags, mask) {
        MatchesMore(edges[id].tags, e.tags, mask);
      }
    }
  }

  lemma {:induction false} KeptFrame(edges: seq<Edge>, side: Side, v: int, mask: Mask, a: set<nat>, b: set<nat>)
    requires forall id: nat :: id < |edges| && Selected(edges, side, v, mask, {}, id) ==> (id in a <==> id in b)
    ensures Kept(edges, side, v, mask, a) == Kept(edges, side, v, mask, b)
    decreases |edges|
  {
    hide Matches;
    if edges != [] {
      var n: nat := |edges| - 1;
      assert forall id: nat :: id < n ==>
               (Selected(edges, side, v, mask, {}, id) <==> Selected(edges[..n], side, v, mask, {}, id));
      KeptFrame(edges[..n], side, v, mask, a, b);
      assert Selected(edges, side, v, mask, {}, n) ==> (n in a <==> n in b);
    }
  }

  lemma {:induction false} KeptNone(edges: seq<Edge>, side: Side, v: int, mask: Mask, skip: set<nat>)
    requires forall id :: 0 <= id < |edges| ==> End(edges[id], side) != v
    ensures Kept(edges, side, v, mask, skip) == []
    decreases |edges|
  {
    hide Matches;
    if edges != [] {
      KeptNone(edges[..|edges| - 1], side, v, mask, skip);
    }
  }

  predicate Sublist<T(==)>(a: seq<T>, b: seq<T>) {
    a == [] || (b != [] && ((a[|a| - 1] == b[|b| - 1] && Sublist(a[..|a| - 1], b[..|b| - 1]))
                            || Sublist(a, b[..|b| - 1])))
  }

  lemma SublistMore<T>(a: seq<T>, b: seq<T>, x: T)
    requires Sublist(a, b)
    ensures Sublist(a, b + [x]) && Sublist(a + [x], b + [x])
  {
    var longer, more := a + [x], b + [x];
    assert longer[..|longer| - 1] == a && more[..|more| - 1] == b;
  }

  /** What is kept is always a sublist of the plain filter. */
  lemma {:induction false} KeptIsSublist(edges: seq<Edge>, side: Side, v: int, mask: Mask, skip: set<nat>)
    ensures Sublist(Kept(edges, side, v, mask, skip), Kept(edges, side, v, mask, {}))
    decreases |edges|
  {
    hide Matches;
    if edges != [] {
      var n: nat := |edges| - 1;
      KeptIsSublist(edges[..n], side, v, mask, skip);
      var a, b := Kept(edges[..n], side, v, mask, skip), Kept(edges[..n], side, v, mask, {});
      SublistMore(a, b, n);
      assert a + [] == a && b + [] == b;
    } else {
      assert Kept(edges, side, v, mask, skip) == [];
    }
  }

  // ---------- Everything that is stored ----------

  datatype Key = Key(from: int, to: int, item: Item)

  /** The fields of the lattice apart from the lists kept at the vertices. `implicit`, `hidden` and
      `visible` are the positions whose bits are set; `missed` are, for each indexed mask, the edges that a
      merge made match only after they had been put into the lists. */
  datatype Content = Content(symbol: Tags, planes: Tags, text: Text, edges: seq<Edge>,
                             implicit: set<nat>, hidden: set<int>, visible: set<int>,
                             known: map<Key, seq<EdgeDescriptor>>,
                             masks: seq<Mask>, missed: seq<set<nat>>, loose: nat)

  /** A place where edges may begin or end. */
  predicate IsVertex(c: Content, v: int) {
    -(c.loose as int) <= v <= |c.text| && (0 <= v ==> Boundary(c.text, v))
  }

  /** A descriptor that denotes something. */
  predicate Denotes(c: Content, d: EdgeDescriptor) {
    match d
    case Implicit(at) => at < |c.text| && Boundary(c.text, at)
    case Explicit(id) => id < |c.edges|
  }

  function SourceOf(c: Content, d: EdgeDescriptor): int
    requires Denotes(c, d)
  {
    match d
    case Implicit(at) => at
    case Explicit(id) => c.edges[id].from
  }

  function TargetOf(c: Content, d: EdgeDescriptor): int
    requires Denotes(c, d)
  {
    match d
    case Implicit(at) => at + SymbolLength(c.text[at])
    case Explicit(id) => c.edges[id].to
  }

  function TagsOf(c: Content, d: EdgeDescriptor): Tags
    requires Denotes(c, d)
  {
    match d
    case Implicit(at) => c.symbol
    case Explicit(id) => c.edges[id].tags
  }

  predicate IsHidden(c: Content, d: EdgeDescriptor) {
    d.Implicit? && d.at in c.hidden && d.at !in c.visible
  }

  function SymbolMask(c: Content): Mask {
    OneOf([c.symbol])
  }

  // ---------- Queries ----------

  /** The position of the symbol before `v`. */
  function Prior(text: Text, v: nat): (p: nat)
    requires 0 < v <= |text|
    ensures p < v
  {
    if 1 < v && IsTrail(text[v - 1]) then Prior(text, v - 1) else v - 1
  }

  lemma {:induction false} PriorTrails(text: Text, v: nat)
    requires WellFormed(text) && 0 < v <= |text|
    ensures !IsTrail(text[Prior(text, v)])
    ensures forall j :: Prior(text, v) < j < v ==> IsTrail(text[j])
  {
    hide SymbolAt, IsTrail;
    if 1 < v && IsTrail(text[v - 1]) {
      PriorTrails(text, v - 1);
    } else if v == 1 {
      assert !IsTrail(text[0]);
    }
  }

  /** The symbol before a boundary ends there. */
  lemma PriorIsBefore(text: Text, v: nat)
    requires WellFormed(text) && 0 < v <= |text| && Boundary(text, v)
    ensures Boundary(text, Prior(text, v))
    ensures Prior(text, v) + SymbolLength(text[Prior(text, v)]) == v
  {
    hide SymbolLength, IsTrail, Prior;
    PriorTrails(text, v);
    NextBoundary(text, Prior(text, v));
    var next := Prior(text, v) + SymbolLength(text[Prior(text, v)]);
    assert forall j :: Prior(text, v) < j < v ==> !Boundary(text, j);
  }

  predicate ReadyMasks(c: Content) {
    |c.missed| == |c.masks| && (forall i, j :: 0 <= i < j < |c.masks| ==> c.masks[i] != c.masks[j])
  }

  function IndexOf(masks: seq<Mask>, mask: Mask): (i: nat)
    ensures i <= |masks| && (i < |masks| ==> masks[i] == mask) && (i == |masks| <==> mask !in masks)
  {
    if masks == [] then 0 else if masks[0] == mask then 0 else 1 + IndexOf(masks[1..], mask)
  }

  function Missed(c: Content, mask: Mask): set<nat>
    requires |c.missed| == |c.masks|
  {
    if mask.AnyTag? || mask !in c.masks then {} else c.missed[IndexOf(c.masks, mask)]
  }

  /** The symbol edge of the text at `v`, where there is one and the mask applies to it. */
  function SymbolEdge(c: Content, side: Side, v: int, mask: Mask): seq<EdgeDescriptor>
    requires v <= |c.text|
  {
    if !AppliesToSymbol(c.symbol, mask) then []
    else if side.Outgoing? then if v in c.implicit then [Implicit(v)] else []
    else if 0 < v && Prior(c.text, v) in c.implicit then [Implicit(Prior(c.text, v))] else []
  }

  function Explicits(ids: seq<nat>): (r: seq<EdgeDescriptor>)
    ensures |r| == |ids| && forall i :: 0 <= i < |ids| ==> r[i] == Explicit(ids[i])
  {
    if ids == [] then [] else Explicits(ids[..|ids| - 1]) + [Explicit(ids[|ids| - 1])]
  }

  /** What a query gives. */
  function EdgesAt(c: Content, side: Side, v: int, mask: Mask): seq<EdgeDescriptor>
    requires |c.missed| == |c.masks| && v <= |c.text|
  {
    SymbolEdge(c, side, v, mask) + Explicits(Kept(c.edges, side, v, mask, Missed(c, mask)))
  }

  /** What it should give: the symbol edge first, then all matching edges in the order of their addition. */
  function Filter(c: Content, side: Side, v: int, mask: Mask): seq<EdgeDescriptor>
    requires v <= |c.text|
  {
    (if Matches(c.symbol, mask) then SymbolEdge(c, side, v, AnyTag) else [])
    + Explicits(Kept(c.edges, side, v, mask, {}))
  }

  predicate NothingMissed(c: Content) {
    forall i :: 0 <= i < |c.missed| ==> c.missed[i] == {}
  }

  predicate NoEmptyAlternative(mask: Mask) {
    mask.OneOf? ==> {} !in mask.alternatives
  }

  /** As long as no merge has made an edge match late, queries are filters. */
  lemma {:induction false} EdgesAtIsFilter(c: Content, t: Tag, side: Side, v: int, mask: Mask)
    requires c.symbol == {t} && |c.missed| == |c.masks| && v <= |c.text|
    requires NothingMissed(c) && NoEmptyAlternative(mask)
    ensures EdgesAt(c, side, v, mask) == Filter(c, side, v, mask)
  {
    hide Matches, AppliesToSymbol, Kept, Explicits, Prior;
    AppliesIffMatches(t, mask);
    assert AppliesToSymbol(c.symbol, AnyTag) by { AppliesToAll(c.symbol); }
  }

  lemma AppliesToAll(symbol: Tags)
    ensures AppliesToSymbol(symbol, AnyTag)
  {
  }

  /** And always they give a sublist of the filter. */
  lemma {:induction false} EdgesAtIsSublist(c: Content, t: Tag, side: Side, v: int, mask: Mask)
    requires c.symbol == {t} && |c.missed| == |c.masks| && v <= |c.text| && NoEmptyAlternative(mask)
    ensures Sublist(EdgesAt(c, side, v, mask), Filter(c, side, v, mask))
  {
    hide Matches, AppliesToSymbol, Kept, Explicits, Prior;
    AppliesIffMatches(t, mask);
    AppliesToAll(c.symbol);
    var few, all := Kept(c.edges, side, v, mask, Missed(c, mask)), Kept(c.edges, side, v, mask, {});
    KeptIsSublist(c.edges, side, v, mask, Missed(c, mask));
    SublistExplicits(SymbolEdge(c, side, v, mask), few, all);
  }

  lemma ExplicitsLast(head: seq<EdgeDescriptor>, ids: seq<nat>)
    requires ids != []
    ensures head + Explicits(ids) == head + Explicits(ids[..|ids| - 1]) + [Explicit(ids[|ids| - 1])]
  {
    var init, last := Explicits(ids[..|ids| - 1]), Explicit(ids[|ids| - 1]);
    assert Explicits(ids) == init + [last];
    hide Explicits;
    Regroup(head, init, [last]);
  }

  lemma Regroup<T>(a: seq<T>, b: seq<T>, c: seq<T>)
    ensures a + (b + c) == a + b + c
  {
  }

  lemma NotAmong(ids: seq<nat>, id: nat)
    requires id !in ids
    ensures Explicit(id) !in Explicits(ids)
  {
    hide Explicits;
  }

  lemma {:induction false} SublistExplicits(head: seq<EdgeDescriptor>, a: seq<nat>, b: seq<nat>)
    requires Sublist(a, b)
    ensures Sublist(head + Explicits(a), head + Explicits(b))
    decreases |b|
  {
    if a == [] {
      assert Explicits(a) == [] && head + Explicits(a) == head;
      PrefixIsSublist(head, Explicits(b));
    } else {
      hide Explicits;
      var shorter := b[..|b| - 1];
      ExplicitsLast(head, b);
      if a[|a| - 1] == b[|b| - 1] && Sublist(a[..|a| - 1], shorter) {
        ExplicitsLast(head, a);
        SublistExplicits(head, a[..|a| - 1], shorter);
        SublistMore(head + Explicits(a[..|a| - 1]), head + Explicits(shorter), Explicit(a[|a| - 1]));
      } else {
        SublistExplicits(head, a, shorter);
        SublistMore(head + Explicits(a), head + Explicits(shorter), Explicit(b[|b| - 1]));
      }
    }
  }

  lemma {:induction false} PrefixIsSublist<T>(a: seq<T>, b: seq<T>)
    ensures Sublist(a, a + b)
    decreases |a| + |b|
  {
    if b != [] {
      assert (a + b)[..|a + b| - 1] == a + b[..|b| - 1];
      PrefixIsSublist(a, b[..|b| - 1]);
    } else if a != [] {
      assert a + b == a && a[..|a| - 1] + [] == a[..|a| - 1];
      PrefixIsSublist(a[..|a| - 1], []);
    }
  }

  lemma {:induction false} ExplicitsInjective(head: seq<EdgeDescriptor>, a: seq<nat>, b: seq<nat>)
    requires head + Explicits(a) == head + Explicits(b)
    ensures a == b
  {
    hide Explicits;
    var x, y := head + Explicits(a), head + Explicits(b);
    assert |a| == |b| by { assert |x| == |y|; }
    forall i | 0 <= i < |a|
      ensures a[i] == b[i]
    {
      assert x[|head| + i] == Explicit(a[i]) && y[|head| + i] == Explicit(b[i]);
    }
  }

  /** Exactly when a query is the filter: none of the edges missed for the mask is at the vertex and matches. */
  lemma {:induction false} EdgesAtIsFilterIff(c: Content, t: Tag, side: Side, v: int, mask: Mask)
    requires c.symbol == {t} && |c.missed| == |c.masks| && v <= |c.text| && NoEmptyAlternative(mask)
    ensures EdgesAt(c, side, v, mask) == Filter(c, side, v, mask)
       <==> forall id: nat :: id < |c.edges| && id in Missed(c, mask) ==> !Selected(c.edges, side, v, mask, {}, id)
  {
    hide Matches, AppliesToSymbol, Kept, Explicits, Prior, Missed;
    AppliesIffMatches(t, mask);
    AppliesToAll(c.symbol);
    var skip := Missed(c, mask);
    var few, all := Kept(c.edges, side, v, mask, skip), Kept(c.edges, side, v, mask, {});
    KeptMembers(c.edges, side, v, mask, skip);
    KeptMembers(c.edges, side, v, mask, {});
    if EdgesAt(c, side, v, mask) == Filter(c, side, v, mask) {
      ExplicitsInjective(SymbolEdge(c, side, v, mask), few, all);
      assert forall id: nat :: id in few <==> id in all;
      assert forall id: nat :: id < |c.edges| && id in skip ==> !Selected(c.edges, side, v, mask, skip, id);
    } else if forall id: nat :: id < |c.edges| && id in skip ==> !Selected(c.edges, side, v, mask, {}, id) {
      KeptFrame(c.edges, side, v, mask, skip, {});
    }
  }
}
