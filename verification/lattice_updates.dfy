/** What adding an edge does to the content of a lattice, whichever lists are kept beside it. */
module LatticeUpdates {
  import opened Common
  import opened Utf8
  import opened LatticeStore

  // ---------- What always holds ----------

  ghost predicate OkEdge(c: Content, e: Edge) {
    IsVertex(c, e.from) && IsVertex(c, e.to) && e.from != e.to && (0 <= e.from && 0 <= e.to ==> e.from < e.to)
  }

  ghost predicate OkEdges(c: Content) {
    forall id :: 0 <= id < |c.edges| ==> OkEdge(c, c.edges[id])
  }

  /** A descriptor kept for two vertices and an item joins them with that item. */
  ghost predicate Joins(c: Content, key: Key, d: EdgeDescriptor) {
    && Denotes(c, d) && SourceOf(c, d) == key.from && TargetOf(c, d) == key.to
    && (d.Explicit? ==> c.edges[d.id].item == key.item)
  }

  ghost predicate OkKnown(c: Content) {
    forall key, d :: key in c.known && d in c.known[key] ==> Joins(c, key, d)
  }

  ghost predicate OkImplicit(c: Content) {
    forall v :: v in c.implicit ==> v < |c.text| && Boundary(c.text, v)
  }

  ghost predicate OkMasks(c: Content) {
    && ReadyMasks(c) && AnyTag !in c.masks
    && forall i, id :: 0 <= i < |c.missed| && id in c.missed[i] ==> id < |c.edges|
  }

  ghost predicate Ok(c: Content) {
    WellFormed(c.text) && c.symbol !! c.planes && OkEdges(c) && OkKnown(c) && OkImplicit(c) && OkMasks(c)
  }

  // ---------- Queries answer with edges at the vertex ----------

  function Near(c: Content, side: Side, d: EdgeDescriptor): int
    requires Denotes(c, d)
  {
    if side.Outgoing? then SourceOf(c, d) else TargetOf(c, d)
  }

  lemma {:induction false} EdgesAtDenote(c: Content, side: Side, v: int, mask: Mask)
    requires Ok(c) && IsVertex(c, v)
    ensures forall d :: d in EdgesAt(c, side, v, mask) ==> Denotes(c, d) && Near(c, side, d) == v
  {
    hide OkEdges, OkKnown, Matches, SymbolLength, WellFormed, Boundary, AppliesToSymbol, Kept, Prior;
    KeptMembers(c.edges, side, v, mask, Missed(c, mask));
    forall d | d in EdgesAt(c, side, v, mask)
      ensures Denotes(c, d) && Near(c, side, d) == v
    {
      if d in SymbolEdge(c, side, v, mask) {
        if side.Incoming? {
          PriorIsBefore(c.text, v);
        }
      } else {
        var ids := Kept(c.edges, side, v, mask, Missed(c, mask));
        var i :| 0 <= i < |Explicits(ids)| && Explicits(ids)[i] == d;
        assert ids[i] in ids;
      }
    }
  }

  // ---------- Masks ----------

  function Indexed(c: Content, mask: Mask): Content {
    if mask.AnyTag? || mask in c.masks then c else c.(masks := c.masks + [mask], missed := c.missed + [{}])
  }

  lemma {:induction false} IndexOfMore(masks: seq<Mask>, more: Mask, mask: Mask)
    ensures mask in masks ==> IndexOf(masks + [more], mask) == IndexOf(masks, mask)
    ensures mask !in masks && mask == more ==> IndexOf(masks + [more], mask) == |masks|
  {
    if masks != [] {
      assert (masks + [more])[1..] == masks[1..] + [more];
      IndexOfMore(masks[1..], more, mask);
    }
  }

  /** Indexing a mask changes no answer. */
  lemma IndexedAnswers(c: Content, mask: Mask, other: Mask)
    requires |c.missed| == |c.masks|
    ensures |Indexed(c, mask).missed| == |Indexed(c, mask).masks|
    ensures Missed(Indexed(c, mask), other) == Missed(c, other)
  {
    IndexOfMore(c.masks, mask, other);
  }

  lemma IndexedIsOk(c: Content, mask: Mask)
    requires Ok(c)
    ensures Ok(Indexed(c, mask))
  {
    hide WellFormed, OkEdge, IsVertex, Boundary, SymbolLength;
    var after := Indexed(c, mask);
    assert forall e :: OkEdge(c, e) ==> OkEdge(after, e) by { SameEdges(c, after); }
    assert forall key, d :: Joins(c, key, d) ==> Joins(after, key, d);
  }

  lemma SameEdges(c: Content, after: Content)
    requires c.text == after.text && c.loose == after.loose
    ensures forall e :: OkEdge(c, e) <==> OkEdge(after, e)
  {
    hide Boundary;
  }

  // ---------- Sequences of edges ----------

  /** The first symbol edge at a position. */
  function FirstSymbol(c: Content, at: nat): Option<EdgeDescriptor>
    requires |c.missed| == |c.masks| && at <= |c.text|
  {
    var edges := EdgesAt(c, Outgoing, at, SymbolMask(c));
    if edges == [] then None else Some(edges[0])
  }

  predicate Placed(c: Content, s: EdgeSequence) {
    && (forall i :: 0 <= i < |s.links| ==> Denotes(c, s.links[i].edge))
    && 0 <= s.begin <= |c.text| && Boundary(c.text, s.begin)
    && 0 <= s.end <= |c.text| && Boundary(c.text, s.end)
  }

  datatype Check = Clear | Refers | Broken

  function CheckRange(c: Content, d: EdgeDescriptor, begin: nat, end: nat): Check
    requires |c.missed| == |c.masks| && WellFormed(c.text)
    requires end <= |c.text| && (begin < end ==> Boundary(c.text, begin))
    decreases end - begin
  {
    if begin >= end then Clear
    else
      match FirstSymbol(c, begin)
      case None => Broken
      case Some(e) =>
        if e == d then Refers
        else
          NextBoundary(c.text, begin);
          CheckRange(c, d, begin + SymbolLength(c.text[begin]), end)
  }

  /** Whether `d` comes up when the sequence is read, or the reading fails before. */
  function CheckSequence(c: Content, d: EdgeDescriptor, s: EdgeSequence): Check
    requires |c.missed| == |c.masks| && WellFormed(c.text) && Placed(c, s)
  {
    if s.links != [] then if exists u :: u in s.links && u.edge == d then Refers else Clear
    else if s.begin < s.end then CheckRange(c, d, s.begin, s.end)
    else Clear
  }

  /** Reading symbols of the text asks for the symbol mask. */
  function AfterReading(c: Content, s: EdgeSequence): Content {
    if s.links == [] && s.begin < s.end then Indexed(c, SymbolMask(c)) else c
  }

  // ---------- Adding ----------

  datatype Request = Request(from: int, to: int, item: Item, tags: Tags, sequence: EdgeSequence,
                             score: real, ruleId: int, treeChoice: int)

  datatype Error = LoopEdge | ReversedEdge | SelfReference | NoEdge

  datatype Answer = Added(edge: EdgeDescriptor) | Rejected(error: Error)

  function KeyOf(r: Request): Key {
    Key(r.from, r.to, r.item)
  }

  function GatherPlanes(c: Content, links: seq<EdgeUsage>): Tags
    requires forall i :: 0 <= i < |links| ==> Denotes(c, links[i].edge)
  {
    if links == [] then {}
    else GatherPlanes(c, links[..|links| - 1]) + TagsOf(c, links[|links| - 1].edge) * c.planes
  }

  /** Without a plane of its own, an edge is put into the planes of its parts. */
  function Inherited(c: Content, r: Request): Request
    requires Placed(c, r.sequence)
  {
    if r.tags * c.planes == {} then r.(tags := r.tags + GatherPlanes(c, r.sequence.links)) else r
  }

  function Isoplanar(c: Content, tags: Tags, ds: seq<EdgeDescriptor>): (r: Option<EdgeDescriptor>)
    requires forall d :: d in ds ==> Denotes(c, d)
    ensures r.Some? ==> r.value in ds && TagsOf(c, r.value) * c.planes == tags * c.planes
    ensures r.None? ==> forall d :: d in ds ==> TagsOf(c, d) * c.planes != tags * c.planes
  {
    if ds == [] then None
    else if TagsOf(c, ds[0]) * c.planes == tags * c.planes then Some(ds[0])
    else Isoplanar(c, tags, ds[1..])
  }

  function SkipAll(missed: seq<set<nat>>, masks: seq<Mask>, id: nat, before: Tags, after: Tags): (r: seq<set<nat>>)
    requires |missed| == |masks|
    ensures |r| == |missed|
    ensures forall i :: 0 <= i < |r| ==> r[i] == Skipped(missed[i], id, before, after, masks[i])
  {
    if missed == [] then []
    else [Skipped(missed[0], id, before, after, masks[0])] + SkipAll(missed[1..], masks[1..], id, before, after)
  }

  function MergedEdge(e: Edge, r: Request): Edge {
    var tags := e.tags + r.tags;
    e.(tags := tags,
       score := if r.score > e.score then r.score else e.score,
       partitions := e.partitions + [Partition(tags, r.sequence, r.score, r.ruleId, r.treeChoice)])
  }

  function Merged(c: Content, id: nat, r: Request): Content
    requires id < |c.edges| && |c.missed| == |c.masks|
  {
    var e := MergedEdge(c.edges[id], r);
    c.(edges := c.edges[id := e], missed := SkipAll(c.missed, c.masks, id, c.edges[id].tags, e.tags))
  }

  /** A second symbol edge makes the implicit ones beside it visible. */
  function Shown(c: Content, from: int, to: int): Content
    requires |c.missed| == |c.masks| && from <= |c.text| && to <= |c.text|
  {
    var c' := Indexed(c, SymbolMask(c));
    IndexedAnswers(c, SymbolMask(c), SymbolMask(c));
    if EdgesAt(c', Outgoing, from, SymbolMask(c)) == [] then c'
    else
      var ins := EdgesAt(c', Incoming, to, SymbolMask(c));
      c'.(visible := c.visible + {from} + if ins != [] && Denotes(c', ins[0]) then {SourceOf(c', ins[0])} else {})
  }

  /** The edge is just the next symbol of the text, and no such edge is there. */
  predicate IsPlainSymbol(c: Content, r: Request) {
    && r.tags == c.symbol && 0 <= r.from < |c.text| && 0 <= r.to
    && r.from + SymbolLength(c.text[r.from]) == r.to && r.from !in c.implicit
  }

  function Remembered(c: Content, key: Key, d: EdgeDescriptor): Content {
    c.(known := c.known[key := (if key in c.known then c.known[key] else []) + [d]])
  }

  function NewEdge(r: Request): Edge {
    Edge(r.from, r.to, r.item, r.tags, r.score, [Partition(r.tags, r.sequence, r.score, r.ruleId, r.treeChoice)])
  }

  /** The positions from one vertex of the text up to another. */
  function Span(first: int, past: int): (r: set<int>)
    ensures forall v :: v in r <==> (0 <= first <= v < past)
    decreases past - first
  {
    if 0 <= first < past then {first} + Span(first + 1, past) else {}
  }

  function Appended(c: Content, r: Request): Content {
    c.(edges := c.edges + [NewEdge(r)], hidden := c.hidden + Span(r.from, r.to))
  }

  function Inserted(c: Content, r: Request): (Content, EdgeDescriptor)
    requires |c.missed| == |c.masks| && r.from <= |c.text| && r.to <= |c.text|
  {
    var c' := if r.tags == c.symbol then Shown(c, r.from, r.to) else c;
    if IsPlainSymbol(c', r) then
      (Remembered(c'.(implicit := c'.implicit + {r.from}), KeyOf(r), Implicit(r.from)), Implicit(r.from))
    else
      (Remembered(Appended(c', r), KeyOf(r), Explicit(|c.edges|)), Explicit(|c.edges|))
  }

  function WithKey(c: Content, key: Key): Content {
    if key in c.known then c else c.(known := c.known[key := []])
  }

  ghost predicate Addable(c: Content, r: Request) {
    IsVertex(c, r.from) && IsVertex(c, r.to) && Placed(c, r.sequence)
  }

  /** `tags` have been inherited, and `d` is the edge in the same plane. */
  ghost function Joined(c: Content, r: Request, d: EdgeDescriptor): (Content, Answer)
    requires Ok(c) && Addable(c, r) && Denotes(c, d)
  {
    IndexedIsOk(c, SymbolMask(c));
    var c' := AfterReading(c, r.sequence);
    match CheckSequence(c, d, r.sequence)
    case Refers => (c', Rejected(SelfReference))
    case Broken => (c', Rejected(NoEdge))
    case Clear =>
      match d
      case Explicit(id) => (Merged(c', id, r), Added(d))
      case Implicit(at) =>
        var (c'', e) := Inserted(c'.(implicit := c'.implicit - {at}), r.(tags := c.symbol + r.tags));
        (c'', Added(e))
  }

  /** `addEdge`. */
  ghost function AfterAdd(c: Content, r: Request): (Content, Answer)
    requires Ok(c) && Addable(c, r)
  {
    var r' := Inherited(c, r);
    if r.from == r.to then (c, Rejected(LoopEdge))
    else if 0 <= r.from && 0 <= r.to && r.from > r.to then (c, Rejected(ReversedEdge))
    else
      WithKeyIsOk(c, KeyOf(r));
      var c' := WithKey(c, KeyOf(r));
      match Isoplanar(c', r'.tags, c'.known[KeyOf(r)])
      case None => var (c'', e) := Inserted(c', r'); (c'', Added(e))
      case Some(d) => Joined(c', r', d)
  }

  lemma WithKeyIsOk(c: Content, key: Key)
    requires Ok(c)
    ensures Ok(WithKey(c, key)) && key in WithKey(c, key).known
    ensures forall d :: d in WithKey(c, key).known[key] ==> Joins(WithKey(c, key), key, d)
    ensures forall r :: Addable(c, r) ==> Addable(WithKey(c, key), r)
  {
    hide WellFormed, OkEdge, IsVertex, Boundary, SymbolLength;
    var after := WithKey(c, key);
    SameEdges(c, after);
    assert forall v :: IsVertex(c, v) ==> IsVertex(after, v) by { SameVertices(c, after); }
    assert forall k, d :: Joins(c, k, d) ==> Joins(after, k, d);
  }

  lemma SameVertices(c: Content, after: Content)
    requires c.text == after.text && c.loose == after.loose
    ensures forall v :: IsVertex(c, v) <==> IsVertex(after, v)
  {
    hide Boundary;
  }

  // ---------- Adding keeps all that ----------

  lemma RememberedIsOk(c: Content, key: Key, d: EdgeDescriptor)
    requires Ok(c) && Joins(c, key, d)
    ensures Ok(Remembered(c, key, d)) && Joins(Remembered(c, key, d), key, d)
  {
    hide WellFormed, OkEdge, IsVertex, Boundary, SymbolLength;
    var after := Remembered(c, key, d);
    SameEdges(c, after);
    assert forall k, e :: Joins(c, k, e) ==> Joins(after, k, e);
    forall k, e | k in after.known && e in after.known[k]
      ensures Joins(after, k, e)
    {
      if k == key && e != d {
        assert key in c.known && e in c.known[key];
      }
    }
  }

  lemma ShownIsOk(c: Content, from: int, to: int)
    requires Ok(c) && from <= |c.text| && to <= |c.text|
    ensures Ok(Shown(c, from, to))
    ensures var after := Shown(c, from, to);
            after == Indexed(c, SymbolMask(c)).(visible := after.visible) && c.visible <= after.visible
  {
    hide WellFormed, OkEdge, IsVertex, Boundary, SymbolLength, EdgesAt, Joins;
    IndexedIsOk(c, SymbolMask(c));
    IndexedAnswers(c, SymbolMask(c), SymbolMask(c));
    var before, after := Indexed(c, SymbolMask(c)), Shown(c, from, to);
    SameEdges(before, after);
    SameJoins(before, after);
  }

  lemma SameJoins(c: Content, after: Content)
    requires c.text == after.text && c.edges == after.edges
    ensures forall key, d :: Joins(c, key, d) <==> Joins(after, key, d)
  {
    hide Boundary, SymbolLength;
  }

  lemma AppendedIsOk(c: Content, r: Request)
    requires Ok(c) && OkEdge(c, NewEdge(r))
    ensures Ok(Appended(c, r)) && Joins(Appended(c, r), KeyOf(r), Explicit(|c.edges|))
  {
    hide WellFormed, OkEdge, IsVertex, Boundary, SymbolLength;
    var after := Appended(c, r);
    SameEdges(c, after);
    assert forall k, d :: Joins(c, k, d) ==> Joins(after, k, d);
  }

  lemma ImplicitIsOk(c: Content, implicit: set<nat>)
    requires Ok(c) && forall v :: v in implicit ==> v < |c.text| && Boundary(c.text, v)
    ensures Ok(c.(implicit := implicit))
  {
    hide WellFormed, OkEdge, IsVertex, Boundary, SymbolLength, Joins;
    var after := c.(implicit := implicit);
    SameEdges(c, after);
    SameJoins(c, after);
  }

  lemma {:induction false} InsertedIsOk(c: Content, r: Request)
    requires Ok(c) && OkEdge(c, NewEdge(r))
    ensures var (after, d) := Inserted(c, r); Ok(after) && Joins(after, KeyOf(r), d)
  {
    hide WellFormed, Boundary, SymbolLength, Shown, OkEdges, OkKnown, Joins, Remembered, Appended;
    var shown := if r.tags == c.symbol then Shown(c, r.from, r.to) else c;
    if r.tags == c.symbol {
      ShownIsOk(c, r.from, r.to);
    }
    SameEdges(c, shown);
    if IsPlainSymbol(shown, r) {
      ImplicitIsOk(shown, shown.implicit + {r.from});
      assert Joins(shown.(implicit := shown.implicit + {r.from}), KeyOf(r), Implicit(r.from)) by {
        PlainSymbolJoins(shown, r);
      }
      RememberedIsOk(shown.(implicit := shown.implicit + {r.from}), KeyOf(r), Implicit(r.from));
    } else {
      AppendedIsOk(shown, r);
      RememberedIsOk(Appended(shown, r), KeyOf(r), Explicit(|c.edges|));
    }
  }

  lemma PlainSymbolJoins(c: Content, r: Request)
    requires IsPlainSymbol(c, r) && IsVertex(c, r.from)
    ensures Joins(c.(implicit := c.implicit + {r.from}), KeyOf(r), Implicit(r.from))
  {
    hide SymbolLength;
  }

  lemma MergedIsOk(c: Content, id: nat, r: Request)
    requires Ok(c) && id < |c.edges|
    ensures Ok(Merged(c, id, r))
  {
    hide WellFormed, OkEdge, IsVertex, Boundary, SymbolLength, Matches;
    var after := Merged(c, id, r);
    assert forall e :: OkEdge(c, e) ==> OkEdge(after, e) by { SameEdges(c, after); }
    assert OkEdge(after, after.edges[id]) by { SameEnds(after, c.edges[id], after.edges[id]); }
    assert forall k, d :: Joins(c, k, d) ==> Joins(after, k, d);
  }

  lemma SameEnds(c: Content, e: Edge, f: Edge)
    requires OkEdge(c, e) && e.from == f.from && e.to == f.to
    ensures OkEdge(c, f)
  {
  }

  lemma AfterReadingIsOk(c: Content, s: EdgeSequence)
    requires Ok(c)
    ensures Ok(AfterReading(c, s))
  {
    hide Ok;
    IndexedIsOk(c, SymbolMask(c));
  }

  lemma JoinedIsOk(c: Content, r: Request, d: EdgeDescriptor)
    requires Ok(c) && Addable(c, r) && OkEdge(c, NewEdge(r)) && Joins(c, KeyOf(r), d)
    ensures var (after, answer) := Joined(c, r, d);
            Ok(after) && (answer.Added? ==> Joins(after, KeyOf(r), answer.edge))
  {
    hide WellFormed, IsVertex, Boundary, SymbolLength, OkEdges, OkKnown, CheckSequence, Inserted, Merged, OkEdge;
    AfterReadingIsOk(c, r.sequence);
    var read := AfterReading(c, r.sequence);
    if CheckSequence(c, d, r.sequence).Clear? {
      match d {
        case Explicit(id) =>
          MergedIsOk(read, id, r);
          MergedJoins(read, id, r, KeyOf(r));
        case Implicit(at) =>
          var without := read.(implicit := read.implicit - {at});
          ImplicitIsOk(read, without.implicit);
          SameEdges(c, without);
          SameEnds(without, NewEdge(r), NewEdge(r.(tags := c.symbol + r.tags)));
          InsertedIsOk(without, r.(tags := c.symbol + r.tags));
      }
    }
  }

  lemma MergedJoins(c: Content, id: nat, r: Request, key: Key)
    requires Ok(c) && id < |c.edges| && Joins(c, key, Explicit(id))
    ensures Joins(Merged(c, id, r), key, Explicit(id))
  {
    hide Ok;
  }

  /** Adding an edge keeps the content in order, and answers with an edge between the two vertices. */
  lemma {:induction false} AfterAddIsOk(c: Content, r: Request)
    requires Ok(c) && Addable(c, r)
    ensures var (after, answer) := AfterAdd(c, r);
            && Ok(after) && (answer.Added? ==> Joins(after, KeyOf(r), answer.edge))
            && (answer.Rejected? && answer.error.LoopEdge? <==> r.from == r.to)
            && (answer.Rejected? && answer.error.ReversedEdge? <==> 0 <= r.to < r.from)
  {
    hide WellFormed, IsVertex, Boundary, SymbolLength, OkEdges, OkKnown, OkImplicit, Inserted, Joined, Inherited,
         WithKey, Isoplanar, Denotes, SourceOf, TargetOf, Placed;
    if r.from != r.to && !(0 <= r.from && 0 <= r.to && r.from > r.to) {
      WithKeyIsOk(c, KeyOf(r));
      var c', r' := WithKey(c, KeyOf(r)), Inherited(c, r);
      InheritedEnds(c, r);
      assert OkEdge(c', NewEdge(r'));
      var iso := Isoplanar(c', r'.tags, c'.known[KeyOf(r)]);
      if iso.None? {
        InsertedIsOk(c', r');
      } else {
        JoinedIsOk(c', r', iso.value);
        JoinedAnswers(c', r', iso.value);
      }
    }
  }

  lemma InheritedEnds(c: Content, r: Request)
    requires Placed(c, r.sequence)
    ensures var r' := Inherited(c, r);
            r'.from == r.from && r'.to == r.to && r'.item == r.item && r'.sequence == r.sequence && r.tags <= r'.tags
  {
    hide Placed;
  }

  lemma JoinedAnswers(c: Content, r: Request, d: EdgeDescriptor)
    requires Ok(c) && Addable(c, r) && Denotes(c, d)
    ensures var answer := Joined(c, r, d).1; answer.Rejected? ==> answer.error.SelfReference? || answer.error.NoEdge?
  {
    hide Ok, Addable, CheckSequence, Inserted, Merged;
  }

  // ---------- What stays, and when nothing is missed ----------

  /** The edge keeps its place; its tags can only grow. */
  ghost predicate Kin(a: Edge, b: Edge) {
    a.from == b.from && a.to == b.to && a.item == b.item && a.tags <= b.tags && a.score <= b.score
    && a.partitions <= b.partitions
  }

  /** Nothing is taken from the edges, the text and the masks, and no hidden or visible bit is cleared. */
  ghost predicate Grown(c: Content, after: Content) {
    && after.symbol == c.symbol && after.planes == c.planes && c.text <= after.text && c.loose <= after.loose
    && |c.edges| <= |after.edges| && (forall id :: 0 <= id < |c.edges| ==> Kin(c.edges[id], after.edges[id]))
    && c.hidden <= after.hidden && c.visible <= after.visible && c.masks <= after.masks
  }

  ghost predicate SamePlaces(c: Content, after: Content) {
    after.text == c.text && after.loose == c.loose
  }

  lemma GrownTwice(a: Content, b: Content, c: Content)
    requires Grown(a, b) && Grown(b, c)
    ensures Grown(a, c)
  {
    forall id | 0 <= id < |a.edges|
      ensures Kin(a.edges[id], c.edges[id])
    {
      assert Kin(a.edges[id], b.edges[id]) && Kin(b.edges[id], c.edges[id]);
    }
  }

  lemma InsertedGrows(c: Content, r: Request)
    requires Ok(c) && r.from <= |c.text| && r.to <= |c.text|
    ensures Grown(c, Inserted(c, r).0) && SamePlaces(c, Inserted(c, r).0)
    ensures NothingMissed(c) ==> NothingMissed(Inserted(c, r).0)
  {
    hide WellFormed, OkEdge, OkEdges, OkKnown, Shown, IsPlainSymbol, Span;
    if r.tags == c.symbol {
      ShownIsOk(c, r.from, r.to);
    }
  }

  lemma MergedGrows(c: Content, id: nat, r: Request)
    requires Ok(c) && id < |c.edges|
    ensures Grown(c, Merged(c, id, r)) && SamePlaces(c, Merged(c, id, r))
    ensures NothingMissed(c) && r.tags <= c.edges[id].tags ==> NothingMissed(Merged(c, id, r))
  {
    hide WellFormed, OkEdge, OkEdges, OkKnown, Matches;
    assert r.tags <= c.edges[id].tags ==> c.edges[id].tags + r.tags == c.edges[id].tags;
  }

  /** The tags the request brings once it has inherited planes, and the edge it is to be merged with. */
  ghost function Partner(c: Content, r: Request): Option<EdgeDescriptor>
    requires Ok(c) && Addable(c, r)
  {
    if KeyOf(r) in c.known then Isoplanar(c, Inherited(c, r).tags, c.known[KeyOf(r)]) else None
  }

  /** The request is merged with an edge of the graph that lacks one of its tags. */
  ghost predicate Enlarges(c: Content, r: Request)
    requires Ok(c) && Addable(c, r)
  {
    var d := Partner(c, r);
    d.Some? && d.value.Explicit? && !(Inherited(c, r).tags <= TagsOf(c, d.value))
  }

  lemma JoinedGrows(c: Content, r: Request, d: EdgeDescriptor)
    requires Ok(c) && Addable(c, r) && Denotes(c, d)
    ensures Grown(c, Joined(c, r, d).0) && SamePlaces(c, Joined(c, r, d).0)
    ensures NothingMissed(c) && (d.Explicit? ==> r.tags <= TagsOf(c, d)) ==> NothingMissed(Joined(c, r, d).0)
  {
    hide WellFormed, Boundary, SymbolLength, OkEdge, OkEdges, OkKnown, CheckSequence, Inserted, Merged;
    AfterReadingIsOk(c, r.sequence);
    var read := AfterReading(c, r.sequence);
    if CheckSequence(c, d, r.sequence).Clear? {
      match d {
        case Explicit(id) =>
          MergedGrows(read, id, r);
        case Implicit(at) =>
          ImplicitIsOk(read, read.implicit - {at});
          InsertedGrows(read.(implicit := read.implicit - {at}), r.(tags := c.symbol + r.tags));
      }
    }
  }

  /** Adding only adds; and unless it enlarges the tags of an edge of the graph, nothing is missed that was
      not missed before. */
  lemma {:induction false} AfterAddGrows(c: Content, r: Request)
    requires Ok(c) && Addable(c, r)
    ensures Grown(c, AfterAdd(c, r).0) && SamePlaces(c, AfterAdd(c, r).0)
    ensures NothingMissed(c) && !Enlarges(c, r) ==> NothingMissed(AfterAdd(c, r).0)
  {
    hide WellFormed, Boundary, SymbolLength, OkEdges, OkKnown, OkImplicit, Inserted, Joined, Inherited, SourceOf,
         TargetOf, Placed, OkMasks;
    if r.from != r.to && !(0 <= r.from && 0 <= r.to && r.from > r.to) {
      WithKeyIsOk(c, KeyOf(r));
      var c', r' := WithKey(c, KeyOf(r)), Inherited(c, r);
      InheritedEnds(c, r);
      var iso := Isoplanar(c', r'.tags, c'.known[KeyOf(r)]);
      if iso.None? {
        InsertedGrows(c', r');
      } else {
        SamePartner(c, r);
        JoinedGrows(c', r', iso.value);
      }
    }
  }

  lemma SamePartner(c: Content, r: Request)
    requires Ok(c) && Addable(c, r)
    ensures var c' := WithKey(c, KeyOf(r));
            && Ok(c') && KeyOf(r) in c'.known
            && (forall d :: d in c'.known[KeyOf(r)] ==> Denotes(c', d))
            && Partner(c, r) == Isoplanar(c', Inherited(c, r).tags, c'.known[KeyOf(r)])
  {
    hide WellFormed, Boundary, SymbolLength, OkEdges, OkImplicit, OkMasks, SourceOf, TargetOf, Placed, Inherited;
    WithKeyIsOk(c, KeyOf(r));
  }

  /** The edge that is answered carries the tags asked for, and is found by every mask that matches it as
      long as nothing is missed. */
  lemma {:induction false} MatchingIsFound(c: Content, d: EdgeDescriptor, mask: Mask)
    requires Ok(c) && NothingMissed(c) && Denotes(c, d) && Matches(TagsOf(c, d), mask)
    requires d.Implicit? ==> d.at in c.implicit && AppliesToSymbol(c.symbol, mask)
    ensures SourceOf(c, d) <= |c.text| && d in EdgesAt(c, Outgoing, SourceOf(c, d), mask)
    ensures TargetOf(c, d) <= |c.text| && d in EdgesAt(c, Incoming, TargetOf(c, d), mask)
  {
    hide Matches, AppliesToSymbol, OkKnown, Explicits, Boundary, SymbolLength, Kept, Prior;
    match d {
      case Implicit(at) =>
        NextBoundary(c.text, at);
        SymbolIsPrior(c.text, at);
      case Explicit(id) =>
        assert OkEdge(c, c.edges[id]);
        FoundAt(c, Outgoing, id, mask);
        FoundAt(c, Incoming, id, mask);
    }
  }

  lemma SymbolIsPrior(text: Text, at: nat)
    requires WellFormed(text) && at < |text| && Boundary(text, at)
    ensures at + SymbolLength(text[at]) <= |text| && Prior(text, at + SymbolLength(text[at])) == at
  {
    hide SymbolLength, Prior, WellFormed, IsTrail;
    var next := at + SymbolLength(text[at]);
    NextBoundary(text, at);
    PriorTrails(text, next);
    var p := Prior(text, next);
    assert Boundary(text, p);
    assert IsTrail(text[at]) || at <= p;
  }

  lemma FoundAt(c: Content, side: Side, id: nat, mask: Mask)
    requires |c.missed| == |c.masks| && NothingMissed(c) && id < |c.edges| && Matches(c.edges[id].tags, mask)
    requires End(c.edges[id], side) <= |c.text|
    ensures Explicit(id) in EdgesAt(c, side, End(c.edges[id], side), mask)
  {
    hide Matches, Kept, Explicits, SymbolEdge;
    var v := End(c.edges[id], side);
    KeptMembers(c.edges, side, v, mask, Missed(c, mask));
    assert Selected(c.edges, side, v, mask, Missed(c, mask), id);
    var ids := Kept(c.edges, side, v, mask, Missed(c, mask));
    var i :| 0 <= i < |ids| && ids[i] == id;
    assert Explicits(ids)[i] == Explicit(id);
  }

  /** A merge that makes an edge match a mask already indexed is not noticed by later queries. */
  lemma {:induction false} LateMatchIsMissed(c: Content, id: nat, r: Request, mask: Mask)
    requires Ok(c) && id < |c.edges| && mask in c.masks
    requires !Matches(c.edges[id].tags, mask) && Matches(c.edges[id].tags + r.tags, mask)
    ensures var after, v := Merged(c, id, r), c.edges[id].from;
            && v <= |c.text| && after.text == c.text && |after.missed| == |after.masks|
            && Explicit(id) !in EdgesAt(after, Outgoing, v, mask)
            && Explicit(id) in Filter(after, Outgoing, v, mask)
  {
    hide Matches, Kept, WellFormed, OkKnown, Explicits, AppliesToSymbol;
    assert OkEdge(c, c.edges[id]);
    var after, v := Merged(c, id, r), c.edges[id].from;
    var skip := Missed(after, mask);
    assert id in skip by { assert c.masks[IndexOf(c.masks, mask)] == mask; }
    KeptMembers(after.edges, Outgoing, v, mask, skip);
    KeptMembers(after.edges, Outgoing, v, mask, {});
    var few, all := Kept(after.edges, Outgoing, v, mask, skip), Kept(after.edges, Outgoing, v, mask, {});
    assert Selected(after.edges, Outgoing, v, mask, {}, id);
    var i :| 0 <= i < |all| && all[i] == id;
    assert Explicits(all)[i] == Explicit(id);
    NotAmong(few, id);
  }

  /** The edge that is answered has what was asked for: its tags, the item, a partition with the sequence. */
  ghost predicate Carries(after: Content, d: EdgeDescriptor, r: Request) {
    && Denotes(after, d) && r.tags <= TagsOf(after, d)
    && (d.Implicit? ==> d.at in after.implicit)
    && (d.Explicit? ==>
          && r.score <= after.edges[d.id].score
          && exists part :: part in after.edges[d.id].partitions && part.sequence == r.sequence
                            && part.ruleId == r.ruleId && part.treeChoice == r.treeChoice)
  }

  lemma InsertedCarries(c: Content, r: Request)
    requires Ok(c) && OkEdge(c, NewEdge(r))
    ensures var (after, d) := Inserted(c, r);
            && Carries(after, d, r)
            && |after.edges| == |c.edges| + (if d.Explicit? then 1 else 0)
            && (d.Implicit? ==> r.tags == c.symbol)
            && (d.Explicit? ==> Span(r.from, r.to) <= after.hidden)
  {
    hide WellFormed, OkEdges, OkKnown, OkImplicit, Shown, SymbolLength, Span;
    if r.tags == c.symbol {
      ShownIsOk(c, r.from, r.to);
    }
    var (after, d) := Inserted(c, r);
    if d.Explicit? {
      assert after.edges[d.id] == NewEdge(r);
      assert NewEdge(r).partitions[0] in NewEdge(r).partitions;
    }
  }

  lemma MergedCarries(c: Content, id: nat, r: Request)
    requires Ok(c) && id < |c.edges|
    ensures Carries(Merged(c, id, r), Explicit(id), r) && |Merged(c, id, r).edges| == |c.edges|
  {
    hide WellFormed, OkEdges, OkKnown, OkImplicit, SkipAll;
    var e := Merged(c, id, r).edges[id];
    assert e == MergedEdge(c.edges[id], r);
    assert e.partitions[|e.partitions| - 1] in e.partitions;
  }

  lemma JoinedCarries(c: Content, r: Request, d: EdgeDescriptor)
    requires Ok(c) && Addable(c, r) && OkEdge(c, NewEdge(r)) && Denotes(c, d)
    ensures var (after, answer) := Joined(c, r, d);
            answer.Added? ==>
              && Carries(after, answer.edge, r)
              && |after.edges| == |c.edges| + (if answer.edge.Explicit? && d.Implicit? then 1 else 0)
              && (d.Explicit? ==> answer.edge == d)
              && (d.Implicit? && !(r.tags <= c.symbol) ==> answer.edge.Explicit?)
  {
    hide WellFormed, IsVertex, Boundary, SymbolLength, OkEdges, OkKnown, CheckSequence, Inserted, Merged, OkEdge;
    AfterReadingIsOk(c, r.sequence);
    var read := AfterReading(c, r.sequence);
    if CheckSequence(c, d, r.sequence).Clear? {
      match d {
        case Explicit(id) =>
          MergedCarries(read, id, r);
        case Implicit(at) =>
          var without := read.(implicit := read.implicit - {at});
          ImplicitIsOk(read, without.implicit);
          SameEdges(c, without);
          SameEnds(without, NewEdge(r), NewEdge(r.(tags := c.symbol + r.tags)));
          InsertedCarries(without, r.(tags := c.symbol + r.tags));
      }
    }
  }

  /** An accepted request is carried out: the edge that is answered has what was asked for, and is the
      partner if that is an edge of the graph. */
  lemma {:induction false} AddedIsCarried(c: Content, r: Request)
    requires Ok(c) && Addable(c, r)
    ensures var (after, answer) := AfterAdd(c, r);
            answer.Added? ==>
              && Carries(after, answer.edge, Inherited(c, r))
              && (|after.edges| == |c.edges| + 1 <==>
                    answer.edge.Explicit? && !(Partner(c, r).Some? && Partner(c, r).value.Explicit?))
              && |c.edges| <= |after.edges| <= |c.edges| + 1
              && (Partner(c, r).Some? && Partner(c, r).value.Explicit? ==> answer.edge == Partner(c, r).value)
              && (answer.edge.Implicit? ==> Inherited(c, r).tags <= c.symbol)
  {
    hide WellFormed, IsVertex, Boundary, SymbolLength, OkEdges, OkKnown, OkImplicit, Inserted, Joined, Inherited,
         WithKey, Isoplanar, Denotes, SourceOf, TargetOf, Placed, Carries, Partner;
    if r.from != r.to && !(0 <= r.from && 0 <= r.to && r.from > r.to) {
      WithKeyIsOk(c, KeyOf(r));
      var c', r' := WithKey(c, KeyOf(r)), Inherited(c, r);
      InheritedEnds(c, r);
      KeyedEdge(c, r, r');
      SamePartner(c, r);
      SameStore(c, KeyOf(r));
      var iso := Isoplanar(c', r'.tags, c'.known[KeyOf(r)]);
      if iso.None? {
        InsertedCarries(c', r');
      } else {
        JoinedCarries(c', r', iso.value);
      }
    }
  }

  lemma KeyedEdge(c: Content, r: Request, r': Request)
    requires Ok(c) && Addable(c, r) && r'.from == r.from && r'.to == r.to
    requires r.from != r.to && !(0 <= r.from && 0 <= r.to && r.from > r.to)
    ensures OkEdge(WithKey(c, KeyOf(r)), NewEdge(r'))
  {
    hide Boundary, WellFormed, OkEdges, OkKnown, OkImplicit, OkMasks, Placed;
  }

  lemma SameStore(c: Content, key: Key)
    ensures WithKey(c, key).edges == c.edges && WithKey(c, key).symbol == c.symbol
  {
  }

  lemma {:induction false} IsoplanarStays(c: Content, after: Content, tags: Tags, ds: seq<EdgeDescriptor>,
                                         d: EdgeDescriptor)
    requires (forall e :: e in ds ==> Denotes(c, e)) && Isoplanar(c, tags, ds).Some?
    requires after.planes == c.planes && forall e :: e in ds + [d] ==> Denotes(after, e)
    requires forall e :: e in ds ==> TagsOf(after, e) == TagsOf(c, e)
    ensures Isoplanar(after, tags, ds + [d]) == Isoplanar(c, tags, ds)
    decreases ds
  {
    hide Denotes, TagsOf;
    assert (ds + [d])[0] == ds[0] && (ds + [d])[1..] == ds[1..] + [d];
    if Isoplanar(c, tags, ds) != Some(ds[0]) {
      IsoplanarStays(c, after, tags, ds[1..], d);
    }
  }

  /** `after` is `c` with one more edge and without the symbol edge at `gone`. */
  ghost predicate Exchanged(c: Content, after: Content, e: Edge, gone: nat) {
    && after.edges == c.edges + [e] && after.implicit == c.implicit - {gone}
    && after.text == c.text && after.symbol == c.symbol && after.planes == c.planes && after.loose == c.loose
    && |after.missed| == |after.masks| && |c.missed| == |c.masks|
    && Missed(after, SymbolMask(c)) == Missed(c, SymbolMask(c))
  }

  lemma UpgradedContent(c: Content, r: Request, at: nat)
    requires Ok(c) && Addable(c, r) && OkEdge(c, NewEdge(r)) && KeyOf(r) in c.known
    requires |c.missed| == |c.masks| && CheckSequence(c, Implicit(at), r.sequence).Clear?
    requires Joins(c, KeyOf(r), Implicit(at)) && !(r.tags <= c.symbol)
    ensures var after := Joined(c, r, Implicit(at)).0;
            && Exchanged(c, after, NewEdge(r.(tags := c.symbol + r.tags)), at)
            && after.known == c.known[KeyOf(r) := c.known[KeyOf(r)] + [Explicit(|c.edges|)]]
    ensures Joined(c, r, Implicit(at)).1 == Added(Explicit(|c.edges|))
  {
    hide WellFormed, OkEdges, OkKnown, OkImplicit, Boundary, SymbolLength, Denotes, SourceOf, TargetOf, IsVertex,
         CheckSequence, Missed;
    assert c.symbol + r.tags != c.symbol;
    IndexedAnswers(c, SymbolMask(c), SymbolMask(c));
    SameMasks(AfterReading(c, r.sequence), Joined(c, r, Implicit(at)).0, SymbolMask(c));
  }

  lemma SameMasks(c: Content, after: Content, mask: Mask)
    requires |c.missed| == |c.masks| && after.masks == c.masks && after.missed == c.missed
    ensures Missed(after, mask) == Missed(c, mask)
  {
  }

  lemma ExchangedDenotes(c: Content, after: Content, e: Edge, gone: nat, d: EdgeDescriptor)
    requires Exchanged(c, after, e, gone) && Denotes(c, d)
    ensures Denotes(after, d) && TagsOf(after, d) == TagsOf(c, d)
  {
    hide Boundary;
  }

  lemma {:induction false} PlanesStay(c: Content, after: Content, e: Edge, gone: nat, links: seq<EdgeUsage>)
    requires Exchanged(c, after, e, gone) && forall i :: 0 <= i < |links| ==> Denotes(c, links[i].edge)
    ensures forall i :: 0 <= i < |links| ==> Denotes(after, links[i].edge)
    ensures GatherPlanes(after, links) == GatherPlanes(c, links)
    decreases |links|
  {
    hide Denotes, TagsOf, Exchanged;
    forall i | 0 <= i < |links|
      ensures Denotes(after, links[i].edge)
    {
      ExchangedDenotes(c, after, e, gone, links[i].edge);
    }
    if links != [] {
      PlanesStay(c, after, e, gone, links[..|links| - 1]);
      ExchangedDenotes(c, after, e, gone, links[|links| - 1].edge);
      assert after.planes == c.planes by { SamePlanes(c, after, e, gone); }
    }
  }

  lemma SamePlanes(c: Content, after: Content, e: Edge, gone: nat)
    requires Exchanged(c, after, e, gone)
    ensures after.planes == c.planes && after.text == c.text && after.loose == c.loose && after.symbol == c.symbol
    ensures |after.missed| == |after.masks| && |after.edges| == |c.edges| + 1
  {
  }

  /** The first symbol edge at a position is still the first, unless it is the one that is gone. */
  lemma FirstSymbolStays(c: Content, after: Content, e: Edge, gone: nat, at: nat)
    requires Ok(c) && Exchanged(c, after, e, gone) && at <= |c.text|
    requires FirstSymbol(c, at).Some? && FirstSymbol(c, at) != Some(Implicit(gone))
    ensures at <= |after.text| && |after.missed| == |after.masks|
    ensures FirstSymbol(after, at) == FirstSymbol(c, at)
  {
    hide WellFormed, OkEdges, OkKnown, OkImplicit, Kept, Explicits, Matches, IsTrail;
    var mask, skip := SymbolMask(c), Missed(c, SymbolMask(c));
    assert |c.edges| !in skip;
    KeptAppend(c.edges, e, Outgoing, at, mask, skip);
    var ids, head := Kept(c.edges, Outgoing, at, mask, skip), SymbolEdge(c, Outgoing, at, mask);
    assert mask.alternatives == [c.symbol];
    assert at == gone ==> at !in c.implicit;
    assert SymbolEdge(after, Outgoing, at, mask) == head;
    ExplicitsMore(ids, |c.edges|);
  }

  lemma ExplicitsMore(ids: seq<nat>, id: nat)
    ensures |Explicits(ids + [id])| > 0 && ids + [] == ids
    ensures ids != [] ==> Explicits(ids + [id])[0] == Explicits(ids)[0]
  {
  }

  lemma {:induction false} RangeStaysClear(c: Content, after: Content, e: Edge, gone: nat, begin: nat, end: nat)
    requires Ok(c) && Exchanged(c, after, e, gone) && WellFormed(c.text) && |c.missed| == |c.masks|
    requires end <= |c.text| && (begin < end ==> Boundary(c.text, begin))
    requires CheckRange(c, Implicit(gone), begin, end).Clear?
    ensures WellFormed(after.text) && |after.missed| == |after.masks| && after.text == c.text
    ensures CheckRange(after, Implicit(gone), begin, end).Clear?
    decreases end - begin
  {
    hide Ok, Exchanged, WellFormed, SymbolLength, Boundary, FirstSymbol;
    SamePlanes(c, after, e, gone);
    if begin < end {
      FirstSymbolStays(c, after, e, gone, begin);
      NextBoundary(c.text, begin);
      RangeStaysClear(c, after, e, gone, begin + SymbolLength(c.text[begin]), end);
    }
  }

  lemma StaysClear(c: Content, after: Content, e: Edge, gone: nat, s: EdgeSequence)
    requires Ok(c) && Exchanged(c, after, e, gone) && WellFormed(c.text) && |c.missed| == |c.masks|
    requires Placed(c, s) && CheckSequence(c, Implicit(gone), s).Clear?
    ensures WellFormed(after.text) && |after.missed| == |after.masks| && Placed(after, s)
    ensures CheckSequence(after, Implicit(gone), s).Clear?
  {
    hide Ok, Exchanged, WellFormed, Boundary, Denotes, CheckRange;
    SamePlanes(c, after, e, gone);
    PlanesStay(c, after, e, gone, s.links);
    if s.links == [] && s.begin < s.end {
      RangeStaysClear(c, after, e, gone, s.begin, s.end);
    }
  }

  /** Once a symbol edge has been replaced by an edge with more tags, its old descriptor stays the first of
      its plane, and the same request adds another edge each time. */
  lemma {:induction false} UpgradeRepeats(c: Content, r: Request, at: nat)
    requires Ok(c) && Addable(c, r)
    requires Partner(c, r) == Some(Implicit(at)) && !(Inherited(c, r).tags <= c.symbol)
    requires CheckSequence(c, Implicit(at), r.sequence).Clear?
    ensures var (after, answer) := AfterAdd(c, r);
            && answer == Added(Explicit(|c.edges|)) && |after.edges| == |c.edges| + 1
            && Ok(after) && Addable(after, r) && after.symbol == c.symbol
            && Partner(after, r) == Some(Implicit(at)) && Inherited(after, r) == Inherited(c, r)
            && CheckSequence(after, Implicit(at), r.sequence).Clear?
  {
    hide WellFormed, OkEdges, OkImplicit, OkMasks, Boundary, SymbolLength, SourceOf, TargetOf, IsVertex, Joined,
         CheckSequence, Placed, GatherPlanes, Isoplanar, Exchanged;
    AfterAddIsOk(c, r);
    OkIsReady(c);
    var key, r' := KeyOf(r), Inherited(c, r);
    assert Joins(c, key, Implicit(at));
    SymbolGoesForward(c, key, at);
    InheritedEnds(c, r);
    assert WithKey(c, key) == c;
    WithKeyIsOk(c, key);
    KeyedEdge(c, r, r');
    UpgradedContent(c, r', at);
    var after, e := AfterAdd(c, r).0, NewEdge(r'.(tags := c.symbol + r'.tags));
    assert after == Joined(c, r', Implicit(at)).0;
    SamePlanes(c, after, e, at);
    SameVertices(c, after);
    StaysClear(c, after, e, at, r.sequence);
    SameInherited(c, after, e, at, r);
    forall d | d in c.known[key]
      ensures Denotes(c, d) && Denotes(after, d) && TagsOf(after, d) == TagsOf(c, d)
    {
      assert Joins(c, key, d);
      ExchangedDenotes(c, after, e, at, d);
    }
    IsoplanarStays(c, after, r'.tags, c.known[key], Explicit(|c.edges|));
  }

  lemma OkIsReady(c: Content)
    requires Ok(c)
    ensures WellFormed(c.text) && |c.missed| == |c.masks|
  {
    hide WellFormed, OkEdges, OkKnown, OkImplicit;
  }

  lemma SameInherited(c: Content, after: Content, e: Edge, gone: nat, r: Request)
    requires Exchanged(c, after, e, gone) && Placed(c, r.sequence) && Placed(after, r.sequence)
    ensures Inherited(after, r) == Inherited(c, r)
  {
    hide Boundary, Denotes;
    PlanesStay(c, after, e, gone, r.sequence.links);
  }

  lemma SymbolGoesForward(c: Content, key: Key, at: nat)
    requires Ok(c) && Joins(c, key, Implicit(at))
    ensures 0 <= key.from < key.to
  {
  }

  // ---------- Runs ----------

  function Empty(symbol: Tags, planes: Tags): Content {
    Content(symbol, planes, [], [], {}, {}, {}, map[], [], [], 0)
  }

  datatype Step = Add(request: Request) | Query(mask: Mask) | AddVertex | AppendText(text: Text)

  ghost predicate Allowed(c: Content, step: Step) {
    match step
    case Add(r) => Addable(c, r)
    case Query(mask) => true
    case AddVertex => true
    case AppendText(text) => WellFormed(text)
  }

  ghost function After(c: Content, step: Step): Content
    requires Ok(c) && Allowed(c, step)
  {
    match step
    case Add(r) => AfterAdd(c, r).0
    case Query(mask) => Indexed(c, mask)
    case AddVertex => c.(loose := c.loose + 1)
    case AppendText(text) => c.(text := c.text + text)
  }

  lemma LongerIsWellFormed(a: Text, b: Text)
    requires WellFormed(a) && WellFormed(b)
    ensures WellFormed(a + b)
    ensures forall v: nat :: v <= |a| && Boundary(a, v) ==> Boundary(a + b, v)
  {
    hide SequenceLength, IsTrail;
    var all := a + b;
    forall i: nat | i < |all| && !IsTrail(all[i])
      ensures SymbolAt(all, i)
    {
      if i < |a| {
        assert SymbolAt(a, i);
      } else {
        assert all[|a|..] == b && SymbolAt(b, i - |a|);
        ShiftSymbol(all, |a|, i - |a|);
      }
    }
  }

  lemma AppendedTextIsOk(c: Content, text: Text)
    requires Ok(c) && WellFormed(text)
    ensures Ok(c.(text := c.text + text))
  {
    hide WellFormed, OkMasks, IsTrail, SymbolLength, Boundary;
    var after := c.(text := c.text + text);
    LongerIsWellFormed(c.text, text);
    assert forall v :: IsVertex(c, v) ==> IsVertex(after, v);
    assert forall e :: OkEdge(c, e) ==> OkEdge(after, e);
    assert forall key, d :: Joins(c, key, d) ==> Joins(after, key, d);
    MasksAreOk(c, after);
  }

  lemma MasksAreOk(c: Content, after: Content)
    requires OkMasks(c) && after.masks == c.masks && after.missed == c.missed && |c.edges| <= |after.edges|
    ensures OkMasks(after)
  {
  }

  lemma LooseIsOk(c: Content)
    requires Ok(c)
    ensures Ok(c.(loose := c.loose + 1))
  {
    hide WellFormed, OkMasks, IsTrail, SymbolLength, Boundary;
    var after := c.(loose := c.loose + 1);
    assert forall v :: IsVertex(c, v) ==> IsVertex(after, v);
    assert forall e :: OkEdge(c, e) ==> OkEdge(after, e);
    assert forall key, d :: Joins(c, key, d) ==> Joins(after, key, d);
    MasksAreOk(c, after);
  }

  lemma AfterIsOk(c: Content, step: Step)
    requires Ok(c) && Allowed(c, step)
    ensures Ok(After(c, step)) && Grown(c, After(c, step))
    ensures NothingMissed(c) && (step.Add? ==> !Enlarges(c, step.request)) ==> NothingMissed(After(c, step))
  {
    hide Ok, Addable, WellFormed, Enlarges, AfterAdd;
    match step {
      case Add(r) =>
        AfterAddIsOk(c, r);
        AfterAddGrows(c, r);
      case Query(mask) =>
        IndexedIsOk(c, mask);
      case AddVertex =>
        LooseIsOk(c);
      case AppendText(text) =>
        AppendedTextIsOk(c, text);
    }
  }

  ghost predicate Run(c: Content, steps: seq<Step>, target: Content)
    requires Ok(c)
    decreases |steps|
  {
    if steps == [] then c == target
    else
      Allowed(c, steps[0])
      && (AfterIsOk(c, steps[0]);
          Run(After(c, steps[0]), steps[1..], target))
  }

  /** No step of the run merges new tags into an edge of the graph. */
  ghost predicate NeverEnlarges(c: Content, steps: seq<Step>)
    requires Ok(c)
    decreases |steps|
  {
    steps != [] && Allowed(c, steps[0]) ==>
      && (steps[0].Add? ==> !Enlarges(c, steps[0].request))
      && (AfterIsOk(c, steps[0]);
          NeverEnlarges(After(c, steps[0]), steps[1..]))
  }

  /** A whole run only adds: every edge keeps its number, ends and item, and its tags, score and partitions
      only grow. */
  lemma {:induction false} RunGrows(c: Content, steps: seq<Step>, target: Content)
    requires Ok(c) && Run(c, steps, target)
    ensures Ok(target) && Grown(c, target)
    decreases |steps|
  {
    hide Ok, Grown, After, Allowed;
    if steps == [] {
      assert Grown(c, c) by { GrownSelf(c); }
    } else {
      AfterIsOk(c, steps[0]);
      RunGrows(After(c, steps[0]), steps[1..], target);
      GrownTwice(c, After(c, steps[0]), target);
    }
  }

  lemma GrownSelf(c: Content)
    ensures Grown(c, c)
  {
  }

  lemma {:induction false} RunMissesNothing(c: Content, steps: seq<Step>, target: Content)
    requires Ok(c) && Run(c, steps, target)
    ensures Ok(target) && target.symbol == c.symbol
    ensures NothingMissed(c) && NeverEnlarges(c, steps) ==> NothingMissed(target)
    decreases |steps|
  {
    hide Ok, NothingMissed, After, Enlarges, Allowed;
    if steps != [] {
      AfterIsOk(c, steps[0]);
      RunMissesNothing(After(c, steps[0]), steps[1..], target);
    }
  }

  /** Whatever is added, asked and appended, and in whichever order: a query gives a sublist of the filter of
      all edges at the vertex, and the filter itself if no step enlarged the tags of an edge of the graph. */
  lemma {:induction false} RunsAnswerFilters(t: Tag, planes: Tags, steps: seq<Step>, c: Content,
                                            side: Side, v: int, mask: Mask)
    requires t !in planes
    requires Ok(Empty({t}, planes)) && Run(Empty({t}, planes), steps, c)
    requires v <= |c.text| && NoEmptyAlternative(mask)
    ensures Ok(c) && Sublist(EdgesAt(c, side, v, mask), Filter(c, side, v, mask))
    ensures NeverEnlarges(Empty({t}, planes), steps) ==> EdgesAt(c, side, v, mask) == Filter(c, side, v, mask)
  {
    hide WellFormed, OkEdges, OkKnown, OkImplicit, EdgesAt, Filter, Run, NeverEnlarges, NothingMissed,
         NoEmptyAlternative;
    var empty := Empty({t}, planes);
    assert NothingMissed(empty) by { EmptyIsOk(t, planes); }
    RunMissesNothing(empty, steps, c);
    EdgesAtIsSublist(c, t, side, v, mask);
    if NeverEnlarges(empty, steps) {
      EdgesAtIsFilter(c, t, side, v, mask);
    }
  }

  lemma EmptyIsOk(t: Tag, planes: Tags)
    requires t !in planes
    ensures Ok(Empty({t}, planes)) && NothingMissed(Empty({t}, planes))
  {
  }
}
