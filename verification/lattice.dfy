/** `Lattice`: the edge store with its lists of edge numbers at each vertex for each mask asked before. */
module Lattice {
  import opened Common
  import opened Utf8
  import opened LatticeStore
  import opened LatticeUpdates

  /** For each indexed mask, the matching edges that leave and that enter the vertex. */
  datatype VertexEntry = VertexEntry(outEdgesIndex: seq<seq<nat>>, inEdgesIndex: seq<seq<nat>>) {
    function Lists(side: Side): seq<seq<nat>> {
      if side.Outgoing? then outEdgesIndex else inEdgesIndex
    }
  }

  type Vertices = map<int, VertexEntry>

  // ---------- What the lists hold ----------

  ghost predicate ListsHold(c: Content, side: Side, v: int, lists: seq<seq<nat>>)
    requires |c.missed| == |c.masks|
  {
    && |lists| == |c.masks|
    && forall ix :: 0 <= ix < |lists| ==> lists[ix] == Kept(c.edges, side, v, c.masks[ix], c.missed[ix])
  }

  ghost predicate EntryHolds(c: Content, v: int, entry: VertexEntry)
    requires |c.missed| == |c.masks|
  {
    ListsHold(c, Outgoing, v, entry.outEdgesIndex) && ListsHold(c, Incoming, v, entry.inEdgesIndex)
  }

  ghost predicate EndsKnown(vertices: Vertices, edges: seq<Edge>) {
    forall id :: 0 <= id < |edges| ==> edges[id].from in vertices && edges[id].to in vertices
  }

  ghost predicate LooseKnown(vertices: Vertices, loose: nat) {
    forall v :: -(loose as int) <= v < 0 ==> v in vertices
  }

  ghost predicate Indexes(vertices: Vertices, c: Content)
    requires |c.missed| == |c.masks|
  {
    && EndsKnown(vertices, c.edges) && LooseKnown(vertices, c.loose)
    && forall v :: v in vertices ==> EntryHolds(c, v, vertices[v])
  }

  lemma EntryFrame(c: Content, after: Content, v: int, entry: VertexEntry)
    requires |c.missed| == |c.masks| && EntryHolds(c, v, entry)
    requires after.edges == c.edges && after.masks == c.masks && after.missed == c.missed
    ensures EntryHolds(after, v, entry)
  {
    hide Kept;
  }

  lemma IndexesFrame(vertices: Vertices, c: Content, after: Content)
    requires |c.missed| == |c.masks| && Indexes(vertices, c)
    requires after.edges == c.edges && after.masks == c.masks && after.missed == c.missed && after.loose == c.loose
    ensures Indexes(vertices, after)
  {
    hide EntryHolds, EndsKnown, LooseKnown;
    forall v | v in vertices
      ensures EntryHolds(after, v, vertices[v])
    {
      EntryFrame(c, after, v, vertices[v]);
    }
  }

  /** A vertex without an entry has no edges. */
  lemma NoEntryNoEdges(vertices: Vertices, c: Content, side: Side, v: int, mask: Mask, skip: set<nat>)
    requires |c.missed| == |c.masks| && Indexes(vertices, c) && v !in vertices
    ensures Kept(c.edges, side, v, mask, skip) == []
  {
    hide EntryHolds;
    KeptNone(c.edges, side, v, mask, skip);
  }

  function EmptyLists(n: nat): (r: seq<seq<nat>>)
    ensures |r| == n && forall i :: 0 <= i < n ==> r[i] == []
  {
    if n == 0 then [] else EmptyLists(n - 1) + [[]]
  }

  lemma NewVertexHolds(vertices: Vertices, c: Content, v: int)
    requires |c.missed| == |c.masks| && Indexes(vertices, c) && v !in vertices
    ensures EntryHolds(c, v, VertexEntry(EmptyLists(|c.masks|), EmptyLists(|c.masks|)))
  {
    hide Kept, Indexes;
    forall side, ix | 0 <= ix < |c.masks|
      ensures Kept(c.edges, side, v, c.masks[ix], c.missed[ix]) == []
    {
      NoEntryNoEdges(vertices, c, side, v, c.masks[ix], c.missed[ix]);
    }
  }

  /** One more mask: the lists of the plain filter are added. */
  lemma IndexedListsHold(c: Content, mask: Mask, side: Side, v: int, lists: seq<seq<nat>>)
    requires |c.missed| == |c.masks| && ListsHold(c, side, v, lists) && !mask.AnyTag? && mask !in c.masks
    ensures |Indexed(c, mask).missed| == |Indexed(c, mask).masks|
    ensures ListsHold(Indexed(c, mask), side, v, lists + [Kept(c.edges, side, v, mask, {})])
  {
    hide Kept;
  }

  /** The loop over all masks after a new edge. */
  function WithEdge(lists: seq<seq<nat>>, masks: seq<Mask>, tags: Tags, id: nat): (r: seq<seq<nat>>)
    requires |lists| == |masks|
    ensures |r| == |lists|
    ensures forall ix :: 0 <= ix < |r| ==> r[ix] == lists[ix] + if Matches(tags, masks[ix]) then [id] else []
  {
    if lists == [] then []
    else [lists[0] + if Matches(tags, masks[0]) then [id] else []] + WithEdge(lists[1..], masks[1..], tags, id)
  }

  lemma AppendedListsHold(c: Content, e: Edge, side: Side, v: int, lists: seq<seq<nat>>)
    requires OkMasks(c) && ListsHold(c, side, v, lists)
    ensures ListsHold(c.(edges := c.edges + [e]), side, v,
                      if End(e, side) == v then WithEdge(lists, c.masks, e.tags, |c.edges|) else lists)
  {
    hide Kept, Matches;
    forall ix | 0 <= ix < |c.masks|
      ensures |c.edges| !in c.missed[ix]
      ensures Kept(c.edges + [e], side, v, c.masks[ix], c.missed[ix])
           == Kept(c.edges, side, v, c.masks[ix], c.missed[ix])
              + if End(e, side) == v && Matches(e.tags, c.masks[ix]) then [|c.edges|] else []
    {
      assert |c.edges| !in c.missed[ix];
      KeptAppend(c.edges, e, side, v, c.masks[ix], c.missed[ix]);
    }
  }

  lemma MergedListsHold(c: Content, id: nat, r: Request, side: Side, v: int, lists: seq<seq<nat>>)
    requires |c.missed| == |c.masks| && ListsHold(c, side, v, lists) && id < |c.edges|
    ensures ListsHold(Merged(c, id, r), side, v, lists)
  {
    hide Kept, Matches, Skipped;
    var e := MergedEdge(c.edges[id], r);
    forall ix | 0 <= ix < |c.masks|
      ensures Kept(c.edges[id := e], side, v, c.masks[ix],
                   Skipped(c.missed[ix], id, c.edges[id].tags, e.tags, c.masks[ix]))
           == Kept(c.edges, side, v, c.masks[ix], c.missed[ix])
    {
      KeptMerge(c.edges, id, e, side, v, c.masks[ix], c.missed[ix]);
    }
  }

  /** A merge leaves all lists as they are. */
  lemma IndexesMerged(vertices: Vertices, c: Content, id: nat, r: Request)
    requires |c.missed| == |c.masks| && Indexes(vertices, c) && id < |c.edges|
    ensures Indexes(vertices, Merged(c, id, r))
  {
    hide ListsHold, SkipAll;
    forall v | v in vertices
      ensures EntryHolds(Merged(c, id, r), v, vertices[v])
    {
      MergedListsHold(c, id, r, Outgoing, v, vertices[v].outEdgesIndex);
      MergedListsHold(c, id, r, Incoming, v, vertices[v].inEdgesIndex);
    }
  }

  /** The two entries that change when an edge is added. */
  function WithEdgeAt(vertices: Vertices, masks: seq<Mask>, e: Edge, id: nat): Vertices
    requires e.from in vertices && e.to in vertices && e.from != e.to
    requires |vertices[e.from].outEdgesIndex| == |masks| && |vertices[e.to].inEdgesIndex| == |masks|
  {
    vertices[e.from := vertices[e.from].(outEdgesIndex := WithEdge(vertices[e.from].outEdgesIndex, masks, e.tags, id))]
            [e.to := vertices[e.to].(inEdgesIndex := WithEdge(vertices[e.to].inEdgesIndex, masks, e.tags, id))]
  }

  lemma IndexesAppended(vertices: Vertices, c: Content, e: Edge)
    requires OkMasks(c) && Indexes(vertices, c) && e.from in vertices && e.to in vertices && e.from != e.to
    ensures EntryHolds(c, e.from, vertices[e.from]) && EntryHolds(c, e.to, vertices[e.to])
    ensures Indexes(WithEdgeAt(vertices, c.masks, e, |c.edges|), c.(edges := c.edges + [e]))
  {
    hide Kept, WithEdge, ListsHold;
    assert EntryHolds(c, e.from, vertices[e.from]) && EntryHolds(c, e.to, vertices[e.to]);
    SizesOf(c, e, vertices);
    var after := WithEdgeAt(vertices, c.masks, e, |c.edges|);
    var c' := c.(edges := c.edges + [e]);
    forall v | v in after
      ensures EntryHolds(c', v, after[v])
    {
      assert v in vertices && EntryHolds(c, v, vertices[v]);
      AppendedListsHold(c, e, Outgoing, v, vertices[v].outEdgesIndex);
      AppendedListsHold(c, e, Incoming, v, vertices[v].inEdgesIndex);
    }
  }

  lemma SizesOf(c: Content, e: Edge, vertices: Vertices)
    requires OkMasks(c) && e.from in vertices && e.to in vertices
    requires EntryHolds(c, e.from, vertices[e.from]) && EntryHolds(c, e.to, vertices[e.to])
    ensures |c.missed| == |c.masks|
    ensures |vertices[e.from].outEdgesIndex| == |c.masks| && |vertices[e.to].inEdgesIndex| == |c.masks|
  {
  }

  class Lattice {
    const symbolTag: Tags
    const planeTags: Tags
    var allText: Text
    var graph: seq<Edge>
    var vertices: Vertices
    var implicitOutEdges: set<nat>
    var hiddenImplicitOutEdges: set<int>
    var visibleImplicitOutEdges: set<int>
    var vvcHash: map<Key, seq<EdgeDescriptor>>
    var indexedTagMasks: seq<Mask>
    var nLooseVertices: nat
    ghost var missed: seq<set<nat>>

    ghost function Contents(): Content
      reads this
    {
      Content(symbolTag, planeTags, allText, graph, implicitOutEdges, hiddenImplicitOutEdges, visibleImplicitOutEdges,
              vvcHash, indexedTagMasks, missed, nLooseVertices)
    }

    ghost predicate Valid()
      reads this
    {
      Ok(Contents()) && Indexes(vertices, Contents())
    }

    constructor (symbol: Tag, planes: Tags)
      requires symbol !in planes
      ensures Valid() && Contents() == Empty({symbol}, planes)
    {
      symbolTag, planeTags, allText, graph, vertices := {symbol}, planes, [], [], map[];
      implicitOutEdges, hiddenImplicitOutEdges, visibleImplicitOutEdges := {}, {}, {};
      vvcHash, indexedTagMasks, nLooseVertices, missed := map[], [], 0, [];
      new;
      EmptyIsOk(symbol, planes);
    }

    method AppendString(text: Text)
      requires Valid() && WellFormed(text)
      modifies this`allText
      ensures Valid() && Contents() == After(old(Contents()), AppendText(text))
    {
      hide Ok, Indexes, WellFormed;
      AppendedTextIsOk(Contents(), text);
      AllTextFrame(vertices, Contents(), text);
      allText := allText + text;
    }

    method AddLooseVertex() returns (v: int)
      requires Valid()
      modifies this`nLooseVertices, this`vertices
      ensures Valid() && Contents() == After(old(Contents()), AddVertex)
      ensures v == -(nLooseVertices as int) && v in vertices
    {
      hide Ok, EntryHolds;
      ReadyOk(Contents());
      LooseIsOk(Contents());
      nLooseVertices := nLooseVertices + 1;
      v := -(nLooseVertices as int);
      var lists := EmptyLists(|indexedTagMasks|);
      NewLooseVertex(vertices, old(Contents()), v);
      vertices := vertices[v := VertexEntry(lists, lists)];
    }

    /** The matching edges at a vertex, by going through all its edges. */
    method MatchingEdges(side: Side, v: int, mask: Mask) returns (ids: seq<nat>)
      ensures ids == Kept(graph, side, v, mask, {})
    {
      hide Matches;
      ids := [];
      for id := 0 to |graph|
        invariant ids == Kept(graph[..id], side, v, mask, {})
      {
        var e := graph[id];
        assert graph[..id + 1] == graph[..id] + [e];
        KeptAppend(graph[..id], e, side, v, mask, {});
        if End(e, side) == v && Matches(e.tags, mask) {
          ids := ids + [id];
        }
      }
      assert graph[..|graph|] == graph;
    }

    method FindMask(mask: Mask) returns (ix: nat)
      ensures ix == IndexOf(indexedTagMasks, mask)
    {
      ix := 0;
      assert indexedTagMasks[0..] == indexedTagMasks;
      while ix < |indexedTagMasks| && indexedTagMasks[ix] != mask
        invariant ix <= |indexedTagMasks|
        invariant ix + IndexOf(indexedTagMasks[ix..], mask) == IndexOf(indexedTagMasks, mask)
      {
        assert indexedTagMasks[ix..][1..] == indexedTagMasks[ix + 1..];
        ix := ix + 1;
      }
    }

    /** The lists of a vertex for one more mask. */
    method IndexVertex(v: int, mask: Mask)
      requires v in vertices
      modifies this`vertices
      ensures vertices == old(vertices)[v := VertexEntry(
                old(vertices)[v].outEdgesIndex + [Kept(graph, Outgoing, v, mask, {})],
                old(vertices)[v].inEdgesIndex + [Kept(graph, Incoming, v, mask, {})])]
    {
      hide Kept;
      var outs := MatchingEdges(Outgoing, v, mask);
      var ins := MatchingEdges(Incoming, v, mask);
      vertices := vertices[v := VertexEntry(vertices[v].outEdgesIndex + [outs], vertices[v].inEdgesIndex + [ins])];
    }

    /** The loop over all vertices. */
    method IndexAllVertices(mask: Mask)
      requires ReadyMasks(Contents()) && !mask.AnyTag? && mask !in indexedTagMasks
      requires forall v :: v in vertices ==> EntryHolds(Contents(), v, vertices[v])
      modifies this`vertices
      ensures vertices.Keys == old(vertices).Keys
      ensures ReadyMasks(Indexed(old(Contents()), mask))
      ensures forall v :: v in vertices ==> EntryHolds(Indexed(old(Contents()), mask), v, vertices[v])
    {
      hide Kept, EntryHolds;
      var rest := vertices.Keys;
      ghost var before, after := Contents(), Indexed(Contents(), mask);
      while rest != {}
        invariant rest <= vertices.Keys && vertices.Keys == old(vertices).Keys
        invariant forall v :: v in rest ==> EntryHolds(before, v, vertices[v])
        invariant forall v :: v in vertices && v !in rest ==> EntryHolds(after, v, vertices[v])
        decreases rest
      {
        var v :| v in rest;
        rest := rest - {v};
        IndexedEntryHolds(before, mask, v, vertices[v]);
        IndexVertex(v, mask);
      }
    }

    method AddTagMaskIndex(mask: Mask) returns (ix: nat)
      requires Valid() && !mask.AnyTag?
      modifies this`vertices, this`indexedTagMasks, this`missed
      ensures Valid() && Contents() == Indexed(old(Contents()), mask)
      ensures ix < |indexedTagMasks| && ix == IndexOf(indexedTagMasks, mask)
    {
      hide Ok, EndsKnown, LooseKnown, EntryHolds;
      ReadyOk(Contents());
      IndexedIsOk(Contents(), mask);
      ix := FindMask(mask);
      if ix == |indexedTagMasks| {
        IndexAllVertices(mask);
        IndexOfMore(indexedTagMasks, mask, mask);
        SameKeys(old(vertices), vertices, old(Contents()), Indexed(old(Contents()), mask));
        indexedTagMasks := indexedTagMasks + [mask];
        missed := missed + [{}];
      }
    }

    method PriorVertex(v: nat) returns (p: nat)
      requires 0 < v <= |allText|
      ensures p == Prior(allText, v)
    {
      p := v - 1;
      while 0 < p && IsTrail(allText[p])
        invariant p < v && Prior(allText, v) == Prior(allText, p + 1)
      {
        p := p - 1;
      }
    }

    /** The edges of one side at a vertex: through its lists, or all of them. */
    method ListedEdges(side: Side, v: int, mask: Mask) returns (ids: seq<nat>)
      requires Valid()
      modifies this`vertices, this`indexedTagMasks, this`missed
      ensures Valid() && Contents() == Indexed(old(Contents()), mask)
      ensures |old(missed)| == |old(indexedTagMasks)|
      ensures ids == Kept(graph, side, v, mask, Missed(old(Contents()), mask))
    {
      hide Ok, Kept, EndsKnown, LooseKnown;
      ReadyOk(Contents());
      IndexedAnswers(Contents(), mask, mask);
      if mask.AnyTag? {
        ids := MatchingEdges(side, v, mask);
      } else {
        var ix := AddTagMaskIndex(mask);
        if v in vertices {
          assert EntryHolds(Contents(), v, vertices[v]);
          ids := vertices[v].Lists(side)[ix];
        } else {
          NoEntryNoEdges(vertices, Contents(), side, v, mask, Missed(Contents(), mask));
          ids := [];
        }
      }
    }

    method ToDescriptors(ids: seq<nat>) returns (r: seq<EdgeDescriptor>)
      ensures r == Explicits(ids)
    {
      r := [];
      for i := 0 to |ids|
        invariant r == Explicits(ids[..i])
      {
        assert ids[..i + 1][..i] == ids[..i];
        r := r + [Explicit(ids[i])];
      }
      assert ids[..|ids|] == ids;
    }

    method OutEdges(v: int, mask: Mask) returns (r: seq<EdgeDescriptor>)
      requires Valid() && IsVertex(Contents(), v)
      modifies this`vertices, this`indexedTagMasks, this`missed
      ensures Valid() && Contents() == Indexed(old(Contents()), mask)
      ensures |old(missed)| == |old(indexedTagMasks)| && r == EdgesAt(old(Contents()), Outgoing, v, mask)
    {
      hide Ok, Indexes, Kept, Missed, Explicits, Boundary;
      var ids := ListedEdges(Outgoing, v, mask);
      r := ToDescriptors(ids);
      if AppliesToSymbol(symbolTag, mask) && 0 <= v && v in implicitOutEdges {
        r := [Implicit(v)] + r;
      }
    }

    method InEdges(v: int, mask: Mask) returns (r: seq<EdgeDescriptor>)
      requires Valid() && IsVertex(Contents(), v)
      modifies this`vertices, this`indexedTagMasks, this`missed
      ensures Valid() && Contents() == Indexed(old(Contents()), mask)
      ensures |old(missed)| == |old(indexedTagMasks)| && r == EdgesAt(old(Contents()), Incoming, v, mask)
    {
      hide Ok, Indexes, Kept, Missed, Explicits, Boundary, Prior;
      var ids := ListedEdges(Incoming, v, mask);
      r := ToDescriptors(ids);
      if 0 < v {
        var priorVertex := PriorVertex(v);
        if AppliesToSymbol(symbolTag, mask) && priorVertex in implicitOutEdges {
          r := [Implicit(priorVertex)] + r;
        }
      }
    }

    method FirstOutEdge(v: int, mask: Mask) returns (r: Option<EdgeDescriptor>)
      requires Valid() && IsVertex(Contents(), v)
      modifies this`vertices, this`indexedTagMasks, this`missed
      ensures Valid() && Contents() == Indexed(old(Contents()), mask)
      ensures |old(missed)| == |old(indexedTagMasks)|
      ensures var edges := EdgesAt(old(Contents()), Outgoing, v, mask);
              r == if edges == [] then None else Some(edges[0])
    {
      hide Valid, EdgesAt;
      var edges := OutEdges(v, mask);
      r := if edges == [] then None else Some(edges[0]);
    }

    method FirstInEdge(v: int, mask: Mask) returns (r: Option<EdgeDescriptor>)
      requires Valid() && IsVertex(Contents(), v)
      modifies this`vertices, this`indexedTagMasks, this`missed
      ensures Valid() && Contents() == Indexed(old(Contents()), mask)
      ensures |old(missed)| == |old(indexedTagMasks)|
      ensures var edges := EdgesAt(old(Contents()), Incoming, v, mask);
              r == if edges == [] then None else Some(edges[0])
    {
      hide Valid, EdgesAt;
      var edges := InEdges(v, mask);
      r := if edges == [] then None else Some(edges[0]);
    }

    // ---------- What a descriptor denotes ----------

    function GetEdgeLayerTags(d: EdgeDescriptor): (tags: Tags)
      requires Denotes(Contents(), d)
      reads this
      ensures tags == TagsOf(Contents(), d)
    {
      if d.Implicit? then symbolTag else graph[d.id].tags
    }

    function GetEdgeSource(d: EdgeDescriptor): (v: int)
      requires Denotes(Contents(), d)
      reads this
      ensures v == SourceOf(Contents(), d)
    {
      if d.Implicit? then d.at else graph[d.id].from
    }

    function GetEdgeTarget(d: EdgeDescriptor): (v: int)
      requires Denotes(Contents(), d)
      reads this
      ensures v == TargetOf(Contents(), d)
    {
      if d.Implicit? then d.at + SymbolLength(allText[d.at]) else graph[d.id].to
    }

    function IsEdgeHidden(d: EdgeDescriptor): (r: bool)
      reads this
      ensures r == IsHidden(Contents(), d)
    {
      d.Implicit? && d.at in hiddenImplicitOutEdges && d.at !in visibleImplicitOutEdges
    }

    // ---------- Adding an edge ----------

    method GatherPlaneTags(links: seq<EdgeUsage>) returns (tags: Tags)
      requires forall i :: 0 <= i < |links| ==> Denotes(Contents(), links[i].edge)
      ensures tags == GatherPlanes(Contents(), links)
    {
      hide Denotes;
      tags := {};
      for i := 0 to |links|
        invariant tags == GatherPlanes(Contents(), links[..i])
      {
        assert links[..i + 1][..i] == links[..i];
        tags := tags + GetEdgeLayerTags(links[i].edge) * planeTags;
      }
      assert links[..|links|] == links;
    }

    /** The first known edge in the same plane. */
    method FindIsoplanar(tags: Tags, ds: seq<EdgeDescriptor>) returns (r: Option<EdgeDescriptor>)
      requires forall d :: d in ds ==> Denotes(Contents(), d)
      ensures r == Isoplanar(Contents(), tags, ds)
    {
      hide Denotes;
      assert ds[0..] == ds;
      for i := 0 to |ds|
        invariant Isoplanar(Contents(), tags, ds[i..]) == Isoplanar(Contents(), tags, ds)
      {
        assert ds[i..][1..] == ds[i + 1..] && ds[i] in ds;
        if GetEdgeLayerTags(ds[i]) * planeTags == tags * planeTags {
          return Some(ds[i]);
        }
      }
      return None;
    }

    /** Reads the symbols of the text from `begin` to `end`, until `d` comes up or one is missing. */
    method CheckSymbols(d: EdgeDescriptor, begin: nat, end: nat) returns (check: Check)
      requires Valid() && begin < end <= |allText| && Boundary(allText, begin)
      modifies this`vertices, this`indexedTagMasks, this`missed
      ensures Valid() && Contents() == Indexed(old(Contents()), SymbolMask(old(Contents())))
      ensures |old(missed)| == |old(indexedTagMasks)| && WellFormed(allText)
      ensures check == CheckRange(old(Contents()), d, begin, end)
    {
      hide Valid, EdgesAt, Boundary, SymbolLength, WellFormed;
      ghost var before, mask := Contents(), SymbolMask(Contents());
      ValidIsReady();
      var si := begin;
      while si < end
        invariant si <= |allText| && (si < end ==> Boundary(allText, si))
        invariant Valid() && |missed| == |indexedTagMasks|
        invariant Contents() == (if si == begin then before else Indexed(before, mask))
        invariant begin <= si
        invariant CheckRange(before, d, begin, end) == CheckRange(before, d, si, end)
      {
        SameAnswers(before, mask, Outgoing, si);
        NextBoundary(allText, si);
        var first := FirstOutEdge(si, OneOf([symbolTag]));
        ValidIsReady();
        assert Contents() == Indexed(before, mask);
        if first.None? {
          return Broken;
        }
        if first.value == d {
          return Refers;
        }
        si := si + SymbolLength(allText[si]);
      }
      check := Clear;
    }

    lemma ValidIsReady()
      requires Valid()
      ensures |missed| == |indexedTagMasks| && WellFormed(allText)
    {
      ReadyOk(Contents());
    }

    method CheckSelfReference(d: EdgeDescriptor, s: EdgeSequence) returns (check: Check)
      requires Valid() && Placed(Contents(), s)
      modifies this`vertices, this`indexedTagMasks, this`missed
      ensures Valid() && Contents() == AfterReading(old(Contents()), s)
      ensures |old(missed)| == |old(indexedTagMasks)| && WellFormed(allText)
      ensures check == CheckSequence(old(Contents()), d, s)
    {
      hide Valid, Denotes, Boundary, CheckRange, WellFormed;
      ValidIsReady();
      if s.links != [] {
        for i := 0 to |s.links|
          invariant forall k :: 0 <= k < i ==> s.links[k].edge != d
        {
          if s.links[i].edge == d {
            assert s.links[i] in s.links;
            return Refers;
          }
        }
        return Clear;
      } else if s.begin < s.end {
        check := CheckSymbols(d, s.begin, s.end);
      } else {
        check := Clear;
      }
    }

    /** The part of merging with an edge of the graph. */
    method MergeExplicit(id: nat, r: Request)
      requires Valid() && id < |graph|
      modifies this`graph, this`missed
      ensures Valid() && |old(missed)| == |old(indexedTagMasks)| && Contents() == Merged(old(Contents()), id, r)
    {
      hide Ok, Indexes, SkipAll;
      ReadyOk(Contents());
      MergedIsOk(Contents(), id, r);
      IndexesMerged(vertices, Contents(), id, r);
      var e := graph[id];
      var tags := if r.tags != e.tags then e.tags + r.tags else r.tags;
      assert tags == e.tags + r.tags;
      graph := graph[id := e.(tags := tags,
                              score := if r.score > e.score then r.score else e.score,
                              partitions := e.partitions
                                            + [Partition(tags, r.sequence, r.score, r.ruleId, r.treeChoice)])];
      missed := SkipAll(missed, indexedTagMasks, id, e.tags, tags);
    }

    method ShowSymbols(from: int, to: int)
      requires Valid() && IsVertex(Contents(), from) && IsVertex(Contents(), to)
      modifies this`vertices, this`indexedTagMasks, this`missed, this`visibleImplicitOutEdges
      ensures Valid() && |old(missed)| == |old(indexedTagMasks)| && Contents() == Shown(old(Contents()), from, to)
    {
      hide Ok, Indexes, EdgesAt, IsVertex;
      ReadyOk(Contents());
      ghost var before := Contents();
      VertexBounds(before, from);
      VertexBounds(before, to);
      ShownIsOk(before, from, to);
      var mask := OneOf([symbolTag]);
      SameAnswers(before, mask, Outgoing, from);
      SameVertices(before, Indexed(before, mask));
      var outEdge := FirstOutEdge(from, mask);
      ghost var indexed := Contents();
      if outEdge.Some? {
        SameAnswers(before, mask, Incoming, to);
        IndexedIsOk(before, mask);
        EdgesAtDenote(indexed, Incoming, to, mask);
        var inEdge := FirstInEdge(to, mask);
        visibleImplicitOutEdges := visibleImplicitOutEdges + {from};
        if inEdge.Some? {
          visibleImplicitOutEdges := visibleImplicitOutEdges + {GetEdgeSource(inEdge.value)};
        }
        assert Contents() == Shown(before, from, to);
        IndexesFrame(vertices, indexed, Contents());
      }
    }

    /** A vertex used for the first time has an empty list for each mask. */
    method EnsureVertex(v: int)
      requires Valid()
      modifies this`vertices
      ensures Valid() && v in vertices && old(vertices).Keys <= vertices.Keys
      ensures Contents() == old(Contents())
    {
      hide Ok, EntryHolds;
      ReadyOk(Contents());
      if v !in vertices {
        NewVertexHolds(vertices, Contents(), v);
        var lists := EmptyLists(|indexedTagMasks|);
        vertices := vertices[v := VertexEntry(lists, lists)];
      }
    }

    /** The loop over the indexed masks for one vertex. */
    method PushMatching(lists: seq<seq<nat>>, tags: Tags, id: nat) returns (r: seq<seq<nat>>)
      requires |lists| == |indexedTagMasks|
      ensures r == WithEdge(lists, indexedTagMasks, tags, id)
    {
      hide Matches;
      r := lists;
      for ix := 0 to |indexedTagMasks|
        invariant |r| == |lists|
        invariant forall k :: 0 <= k < ix ==> r[k] == lists[k] + if Matches(tags, indexedTagMasks[k]) then [id] else []
        invariant forall k :: ix <= k < |r| ==> r[k] == lists[k]
      {
        if Matches(tags, indexedTagMasks[ix]) {
          r := r[ix := r[ix] + [id]];
        }
      }
    }

    /** The addition to the graph and to the lists at both ends. */
    method AppendEdge(r: Request)
      requires Valid() && OkEdge(Contents(), NewEdge(r))
      modifies this`vertices, this`graph, this`hiddenImplicitOutEdges
      ensures Valid() && Contents() == Appended(old(Contents()), r)
    {
      hide Ok, Indexes, WithEdge, OkEdge, Span;
      ReadyOk(Contents());
      Distinct(Contents(), r);
      AppendedIsOk(Contents(), r);
      EnsureVertex(r.from);
      EnsureVertex(r.to);
      ghost var before := Contents();
      IndexesAppended(vertices, before, NewEdge(r));
      SizesOf(before, NewEdge(r), vertices);
      var outs := PushMatching(vertices[r.from].outEdgesIndex, r.tags, |graph|);
      var ins := PushMatching(vertices[r.to].inEdgesIndex, r.tags, |graph|);
      IndexesFrame(WithEdgeAt(vertices, before.masks, NewEdge(r), |graph|),
                   before.(edges := before.edges + [NewEdge(r)]), Appended(before, r));
      vertices := vertices[r.from := vertices[r.from].(outEdgesIndex := outs)]
                          [r.to := vertices[r.to].(inEdgesIndex := ins)];
      graph := graph + [Edge(r.from, r.to, r.item, r.tags, r.score,
                             [Partition(r.tags, r.sequence, r.score, r.ruleId, r.treeChoice)])];
      hiddenImplicitOutEdges := hiddenImplicitOutEdges + Span(r.from, r.to);
    }

    method Remember(key: Key, d: EdgeDescriptor)
      requires Valid() && Joins(Contents(), key, d)
      modifies this`vvcHash
      ensures Valid() && Contents() == Remembered(old(Contents()), key, d)
    {
      hide Ok, Indexes, Joins;
      ReadyOk(Contents());
      RememberedIsOk(Contents(), key, d);
      IndexesFrame(vertices, Contents(), Remembered(Contents(), key, d));
      vvcHash := vvcHash[key := (if key in vvcHash then vvcHash[key] else []) + [d]];
    }

    method SetImplicit(bits: set<nat>)
      requires Valid() && forall v :: v in bits ==> v < |allText| && Boundary(allText, v)
      modifies this`implicitOutEdges
      ensures Valid() && Contents() == old(Contents()).(implicit := bits)
    {
      hide Ok, Indexes, Boundary;
      ReadyOk(Contents());
      ImplicitIsOk(Contents(), bits);
      IndexesFrame(vertices, Contents(), Contents().(implicit := bits));
      implicitOutEdges := bits;
    }

    /** Either the bit of a symbol is set, or the edge is added to the graph. */
    method Insert(r: Request) returns (d: EdgeDescriptor)
      requires Valid() && OkEdge(Contents(), NewEdge(r))
      modifies this
      ensures Valid() && |old(missed)| == |old(indexedTagMasks)| && r.from <= |old(allText)| && r.to <= |old(allText)|
      ensures (Contents(), d) == Inserted(old(Contents()), r)
    {
      hide Ok, Indexes, Shown, Boundary, SymbolLength, Appended, Remembered, Joins;
      ReadyOk(Contents());
      ghost var before := Contents();
      if r.tags == symbolTag {
        ShowSymbols(r.from, r.to);
        ShownIsOk(before, r.from, r.to);
      }
      ghost var shown := Contents();
      SameEdges(before, shown);
      if 0 <= r.from && 0 <= r.to && r.tags == symbolTag && r.from + SymbolLength(allText[r.from]) == r.to
         && r.from !in implicitOutEdges
      {
        KnownImplicit(shown);
        SetImplicit(implicitOutEdges + {r.from});
        PlainSymbolJoins(shown, r);
        d := Implicit(r.from);
      } else {
        AppendedIsOk(shown, r);
        d := Explicit(|graph|);
        AppendEdge(r);
      }
      Remember(Key(r.from, r.to, r.item), d);
    }

    method GatherPlanesOf(s: EdgeSequence) returns (tags: Tags)
      requires Placed(Contents(), s)
      ensures tags == GatherPlanes(Contents(), s.links)
    {
      hide Denotes, Boundary;
      tags := GatherPlaneTags(s.links);
    }

    /** An empty list is put into the hash for a new key. */
    method FreshKey(key: Key)
      requires Valid()
      modifies this`vvcHash
      ensures Valid() && Contents() == WithKey(old(Contents()), key) && key in vvcHash
    {
      hide Ok, Indexes;
      ReadyOk(Contents());
      WithKeyIsOk(Contents(), key);
      IndexesFrame(vertices, Contents(), WithKey(Contents(), key));
      if key !in vvcHash {
        vvcHash := vvcHash[key := []];
      }
    }

    /** Merging with the edge in the same plane; a symbol edge of the text is replaced by one of the graph. */
    method Join(r: Request, d: EdgeDescriptor) returns (answer: Answer)
      requires Valid() && Addable(Contents(), r) && OkEdge(Contents(), NewEdge(r)) && Denotes(Contents(), d)
      modifies this
      ensures Valid() && (Contents(), answer) == Joined(old(Contents()), r, d)
    {
      hide Ok, Indexes, Boundary, SymbolLength, CheckSequence, Inserted, Merged, IsVertex;
      ReadyOk(Contents());
      ghost var before := Contents();
      AfterReadingIsOk(before, r.sequence);
      var check := CheckSelfReference(d, r.sequence);
      ghost var read := Contents();
      match check {
        case Refers => answer := Rejected(SelfReference);
        case Broken => answer := Rejected(NoEdge);
        case Clear =>
          match d {
            case Explicit(id) =>
              MergeExplicit(id, r);
              answer := Added(d);
            case Implicit(at) =>
              KnownImplicit(read);
              SetImplicit(implicitOutEdges - {at});
              SameEdges(before, Contents());
              SameEnds(Contents(), NewEdge(r), NewEdge(r.(tags := symbolTag + r.tags)));
              var e := Insert(r.(tags := symbolTag + r.tags));
              answer := Added(e);
          }
      }
    }

    method AddEdge(request: Request) returns (answer: Answer)
      requires Valid() && Addable(Contents(), request)
      modifies this
      ensures Valid() && (Contents(), answer) == AfterAdd(old(Contents()), request)
    {
      hide Ok, Indexes, IsVertex, OkEdge, Placed, Inserted, Joined, Isoplanar, WithKey, Merged, GatherPlanes,
           CheckSequence;
      ReadyOk(Contents());
      ghost var before := Contents();
      InheritedEnds(before, request);
      var r := request;
      if r.tags * planeTags == {} {
        var inherited := GatherPlanesOf(r.sequence);
        r := r.(tags := r.tags + inherited);
      }
      if r.from == r.to {
        return Rejected(LoopEdge);
      }
      if 0 <= r.from && 0 <= r.to && r.from > r.to {
        return Rejected(ReversedEdge);
      }
      var key := Key(r.from, r.to, r.item);
      WithKeyIsOk(before, key);
      FreshKey(key);
      RequestEdge(before, Contents(), r);
      KnownDenote(Contents(), key);
      ghost var keyed := Contents();
      var isoplanar := FindIsoplanar(r.tags, vvcHash[key]);
      if isoplanar.None? {
        var d := Insert(r);
        answer := Added(d);
      } else {
        answer := Join(r, isoplanar.value);
      }
    }
  }

  // ---------- Frames ----------

  lemma ReadyOk(c: Content)
    requires Ok(c)
    ensures ReadyMasks(c) && OkMasks(c) && WellFormed(c.text)
  {
    hide OkEdges, OkKnown, OkImplicit;
  }

  lemma AllTextFrame(vertices: Vertices, c: Content, text: Text)
    requires Ok(c) && Indexes(vertices, c)
    ensures |c.missed| == |c.masks| && Indexes(vertices, c.(text := c.text + text))
  {
    hide Ok, Indexes;
    ReadyOk(c);
    IndexesFrame(vertices, c, c.(text := c.text + text));
  }

  lemma NewLooseVertex(vertices: Vertices, c: Content, v: int)
    requires Ok(c) && Indexes(vertices, c) && v == -(c.loose as int) - 1
    ensures |c.missed| == |c.masks|
    ensures var lists := EmptyLists(|c.masks|);
            Indexes(vertices[v := VertexEntry(lists, lists)], c.(loose := c.loose + 1))
  {
    hide Kept;
    var lists := EmptyLists(|c.masks|);
    var entry := VertexEntry(lists, lists);
    var after := vertices[v := entry];
    var c' := c.(loose := c.loose + 1);
    assert EntryHolds(c, v, entry) by {
      if v in vertices {
        UnusedVertex(vertices, c, v);
      } else {
        NewVertexHolds(vertices, c, v);
      }
    }
    forall u | u in after
      ensures EntryHolds(c', u, after[u])
    {
      EntryFrame(c, c', u, after[u]);
    }
  }

  lemma UnusedVertex(vertices: Vertices, c: Content, v: int)
    requires Ok(c) && v == -(c.loose as int) - 1
    ensures |c.missed| == |c.masks| && EntryHolds(c, v, VertexEntry(EmptyLists(|c.masks|), EmptyLists(|c.masks|)))
  {
    hide Kept, OkKnown, OkImplicit, WellFormed;
    forall id | 0 <= id < |c.edges|
      ensures c.edges[id].from != v && c.edges[id].to != v
    {
      assert OkEdge(c, c.edges[id]);
    }
    forall side, ix | 0 <= ix < |c.masks|
      ensures Kept(c.edges, side, v, c.masks[ix], c.missed[ix]) == []
    {
      KeptNone(c.edges, side, v, c.masks[ix], c.missed[ix]);
    }
  }

  lemma IndexedEntryHolds(c: Content, mask: Mask, v: int, entry: VertexEntry)
    requires |c.missed| == |c.masks| && EntryHolds(c, v, entry) && !mask.AnyTag? && mask !in c.masks
    ensures |Indexed(c, mask).missed| == |Indexed(c, mask).masks|
    ensures EntryHolds(Indexed(c, mask), v, VertexEntry(entry.outEdgesIndex + [Kept(c.edges, Outgoing, v, mask, {})],
                                                        entry.inEdgesIndex + [Kept(c.edges, Incoming, v, mask, {})]))
  {
    hide Kept, ListsHold;
    IndexedListsHold(c, mask, Outgoing, v, entry.outEdgesIndex);
    IndexedListsHold(c, mask, Incoming, v, entry.inEdgesIndex);
  }

  lemma SameKeys(vertices: Vertices, more: Vertices, c: Content, after: Content)
    requires vertices.Keys == more.Keys && c.edges == after.edges && c.loose == after.loose
    requires EndsKnown(vertices, c.edges) && LooseKnown(vertices, c.loose)
    ensures EndsKnown(more, after.edges) && LooseKnown(more, after.loose)
  {
    assert forall v :: v in vertices <==> v in more;
  }

  lemma SameAnswers(c: Content, mask: Mask, side: Side, v: int)
    requires |c.missed| == |c.masks| && v <= |c.text|
    ensures |Indexed(c, mask).missed| == |Indexed(c, mask).masks|
    ensures EdgesAt(Indexed(c, mask), side, v, mask) == EdgesAt(c, side, v, mask)
    ensures Indexed(Indexed(c, mask), mask) == Indexed(c, mask)
  {
    hide Missed, Kept, Explicits, AppliesToSymbol;
    IndexedAnswers(c, mask, mask);
  }

  lemma VertexBounds(c: Content, v: int)
    requires IsVertex(c, v)
    ensures v <= |c.text|
  {
  }

  lemma Distinct(c: Content, r: Request)
    requires OkEdge(c, NewEdge(r))
    ensures r.from != r.to
  {
  }

  lemma KnownImplicit(c: Content)
    requires Ok(c)
    ensures forall v :: v in c.implicit ==> v < |c.text| && Boundary(c.text, v)
  {
    hide WellFormed, OkEdges, OkKnown, OkMasks, Boundary;
  }

  lemma RequestEdge(c: Content, after: Content, r: Request)
    requires IsVertex(c, r.from) && IsVertex(c, r.to) && r.from != r.to && !(0 <= r.from && 0 <= r.to && r.from > r.to)
    requires c.text == after.text && c.loose == after.loose
    ensures OkEdge(after, NewEdge(r))
  {
    hide Boundary;
  }

  lemma KnownDenote(c: Content, key: Key)
    requires Ok(c) && key in c.known
    ensures forall d :: d in c.known[key] ==> Denotes(c, d)
  {
    hide WellFormed, OkEdges, OkImplicit, OkMasks, Denotes, SourceOf, TargetOf;
    assert forall d :: Joins(c, key, d) ==> Denotes(c, d);
  }
}
