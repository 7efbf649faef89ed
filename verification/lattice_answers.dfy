/** What an addition does, in terms of the request and the content before it: the edge that is answered, the
    planes it inherits, the bits of the symbols it lies over, and why a request is rejected. */
module LatticeAnswers {
  import opened Common
  import opened Utf8
  import opened LatticeStore
  import opened LatticeUpdates
  import opened EdgeSequences

  // ---------- Planes ----------

  /** The plane tags of the links of a sequence. */
  ghost function LinkPlanes(c: Content, s: EdgeSequence): Tags
    requires Placed(c, s)
  {
    set t | t in c.planes && exists i :: 0 <= i < |s.links| && t in TagsOf(c, s.links[i].edge)
  }

  /** The tags of the request, with the planes of the links if it has none of its own. */
  ghost function FullTags(c: Content, r: Request): Tags
    requires Placed(c, r.sequence)
  {
    r.tags + if exists t :: t in r.tags && t in c.planes then {} else LinkPlanes(c, r.sequence)
  }

  lemma {:induction false} GatheredTags(c: Content, links: seq<EdgeUsage>, t: Tag)
    requires forall i :: 0 <= i < |links| ==> Denotes(c, links[i].edge)
    ensures t in GatherPlanes(c, links) <==>
            t in c.planes && exists i :: 0 <= i < |links| && t in TagsOf(c, links[i].edge)
    decreases |links|
  {
    hide Denotes, TagsOf;
    if links != [] {
      var n := |links| - 1;
      GatheredTags(c, links[..n], t);
      if i :| 0 <= i < n && t in TagsOf(c, links[..n][i].edge) {
        assert links[..n][i] == links[i];
      }
      if i :| 0 <= i < |links| && t in TagsOf(c, links[i].edge) {
        assert i < n ==> links[..n][i] == links[i];
      }
    }
  }

  /** Every plane of every link is inherited, and nothing else. */
  lemma InheritedTags(c: Content, r: Request)
    requires Placed(c, r.sequence)
    ensures Inherited(c, r) == r.(tags := FullTags(c, r))
  {
    hide Placed, Denotes, TagsOf;
    var links := r.sequence.links;
    assert forall i :: 0 <= i < |links| ==> Denotes(c, links[i].edge) by { LinksDenote(c, r.sequence); }
    forall t
      ensures t in GatherPlanes(c, links) <==> t in LinkPlanes(c, r.sequence)
    {
      GatheredTags(c, links, t);
    }
    assert GatherPlanes(c, links) == LinkPlanes(c, r.sequence);
    assert r.tags + {} == r.tags;
    if r.tags * c.planes == {} {
      assert forall t :: t in r.tags && t in c.planes ==> t in r.tags * c.planes;
    } else {
      var t :| t in r.tags * c.planes;
      assert t in r.tags && t in c.planes;
    }
  }

  lemma LinksDenote(c: Content, s: EdgeSequence)
    requires Placed(c, s)
    ensures forall i :: 0 <= i < |s.links| ==> Denotes(c, s.links[i].edge)
  {
  }

  // ---------- The partner ----------

  /** Known edge `i` is in the plane of these tags. */
  ghost predicate InPlane(c: Content, key: Key, tags: Tags, i: nat)
    requires OkKnown(c) && key in c.known && i < |c.known[key]|
  {
    assert c.known[key][i] in c.known[key];
    TagsOf(c, c.known[key][i]) * c.planes == tags * c.planes
  }

  ghost predicate FirstInPlane(c: Content, key: Key, tags: Tags, i: nat)
    requires OkKnown(c) && key in c.known && i < |c.known[key]|
  {
    InPlane(c, key, tags, i) && forall j: nat :: j < i ==> !InPlane(c, key, tags, j)
  }

  lemma {:induction false} FirstIsoplanar(c: Content, tags: Tags, ds: seq<EdgeDescriptor>, i: nat)
    requires (forall d :: d in ds ==> Denotes(c, d)) && i < |ds|
    requires TagsOf(c, ds[i]) * c.planes == tags * c.planes
    requires forall j :: 0 <= j < i ==> TagsOf(c, ds[j]) * c.planes != tags * c.planes
    ensures Isoplanar(c, tags, ds) == Some(ds[i])
  {
    hide Denotes, TagsOf;
    if i > 0 {
      assert TagsOf(c, ds[0]) * c.planes != tags * c.planes;
      FirstIsoplanar(c, tags, ds[1..], i - 1);
    }
  }

  /** The partner is the first known edge for the two vertices and the item whose plane tags are those of the
      request, inherited ones included; there is none exactly if no known edge is in that plane. */
  lemma PartnerIsFirst(c: Content, r: Request)
    requires Ok(c) && Addable(c, r) && KeyOf(r) in c.known
    ensures Partner(c, r).None? <==>
            forall i: nat :: i < |c.known[KeyOf(r)]| ==> !InPlane(c, KeyOf(r), FullTags(c, r), i)
    ensures forall i: nat :: i < |c.known[KeyOf(r)]| && FirstInPlane(c, KeyOf(r), FullTags(c, r), i) ==>
                               Partner(c, r) == Some(c.known[KeyOf(r)][i])
  {
    hide WellFormed, OkEdges, OkImplicit, OkMasks, Placed, IsVertex, Isoplanar, FullTags, Inherited;
    InheritedTags(c, r);
    var ds, tags := c.known[KeyOf(r)], FullTags(c, r);
    assert forall d :: d in ds ==> Joins(c, KeyOf(r), d);
    forall j: nat | j < |ds|
      ensures Denotes(c, ds[j])
    {
      assert ds[j] in ds;
    }
    forall i: nat | i < |ds| && FirstInPlane(c, KeyOf(r), tags, i)
      ensures Partner(c, r) == Some(ds[i])
    {
      forall j: nat | j < i
        ensures TagsOf(c, ds[j]) * c.planes != tags * c.planes
      {
        assert !InPlane(c, KeyOf(r), tags, j);
      }
      FirstIsoplanar(c, tags, ds, i);
    }
    if Partner(c, r).None? {
      forall i: nat | i < |ds|
        ensures !InPlane(c, KeyOf(r), tags, i)
      {
        assert ds[i] in ds;
      }
    } else {
      var i :| 0 <= i < |ds| && ds[i] == Partner(c, r).value;
      assert InPlane(c, KeyOf(r), tags, i);
    }
  }

  // ---------- The edge that is answered ----------

  /** A new edge with these tags. */
  predicate IsNew(e: Edge, r: Request, tags: Tags) {
    && e.from == r.from && e.to == r.to && e.item == r.item && e.tags == tags && e.score == r.score
    && e.partitions == [Partition(tags, r.sequence, r.score, r.ruleId, r.treeChoice)]
  }

  /** The edge `was` with more tags, the better score and one more partition. */
  predicate IsMerged(e: Edge, was: Edge, r: Request, tags: Tags) {
    && e.from == was.from && e.to == was.to && e.item == was.item && e.tags == was.tags + tags
    && e.score == (if r.score > was.score then r.score else was.score)
    && e.partitions == was.partitions + [Partition(was.tags + tags, r.sequence, r.score, r.ruleId, r.treeChoice)]
  }

  /** One edge is added, or none, and all others stay. */
  ghost predicate OnlyAdds(c: Content, after: Content, d: EdgeDescriptor) {
    match d
    case Implicit(_) => after.edges == c.edges
    case Explicit(id) => id == |c.edges| && |after.edges| == id + 1 && after.edges[..id] == c.edges
  }

  lemma InsertedEdge(c: Content, r: Request)
    requires Ok(c) && r.from <= |c.text| && r.to <= |c.text|
    ensures |c.missed| == |c.masks|
    ensures var (after, d) := Inserted(c, r);
            && OnlyAdds(c, after, d) && (d.Explicit? ==> IsNew(after.edges[d.id], r, r.tags))
            && (d.Implicit? ==> r.tags == c.symbol)
  {
    hide WellFormed, OkEdges, OkKnown, OkImplicit, Shown, Span, SymbolLength;
    OkIsReady(c);
    if r.tags == c.symbol {
      ShownIsOk(c, r.from, r.to);
    }
  }

  /** The edge answered to an accepted request: a new edge or symbol edge with the tags of the request and the
      planes of its links; with a symbol edge as the partner also its tag; with an edge as the partner that edge
      with these tags, the better score and the partition added. All other edges stay as they are. */
  lemma {:induction false} AnsweredEdge(c: Content, r: Request)
    requires Ok(c) && Addable(c, r) && AfterAdd(c, r).1.Added?
    ensures var (after, answer) := AfterAdd(c, r);
            var d, tags := answer.edge, FullTags(c, r);
            match Partner(c, r)
            case None =>
              OnlyAdds(c, after, d) && (if d.Explicit? then IsNew(after.edges[d.id], r, tags) else tags == c.symbol)
            case Some(Implicit(_)) =>
              && OnlyAdds(c, after, d)
              && (if d.Explicit? then IsNew(after.edges[d.id], r, c.symbol + tags) else tags <= c.symbol)
            case Some(Explicit(id)) =>
              && d == Explicit(id) && id < |c.edges| && |after.edges| == |c.edges|
              && IsMerged(after.edges[id], c.edges[id], r, tags)
              && forall k :: 0 <= k < |c.edges| && k != id ==> after.edges[k] == c.edges[k]
  {
    hide WellFormed, Boundary, SymbolLength, OkEdges, OkKnown, OkImplicit, OkMasks, Inserted, Joined, Inherited,
         Placed, Isoplanar, FullTags, SourceOf, TargetOf, IsNew, IsMerged;
    if Partner(c, r).Some? {
      PartnerIsJoined(c, r);
    }
    WithKeyIsOk(c, KeyOf(r));
    InheritedTags(c, r);
    InheritedEnds(c, r);
    SamePartner(c, r);
    var c', r' := WithKey(c, KeyOf(r)), Inherited(c, r);
    if Partner(c, r).None? {
      InsertedEdge(c', r');
      SameRequest(r, FullTags(c, r));
    } else {
      JoinedEdge(c', r', Partner(c, r).value);
      SameRequest(r, FullTags(c, r));
      SameRequest(r, c.symbol + FullTags(c, r));
    }
  }

  lemma PartnerIsJoined(c: Content, r: Request)
    requires Ok(c) && Addable(c, r) && Partner(c, r).Some?
    ensures KeyOf(r) in c.known && Joins(c, KeyOf(r), Partner(c, r).value) && WithKey(c, KeyOf(r)) == c
  {
    hide WellFormed, OkEdges, OkImplicit, OkMasks, Inherited, IsVertex, Boundary, SymbolLength;
  }

  lemma SameRequest(r: Request, tags: Tags)
    ensures forall e, t :: IsNew(e, r.(tags := tags), t) <==> IsNew(e, r, t)
    ensures forall e, was, t :: IsMerged(e, was, r.(tags := tags), t) <==> IsMerged(e, was, r, t)
  {
  }

  lemma JoinedEdge(c: Content, r: Request, d: EdgeDescriptor)
    requires Ok(c) && Addable(c, r) && Joins(c, KeyOf(r), d)
    ensures var (after, answer) := Joined(c, r, d);
            answer.Added? ==>
              match d
              case Implicit(_) =>
                && OnlyAdds(c, after, answer.edge)
                && (if answer.edge.Explicit? then IsNew(after.edges[answer.edge.id], r, c.symbol + r.tags)
                    else r.tags <= c.symbol)
              case Explicit(id) =>
                && answer.edge == d && |after.edges| == |c.edges|
                && IsMerged(after.edges[id], c.edges[id], r, r.tags)
                && forall k :: 0 <= k < |c.edges| && k != id ==> after.edges[k] == c.edges[k]
  {
    hide WellFormed, Boundary, SymbolLength, OkEdge, OkEdges, OkKnown, OkImplicit, OkMasks, CheckSequence, Inserted;
    OkIsReady(c);
    AfterReadingIsOk(c, r.sequence);
    var read := AfterReading(c, r.sequence);
    if CheckSequence(c, d, r.sequence).Clear? {
      match d {
        case Explicit(id) =>
        case Implicit(at) =>
          var r' := r.(tags := c.symbol + r.tags);
          WithoutIsOk(read, at);
          InsertedEdge(read.(implicit := read.implicit - {at}), r');
          assert c.symbol + r.tags == c.symbol ==> r.tags <= c.symbol;
      }
    }
  }

  lemma WithoutIsOk(c: Content, at: nat)
    requires Ok(c)
    ensures Ok(c.(implicit := c.implicit - {at}))
  {
    hide WellFormed, OkEdges, OkKnown, OkMasks, Boundary;
    ImplicitIsOk(c, c.implicit - {at});
  }

  /** Whatever the links of a request without a plane of its own are in, the answered edge is in; without a
      partner it is in nothing else. */
  lemma PlanesAreInherited(c: Content, r: Request)
    requires Ok(c) && Addable(c, r) && AfterAdd(c, r).1.Added? && r.tags !! c.planes
    ensures Ok(AfterAdd(c, r).0) && Denotes(AfterAdd(c, r).0, AfterAdd(c, r).1.edge)
    ensures var (after, answer) := AfterAdd(c, r);
            && LinkPlanes(c, r.sequence) <= TagsOf(after, answer.edge)
            && (Partner(c, r).None? ==> TagsOf(after, answer.edge) * c.planes == LinkPlanes(c, r.sequence))
  {
    hide WellFormed, Boundary, SymbolLength, OkEdges, OkKnown, OkImplicit, OkMasks, AfterAdd, Partner, SourceOf,
         TargetOf;
    AfterAddIsOk(c, r);
    AfterAddGrows(c, r);
    AnsweredEdge(c, r);
    assert FullTags(c, r) == r.tags + LinkPlanes(c, r.sequence);
    assert c.symbol !! c.planes;
  }

  // ---------- Hidden and visible symbols ----------

  /** The content in which a new edge looks for symbol edges beside it: without the symbol edge that it
      replaces. */
  ghost function Beside(c: Content, partner: Option<EdgeDescriptor>): Content {
    if partner.Some? && partner.value.Implicit? then c.(implicit := c.implicit - {partner.value.at}) else c
  }

  /** The begin of the first symbol edge into a vertex. */
  ghost function SymbolsInto(c: Content, v: int): set<int>
    requires |c.missed| == |c.masks| && v <= |c.text|
  {
    var ins := EdgesAt(c, Incoming, v, SymbolMask(c));
    if ins != [] && Denotes(c, ins[0]) then {SourceOf(c, ins[0])} else {}
  }

  lemma InsertedBits(c: Content, r: Request)
    requires Ok(c) && r.from <= |c.text| && r.to <= |c.text|
    ensures |c.missed| == |c.masks|
    ensures var (after, d) := Inserted(c, r);
            && after.implicit == c.implicit + (if d.Implicit? then {d.at} else {})
            && (forall v :: v in after.hidden <==> v in c.hidden || (d.Explicit? && 0 <= r.from <= v < r.to))
            && after.visible == c.visible
                 + (if r.tags == c.symbol && EdgesAt(c, Outgoing, r.from, SymbolMask(c)) != [] then
                      {r.from} + SymbolsInto(c, r.to)
                    else {})
  {
    hide WellFormed, OkEdges, OkKnown, OkImplicit, SymbolLength, Boundary, EdgesAt;
    OkIsReady(c);
    SameAnswers(c, SymbolMask(c), Outgoing, r.from);
    SameAnswers(c, SymbolMask(c), Incoming, r.to);
    assert c.visible + {} == c.visible;
  }

  lemma SameAnswers(c: Content, mask: Mask, side: Side, v: int)
    requires |c.missed| == |c.masks| && v <= |c.text|
    ensures |Indexed(c, mask).missed| == |Indexed(c, mask).masks|
    ensures EdgesAt(Indexed(c, mask), side, v, mask) == EdgesAt(c, side, v, mask)
  {
    hide Kept, Explicits, Prior;
    IndexedAnswers(c, mask, mask);
  }

  ghost predicate MergesInto(partner: Option<EdgeDescriptor>) {
    partner.Some? && partner.value.Explicit?
  }

  /** The positions that are made visible by an edge with these tags. */
  ghost function MadeVisible(c: Content, r: Request, tags: Tags): set<int>
    requires |c.missed| == |c.masks| && r.from <= |c.text| && r.to <= |c.text|
  {
    if tags == c.symbol && EdgesAt(c, Outgoing, r.from, SymbolMask(c)) != [] then {r.from} + SymbolsInto(c, r.to)
    else {}
  }

  /** A symbol edge that is answered is set, one that is replaced is cleared. A new edge hides the symbols below
      it. With the symbol tag alone, beside a symbol edge, it makes the symbols at its begin and before its end
      visible. Nothing else changes the bits. */
  lemma {:induction false} BitsAfter(c: Content, r: Request)
    requires Ok(c) && Addable(c, r) && AfterAdd(c, r).1.Added?
    ensures |c.missed| == |c.masks| && r.from <= |c.text| && r.to <= |c.text|
    ensures var (after, answer) := AfterAdd(c, r);
            var partner := Partner(c, r);
            if MergesInto(partner) then
              after.implicit == c.implicit && after.hidden == c.hidden && after.visible == c.visible
            else
              var tags := FullTags(c, r) + if partner.Some? then c.symbol else {};
              && after.implicit
                 == Beside(c, partner).implicit + (if answer.edge.Implicit? then {answer.edge.at} else {})
              && (forall v :: v in after.hidden <==>
                    v in c.hidden || (answer.edge.Explicit? && 0 <= r.from <= v < r.to))
              && after.visible == c.visible + MadeVisible(Beside(c, partner), r, tags)
  {
    hide WellFormed, Boundary, SymbolLength, OkEdges, OkKnown, OkImplicit, OkMasks, Inserted, Inherited, Merged,
         EdgesAt, Placed, Isoplanar, FullTags, SourceOf, TargetOf, CheckSequence, Denotes, SymbolsInto;
    if Partner(c, r).Some? {
      PartnerIsJoined(c, r);
    }
    WithKeyIsOk(c, KeyOf(r));
    OkIsReady(c);
    InheritedTags(c, r);
    InheritedEnds(c, r);
    SamePartner(c, r);
    var c', r' := WithKey(c, KeyOf(r)), Inherited(c, r);
    if Partner(c, r).None? {
      InsertedBits(c', r');
      SameVisible(c, c', r, r'.tags);
      assert FullTags(c, r) + {} == FullTags(c, r);
    } else {
      JoinedBits(c, r', Partner(c, r).value);
      assert c.symbol + FullTags(c, r) == FullTags(c, r) + c.symbol;
    }
  }

  lemma SameVisible(c: Content, after: Content, r: Request, tags: Tags)
    requires |c.missed| == |c.masks| && r.from <= |c.text| && r.to <= |c.text|
    requires after == c.(known := after.known) || after == Indexed(c, SymbolMask(c))
    ensures |after.missed| == |after.masks| && after.text == c.text
    ensures MadeVisible(after, r, tags) == MadeVisible(c, r, tags)
  {
    hide Kept, Explicits, Prior, Boundary, SymbolLength, Missed;
    IndexedAnswers(c, SymbolMask(c), SymbolMask(c));
    if after == c.(known := after.known) {
      assert Missed(after, SymbolMask(c)) == Missed(c, SymbolMask(c)) by { SameMasks(c, after, SymbolMask(c)); }
    }
  }

  lemma JoinedBits(c: Content, r: Request, d: EdgeDescriptor)
    requires Ok(c) && Addable(c, r) && Joins(c, KeyOf(r), d) && Joined(c, r, d).1.Added?
    ensures |c.missed| == |c.masks| && r.from <= |c.text| && r.to <= |c.text|
    ensures var (after, answer) := Joined(c, r, d);
            if d.Explicit? then
              after.implicit == c.implicit && after.hidden == c.hidden && after.visible == c.visible
            else
              && after.implicit
                 == Beside(c, Some(d)).implicit + (if answer.edge.Implicit? then {answer.edge.at} else {})
              && (forall v :: v in after.hidden <==>
                    v in c.hidden || (answer.edge.Explicit? && 0 <= r.from <= v < r.to))
              && after.visible == c.visible + MadeVisible(Beside(c, Some(d)), r, c.symbol + r.tags)
  {
    hide WellFormed, Boundary, SymbolLength, OkEdge, OkEdges, OkKnown, OkImplicit, OkMasks, CheckSequence, Inserted,
         EdgesAt, SymbolsInto, MadeVisible;
    OkIsReady(c);
    AfterReadingIsOk(c, r.sequence);
    var read := AfterReading(c, r.sequence);
    match d {
      case Explicit(id) =>
      case Implicit(at) =>
        var r', beside := r.(tags := c.symbol + r.tags), Beside(c, Some(d));
        WithoutIsOk(read, at);
        var without := read.(implicit := read.implicit - {at});
        InsertedBits(without, r');
        assert without == beside || without == Indexed(beside, SymbolMask(beside));
        SameVisible(beside, without, r, r'.tags);
        assert without.visible + MadeVisible(without, r, r'.tags) == Inserted(without, r').0.visible by {
          MadeVisibleIs(without, r, r'.tags);
        }
    }
  }

  lemma MadeVisibleIs(c: Content, r: Request, tags: Tags)
    requires |c.missed| == |c.masks| && r.from <= |c.text| && r.to <= |c.text|
    ensures MadeVisible(c, r, tags)
         == if tags == c.symbol && EdgesAt(c, Outgoing, r.from, SymbolMask(c)) != [] then
              {r.from} + SymbolsInto(c, r.to)
            else {}
  {
  }

  /** Which symbols of the text are hidden afterwards. */
  lemma HiddenAfter(c: Content, r: Request, v: nat)
    requires Ok(c) && Addable(c, r) && AfterAdd(c, r).1.Added?
    ensures |c.missed| == |c.masks| && r.from <= |c.text| && r.to <= |c.text|
    ensures var (after, answer) := AfterAdd(c, r);
            var partner := Partner(c, r);
            var tags := FullTags(c, r) + if partner.Some? then c.symbol else {};
            IsHidden(after, Implicit(v)) <==>
              && v !in c.visible
              && (MergesInto(partner) || v !in MadeVisible(Beside(c, partner), r, tags))
              && (v in c.hidden || (!MergesInto(partner) && answer.edge.Explicit? && 0 <= r.from <= v < r.to))
  {
    hide WellFormed, Boundary, SymbolLength, OkEdges, OkKnown, OkImplicit, OkMasks, AfterAdd, Partner, MadeVisible,
         FullTags;
    BitsAfter(c, r);
  }

  // ---------- Why a request is rejected ----------

  /** Reading the symbols of a range comes to `d` at `m`. */
  ghost predicate ReadAt(c: Content, d: EdgeDescriptor, begin: nat, m: nat, end: nat)
    requires Readable(c) && end <= |c.text| && (begin < end ==> Boundary(c.text, begin))
  {
    begin <= m < end && Boundary(c.text, m) && SymbolUsages(c, begin, m).Some? && FirstSymbol(c, m) == Some(d)
  }

  /** Reading the sequence comes to `d`. */
  ghost predicate IsReadIn(c: Content, d: EdgeDescriptor, s: EdgeSequence)
    requires Readable(c) && Placed(c, s)
  {
    if s.links != [] then exists i :: 0 <= i < |s.links| && s.links[i].edge == d
    else exists m: nat :: s.begin < s.end && ReadAt(c, d, s.begin, m, s.end)
  }

  lemma {:induction false} RangeReads(c: Content, d: EdgeDescriptor, begin: nat, end: nat)
    requires Readable(c) && end <= |c.text| && (begin < end ==> Boundary(c.text, begin))
    ensures CheckRange(c, d, begin, end).Clear? <==>
            SymbolUsages(c, begin, end).Some? && forall u :: u in SymbolUsages(c, begin, end).value ==> u.edge != d
    ensures CheckRange(c, d, begin, end).Refers? <==> exists m: nat :: ReadAt(c, d, begin, m, end)
    decreases end - begin
  {
    hide WellFormed, SymbolLength, FirstSymbol, IsTrail;
    if begin < end {
      NextBoundary(c.text, begin);
      var next := begin + SymbolLength(c.text[begin]);
      RangeReads(c, d, next, end);
      if FirstSymbol(c, begin) == Some(d) {
        assert SymbolUsages(c, begin, begin) == Some([]);
        assert ReadAt(c, d, begin, begin, end);
      } else {
        if m: nat :| ReadAt(c, d, next, m, end) && FirstSymbol(c, begin).Some? {
          assert SymbolUsages(c, begin, m).Some?;
          assert ReadAt(c, d, begin, m, end);
        }
        if m: nat :| ReadAt(c, d, begin, m, end) {
          assert m != begin && m >= next;
          assert SymbolUsages(c, next, m).Some?;
          assert ReadAt(c, d, next, m, end);
        }
      }
    }
  }

  /** What the check for references to the edge itself says about reading the sequence. */
  lemma CheckReads(c: Content, d: EdgeDescriptor, s: EdgeSequence)
    requires Readable(c) && Placed(c, s)
    ensures CheckSequence(c, d, s).Clear? <==>
            Usages(c, s).Some? && forall u :: u in Usages(c, s).value ==> u.edge != d
    ensures CheckSequence(c, d, s).Refers? <==> IsReadIn(c, d, s)
  {
    hide WellFormed, SymbolLength, FirstSymbol, Boundary, CheckRange, SymbolUsages, Denotes;
    if s.links != [] {
      if i :| 0 <= i < |s.links| && s.links[i].edge == d {
        assert s.links[i] in s.links;
      }
    } else if s.begin < s.end {
      RangeReads(c, d, s.begin, s.end);
    }
  }

  /** Exactly when a request is accepted, and why it is rejected otherwise: it is a loop, goes backwards over the
      text, would be merged with an edge that its own sequence comes to, or its sequence cannot be read to the
      end. */
  lemma {:induction false} RejectedIff(c: Content, r: Request)
    requires Ok(c) && Addable(c, r)
    ensures Readable(c)
    ensures var answer, partner := AfterAdd(c, r).1, Partner(c, r);
            if r.from == r.to then answer == Rejected(LoopEdge)
            else if 0 <= r.to < r.from then answer == Rejected(ReversedEdge)
            else if partner.None? then answer.Added?
            else
              && (answer == Rejected(SelfReference) <==> IsReadIn(c, partner.value, r.sequence))
              && (answer.Added? <==>
                    && Usages(c, r.sequence).Some?
                    && forall u :: u in Usages(c, r.sequence).value ==> u.edge != partner.value)
              && (answer.Added? || answer == Rejected(SelfReference) || answer == Rejected(NoEdge))
  {
    hide WellFormed, Boundary, SymbolLength, OkEdges, OkKnown, OkImplicit, OkMasks, Inserted, Inherited, Merged,
         Placed, Isoplanar, SourceOf, TargetOf, CheckSequence, Usages, IsReadIn;
    OkIsReady(c);
    InheritedEnds(c, r);
    SamePartner(c, r);
    WithKeyIsOk(c, KeyOf(r));
    if Partner(c, r).Some? {
      PartnerIsJoined(c, r);
      CheckReads(c, Partner(c, r).value, r.sequence);
    }
  }
}
