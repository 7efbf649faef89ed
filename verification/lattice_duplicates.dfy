/** When an accepted request leaves one more edge between the same vertices with the same item. */
module LatticeDuplicates {
  import opened Common
  import opened Utf8
  import opened LatticeStore
  import opened LatticeUpdates
  import opened LatticeRuns

  // ---------- The edges between two vertices with an item ----------

  /** A symbol edge has no item of its own; it belongs to the keys under which it is known. */
  predicate IsEdgeOf(c: Content, key: Key, d: EdgeDescriptor) {
    match d
    case Implicit(at) => at in c.implicit && key in c.known && d in c.known[key]
    case Explicit(id) =>
      id < |c.edges| && c.edges[id].from == key.from && c.edges[id].to == key.to && c.edges[id].item == key.item
  }

  ghost function EdgesOf(c: Content, key: Key): (r: set<EdgeDescriptor>)
    ensures forall d :: d in r <==> IsEdgeOf(c, key, d)
  {
    var all := (set id: nat | id < |c.edges| :: Explicit(id)) + (set at | at in c.implicit :: Implicit(at));
    assert forall d :: IsEdgeOf(c, key, d) ==> d in all;
    set d | d in all && IsEdgeOf(c, key, d)
  }

  /** The edges of the key after the request: one is added, and the partner is taken out if it is a symbol
      edge. */
  ghost predicate Updates(c: Content, after: Content, key: Key, partner: Option<EdgeDescriptor>, d: EdgeDescriptor) {
    EdgesOf(after, key)
      == EdgesOf(c, key) - (if partner.Some? && partner.value.Implicit? then {partner.value} else {}) + {d}
  }

  lemma InsertedEdges(c: Content, r: Request)
    requires Ok(c) && r.from <= |c.text| && r.to <= |c.text|
    ensures var (after, d) := Inserted(c, r);
            && Updates(c, after, KeyOf(r), None, d) && !IsEdgeOf(c, KeyOf(r), d)
            && (d.Implicit? <==> IsPlainSymbol(c, r)) && (d.Implicit? ==> d.at == r.from)
  {
    hide WellFormed, OkEdges, OkKnown, OkImplicit, OkMasks, Shown, Span, SymbolLength, EdgesOf;
    if r.tags == c.symbol {
      ShownIsOk(c, r.from, r.to);
    }
    OkIsReady(c);
    var (after, d) := Inserted(c, r);
    forall e
      ensures IsEdgeOf(after, KeyOf(r), e) <==> IsEdgeOf(c, KeyOf(r), e) || e == d
    {
    }
  }

  lemma MergedEdges(c: Content, id: nat, r: Request)
    requires Ok(c) && Joins(c, KeyOf(r), Explicit(id))
    ensures EdgesOf(Merged(c, id, r), KeyOf(r)) == EdgesOf(c, KeyOf(r)) && Explicit(id) in EdgesOf(c, KeyOf(r))
  {
    hide WellFormed, OkEdges, OkKnown, OkImplicit, OkMasks;
  }

  lemma WithoutEdges(c: Content, key: Key, at: nat)
    ensures EdgesOf(c.(implicit := c.implicit - {at}), key) == EdgesOf(c, key) - {Implicit(at)}
  {
    var after := c.(implicit := c.implicit - {at});
    forall d
      ensures IsEdgeOf(after, key, d) <==> IsEdgeOf(c, key, d) && d != Implicit(at)
    {
    }
  }

  lemma SameEdgesOf(c: Content, after: Content, key: Key)
    requires after.edges == c.edges && after.implicit == c.implicit && after.known == c.known
    ensures EdgesOf(after, key) == EdgesOf(c, key)
  {
  }

  lemma JoinedEdges(c: Content, r: Request, d: EdgeDescriptor)
    requires Ok(c) && Addable(c, r) && Joins(c, KeyOf(r), d) && d in Known(c, KeyOf(r))
    ensures var (after, answer) := Joined(c, r, d);
            answer.Added? ==>
              && Updates(c, after, KeyOf(r), Some(d), answer.edge)
              && (d.Explicit? ==> answer.edge == d && IsEdgeOf(c, KeyOf(r), d))
              && (d.Implicit? ==> d.at == r.from && (answer.edge.Implicit? <==> r.tags <= c.symbol))
              && (d.Implicit? && answer.edge.Implicit? ==> answer.edge == d)
              && (d.Implicit? && answer.edge.Explicit? ==> !IsEdgeOf(c, KeyOf(r), answer.edge))
  {
    hide WellFormed, Boundary, SymbolLength, OkEdge, OkEdges, OkKnown, OkImplicit, OkMasks, CheckSequence, Inserted,
         Merged, IsEdgeOf;
    OkIsReady(c);
    AfterReadingIsOk(c, r.sequence);
    var read := AfterReading(c, r.sequence);
    SameEdgesOf(c, read, KeyOf(r));
    if CheckSequence(c, d, r.sequence).Clear? {
      match d {
        case Explicit(id) =>
          MergedEdges(read, id, r);
        case Implicit(at) =>
          var without := read.(implicit := read.implicit - {at});
          var r' := r.(tags := c.symbol + r.tags);
          OkWithout(read, at);
          WithoutEdges(read, KeyOf(r), at);
          InsertedEdges(without, r');
          assert r.tags <= c.symbol <==> r'.tags == c.symbol;
      }
    }
  }

  function Known(c: Content, key: Key): seq<EdgeDescriptor> {
    if key in c.known then c.known[key] else []
  }

  /** What an accepted request does to the edges of its key. A new symbol edge is answered if the request,
      with the planes it inherits, is a plain symbol; with a symbol edge as the partner, if it asks for no
      other tags. */
  lemma {:induction false} AcceptedUpdates(c: Content, r: Request)
    requires Ok(c) && Addable(c, r) && AfterAdd(c, r).1.Added?
    ensures var (after, answer) := AfterAdd(c, r);
            && Updates(c, after, KeyOf(r), Partner(c, r), answer.edge)
            && match Partner(c, r)
               case None => !IsEdgeOf(c, KeyOf(r), answer.edge)
                            && (answer.edge.Implicit? <==> IsPlainSymbol(c, Inherited(c, r)))
               case Some(Explicit(id)) => answer.edge == Explicit(id) && IsEdgeOf(c, KeyOf(r), Explicit(id))
               case Some(Implicit(at)) =>
                 && at == r.from && (IsEdgeOf(c, KeyOf(r), Implicit(at)) <==> at in c.implicit)
                 && (if Inherited(c, r).tags <= c.symbol then answer.edge == Implicit(at)
                     else answer.edge.Explicit? && !IsEdgeOf(c, KeyOf(r), answer.edge))
  {
    hide WellFormed, Boundary, SymbolLength, OkEdges, OkKnown, OkImplicit, OkMasks, Inserted, Joined, Inherited,
         Placed, Isoplanar, EdgesOf;
    if Partner(c, r).Some? {
      PartnerGoesForward(c, r);
    }
    WithKeyIsOk(c, KeyOf(r));
    var c', r' := WithKey(c, KeyOf(r)), Inherited(c, r);
    InheritedEnds(c, r);
    SamePartner(c, r);
    KeyedEdges(c, KeyOf(r));
    if Partner(c, r).None? {
      InsertedEdges(c', r');
    } else {
      JoinedEdges(c', r', Partner(c, r).value);
    }
  }

  lemma KeyedEdges(c: Content, key: Key)
    ensures EdgesOf(WithKey(c, key), key) == EdgesOf(c, key)
    ensures forall d :: IsEdgeOf(WithKey(c, key), key, d) <==> IsEdgeOf(c, key, d)
  {
    hide EdgesOf;
    assert forall d :: IsEdgeOf(WithKey(c, key), key, d) <==> IsEdgeOf(c, key, d);
  }

  /** There is one edge more exactly if no known edge is in the same plane, or the first one that is, is a
      symbol edge that has been replaced before; otherwise there are as many as before. */
  lemma {:induction false} OneMoreIff(c: Content, r: Request)
    requires Ok(c) && Addable(c, r) && AfterAdd(c, r).1.Added?
    ensures |EdgesOf(AfterAdd(c, r).0, KeyOf(r))| == |EdgesOf(c, KeyOf(r))| +
              match Partner(c, r)
              case None => 1
              case Some(Explicit(_)) => 0
              case Some(Implicit(at)) => if at in c.implicit then 0 else 1
  {
    hide Ok, Addable, AfterAdd, Partner, EdgesOf, IsPlainSymbol, Inherited, IsEdgeOf;
    AcceptedUpdates(c, r);
    var before, d := EdgesOf(c, KeyOf(r)), AfterAdd(c, r).1.edge;
    match Partner(c, r) {
      case None =>
        OneMore(before, d);
      case Some(Explicit(id)) =>
        OneMore(before, d);
      case Some(Implicit(at)) =>
        OneReplaced(before, Implicit(at), d);
    }
  }

  lemma OneMore<T>(before: set<T>, d: T)
    ensures |before - {} + {d}| == |before| + if d in before then 0 else 1
  {
    assert before - {} + {d} == if d in before then before else before + {d};
  }

  lemma OneReplaced<T>(before: set<T>, x: T, d: T)
    ensures |before - {x} + {d}| == |before| - (if x in before then 1 else 0) + if d in before && d != x then 0 else 1
  {
    OneMore(before - {x}, d);
    assert before - {x} - {} == before - {x};
    assert x in before ==> before == before - {x} + {x};
    assert x !in before ==> before == before - {x};
  }
}
