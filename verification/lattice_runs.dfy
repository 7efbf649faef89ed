/** Whole runs of a lattice: exactly when queries stop being filters. */
module LatticeRuns {
  import opened Common
  import opened Utf8
  import opened LatticeStore
  import opened LatticeUpdates

  // ---------- What is missed ----------

  /** What is missed for a mask does match it, and so is really missed. */
  ghost predicate MissedMatch(c: Content)
    requires |c.missed| == |c.masks|
  {
    forall i: nat, id: nat :: i < |c.missed| && id in c.missed[i] ==> MissedMatches(c, i, id)
  }

  ghost predicate MissedMatches(c: Content, i: nat, id: nat)
    requires i < |c.masks|
  {
    id < |c.edges| && Matches(c.edges[id].tags, c.masks[i]) && NoEmptyAlternative(c.masks[i])
  }

  /** The missed edges are the same; masks indexed anew miss none. */
  ghost predicate MissesAs(c: Content, after: Content) {
    && |c.missed| == |c.masks| <= |after.masks| == |after.missed| && c.masks <= after.masks
    && (forall i :: 0 <= i < |c.missed| ==> after.missed[i] == c.missed[i])
    && (forall i :: |c.missed| <= i < |after.missed| ==> after.missed[i] == {})
  }

  lemma MissesAsMatch(c: Content, after: Content)
    requires MissesAs(c, after) && Grown(c, after)
    ensures MissedMatch(c) ==> MissedMatch(after)
    ensures NothingMissed(after) <==> NothingMissed(c)
  {
    hide Matches, NoEmptyAlternative;
    if MissedMatch(c) {
      forall i: nat, id: nat | i < |after.missed| && id in after.missed[i]
        ensures MissedMatches(after, i, id)
      {
        assert i < |c.missed| && id in c.missed[i];
        assert MissedMatches(c, i, id);
        assert c.masks[i] == after.masks[i];
        assert Kin(c.edges[id], after.edges[id]);
        MatchesMore(c.edges[id].tags, after.edges[id].tags, c.masks[i]);
      }
    }
    assert forall i: nat :: i < |after.missed| ==>
             after.missed[i] == if i < |c.missed| then c.missed[i] else {};
    assert NothingMissed(c) ==> NothingMissed(after);
    assert forall i: nat :: i < |c.missed| ==> c.missed[i] == after.missed[i];
  }

  lemma InsertedMisses(c: Content, r: Request)
    requires Ok(c) && r.from <= |c.text| && r.to <= |c.text|
    ensures MissesAs(c, Inserted(c, r).0)
  {
    hide WellFormed, OkEdges, OkKnown, OkImplicit, Shown, IsPlainSymbol, Span;
    if r.tags == c.symbol {
      ShownIsOk(c, r.from, r.to);
    }
  }

  /** A mask that the merged edge matches, and the edge did not. */
  ghost predicate MatchesLate(masks: seq<Mask>, before: Tags, more: Tags) {
    exists mask :: mask in masks && !Matches(before, mask) && Matches(before + more, mask)
  }

  lemma MergedMisses(c: Content, id: nat, r: Request)
    requires Ok(c) && id < |c.edges| && MissedMatch(c)
    ensures |Merged(c, id, r).missed| == |Merged(c, id, r).masks| && MissedMatch(Merged(c, id, r))
    ensures NothingMissed(Merged(c, id, r)) <==>
            NothingMissed(c) && !MatchesLate(c.masks, c.edges[id].tags, r.tags)
  {
    hide WellFormed, OkEdges, OkKnown, OkImplicit, Matches, NoEmptyAlternative;
    var after, before, tags := Merged(c, id, r), c.edges[id].tags, c.edges[id].tags + r.tags;
    forall i: nat, k: nat | i < |after.missed| && k in after.missed[i]
      ensures MissedMatches(after, i, k)
    {
      if k in c.missed[i] {
        assert MissedMatches(c, i, k);
        MatchesMore(c.edges[k].tags, after.edges[k].tags, c.masks[i]);
      } else {
        LateHasNoEmpty(before, c.masks[i]);
      }
    }
    if MatchesLate(c.masks, before, r.tags) {
      var mask :| mask in c.masks && !Matches(before, mask) && Matches(tags, mask);
      var i :| 0 <= i < |c.masks| && c.masks[i] == mask;
      assert id in after.missed[i];
    } else {
      forall i | 0 <= i < |c.masks|
        ensures after.missed[i] == c.missed[i]
      {
        assert c.masks[i] in c.masks;
      }
    }
    if NothingMissed(after) {
      forall i | 0 <= i < |c.missed|
        ensures c.missed[i] == {}
      {
        assert c.missed[i] <= after.missed[i];
      }
    }
  }

  lemma LateHasNoEmpty(before: Tags, mask: Mask)
    requires !Matches(before, mask)
    ensures NoEmptyAlternative(mask)
  {
  }

  /** The request is merged with an edge of the graph, which then matches a mask that is indexed already and
      that it did not match before. */
  ghost predicate MergesLate(c: Content, r: Request)
    requires Ok(c) && Addable(c, r)
  {
    var d := Partner(c, r);
    && d.Some? && d.value.Explicit? && CheckSequence(c, d.value, r.sequence).Clear?
    && MatchesLate(AfterReading(c, r.sequence).masks, TagsOf(c, d.value), Inherited(c, r).tags)
  }

  lemma ReadMisses(c: Content, s: EdgeSequence)
    requires Ok(c)
    ensures Ok(AfterReading(c, s)) && MissesAs(c, AfterReading(c, s)) && Grown(c, AfterReading(c, s))
    ensures AfterReading(c, s).edges == c.edges
  {
    hide WellFormed, OkEdges, OkKnown, OkImplicit, Kin;
    AfterReadingIsOk(c, s);
    assert forall e :: Kin(e, e) by { KinToItself(); }
  }

  lemma KinToItself()
    ensures forall e :: Kin(e, e)
  {
  }

  lemma JoinedMisses(c: Content, r: Request, d: EdgeDescriptor)
    requires Ok(c) && Addable(c, r) && Denotes(c, d) && MissedMatch(c)
    ensures var after := Joined(c, r, d).0;
            && |after.missed| == |after.masks| && MissedMatch(after)
            && (NothingMissed(after) <==>
                  NothingMissed(c)
                  && !(d.Explicit? && CheckSequence(c, d, r.sequence).Clear?
                       && MatchesLate(AfterReading(c, r.sequence).masks, TagsOf(c, d), r.tags)))
  {
    hide WellFormed, Boundary, SymbolLength, OkEdge, OkEdges, OkKnown, CheckSequence, Inserted, Merged, MissedMatch,
         NothingMissed, MissesAs, MatchesLate, Grown, AfterReading;
    ReadMisses(c, r.sequence);
    var read := AfterReading(c, r.sequence);
    MissesAsMatch(c, read);
    MissesAreMasks(c, read);
    if CheckSequence(c, d, r.sequence).Clear? {
      match d {
        case Explicit(id) =>
          MergedMisses(read, id, r);
        case Implicit(at) =>
          var without := read.(implicit := read.implicit - {at});
          var r' := r.(tags := c.symbol + r.tags);
          OkWithout(read, at);
          GrownPlaces(c, read);
          InsertedMisses(without, r');
          InsertedGrows(without, r');
          SameMissed(read, without);
          MissesAsMatch(without, Inserted(without, r').0);
          MissesAreMasks(without, Inserted(without, r').0);
      }
    }
  }

  lemma MissesAreMasks(c: Content, after: Content)
    requires MissesAs(c, after)
    ensures |after.missed| == |after.masks|
  {
  }

  lemma GrownPlaces(c: Content, after: Content)
    requires Grown(c, after)
    ensures after.symbol == c.symbol && |c.text| <= |after.text|
  {
  }

  lemma OkWithout(c: Content, at: nat)
    requires Ok(c)
    ensures Ok(c.(implicit := c.implicit - {at}))
  {
    hide WellFormed, OkEdges, OkKnown, OkMasks, Boundary;
    ImplicitIsOk(c, c.implicit - {at});
  }

  lemma SameMissed(c: Content, after: Content)
    requires |c.missed| == |c.masks| && after.missed == c.missed && after.masks == c.masks && after.edges == c.edges
    ensures MissedMatch(after) <==> MissedMatch(c)
    ensures NothingMissed(after) <==> NothingMissed(c)
  {
    hide Matches, NoEmptyAlternative;
  }

  lemma PartnerGoesForward(c: Content, r: Request)
    requires Ok(c) && Addable(c, r) && Partner(c, r).Some?
    ensures Joins(c, KeyOf(r), Partner(c, r).value)
    ensures r.from != r.to && !(0 <= r.from && 0 <= r.to && r.from > r.to) && WithKey(c, KeyOf(r)) == c
  {
    hide WellFormed, OkImplicit, OkMasks, Inherited, IsVertex, Boundary, SequenceLength;
    var d := Partner(c, r).value;
    assert Joins(c, KeyOf(r), d);
    assert d.Explicit? ==> OkEdge(c, c.edges[d.id]);
  }

  /** After an addition something is missed exactly if it was missed before or the addition merges late. */
  lemma {:induction false} AfterAddMisses(c: Content, r: Request)
    requires Ok(c) && Addable(c, r) && MissedMatch(c)
    ensures var after := AfterAdd(c, r).0;
            && |after.missed| == |after.masks| && MissedMatch(after)
            && (NothingMissed(after) <==> NothingMissed(c) && !MergesLate(c, r))
  {
    hide WellFormed, Boundary, SymbolLength, OkEdges, OkKnown, OkImplicit, Inserted, Joined, Inherited, SourceOf,
         TargetOf, Placed, OkMasks, MissedMatch, NothingMissed, Partner, MatchesLate, CheckSequence, MissesAs,
         Isoplanar;
    OkIsReady(c);
    if Partner(c, r).Some? {
      PartnerGoesForward(c, r);
    }
    if r.from != r.to && !(0 <= r.from && 0 <= r.to && r.from > r.to) {
      WithKeyIsOk(c, KeyOf(r));
      var c', r' := WithKey(c, KeyOf(r)), Inherited(c, r);
      InheritedEnds(c, r);
      SamePartner(c, r);
      SameMissed(c, c');
      if Partner(c, r).None? {
        InsertedMisses(c', r');
        InsertedGrows(c', r');
        MissesAsMatch(c', Inserted(c', r').0);
        MissesAreMasks(c', Inserted(c', r').0);
      } else {
        JoinedMisses(c', r', Partner(c, r).value);
      }
    }
  }

  // ---------- Runs ----------

  ghost predicate NeverMergesLate(c: Content, steps: seq<Step>)
    requires Ok(c)
    decreases |steps|
  {
    steps != [] && Allowed(c, steps[0]) ==>
      && (steps[0].Add? ==> !MergesLate(c, steps[0].request))
      && (AfterIsOk(c, steps[0]);
          NeverMergesLate(After(c, steps[0]), steps[1..]))
  }

  lemma AfterMisses(c: Content, step: Step)
    requires Ok(c) && Allowed(c, step) && MissedMatch(c)
    ensures Ok(After(c, step)) && MissedMatch(After(c, step))
    ensures NothingMissed(After(c, step)) <==> NothingMissed(c) && (step.Add? ==> !MergesLate(c, step.request))
  {
    hide Addable, WellFormed, MergesLate, AfterAdd, OkEdges, OkKnown, OkImplicit, MissedMatch, NothingMissed, Grown;
    AfterIsOk(c, step);
    match step {
      case Add(r) =>
        AfterAddMisses(c, r);
      case Query(mask) =>
        assert MissesAs(c, Indexed(c, mask));
        MissesAsMatch(c, Indexed(c, mask));
      case AddVertex =>
        SameMissed(c, After(c, step));
      case AppendText(text) =>
        SameMissed(c, After(c, step));
    }
  }

  lemma {:induction false} RunMisses(c: Content, steps: seq<Step>, target: Content)
    requires Ok(c) && Run(c, steps, target) && MissedMatch(c)
    ensures Ok(target) && target.symbol == c.symbol && MissedMatch(target)
    ensures NothingMissed(target) <==> NothingMissed(c) && NeverMergesLate(c, steps)
    decreases |steps|
  {
    hide Ok, NothingMissed, MissedMatch, After, MergesLate, Allowed;
    if steps != [] {
      AfterMisses(c, steps[0]);
      AfterIsOk(c, steps[0]);
      RunMisses(After(c, steps[0]), steps[1..], target);
    }
  }

  /** Every query about the edges at a vertex, for a mask without an empty alternative, gives the filter. */
  ghost predicate AnswersFilters(c: Content)
    requires |c.missed| == |c.masks|
  {
    forall side, v, mask :: v <= |c.text| && NoEmptyAlternative(mask) ==>
      EdgesAt(c, side, v, mask) == Filter(c, side, v, mask)
  }

  lemma {:induction false} MissedIsNotFound(c: Content, t: Tag, i: nat, id: nat)
    requires Ok(c) && c.symbol == {t} && MissedMatch(c) && i < |c.missed| && id in c.missed[i]
    ensures id < |c.edges| && c.edges[id].from <= |c.text| && NoEmptyAlternative(c.masks[i])
    ensures EdgesAt(c, Outgoing, c.edges[id].from, c.masks[i]) != Filter(c, Outgoing, c.edges[id].from, c.masks[i])
  {
    hide WellFormed, Matches, OkKnown, OkImplicit, EdgesAt, Filter, NoEmptyAlternative;
    var mask := c.masks[i];
    assert MissedMatches(c, i, id);
    assert OkEdge(c, c.edges[id]);
    assert IndexOf(c.masks, mask) == i;
    assert Selected(c.edges, Outgoing, c.edges[id].from, mask, {}, id);
    EdgesAtIsFilterIff(c, t, Outgoing, c.edges[id].from, mask);
  }

  /** Whatever is added, asked and appended, and in whichever order: all queries give filters if and only if
      no step of the run has merged late. */
  lemma {:induction false} FiltersIff(t: Tag, planes: Tags, steps: seq<Step>, c: Content)
    requires t !in planes && Ok(Empty({t}, planes)) && Run(Empty({t}, planes), steps, c)
    ensures |c.missed| == |c.masks|
    ensures AnswersFilters(c) <==> NeverMergesLate(Empty({t}, planes), steps)
  {
    hide Ok, MissedMatch, EdgesAt, Filter, Run, NeverMergesLate, NothingMissed, NoEmptyAlternative;
    var empty := Empty({t}, planes);
    NothingIsMissed(t, planes);
    RunMisses(empty, steps, c);
    OkIsReady(c);
    if NothingMissed(c) {
      forall side, v, mask | v <= |c.text| && NoEmptyAlternative(mask)
        ensures EdgesAt(c, side, v, mask) == Filter(c, side, v, mask)
      {
        EdgesAtIsFilter(c, t, side, v, mask);
      }
    } else {
      var i, id := SomethingIsMissed(c);
      MissedIsNotFound(c, t, i, id);
    }
  }

  lemma NothingIsMissed(t: Tag, planes: Tags)
    ensures |Empty({t}, planes).missed| == |Empty({t}, planes).masks|
    ensures MissedMatch(Empty({t}, planes)) && NothingMissed(Empty({t}, planes))
  {
  }

  lemma SomethingIsMissed(c: Content) returns (i: nat, id: nat)
    requires !NothingMissed(c)
    ensures i < |c.missed| && id in c.missed[i]
  {
    i :| i < |c.missed| && c.missed[i] != {};
    id :| id in c.missed[i];
  }
}
