/** The builder and the iterator of edge sequences, access to their edges, and paths through a lattice. */
module LatticePaths {
  import opened Common
  import opened Utf8
  import opened LatticeStore
  import opened LatticeUpdates
  import opened EdgeSequences
  import opened LatticeWalks
  import L = Lattice

  // ---------- Asking leaves answers as they are ----------

  lemma FirstSymbolFrame(c: Content, at: nat)
    requires |c.missed| == |c.masks| && at <= |c.text|
    ensures |Indexed(c, SymbolMask(c)).missed| == |Indexed(c, SymbolMask(c)).masks|
    ensures FirstSymbol(Indexed(c, SymbolMask(c)), at) == FirstSymbol(c, at)
  {
    hide EdgesAt;
    L.SameAnswers(c, SymbolMask(c), Outgoing, at);
  }

  lemma {:induction false} SymbolUsagesFrame(c: Content, begin: nat, end: nat)
    requires Readable(c) && end <= |c.text| && (begin < end ==> Boundary(c.text, begin))
    ensures Readable(Indexed(c, SymbolMask(c)))
    ensures SymbolUsages(Indexed(c, SymbolMask(c)), begin, end) == SymbolUsages(c, begin, end)
    decreases end - begin
  {
    hide WellFormed, FirstSymbol, SymbolLength, Boundary;
    FirstSymbolFrame(c, 0);
    if begin < end {
      NextBoundary(c.text, begin);
      FirstSymbolFrame(c, begin);
      SymbolUsagesFrame(c, begin + SymbolLength(c.text[begin]), end);
    }
  }

  lemma PlacedFrame(c: Content, mask: Mask, s: EdgeSequence)
    requires Placed(c, s)
    ensures Placed(Indexed(c, mask), s)
  {
    hide Boundary;
  }

  lemma ExtendedFrame(c: Content, mask: Mask, b: Building, u: EdgeUsage)
    requires Denotes(c, u.edge)
    ensures Denotes(Indexed(c, mask), u.edge) && Extended(Indexed(c, mask), b, u) == Extended(c, b, u)
  {
    hide Boundary, SymbolLength;
  }

  // ---------- Building ----------

  class Builder {
    const lattice: L.Lattice
    var links: seq<EdgeUsage>
    var begin: int
    var end: int

    constructor (lattice: L.Lattice)
      ensures this.lattice == lattice && State() == Start()
    {
      this.lattice, links, begin, end := lattice, [], 0, 0;
    }

    function State(): Building
      reads this
    {
      Building(links, begin, end)
    }

    method AddEdge(edge: EdgeDescriptor, role: Option<Role>)
      requires Denotes(lattice.Contents(), edge)
      modifies this
      ensures State() == Extended(lattice.Contents(), old(State()), EdgeUsage(edge, role))
    {
      if begin <= end && lattice.IsEdgeHidden(edge) {
        if links == [] {
          begin := lattice.GetEdgeSource(edge);
          end := lattice.GetEdgeTarget(edge);
        } else if lattice.GetEdgeSource(edge) == end {
          end := lattice.GetEdgeTarget(edge);
        } else {
          end := 0;
        }
      } else {
        begin := 1;
        end := 0;
      }
      links := links + [EdgeUsage(edge, role)];
    }

    method Build() returns (s: EdgeSequence)
      ensures s == Built(State())
    {
      if begin < end {
        s := EdgeSequence([], begin, end);
      } else {
        s := EdgeSequence(links, 0, 0);
      }
    }
  }

  // ---------- Iterating ----------

  class Iterator {
    const lattice: L.Lattice
    const sequence: EdgeSequence
    var ei: nat
    var si: nat

    ghost predicate Valid()
      reads this, lattice
    {
      && lattice.Valid() && Readable(lattice.Contents()) && Placed(lattice.Contents(), sequence)
      && ei <= |sequence.links| && si <= |lattice.allText| && Boundary(lattice.allText, si)
    }

    constructor (lattice: L.Lattice, s: EdgeSequence)
      requires lattice.Valid() && Placed(lattice.Contents(), s)
      ensures this.lattice == lattice && sequence == s && Valid()
      ensures Left() == Usages(lattice.Contents(), s)
    {
      this.lattice, sequence, ei, si := lattice, s, 0, s.begin;
      new;
      lattice.ValidIsReady();
      assert s.links[0..] == s.links;
    }

    /** What is still to come; nothing if a symbol edge is missing. */
    ghost function Left(): Option<seq<EdgeUsage>>
      requires Valid()
      reads this, lattice
    {
      if sequence.links != [] then Some(sequence.links[ei..])
      else SymbolUsages(lattice.Contents(), si, sequence.end)
    }

    lemma LatticeIsValid()
      requires Valid()
      ensures lattice.Valid()
    {
    }

    method HasNext() returns (r: bool)
      requires Valid()
      ensures r <==> Left() != Some([])
    {
      hide Ok, L.Indexes, WellFormed, FirstSymbol, SymbolLength, Boundary, Denotes;
      if sequence.links == [] {
        r := si < sequence.end;
        assert r ==> Left().None? || |Left().value| > 0;
        assert !r ==> Left() == Some([]);
      } else {
        r := ei != |sequence.links|;
        assert |Left().value| == |sequence.links| - ei;
      }
    }

    /** None stands for the exception of an iterator at its end, or of a missing symbol edge. */
    method NextUsage() returns (r: Option<EdgeUsage>)
      requires Valid()
      modifies this, lattice
      ensures Valid()
      ensures lattice.Contents() == old(lattice.Contents())
           || lattice.Contents() == Indexed(old(lattice.Contents()), SymbolMask(old(lattice.Contents())))
      ensures old(Left()) == Some([]) ==> r.None?
      ensures old(Left()).Some? && old(Left()).value != [] ==>
                r == Some(old(Left()).value[0]) && Left() == Some(old(Left()).value[1..])
    {
      hide WellFormed, FirstSymbol, SymbolLength, Boundary, L.Indexes, Ok, Denotes;
      ghost var c := lattice.Contents();
      if sequence.links == [] {
        if si >= sequence.end {
          return None;
        }
        var currentSymbol := si;
        NextBoundary(lattice.allText, si);
        si := si + SymbolLength(lattice.allText[si]);
        FirstOutIsFirstSymbol(c, currentSymbol);
        PlacedFrame(c, SymbolMask(c), sequence);
        var edge := lattice.FirstOutEdge(currentSymbol, OneOf([lattice.symbolTag]));
        SymbolUsagesFrame(c, si, sequence.end);
        r := if edge.None? then None else Some(EdgeUsage(edge.value, None));
      } else {
        if ei == |sequence.links| {
          return None;
        }
        r := Some(sequence.links[ei]);
        ei := ei + 1;
      }
    }
  }

  lemma FirstOutIsFirstSymbol(c: Content, at: nat)
    requires |c.missed| == |c.masks| && at <= |c.text| && Boundary(c.text, at)
    ensures IsVertex(c, at)
    ensures var edges := EdgesAt(c, Outgoing, at, SymbolMask(c));
            FirstSymbol(c, at) == if edges == [] then None else Some(edges[0])
  {
    hide EdgesAt;
  }

  /** Reads a whole sequence. */
  method ReadAll(lattice: L.Lattice, s: EdgeSequence) returns (us: seq<EdgeUsage>)
    requires lattice.Valid() && Placed(lattice.Contents(), s)
    requires |lattice.missed| == |lattice.indexedTagMasks| && WellFormed(lattice.allText)
    requires Usages(lattice.Contents(), s).Some?
    modifies lattice
    ensures lattice.Valid() && Some(us) == old(Usages(lattice.Contents(), s))
  {
    hide SymbolUsages, Placed, WellFormed, L.Indexes, Ok, Usages, Iterator.Valid, Iterator.Left;
    var iter := new Iterator(lattice, s);
    us := [];
    ghost var all := Usages(lattice.Contents(), s).value;
    assert all[0..] == all;
    var more := iter.HasNext();
    while more
      invariant fresh(iter) && iter.lattice == lattice && iter.Valid()
      invariant |us| <= |all| && us == all[..|us|] && iter.Left() == Some(all[|us|..])
      invariant more <==> iter.Left() != Some([])
      decreases |all| - |us|
    {
      var u := iter.NextUsage();
      assert all[|us|..][1..] == all[|us| + 1..] && all[..|us| + 1] == all[..|us|] + [all[|us|]];
      us := us + [u.value];
      more := iter.HasNext();
    }
    assert all[|all|..] == [] && all[..|all|] == all;
    iter.LatticeIsValid();
  }

  // ---------- Access ----------

  method FirstEdge(lattice: L.Lattice, s: EdgeSequence) returns (r: Option<EdgeDescriptor>)
    requires lattice.Valid() && Placed(lattice.Contents(), s)
    modifies lattice
    ensures lattice.Valid() && Readable(old(lattice.Contents()))
    ensures r == FirstOf(old(lattice.Contents()), s)
  {
    hide Ok, L.Indexes, FirstSymbol, WellFormed, Boundary, Denotes;
    lattice.ValidIsReady();
    if s.links == [] {
      FirstOutIsFirstSymbol(lattice.Contents(), s.begin);
      r := lattice.FirstOutEdge(s.begin, OneOf([lattice.symbolTag]));
    } else {
      r := Some(s.links[0].edge);
    }
  }

  method LastEdge(lattice: L.Lattice, s: EdgeSequence) returns (r: Option<EdgeDescriptor>)
    requires lattice.Valid() && Placed(lattice.Contents(), s)
    modifies lattice
    ensures lattice.Valid() && Readable(old(lattice.Contents()))
    ensures r == LastOf(old(lattice.Contents()), s)
  {
    hide Ok, L.Indexes, WellFormed, Boundary, Denotes, EdgesAt;
    lattice.ValidIsReady();
    if s.links == [] {
      r := lattice.FirstInEdge(s.end, OneOf([lattice.symbolTag]));
    } else {
      r := Some(s.links[|s.links| - 1].edge);
    }
  }

  /** `utf8::advance`. */
  method Find(text: Text, begin: nat, end: nat, index: nat) returns (found: nat)
    requires WellFormed(text) && begin <= |text| && end <= |text| && Boundary(text, begin) && Boundary(text, end)
    requires index < Distance(text, begin, end)
    ensures found == Advance(text, begin, index) && found <= end && Boundary(text, found)
  {
    hide WellFormed, Boundary, SymbolLength;
    found := begin;
    for i := 0 to index
      invariant found <= end && Boundary(text, found)
      invariant Advance(text, begin, index) == Advance(text, found, index - i)
      invariant index - i < Distance(text, found, end)
    {
      NextBoundary(text, found);
      found := found + SymbolLength(text[found]);
    }
  }

  method NthEdge(lattice: L.Lattice, s: EdgeSequence, index: nat) returns (r: Option<EdgeDescriptor>)
    requires lattice.Valid() && Placed(lattice.Contents(), s) && index < Size(lattice.Contents(), s)
    modifies lattice
    ensures lattice.Valid() && Readable(old(lattice.Contents()))
    ensures r == NthOf(old(lattice.Contents()), s, index)
  {
    hide Ok, L.Indexes, FirstSymbol, WellFormed, Boundary, Denotes, SymbolLength;
    lattice.ValidIsReady();
    if s.links == [] {
      var found := Find(lattice.allText, s.begin, s.end, index);
      FirstOutIsFirstSymbol(lattice.Contents(), found);
      r := lattice.FirstOutEdge(found, OneOf([lattice.symbolTag]));
    } else {
      r := Some(s.links[index].edge);
    }
  }

  method SizeOf(lattice: L.Lattice, s: EdgeSequence) returns (n: nat)
    requires lattice.Valid() && Placed(lattice.Contents(), s)
    ensures n == Size(lattice.Contents(), s)
  {
    hide Ok, L.Indexes, WellFormed, Boundary, Denotes, SymbolLength;
    lattice.ValidIsReady();
    if s.links == [] {
      n := 0;
      var at: nat := s.begin;
      while at < s.end
        invariant n + Distance(lattice.allText, at, s.end) == Distance(lattice.allText, s.begin, s.end)
      {
        at := at + SymbolLength(lattice.allText[at]);
        n := n + 1;
      }
    } else {
      n := |s.links|;
    }
  }

  // ---------- Paths ----------

  /** The path has the properties promised, and ends where no matching edge goes on. */
  lemma {:induction false} PathIsPath(c: Content, v: int, mask: Mask, n: nat)
    requires Ok(c) && IsVertex(c, v) && PathEnds(c, v, mask, n)
    ensures var path := Path(c, v, mask, n);
            && IsPath(c, v, mask, path)
            && IsVertex(c, PathEnd(c, v, path)) && BestAt(c, PathEnd(c, v, path), mask).None?
    decreases n
  {
    hide Ok, WellFormed, EdgesAt, IsVertex, Denotes, SourceOf, TargetOf, IsPath;
    var best := BestAt(c, v, mask);
    if best.Some? {
      PathIsPath(c, TargetOf(c, best.value), mask, n - 1);
      FollowsBest(c, v, mask);
      PathGrows(c, v, mask, best.value, Path(c, TargetOf(c, best.value), mask, n - 1));
    } else {
      assert IsPath(c, v, mask, []) by { NoPath(c, v, mask); }
    }
  }

  lemma NoPath(c: Content, v: int, mask: Mask)
    requires Ok(c)
    ensures IsPath(c, v, mask, [])
  {
    hide Ok;
  }

  lemma FollowsBest(c: Content, v: int, mask: Mask)
    requires Ok(c) && IsVertex(c, v) && BestAt(c, v, mask).Some?
    ensures var best := BestAt(c, v, mask).value;
            FollowsLast(c, v, mask, best) && (best.Implicit? ==> best.at in c.implicit)
  {
    hide Ok, EdgesAt, Boundary, SourceOf, TargetOf;
    L.ReadyOk(c);
    var edges := EdgesAt(c, Outgoing, v, mask);
    StepsOn(c, v, mask, edges[|edges| - 1]);
  }

  lemma PathGrows(c: Content, v: int, mask: Mask, best: EdgeDescriptor, rest: seq<EdgeDescriptor>)
    requires Ok(c) && Denotes(c, best) && FollowsLast(c, v, mask, best)
    requires (best.Implicit? ==> best.at in c.implicit) && IsPath(c, TargetOf(c, best), mask, rest)
    ensures IsPath(c, v, mask, [best] + rest)
    ensures PathEnd(c, v, [best] + rest) == PathEnd(c, TargetOf(c, best), rest)
  {
    hide Ok, FollowsLast, SymbolLength, Boundary, Denotes, SourceOf, TargetOf;
    var path := [best] + rest;
    assert forall i :: 1 <= i < |path| ==> path[i] == rest[i - 1];
    assert forall i :: 0 <= i < |path| ==> Denotes(c, path[i]) && (path[i].Implicit? ==> path[i].at in c.implicit);
    forall i | 0 <= i < |path|
      ensures FollowsLast(c, PathVertex(c, v, path, i), mask, path[i])
    {
      if i > 0 {
        assert path[i] == rest[i - 1];
        assert PathVertex(c, v, path, i) == PathVertex(c, TargetOf(c, best), rest, i - 1);
      }
    }
  }

  lemma BuildMore(c: Content, path: seq<EdgeDescriptor>, d: EdgeDescriptor)
    requires AllDenote(c, Unnamed(path)) && Denotes(c, d)
    ensures AllDenote(c, Unnamed(path + [d]))
    ensures BuildAll(c, Unnamed(path + [d])) == Extended(c, BuildAll(c, Unnamed(path)), EdgeUsage(d, None))
  {
    hide Denotes, Extended, Unnamed;
    var us := Unnamed(path + [d]);
    assert us[..|us| - 1] == Unnamed(path);
    assert us[|us| - 1] == EdgeUsage(d, None);
  }

  /** The whole walk. */
  ghost function WholePath(c: Content, v: int, mask: Mask): seq<EdgeDescriptor>
    requires Ok(c) && IsVertex(c, v) && !Circles(c, v, mask)
  {
    WalkEndsIff(c, v, mask);
    Path(c, v, mask, Steps(c))
  }

  /** `getPath`: the last of the matching edges is taken at each vertex. The loop follows the walk, so it ends
      if and only if the walk comes to no vertex twice. */
  method GetPath(lattice: L.Lattice, start: int, mask: Mask) returns (s: EdgeSequence, vertex: int)
    requires lattice.Valid() && Ok(lattice.Contents()) && IsVertex(lattice.Contents(), start)
    requires !Circles(lattice.Contents(), start, mask)
    modifies lattice
    ensures lattice.Valid()
    ensures AllDenote(old(lattice.Contents()), Unnamed(WholePath(old(lattice.Contents()), start, mask)))
    ensures s == Built(BuildAll(old(lattice.Contents()), Unnamed(WholePath(old(lattice.Contents()), start, mask))))
    ensures vertex == PathEnd(old(lattice.Contents()), start, WholePath(old(lattice.Contents()), start, mask))
  {
    hide Ok, IsVertex, L.Indexes, Denotes, EdgesAt, Extended, Path, PathEnds, BuildAll, SourceOf, TargetOf, Indexed,
         Unnamed, AllDenote, Circles, Walk;
    ghost var c := lattice.Contents();
    ghost var n := Steps(c);
    WalkEndsIff(c, start, mask);
    assert Walk(c, start, mask, 0) == Some(start) by { WalkStarts(c, start, mask); }
    ghost var whole, path, left := Path(c, start, mask, n), [], n;
    var builder := new Builder(lattice);
    vertex := start;
    var nextVertexFound := true;
    StartPath(c);
    assert [] + whole == whole;
    while nextVertexFound
      invariant fresh(builder) && builder.lattice == lattice && lattice.Valid()
      invariant lattice.Contents() == c || lattice.Contents() == Indexed(c, mask)
      invariant IsVertex(c, vertex) && PathEnds(c, vertex, mask, left)
      invariant left <= n && Walk(c, start, mask, n - left) == Some(vertex)
      invariant path + Path(c, vertex, mask, left) == whole
      invariant AllDenote(c, Unnamed(path)) && builder.State() == BuildAll(c, Unnamed(path))
      invariant PathDenotes(c, path) && vertex == PathEnd(c, start, path)
      invariant !nextVertexFound ==> path == whole
      decreases left, nextVertexFound
    {
      PathStep(c, vertex, mask, left);
      SameAfterAsking(c, lattice.Contents(), vertex, mask);
      var edges := lattice.OutEdges(vertex, mask);
      if edges != [] {
        var bestOne := edges[|edges| - 1];
        SameBuilding(c, lattice.Contents(), mask, builder.State(), EdgeUsage(bestOne, None));
        builder.AddEdge(bestOne, None);
        BuildMore(c, path, bestOne);
        EndMoves(c, start, path, bestOne);
        WalkOn(c, start, mask, n - left, 1);
        vertex := lattice.GetEdgeTarget(bestOne);
        left := left - 1;
        Moved(path, bestOne, Path(c, vertex, mask, left));
        path := path + [bestOne];
      } else {
        nextVertexFound := false;
        assert path + [] == path;
      }
    }
    s := builder.Build();
  }

  lemma Moved<T>(a: seq<T>, x: T, b: seq<T>)
    ensures a + ([x] + b) == (a + [x]) + b
  {
  }

  ghost predicate PathDenotes(c: Content, path: seq<EdgeDescriptor>) {
    forall i :: 0 <= i < |path| ==> Denotes(c, path[i])
  }

  lemma EndMoves(c: Content, v: int, path: seq<EdgeDescriptor>, d: EdgeDescriptor)
    requires PathDenotes(c, path) && Denotes(c, d)
    ensures PathDenotes(c, path + [d]) && PathEnd(c, v, path + [d]) == TargetOf(c, d)
  {
    hide Denotes, TargetOf;
  }

  lemma WalkStarts(c: Content, v: int, mask: Mask)
    requires Ok(c) && IsVertex(c, v)
    ensures Walk(c, v, mask, 0) == Some(v)
  {
    hide Ok, IsVertex;
  }

  lemma StartPath(c: Content)
    ensures AllDenote(c, Unnamed([])) && BuildAll(c, Unnamed([])) == Start()
  {
  }

  lemma PathStep(c: Content, v: int, mask: Mask, n: nat)
    requires Ok(c) && IsVertex(c, v) && PathEnds(c, v, mask, n)
    ensures v <= |c.text| && |c.missed| == |c.masks|
    ensures var edges := EdgesAt(c, Outgoing, v, mask);
            if edges == [] then Path(c, v, mask, n) == []
            else
              var best := edges[|edges| - 1];
              Denotes(c, best) && IsVertex(c, TargetOf(c, best))
              && n > 0 && PathEnds(c, TargetOf(c, best), mask, n - 1)
              && Walk(c, v, mask, 1) == Some(TargetOf(c, best))
              && Path(c, v, mask, n) == [best] + Path(c, TargetOf(c, best), mask, n - 1)
  {
    hide Ok, Boundary, EdgesAt, Denotes, SourceOf, TargetOf;
    L.ReadyOk(c);
  }

  lemma SameAfterAsking(c: Content, now: Content, v: int, mask: Mask)
    requires |c.missed| == |c.masks| && v <= |c.text| && IsVertex(c, v) && (now == c || now == Indexed(c, mask))
    ensures |now.missed| == |now.masks| && now.text == c.text && IsVertex(now, v)
    ensures EdgesAt(now, Outgoing, v, mask) == EdgesAt(c, Outgoing, v, mask)
    ensures Indexed(now, mask) == Indexed(c, mask)
  {
    hide EdgesAt, Boundary;
    L.SameAnswers(c, mask, Outgoing, v);
  }

  lemma SameBuilding(c: Content, now: Content, mask: Mask, b: Building, u: EdgeUsage)
    requires now == c || now == Indexed(c, mask)
    requires Denotes(c, u.edge)
    ensures Denotes(now, u.edge) && Extended(now, b, u) == Extended(c, b, u)
    ensures TargetOf(now, u.edge) == TargetOf(c, u.edge)
  {
    hide Boundary, SymbolLength;
    ExtendedFrame(c, mask, b, u);
  }
}
