/** Sequences of edges: their compressed form, how they are built and what reading them gives. */
module EdgeSequences {
  import opened Common
  import opened Utf8
  import opened LatticeStore
  import opened LatticeUpdates

  // ---------- Reading ----------

  ghost predicate Readable(c: Content) {
    WellFormed(c.text) && |c.missed| == |c.masks|
  }

  /** The symbols of the text from `begin` to `end`; nothing if a symbol edge is missing on the way. */
  ghost function SymbolUsages(c: Content, begin: nat, end: nat): Option<seq<EdgeUsage>>
    requires Readable(c) && end <= |c.text| && (begin < end ==> Boundary(c.text, begin))
    decreases end - begin
  {
    if begin >= end then Some([])
    else
      NextBoundary(c.text, begin);
      var first := FirstSymbol(c, begin);
      var rest := SymbolUsages(c, begin + SymbolLength(c.text[begin]), end);
      if first.None? || rest.None? then None else Some([EdgeUsage(first.value, None)] + rest.value)
  }

  /** What iterating over a sequence gives. */
  ghost function Usages(c: Content, s: EdgeSequence): Option<seq<EdgeUsage>>
    requires Readable(c) && Placed(c, s)
  {
    if s.links != [] then Some(s.links)
    else if s.begin < s.end then SymbolUsages(c, s.begin, s.end)
    else Some([])
  }

  // ---------- Building ----------

  /** The state of a builder. */
  datatype Building = Building(links: seq<EdgeUsage>, begin: int, end: int)

  function Start(): Building {
    Building([], 0, 0)
  }

  /** `Builder::addEdge`: a range is kept as long as hidden symbol edges follow one another. */
  function Extended(c: Content, b: Building, u: EdgeUsage): Building
    requires Denotes(c, u.edge)
  {
    var links := b.links + [u];
    if b.begin <= b.end && IsHidden(c, u.edge) then
      if b.links == [] then Building(links, SourceOf(c, u.edge), TargetOf(c, u.edge))
      else if SourceOf(c, u.edge) == b.end then Building(links, b.begin, TargetOf(c, u.edge))
      else Building(links, b.begin, 0)
    else Building(links, 1, 0)
  }

  predicate AllDenote(c: Content, us: seq<EdgeUsage>) {
    forall i :: 0 <= i < |us| ==> Denotes(c, us[i].edge)
  }

  function BuildAll(c: Content, us: seq<EdgeUsage>): (b: Building)
    requires AllDenote(c, us)
    ensures b.links == us
  {
    if us == [] then Start() else Extended(c, BuildAll(c, us[..|us| - 1]), us[|us| - 1])
  }

  function Built(b: Building): EdgeSequence {
    if b.begin < b.end then EdgeSequence([], b.begin, b.end) else EdgeSequence(b.links, 0, 0)
  }

  // ---------- Building and reading again ----------

  /** The symbol edges among the list are those of the lattice now. */
  predicate Live(c: Content, us: seq<EdgeUsage>) {
    forall i :: 0 <= i < |us| && us[i].edge.Implicit? ==> us[i].edge.at in c.implicit
  }

  /** No later edge begins at the front of the text. */
  predicate NeverReturns(c: Content, us: seq<EdgeUsage>)
    requires AllDenote(c, us)
  {
    forall i :: 0 < i < |us| ==> SourceOf(c, us[i].edge) != 0
  }

  /** Each edge begins where the one before ends, or after that. */
  predicate Forward(c: Content, us: seq<EdgeUsage>)
    requires AllDenote(c, us)
  {
    forall i, j :: 0 <= i < j < |us| ==> TargetOf(c, us[i].edge) <= SourceOf(c, us[j].edge)
  }

  /** Where a range kept for the list would end: a break takes it back to the front of the text. */
  function Reach(c: Content, us: seq<EdgeUsage>): int
    requires AllDenote(c, us)
    decreases |us|, 1
  {
    if us == [] then 0
    else if IsBreak(c, us) then 0
    else TargetOf(c, us[|us| - 1].edge)
  }

  /** The last edge does not begin where the range has got to. */
  predicate IsBreak(c: Content, us: seq<EdgeUsage>)
    requires AllDenote(c, us) && us != []
    decreases |us|, 0
  {
    |us| > 1 && SourceOf(c, us[|us| - 1].edge) != Reach(c, us[..|us| - 1])
  }

  /** The number of edges up to the last break, that one included; 0 without a break. */
  function LastBreak(c: Content, us: seq<EdgeUsage>): (n: nat)
    requires AllDenote(c, us)
    ensures n <= |us|
  {
    if us == [] then 0 else if IsBreak(c, us) then |us| else LastBreak(c, us[..|us| - 1])
  }

  predicate AllHidden(c: Content, us: seq<EdgeUsage>) {
    forall i :: 0 <= i < |us| ==> IsHidden(c, us[i].edge)
  }

  /** Hidden symbols from the front of the text on, with a break, but not at the last one. */
  predicate Mistaken(c: Content, us: seq<EdgeUsage>)
    requires AllDenote(c, us)
  {
    us != [] && AllHidden(c, us) && SourceOf(c, us[0].edge) == 0 && 0 < LastBreak(c, us) < |us|
  }

  /** The builder keeps a range for the list. */
  predicate Compressed(c: Content, us: seq<EdgeUsage>)
    requires AllDenote(c, us)
  {
    BuildAll(c, us).begin < BuildAll(c, us).end
  }

  predicate WithoutRoles(us: seq<EdgeUsage>) {
    forall i :: 0 <= i < |us| ==> us[i].role.None?
  }

  function Plain(us: seq<EdgeUsage>): (r: seq<EdgeUsage>)
    ensures |r| == |us| && forall i :: 0 <= i < |us| ==> r[i] == EdgeUsage(us[i].edge, None)
  {
    if us == [] then [] else Plain(us[..|us| - 1]) + [EdgeUsage(us[|us| - 1].edge, None)]
  }

  /** Symbol edges of the text without a gap, from `begin` to `end`. */
  ghost predicate Chain(c: Content, us: seq<EdgeUsage>, begin: int, end: int)
    decreases |us|
  {
    if us == [] then begin == end
    else
      var last := us[|us| - 1].edge;
      last.Implicit? && Denotes(c, last) && last.at in c.implicit
      && TargetOf(c, last) == end && Chain(c, us[..|us| - 1], begin, last.at)
  }

  lemma {:induction false} ChainGoesUp(c: Content, us: seq<EdgeUsage>, begin: int, end: int)
    requires Chain(c, us, begin, end)
    ensures begin + |us| <= end
    decreases |us|
  {
    if us != [] {
      ChainGoesUp(c, us[..|us| - 1], begin, us[|us| - 1].edge.at);
    }
  }

  lemma DenoteInit(c: Content, us: seq<EdgeUsage>)
    requires us != [] && AllDenote(c, us)
    ensures AllDenote(c, us[..|us| - 1]) && Denotes(c, us[|us| - 1].edge)
    ensures Live(c, us) ==> Live(c, us[..|us| - 1])
    ensures AllHidden(c, us) <==> AllHidden(c, us[..|us| - 1]) && IsHidden(c, us[|us| - 1].edge)
  {
    hide Denotes, IsHidden;
    assert forall i :: 0 <= i < |us| - 1 ==> us[i] == us[..|us| - 1][i];
  }

  /** Exactly when the builder goes on keeping a range, and which. */
  ghost predicate RangeKeptIff(c: Content, us: seq<EdgeUsage>)
    requires AllDenote(c, us) && us != []
  {
    var b, first := BuildAll(c, us), SourceOf(c, us[0].edge);
    if AllHidden(c, us) && (first == 0 || LastBreak(c, us) == 0) then
      0 <= b.begin == first <= b.end == Reach(c, us)
    else
      b.begin > b.end
  }

  lemma HiddenIsOverText(c: Content, d: EdgeDescriptor)
    requires Denotes(c, d) && IsHidden(c, d)
    ensures 0 <= SourceOf(c, d) < TargetOf(c, d)
  {
    hide Boundary, SymbolLength;
  }

  lemma {:induction false} RangeKept(c: Content, us: seq<EdgeUsage>)
    requires AllDenote(c, us) && us != []
    ensures RangeKeptIff(c, us)
    decreases |us|
  {
    hide Denotes, SourceOf, TargetOf, IsHidden, AllHidden;
    DenoteInit(c, us);
    var init, u := us[..|us| - 1], us[|us| - 1];
    if IsHidden(c, u.edge) {
      HiddenIsOverText(c, u.edge);
    }
    if |us| == 1 {
      assert init == [];
      assert AllHidden(c, init) by { NoneHidden(c); }
      assert BuildAll(c, us) == Extended(c, Start(), u) && !IsBreak(c, us);
    } else {
      RangeKept(c, init);
      assert init[0] == us[0];
      var before := BuildAll(c, init);
      assert before.links == init && BuildAll(c, us) == Extended(c, before, u);
      assert IsBreak(c, us) <==> SourceOf(c, u.edge) != Reach(c, init);
      assert LastBreak(c, us) == if IsBreak(c, us) then |us| else LastBreak(c, init);
      assert RangeKeptIff(c, init);
    }
  }

  lemma NoneHidden(c: Content)
    ensures AllHidden(c, [])
  {
  }

  /** The symbols behind the last break are a chain. */
  lemma {:induction false} RestIsChain(c: Content, us: seq<EdgeUsage>)
    requires AllDenote(c, us) && us != [] && AllHidden(c, us) && Live(c, us)
    ensures var k := LastBreak(c, us);
            Chain(c, us[k..], if k == 0 then SourceOf(c, us[0].edge) else 0, Reach(c, us))
    decreases |us|
  {
    hide Denotes, SymbolLength, Boundary;
    DenoteInit(c, us);
    var k, init := LastBreak(c, us), us[..|us| - 1];
    if k == |us| {
      assert us[k..] == [];
    } else {
      assert us[k..][|us[k..]| - 1] == us[|us| - 1] && us[k..][..|us[k..]| - 1] == init[k..];
      if |us| == 1 {
        assert init[k..] == [];
      } else {
        RestIsChain(c, init);
        assert init[0] == us[0];
      }
    }
  }

  lemma FirstIsImplicit(c: Content, at: nat)
    requires Readable(c) && at <= |c.text| && at in c.implicit
    ensures FirstSymbol(c, at) == Some(Implicit(at))
  {
    hide Kept, Missed, Explicits, WellFormed;
    assert c.symbol in [c.symbol];
    assert SymbolEdge(c, Outgoing, at, SymbolMask(c)) == [Implicit(at)];
  }

  lemma {:induction false} SymbolUsagesAppend(c: Content, begin: nat, at: nat)
    requires Ok(c) && Readable(c) && begin <= at < |c.text| && Boundary(c.text, begin) && Boundary(c.text, at)
    requires SymbolUsages(c, begin, at).Some? && at in c.implicit
    ensures at + SymbolLength(c.text[at]) <= |c.text|
    ensures SymbolUsages(c, begin, at + SymbolLength(c.text[at]))
         == Some(SymbolUsages(c, begin, at).value + [EdgeUsage(Implicit(at), None)])
    decreases at - begin
  {
    hide SymbolLength, Ok, WellFormed, FirstSymbol;
    NextBoundary(c.text, at);
    NextBoundary(c.text, begin);
    var end := at + SymbolLength(c.text[at]);
    var next := begin + SymbolLength(c.text[begin]);
    if begin == at {
      FirstIsImplicit(c, at);
      assert SymbolUsages(c, end, end) == Some([]);
      assert [EdgeUsage(Implicit(at), None)] + [] == [] + [EdgeUsage(Implicit(at), None)];
    } else {
      assert next <= at;
      SymbolUsagesAppend(c, next, at);
      var first, rest := EdgeUsage(FirstSymbol(c, begin).value, None), SymbolUsages(c, next, at).value;
      assert [first] + rest + [EdgeUsage(Implicit(at), None)] == [first] + (rest + [EdgeUsage(Implicit(at), None)]);
    }
  }

  lemma ChainLast(c: Content, us: seq<EdgeUsage>, begin: int, end: int)
    requires Readable(c) && Chain(c, us, begin, end) && us != []
    ensures var last := us[|us| - 1].edge;
            && last.Implicit? && last.at in c.implicit && last.at < end <= |c.text|
            && end == last.at + SymbolLength(c.text[last.at])
            && Boundary(c.text, last.at) && Boundary(c.text, end)
            && Chain(c, us[..|us| - 1], begin, last.at)
  {
    hide SymbolLength, WellFormed;
    NextBoundary(c.text, us[|us| - 1].edge.at);
  }

  lemma NoSymbols(c: Content, us: seq<EdgeUsage>, begin: nat, end: nat)
    requires Readable(c) && Chain(c, us, begin, end) && us == [] && end <= |c.text|
    ensures begin == end && SymbolUsages(c, begin, end) == Some(Plain(us))
  {
  }

  /** Reading the range of a chain gives the chain, without roles. */
  lemma {:induction false} ChainIsRead(c: Content, us: seq<EdgeUsage>, begin: nat, end: nat)
    requires Ok(c) && Readable(c) && Chain(c, us, begin, end) && us != []
    ensures begin < end <= |c.text| && Boundary(c.text, begin) && Boundary(c.text, end)
    ensures SymbolUsages(c, begin, end) == Some(Plain(us))
    decreases |us|
  {
    hide SymbolLength, Ok, WellFormed, Boundary, Plain, Chain, SymbolUsages;
    var init, last := us[..|us| - 1], us[|us| - 1].edge;
    ChainLast(c, us, begin, end);
    if init == [] {
      NoSymbols(c, init, begin, last.at);
    } else {
      ChainIsRead(c, init, begin, last.at);
    }
    SymbolUsagesAppend(c, begin, last.at);
    PlainLast(us);
  }

  lemma PlainLast(us: seq<EdgeUsage>)
    requires us != []
    ensures Plain(us) == Plain(us[..|us| - 1]) + [EdgeUsage(us[|us| - 1].edge, None)]
    ensures Plain([]) == []
  {
  }

  /** The range that is kept is that of the symbols behind the last break. */
  lemma BuiltIsPlaced(c: Content, us: seq<EdgeUsage>)
    requires Ok(c) && Readable(c) && AllDenote(c, us) && Live(c, us)
    ensures Placed(c, Built(BuildAll(c, us)))
    ensures var b := BuildAll(c, us);
            Compressed(c, us) ==> LastBreak(c, us) < |us| && Chain(c, us[LastBreak(c, us)..], b.begin, b.end)
    ensures Mistaken(c, us) <==> Compressed(c, us) && LastBreak(c, us) > 0
  {
    hide SymbolLength, Ok, WellFormed, Boundary, AllHidden, Denotes;
    FrontIsBoundary(c.text);
    if us != [] {
      RangeKept(c, us);
      assert RangeKeptIff(c, us);
      if AllHidden(c, us) {
        RestIsChain(c, us);
        var k, b := LastBreak(c, us), BuildAll(c, us);
        if k < |us| && (k == 0 || SourceOf(c, us[0].edge) == 0) {
          ChainGoesUp(c, us[k..], b.begin, b.end);
          ChainIsRead(c, us[k..], b.begin, b.end);
        }
      }
    }
  }

  /** Whatever list is built, this is what reading the result gives: the list, or, where a range was kept, the
      edges behind the last break, without roles. */
  lemma {:induction false} BuildThenRead(c: Content, us: seq<EdgeUsage>)
    requires Ok(c) && Readable(c) && AllDenote(c, us) && Live(c, us)
    ensures Placed(c, Built(BuildAll(c, us)))
    ensures Usages(c, Built(BuildAll(c, us))) == Some(if Compressed(c, us) then Plain(us[LastBreak(c, us)..]) else us)
  {
    hide Ok, WellFormed, SymbolUsages, Chain, LastBreak, Denotes, Boundary;
    BuiltIsPlaced(c, us);
    var b := BuildAll(c, us);
    if Compressed(c, us) {
      ChainIsRead(c, us[LastBreak(c, us)..], b.begin, b.end);
    }
  }

  /** Reading gives the list back if and only if it is not mistaken for the symbols behind its last break, and
      has no roles where a range is kept. */
  lemma {:induction false} ReadBackIff(c: Content, us: seq<EdgeUsage>)
    requires Ok(c) && Readable(c) && AllDenote(c, us) && Live(c, us)
    ensures Placed(c, Built(BuildAll(c, us)))
    ensures Usages(c, Built(BuildAll(c, us))) == Some(us) <==>
            !Mistaken(c, us) && (Compressed(c, us) ==> WithoutRoles(us))
    ensures WithoutRoles(us) ==> (Usages(c, Built(BuildAll(c, us))) == Some(us) <==> !Mistaken(c, us))
  {
    hide Ok, WellFormed, Chain, Usages, Placed, Mistaken, Compressed, LastBreak, Denotes, Boundary;
    BuildThenRead(c, us);
    BuiltIsPlaced(c, us);
    if LastBreak(c, us) == 0 {
      assert us[0..] == us;
      PlainIff(us);
    }
  }

  lemma PlainIff(us: seq<EdgeUsage>)
    ensures Plain(us) == us <==> WithoutRoles(us)
  {
  }

  /** A list whose later edges never begin at the front of the text is not mistaken. */
  lemma {:induction false} NeverReturnsIsRead(c: Content, us: seq<EdgeUsage>)
    requires AllDenote(c, us) && NeverReturns(c, us)
    ensures !Mistaken(c, us)
  {
    hide Denotes, SourceOf, TargetOf;
    BreakReturns(c, us);
  }

  lemma {:induction false} BreakReturns(c: Content, us: seq<EdgeUsage>)
    requires AllDenote(c, us)
    ensures var k := LastBreak(c, us);
            && (k == |us| > 0 ==> Reach(c, us) == 0)
            && (0 < k < |us| ==> SourceOf(c, us[k].edge) == 0)
    decreases |us|
  {
    hide Denotes, SourceOf, TargetOf;
    if us != [] {
      DenoteInit(c, us);
      BreakReturns(c, us[..|us| - 1]);
    }
  }

  /** Forward lists do not return to the front. */
  lemma ForwardNeverReturns(c: Content, us: seq<EdgeUsage>)
    requires Ok(c) && AllDenote(c, us) && Forward(c, us)
    requires forall i :: 0 <= i < |us| ==> 0 <= SourceOf(c, us[i].edge) && 0 <= TargetOf(c, us[i].edge)
    ensures NeverReturns(c, us)
  {
    hide WellFormed, OkKnown, OkImplicit, OkMasks, IsVertex, SymbolLength, Boundary;
    forall i | 0 < i < |us|
      ensures SourceOf(c, us[i].edge) != 0
    {
      var first := us[0].edge;
      if first.Explicit? {
        assert OkEdge(c, c.edges[first.id]);
      }
    }
  }

  /** A list that does return can be mistaken for a range: three hidden symbols in the order 0, 2, 0 are
      compressed to the first symbol alone. */
  lemma {:induction false} ReturningIsLost(c: Content)
    requires Ok(c) && Readable(c) && 3 <= |c.text| && {0, 2} <= c.implicit
    requires c.text[0] < 0x80 && c.text[1] < 0x80 && c.text[2] < 0x80
    requires IsHidden(c, Implicit(0)) && IsHidden(c, Implicit(2))
    ensures var us := [EdgeUsage(Implicit(0), None), EdgeUsage(Implicit(2), None), EdgeUsage(Implicit(0), None)];
            && AllDenote(c, us) && Live(c, us)
            && Built(BuildAll(c, us)) == EdgeSequence([], 0, 1)
            && Placed(c, EdgeSequence([], 0, 1))
            && Usages(c, EdgeSequence([], 0, 1)) == Some([EdgeUsage(Implicit(0), None)])
  {
    hide Ok, WellFormed, FirstSymbol;
    var a, b := EdgeUsage(Implicit(0), None), EdgeUsage(Implicit(2), None);
    var us := [a, b, a];
    assert us[..2] == [a, b] && us[..2][..1] == [a] && us[..2][..1][..0] == [];
    assert BuildAll(c, [a, b][..1]) == Building([a], 0, 1);
    assert BuildAll(c, [a, b]) == Building([a, b], 0, 0);
    assert BuildAll(c, us) == Building(us, 0, 1);
    FirstIsImplicit(c, 0);
    assert SymbolUsages(c, 1, 1) == Some([]);
    assert SymbolLength(c.text[0]) == 1 && [a] + [] == [a];
    assert SymbolUsages(c, 0, 1) == Some([a] + SymbolUsages(c, 0 + SymbolLength(c.text[0]), 1).value);
    assert AllDenote(c, us);
    assert Live(c, us);
    assert Placed(c, EdgeSequence([], 0, 1));
  }

  // ---------- Access without reading all ----------

  function Distance(text: Text, begin: nat, end: nat): nat
    requires end <= |text|
    decreases end - begin
  {
    if begin >= end then 0 else 1 + Distance(text, begin + SymbolLength(text[begin]), end)
  }

  function Advance(text: Text, begin: nat, n: nat): nat
    decreases n
  {
    if n == 0 || begin >= |text| then begin else Advance(text, begin + SymbolLength(text[begin]), n - 1)
  }

  function Size(c: Content, s: EdgeSequence): nat
    requires Placed(c, s)
  {
    if s.links == [] then Distance(c.text, s.begin, s.end) else |s.links|
  }

  ghost function FirstOf(c: Content, s: EdgeSequence): Option<EdgeDescriptor>
    requires Readable(c) && Placed(c, s)
  {
    if s.links == [] then FirstSymbol(c, s.begin) else Some(s.links[0].edge)
  }

  /** The first symbol edge into a position. */
  function LastSymbol(c: Content, at: nat): Option<EdgeDescriptor>
    requires |c.missed| == |c.masks| && at <= |c.text|
  {
    var edges := EdgesAt(c, Incoming, at, SymbolMask(c));
    if edges == [] then None else Some(edges[0])
  }

  ghost function LastOf(c: Content, s: EdgeSequence): Option<EdgeDescriptor>
    requires Readable(c) && Placed(c, s)
  {
    if s.links == [] then LastSymbol(c, s.end) else Some(s.links[|s.links| - 1].edge)
  }

  lemma {:induction false} AdvanceStays(text: Text, begin: nat, end: nat, n: nat)
    requires WellFormed(text) && end <= |text| && Boundary(text, end)
    requires begin <= end && Boundary(text, begin) && n <= Distance(text, begin, end)
    ensures Advance(text, begin, n) <= end && Boundary(text, Advance(text, begin, n))
    decreases n
  {
    hide WellFormed, SymbolLength, Boundary;
    if n > 0 {
      NextBoundary(text, begin);
      AdvanceStays(text, begin + SymbolLength(text[begin]), end, n - 1);
    }
  }

  ghost function NthOf(c: Content, s: EdgeSequence, n: nat): Option<EdgeDescriptor>
    requires Readable(c) && Placed(c, s) && n < Size(c, s)
  {
    if s.links == [] then
      AdvanceStays(c.text, s.begin, s.end, n);
      FirstSymbol(c, Advance(c.text, s.begin, n))
    else Some(s.links[n].edge)
  }

  lemma {:induction false} NthSymbol(c: Content, begin: nat, end: nat, n: nat)
    requires Readable(c) && end <= |c.text| && (begin < end ==> Boundary(c.text, begin))
    requires SymbolUsages(c, begin, end).Some?
    ensures |SymbolUsages(c, begin, end).value| == Distance(c.text, begin, end)
    ensures n < Distance(c.text, begin, end) ==>
              var at := Advance(c.text, begin, n);
              at < end && Boundary(c.text, at)
              && FirstSymbol(c, at) == Some(SymbolUsages(c, begin, end).value[n].edge)
    decreases end - begin
  {
    hide SymbolLength, WellFormed, FirstSymbol;
    if begin < end {
      NextBoundary(c.text, begin);
      NthSymbol(c, begin + SymbolLength(c.text[begin]), end, if n == 0 then 0 else n - 1);
    }
  }

  /** The first symbol edge into a boundary whose symbol is still in the text. */
  lemma LastIsImplicit(c: Content, at: nat)
    requires Readable(c) && at < |c.text| && Boundary(c.text, at) && at in c.implicit
    ensures at + SymbolLength(c.text[at]) <= |c.text|
    ensures LastSymbol(c, at + SymbolLength(c.text[at])) == Some(Implicit(at))
  {
    hide Kept, Missed, Explicits, WellFormed, SymbolLength, Prior, Boundary;
    SymbolIsPrior(c.text, at);
    var end := at + SymbolLength(c.text[at]);
    assert c.symbol in [c.symbol];
    assert SymbolEdge(c, Incoming, end, SymbolMask(c)) == [Implicit(at)];
  }

  /** `firstEdge`, `lastEdge`, `nthEdge` and `size` of what was built agree with the list it was built from,
      compressed or not, unless it is mistaken; then even the size is another. */
  lemma {:induction false} AccessAgrees(c: Content, us: seq<EdgeUsage>, n: nat)
    requires Ok(c) && Readable(c) && AllDenote(c, us) && Live(c, us)
    ensures Placed(c, Built(BuildAll(c, us)))
    ensures Size(c, Built(BuildAll(c, us))) == |us| <==> !Mistaken(c, us)
    ensures !Mistaken(c, us) && n < |us| ==>
              var s := Built(BuildAll(c, us));
              && Size(c, s) == |us|
              && FirstOf(c, s) == Some(us[0].edge)
              && NthOf(c, s, n) == Some(us[n].edge)
              && LastOf(c, s) == Some(us[|us| - 1].edge)
  {
    hide Ok, WellFormed, SymbolUsages, SymbolLength, Boundary, EdgesAt, Extended, Mistaken, LastBreak, AllHidden;
    BuiltIsPlaced(c, us);
    var b, k := BuildAll(c, us), LastBreak(c, us);
    if Compressed(c, us) {
      ChainIsRead(c, us[k..], b.begin, b.end);
      NthSymbol(c, b.begin, b.end, n);
      NthSymbol(c, b.begin, b.end, 0);
      if k == 0 {
        assert us[0..] == us;
        LastIsImplicit(c, us[|us| - 1].edge.at);
      }
    }
  }

  // ---------- Paths ----------

  lemma StepsOn(c: Content, v: int, mask: Mask, d: EdgeDescriptor)
    requires Ok(c) && IsVertex(c, v) && d in EdgesAt(c, Outgoing, v, mask)
    ensures Denotes(c, d) && SourceOf(c, d) == v && IsVertex(c, TargetOf(c, d))
    ensures d.Implicit? ==> d.at in c.implicit
    ensures 0 <= v && 0 <= TargetOf(c, d) ==> v < TargetOf(c, d)
  {
    hide WellFormed, OkKnown, Kept, Missed, Explicits, SymbolLength;
    EdgesAtDenote(c, Outgoing, v, mask);
    match d {
      case Implicit(at) =>
        NextBoundary(c.text, at);
        ExplicitsOnly(Kept(c.edges, Outgoing, v, mask, Missed(c, mask)), at);
      case Explicit(id) =>
        assert OkEdge(c, c.edges[id]);
    }
  }

  lemma ExplicitsOnly(ids: seq<nat>, at: nat)
    ensures Implicit(at) !in Explicits(ids)
  {
  }

  /** The last of the matching edges at `v`. */
  ghost function BestAt(c: Content, v: int, mask: Mask): (r: Option<EdgeDescriptor>)
    requires Ok(c) && IsVertex(c, v)
    ensures r.Some? ==> Denotes(c, r.value) && SourceOf(c, r.value) == v && IsVertex(c, TargetOf(c, r.value))
    ensures r.None? <==> |c.missed| == |c.masks| && v <= |c.text| && EdgesAt(c, Outgoing, v, mask) == []
  {
    var edges := EdgesAt(c, Outgoing, v, mask);
    if edges == [] then None
    else
      StepsOn(c, v, mask, edges[|edges| - 1]);
      Some(edges[|edges| - 1])
  }

  /** From `v` on, the walk along the last matching edges comes to a vertex without one in at most `n` steps. */
  ghost predicate PathEnds(c: Content, v: int, mask: Mask, n: nat)
    requires Ok(c) && IsVertex(c, v)
    decreases n
  {
    var best := BestAt(c, v, mask);
    best.Some? ==> n > 0 && PathEnds(c, TargetOf(c, best.value), mask, n - 1)
  }

  /** From `v` on, always along the last matching edge. */
  ghost function Path(c: Content, v: int, mask: Mask, n: nat): seq<EdgeDescriptor>
    requires Ok(c) && IsVertex(c, v) && PathEnds(c, v, mask, n)
    decreases n
  {
    var best := BestAt(c, v, mask);
    if best.None? then [] else [best.value] + Path(c, TargetOf(c, best.value), mask, n - 1)
  }

  ghost predicate OverText(c: Content) {
    forall id :: 0 <= id < |c.edges| ==> 0 <= c.edges[id].from && 0 <= c.edges[id].to
  }

  /** Without edges at loose vertices every walk ends. */
  lemma {:induction false} OverTextEnds(c: Content, v: nat, mask: Mask)
    requires Ok(c) && OverText(c) && IsVertex(c, v)
    ensures v <= |c.text| && PathEnds(c, v, mask, |c.text| - v)
    decreases |c.text| - v
  {
    hide Ok, EdgesAt, SymbolLength, Boundary, Denotes, OverText;
    var best := BestAt(c, v, mask);
    if best.Some? {
      StepsOverText(c, v, mask, best.value);
      OverTextEnds(c, TargetOf(c, best.value), mask);
      EndsLater(c, TargetOf(c, best.value), mask, |c.text| - TargetOf(c, best.value), |c.text| - v - 1);
    }
  }

  lemma StepsOverText(c: Content, v: nat, mask: Mask, d: EdgeDescriptor)
    requires Ok(c) && OverText(c) && IsVertex(c, v) && BestAt(c, v, mask) == Some(d)
    ensures v < TargetOf(c, d) <= |c.text|
  {
    hide Ok, EdgesAt, SymbolLength, Boundary;
    StepsOn(c, v, mask, d);
  }

  lemma {:induction false} EndsLater(c: Content, v: int, mask: Mask, n: nat, m: nat)
    requires Ok(c) && IsVertex(c, v) && PathEnds(c, v, mask, n) && n <= m
    ensures PathEnds(c, v, mask, m)
    decreases n
  {
    hide Ok, EdgesAt, Denotes, IsVertex, SourceOf, TargetOf;
    var best := BestAt(c, v, mask);
    if best.Some? {
      EndsLater(c, TargetOf(c, best.value), mask, n - 1, m - 1);
    }
  }

  ghost function PathEnd(c: Content, v: int, path: seq<EdgeDescriptor>): int
    requires forall j :: 0 <= j < |path| ==> Denotes(c, path[j])
  {
    if path == [] then v else TargetOf(c, path[|path| - 1])
  }

  /** `path` starts at `v`, has no gaps and follows the last matching edge each time. */
  ghost predicate IsPath(c: Content, v: int, mask: Mask, path: seq<EdgeDescriptor>)
    requires Ok(c)
  {
    && (forall i :: 0 <= i < |path| ==> Denotes(c, path[i]) && (path[i].Implicit? ==> path[i].at in c.implicit))
    && (forall i :: 0 <= i < |path| ==> FollowsLast(c, PathVertex(c, v, path, i), mask, path[i]))
  }

  /** Where the path stands before its edge `i`. */
  ghost function PathVertex(c: Content, v: int, path: seq<EdgeDescriptor>, i: nat): int
    requires i <= |path| && forall j :: 0 <= j < |path| ==> Denotes(c, path[j])
  {
    if i == 0 then v else TargetOf(c, path[i - 1])
  }

  /** `d` leads on from `v` and is the last matching edge there. */
  ghost predicate FollowsLast(c: Content, v: int, mask: Mask, d: EdgeDescriptor)
    requires Ok(c) && Denotes(c, d)
  {
    SourceOf(c, d) == v && v <= |c.text| && IsLast(EdgesAt(c, Outgoing, v, mask), d)
  }

  predicate IsLast(edges: seq<EdgeDescriptor>, d: EdgeDescriptor) {
    edges != [] && edges[|edges| - 1] == d
  }

  function Unnamed(path: seq<EdgeDescriptor>): (r: seq<EdgeUsage>)
    ensures |r| == |path| && forall i :: 0 <= i < |path| ==> r[i] == EdgeUsage(path[i], None)
  {
    if path == [] then [] else [EdgeUsage(path[0], None)] + Unnamed(path[1..])
  }

  /** Without gaps there are no breaks. */
  lemma {:induction false} NoGapsNoBreaks(c: Content, us: seq<EdgeUsage>)
    requires AllDenote(c, us)
    requires forall i :: 0 < i < |us| ==> SourceOf(c, us[i].edge) == TargetOf(c, us[i - 1].edge)
    ensures LastBreak(c, us) == 0 && (us != [] ==> Reach(c, us) == TargetOf(c, us[|us| - 1].edge))
    decreases |us|
  {
    hide Denotes, SourceOf, TargetOf;
    if us != [] {
      DenoteInit(c, us);
      NoGapsNoBreaks(c, us[..|us| - 1]);
    }
  }

  /** Building a path and reading it again gives it back. */
  lemma {:induction false} PathIsReadBack(c: Content, v: int, mask: Mask, path: seq<EdgeDescriptor>)
    requires Ok(c) && Readable(c) && IsPath(c, v, mask, path)
    ensures var us := Unnamed(path);
            && AllDenote(c, us) && Placed(c, Built(BuildAll(c, us)))
            && Usages(c, Built(BuildAll(c, us))) == Some(us)
  {
    hide Ok, WellFormed, SymbolLength, Boundary, BuildAll, Built, Denotes, SourceOf, TargetOf, Placed,
         Usages, Unnamed, EdgesAt, LastBreak;
    var us := Unnamed(path);
    forall i | 0 < i < |us|
      ensures SourceOf(c, us[i].edge) == TargetOf(c, us[i - 1].edge)
    {
      assert FollowsLast(c, PathVertex(c, v, path, i), mask, path[i]);
    }
    NoGapsNoBreaks(c, us);
    ReadBackIff(c, us);
  }
}
