/** Runs from an empty lattice that reach what its documentation rules out: a matching edge that a query does
    not find, and two edges between the same vertices with the same item. */
module LatticeWitnesses {
  import opened Common
  import opened Utf8
  import opened LatticeStore
  import opened LatticeUpdates
  import opened LatticeRuns
  import opened LatticeDuplicates
  import opened EdgeSequences
  import opened LatticeWalks

  // ---------- Single steps ----------

  const OneLetter: Text := [65]

  function NoSequence(): EdgeSequence {
    EdgeSequence([], 0, 0)
  }

  function Asking(from: int, to: int, item: Item, tags: Tags): Request {
    Request(from, to, item, tags, NoSequence(), 0.0, 0, 0)
  }

  lemma Appends(c: Content, text: Text)
    requires Ok(c) && WellFormed(text)
    ensures var next := c.(text := c.text + text);
            Allowed(c, AppendText(text)) && After(c, AppendText(text)) == next && Ok(next)
  {
    hide Ok, WellFormed;
    AppendedTextIsOk(c, text);
  }

  lemma Asks(c: Content, mask: Mask)
    requires Ok(c)
    ensures var next := Indexed(c, mask);
            Allowed(c, Query(mask)) && After(c, Query(mask)) == next && Ok(next)
  {
    hide Ok;
    IndexedIsOk(c, mask);
  }

  ghost predicate Acceptable(c: Content, r: Request) {
    && IsVertex(c, r.from) && IsVertex(c, r.to) && r.from != r.to && !(0 <= r.to < r.from)
    && r.sequence == NoSequence()
  }

  lemma AcceptableIsAddable(c: Content, r: Request)
    requires Ok(c) && Acceptable(c, r)
    ensures Addable(c, r) && Inherited(c, r) == r && KeyOf(Inherited(c, r)) == KeyOf(r)
    ensures OkEdge(c, NewEdge(r))
  {
    hide SequenceLength, OkEdges, OkKnown, OkImplicit, OkMasks;
    FrontIsBoundary(c.text);
    assert r.tags + {} == r.tags;
  }

  function WithEdge(c: Content, r: Request): Content {
    c.(edges := c.edges + [NewEdge(r)], hidden := c.hidden + Span(r.from, r.to),
       known := c.known[KeyOf(r) := Known(c, KeyOf(r)) + [Explicit(|c.edges|)]])
  }

  /** An edge of its own plane, with other tags than a symbol, is added to the graph. */
  lemma AddsEdge(c: Content, r: Request)
    requires Ok(c) && Acceptable(c, r) && r.tags != c.symbol
    requires Addable(c, r) ==> Partner(c, r).None?
    ensures Addable(c, r) && AfterAdd(c, r) == (WithEdge(c, r), Added(Explicit(|c.edges|))) && Ok(WithEdge(c, r))
    ensures After(c, Add(r)) == WithEdge(c, r)
  {
    hide OkEdges, OkKnown, OkImplicit, OkMasks, WellFormed, Acceptable, IsVertex, Placed, Span, Isoplanar, Inherited;
    AcceptableIsAddable(c, r);
    AcceptableEnds(c, r);
    AfterAddIsOk(c, r);
    SamePartner(c, r);
    AddsKey(c, r);
  }

  lemma AcceptableEnds(c: Content, r: Request)
    requires Acceptable(c, r)
    ensures r.from != r.to && !(0 <= r.to < r.from) && r.from <= |c.text| && r.to <= |c.text|
    ensures r.sequence.links == [] && r.sequence.begin >= r.sequence.end
  {
    hide Boundary;
  }

  lemma AddsKey(c: Content, r: Request)
    ensures WithKey(c, KeyOf(r)).known[KeyOf(r) := Known(c, KeyOf(r)) + [Explicit(|c.edges|)]]
         == c.known[KeyOf(r) := Known(c, KeyOf(r)) + [Explicit(|c.edges|)]]
  {
  }

  // ---------- A match that comes late ----------

  function LateSteps(item: Item, p: Tag, q: Tag): seq<Step> {
    [AppendText(OneLetter), Add(Asking(0, 1, item, {p})), Query(OneOf([{q}])), Add(Asking(0, 1, item, {q}))]
  }

  lemma OneLetterIsText()
    ensures WellFormed(OneLetter) && Boundary(OneLetter, 0) && Boundary(OneLetter, 1)
    ensures SymbolLength(OneLetter[0]) == 1
  {
  }

  lemma FirstLetter(t: Tag, planes: Tags)
    requires t !in planes
    ensures var c, next := Empty({t}, planes), Empty({t}, planes).(text := OneLetter);
            && Ok(c) && Ok(next)
            && Allowed(c, AppendText(OneLetter)) && After(c, AppendText(OneLetter)) == next
  {
    hide WellFormed;
    EmptyIsOk(t, planes);
    OneLetterIsText();
    Appends(Empty({t}, planes), OneLetter);
    assert [] + OneLetter == OneLetter;
  }

  lemma Letter(c: Content, item: Item, tags: Tags)
    requires c.text == OneLetter
    ensures Acceptable(c, Asking(0, 1, item, tags))
  {
    OneLetterIsText();
  }

  lemma RunFrom(c: Content, steps: seq<Step>, i: nat, next: Content, target: Content)
    requires Ok(c) && i < |steps| && Allowed(c, steps[i]) && After(c, steps[i]) == next && Ok(next)
    requires Run(next, steps[i + 1..], target)
    ensures Run(c, steps[i..], target)
  {
    hide Ok, Allowed, After;
    assert steps[i..][0] == steps[i] && steps[i..][1..] == steps[i + 1..];
  }

  lemma FirstOfKey(c: Content, r: Request)
    requires Ok(c) && Addable(c, r) && KeyOf(r) !in c.known
    ensures Partner(c, r).None?
  {
  }

  /** An edge over the letter. */
  lemma FirstEdge(t: Tag, planes: Tags, item: Item, p: Tag)
    requires t !in planes && t != p
    ensures var c, r := Empty({t}, planes).(text := OneLetter), Asking(0, 1, item, {p});
            && Ok(c) && Allowed(c, Add(r)) && After(c, Add(r)) == WithEdge(c, r) && Ok(WithEdge(c, r))
            && Known(WithEdge(c, r), KeyOf(r)) == [Explicit(0)]
  {
    hide Ok, Acceptable, Partner, WellFormed;
    var c, r := Empty({t}, planes).(text := OneLetter), Asking(0, 1, item, {p});
    FirstLetter(t, planes);
    Letter(c, item, {p});
    AcceptableIsAddable(c, r);
    FirstOfKey(c, r);
    AddsEdge(c, r);
  }

  /** Merging into the only edge. */
  lemma MergesInto(c: Content, r: Request)
    requires Ok(c) && Acceptable(c, r) && Addable(c, r) && Partner(c, r) == Some(Explicit(0))
    ensures |c.edges| > 0 && AfterAdd(c, r).0 == Merged(c, 0, r)
  {
    hide Ok, Merged, Isoplanar, Inherited;
    PartnerGoesForward(c, r);
    AcceptableIsAddable(c, r);
    OkIsReady(c);
    AcceptableEnds(c, r);
    SamePartner(c, r);
  }

  lemma OnlyPartner(c: Content, r: Request, d: EdgeDescriptor)
    requires Ok(c) && Addable(c, r) && Inherited(c, r) == r && Known(c, KeyOf(r)) == [d] && Denotes(c, d)
    ensures Partner(c, r) == if TagsOf(c, d) * c.planes == r.tags * c.planes then Some(d) else None
  {
    hide Ok, Denotes, TagsOf;
    assert [d][1..] == [];
  }

  /** Asking for a mask, and then merging tags that match it into an edge: the edge is not found. */
  lemma {:induction false} LateRun(item: Item, t: Tag, p: Tag, q: Tag) returns (c: Content)
    requires t != p && t != q && p != q
    ensures Ok(Empty({t}, {})) && Run(Empty({t}, {}), LateSteps(item, p, q), c)
    ensures Ok(c) && |c.missed| == |c.masks| && |c.text| == 1
    ensures Explicit(0) in Filter(c, Outgoing, 0, OneOf([{q}]))
    ensures Explicit(0) !in EdgesAt(c, Outgoing, 0, OneOf([{q}]))
  {
    hide Ok, Run, Acceptable, Merged, Partner, Filter, EdgesAt, WellFormed, AfterAdd, Matches;
    var steps, mask := LateSteps(item, p, q), OneOf([{q}]);
    var first, second := Asking(0, 1, item, {p}), Asking(0, 1, item, {q});
    var c0 := Empty({t}, {});
    var c1 := c0.(text := OneLetter);
    FirstLetter(t, {});
    FirstEdge(t, {}, item, p);
    var c2 := WithEdge(c1, first);
    Asks(c2, mask);
    var c3 := Indexed(c2, mask);
    Letter(c3, item, {q});
    AcceptableIsAddable(c3, second);
    assert Known(c3, KeyOf(second)) == [Explicit(0)];
    OnlyPartner(c3, second, Explicit(0));
    MergesInto(c3, second);
    AfterAddIsOk(c3, second);
    c := Merged(c3, 0, second);
    FourSteps(c0, c1, c2, c3, c, steps);
    Unmatched(p, q);
    LateMatchIsMissed(c3, 0, second, mask);
  }

  lemma RunsNowhere(c: Content, steps: seq<Step>)
    requires Ok(c)
    ensures Run(c, steps[|steps|..], c)
  {
    hide Ok;
    assert steps[|steps|..] == [];
  }

  ghost predicate LeadsTo(c: Content, step: Step, next: Content) {
    Ok(c) && Allowed(c, step) && After(c, step) == next && Ok(next)
  }

  lemma ThreeSteps(c0: Content, c1: Content, c2: Content, c3: Content, steps: seq<Step>)
    requires |steps| == 3 && LeadsTo(c0, steps[0], c1) && LeadsTo(c1, steps[1], c2) && LeadsTo(c2, steps[2], c3)
    ensures Ok(c0) && Run(c0, steps, c3)
  {
    hide Ok, Allowed, After, Run;
    RunsNowhere(c3, steps);
    RunFrom(c2, steps, 2, c3, c3);
    RunFrom(c1, steps, 1, c2, c3);
    RunFrom(c0, steps, 0, c1, c3);
    assert steps[0..] == steps;
  }

  lemma FourSteps(c0: Content, c1: Content, c2: Content, c3: Content, c4: Content, steps: seq<Step>)
    requires |steps| == 4 && LeadsTo(c0, steps[0], c1) && LeadsTo(c1, steps[1], c2)
    requires LeadsTo(c2, steps[2], c3) && LeadsTo(c3, steps[3], c4)
    ensures Ok(c0) && Run(c0, steps, c4)
  {
    hide Ok, Allowed, After, Run;
    RunsNowhere(c4, steps);
    RunFrom(c3, steps, 3, c4, c4);
    RunFrom(c2, steps, 2, c3, c4);
    RunFrom(c1, steps, 1, c2, c4);
    RunFrom(c0, steps, 0, c1, c4);
    assert steps[0..] == steps;
  }

  lemma Unmatched(p: Tag, q: Tag)
    requires p != q
    ensures !Matches({p}, OneOf([{q}])) && Matches({p} + {q}, OneOf([{q}]))
  {
    assert q in {q} && q !in {p};
    assert {q} <= {p} + {q} && {q} in [{q}];
  }

  // ---------- Two edges in different planes ----------

  function PlaneSteps(item: Item, p: Tag, q: Tag): seq<Step> {
    [AppendText(OneLetter), Add(Asking(0, 1, item, {p})), Add(Asking(0, 1, item, {q}))]
  }

  /** With two planes, the same request in the other plane adds a second edge. */
  lemma {:induction false} PlaneRun(item: Item, t: Tag, p: Tag, q: Tag) returns (c: Content)
    requires t != p && t != q && p != q
    ensures Ok(Empty({t}, {p, q})) && Run(Empty({t}, {p, q}), PlaneSteps(item, p, q), c)
    ensures EdgesOf(c, Key(0, 1, item)) == {Explicit(0), Explicit(1)}
  {
    hide Ok, Run, Acceptable, Partner, WellFormed, AfterAdd, EdgesOf;
    var steps := PlaneSteps(item, p, q);
    var first, second := Asking(0, 1, item, {p}), Asking(0, 1, item, {q});
    var c0 := Empty({t}, {p, q});
    var c1 := c0.(text := OneLetter);
    FirstLetter(t, {p, q});
    FirstEdge(t, {p, q}, item, p);
    var c2 := WithEdge(c1, first);
    Letter(c2, item, {q});
    AcceptableIsAddable(c2, second);
    assert Known(c2, KeyOf(second)) == [Explicit(0)];
    assert {p} * {p, q} == {p} && {q} * {p, q} == {q} && {p} != {q};
    OnlyPartner(c2, second, Explicit(0));
    AddsEdge(c2, second);
    c := WithEdge(c2, second);
    ThreeSteps(c0, c1, c2, c, steps);
    TwoEdges(c, Key(0, 1, item));
  }

  lemma TwoEdges(c: Content, key: Key)
    requires |c.edges| == 2 && c.implicit == {}
    requires forall id :: 0 <= id < 2 ==>
               c.edges[id].from == key.from && c.edges[id].to == key.to && c.edges[id].item == key.item
    ensures EdgesOf(c, key) == {Explicit(0), Explicit(1)}
  {
    assert forall d :: IsEdgeOf(c, key, d) <==> d == Explicit(0) || d == Explicit(1);
  }

  // ---------- Two edges in place of a symbol ----------

  function StaleSteps(item: Item, t: Tag, x: Tag): seq<Step> {
    [AppendText(OneLetter), Add(Asking(0, 1, item, {t})), Add(Asking(0, 1, item, {t, x})),
     Add(Asking(0, 1, item, {t, x}))]
  }

  function WithSymbol(c: Content, r: Request): Content
    requires 0 <= r.from
  {
    Indexed(c, SymbolMask(c)).(implicit := c.implicit + {r.from}, known := c.known[KeyOf(r) := [Implicit(r.from)]])
  }

  /** A symbol of the text is added as a bit. */
  lemma AddsSymbol(c: Content, r: Request)
    requires Ok(c) && Acceptable(c, r) && r.tags == c.symbol && c.edges == [] && KeyOf(r) !in c.known
    requires 0 <= r.from < |c.text| && r.from + SymbolLength(c.text[r.from]) == r.to && r.from !in c.implicit
    ensures Addable(c, r) && AfterAdd(c, r) == (WithSymbol(c, r), Added(Implicit(r.from))) && Ok(WithSymbol(c, r))
    ensures After(c, Add(r)) == WithSymbol(c, r)
  {
    hide OkEdges, OkKnown, OkImplicit, WellFormed, Inherited, Acceptable, IsVertex, SymbolLength;
    AcceptableIsAddable(c, r);
    AcceptableEnds(c, r);
    AfterAddIsOk(c, r);
    FirstOfKey(c, r);
    SamePartner(c, r);
    var keyed := WithKey(c, KeyOf(r));
    var shown := Indexed(keyed, SymbolMask(c));
    NoSymbolYet(shown, r.from);
    assert Shown(keyed, r.from, r.to) == shown;
    assert IsPlainSymbol(shown, r);
    assert keyed.known[KeyOf(r)] + [Implicit(r.from)] == [Implicit(r.from)];
    assert keyed.known[KeyOf(r) := [Implicit(r.from)]] == c.known[KeyOf(r) := [Implicit(r.from)]];
    assert Inserted(keyed, r).0 == WithSymbol(c, r);
  }

  lemma NoSymbolYet(c: Content, v: int)
    requires |c.missed| == |c.masks| && c.edges == [] && v !in c.implicit && v <= |c.text|
    ensures EdgesAt(c, Outgoing, v, SymbolMask(c)) == []
  {
  }

  lemma FirstSymbolEdge(t: Tag, item: Item)
    ensures var c, r := Empty({t}, {}).(text := OneLetter), Asking(0, 1, item, {t});
            && Ok(c) && Allowed(c, Add(r)) && Ok(After(c, Add(r)))
            && var next := After(c, Add(r));
            && next.text == OneLetter && next.symbol == {t} && next.planes == {} && next.edges == []
            && next.implicit == {0} && Known(next, KeyOf(r)) == [Implicit(0)]
  {
    hide Ok, Acceptable, Partner, WellFormed, AfterAdd;
    var c, r := Empty({t}, {}).(text := OneLetter), Asking(0, 1, item, {t});
    FirstLetter(t, {});
    Letter(c, item, {t});
    OneLetterIsText();
    AddsSymbol(c, r);
  }

  /** A symbol edge that has been replaced stays known: each time it is asked for with more tags, there is one
      more edge. */
  lemma {:induction false} StaleRun(item: Item, t: Tag, x: Tag) returns (c: Content)
    requires t != x
    ensures Ok(Empty({t}, {})) && Run(Empty({t}, {}), StaleSteps(item, t, x), c)
    ensures EdgesOf(c, Key(0, 1, item)) == {Explicit(0), Explicit(1)}
  {
    hide Ok, Run, Acceptable, Partner, WellFormed, AfterAdd, EdgesOf;
    var steps := StaleSteps(item, t, x);
    var first, second := Asking(0, 1, item, {t}), Asking(0, 1, item, {t, x});
    var c0 := Empty({t}, {});
    var c1 := c0.(text := OneLetter);
    FirstLetter(t, {});
    FirstSymbolEdge(t, item);
    var c2 := After(c1, Add(first));
    Letter(c2, item, {t, x});
    AcceptableIsAddable(c2, second);
    assert {t, x} * {} == {t} * {};
    OnlyPartner(c2, second, Implicit(0));
    assert x in second.tags && x !in {t};
    UpgradeRepeats(c2, second, 0);
    var c3 := AfterAdd(c2, second).0;
    AfterAddGrows(c2, second);
    UpgradeRepeats(c3, second, 0);
    c := AfterAdd(c3, second).0;
    AcceptedUpdates(c2, second);
    AcceptedUpdates(c3, second);
    FourSteps(c0, c1, c2, c3, c, steps);
    OnlySymbol(c2, Key(0, 1, item));
    assert EdgesOf(c3, Key(0, 1, item)) == {Explicit(0)};
    assert EdgesOf(c, Key(0, 1, item)) == {Explicit(0), Explicit(1)};
  }

  lemma OnlySymbol(c: Content, key: Key)
    requires c.edges == [] && c.implicit == {0} && Known(c, key) == [Implicit(0)]
    ensures EdgesOf(c, key) == {Implicit(0)}
  {
    assert forall d :: IsEdgeOf(c, key, d) <==> d == Implicit(0);
  }

  // ---------- A list of symbols that is mistaken for one symbol ----------

  const ThreeLetters: Text := [65, 66, 67]

  function LostSteps(item: Item, t: Tag, p: Tag): seq<Step> {
    [AppendText(ThreeLetters), Add(Asking(0, 1, item, {t})), Add(Asking(2, 3, item, {t})),
     Add(Asking(0, 3, item, {p}))]
  }

  function Returning(): seq<EdgeUsage> {
    [EdgeUsage(Implicit(0), None), EdgeUsage(Implicit(2), None), EdgeUsage(Implicit(0), None)]
  }

  lemma ThreeLettersAreText()
    ensures WellFormed(ThreeLetters) && forall i :: 0 <= i <= 3 ==> Boundary(ThreeLetters, i)
    ensures forall i :: 0 <= i < 3 ==> SymbolLength(ThreeLetters[i]) == 1
  {
  }

  lemma Letters(c: Content, from: int, end: int, item: Item, tags: Tags)
    requires c.text == ThreeLetters && 0 <= from < end <= 3
    ensures Acceptable(c, Asking(from, end, item, tags))
  {
    ThreeLettersAreText();
  }

  lemma LettersFirst(t: Tag)
    ensures var c, next := Empty({t}, {}), Empty({t}, {}).(text := ThreeLetters);
            && Ok(c) && Ok(next)
            && Allowed(c, AppendText(ThreeLetters)) && After(c, AppendText(ThreeLetters)) == next
  {
    hide WellFormed;
    EmptyIsOk(t, {});
    ThreeLettersAreText();
    Appends(Empty({t}, {}), ThreeLetters);
    assert [] + ThreeLetters == ThreeLetters;
  }

  lemma AddsLetter(c: Content, item: Item, at: nat) returns (next: Content)
    requires Ok(c) && c.text == ThreeLetters && c.edges == [] && at < 3 && at !in c.implicit
    requires Key(at, at + 1, item) !in c.known
    ensures var r := Asking(at, at + 1, item, c.symbol);
            Allowed(c, Add(r)) && After(c, Add(r)) == next && Ok(next)
    ensures next.text == c.text && next.symbol == c.symbol && next.planes == c.planes && next.edges == []
    ensures next.visible == c.visible && next.implicit == c.implicit + {at}
    ensures next.known.Keys == c.known.Keys + {Key(at, at + 1, item)}
  {
    hide Ok, Acceptable, WellFormed, AfterAdd, SymbolLength, Boundary, IsVertex;
    var r := Asking(at, at + 1, item, c.symbol);
    Letters(c, at, at + 1, item, c.symbol);
    ThreeLettersAreText();
    AddsSymbol(c, r);
    next := WithSymbol(c, r);
  }

  /** The text, its first and its last letter as symbols. */
  lemma TwoSymbols(item: Item, t: Tag) returns (c1: Content, c2: Content, c3: Content)
    ensures var c, first, last := Empty({t}, {}), Asking(0, 1, item, {t}), Asking(2, 3, item, {t});
            && Ok(c) && Allowed(c, AppendText(ThreeLetters)) && After(c, AppendText(ThreeLetters)) == c1 && Ok(c1)
            && Allowed(c1, Add(first)) && After(c1, Add(first)) == c2 && Ok(c2)
            && Allowed(c2, Add(last)) && After(c2, Add(last)) == c3 && Ok(c3)
    ensures c3.text == ThreeLetters && c3.symbol == {t} && c3.planes == {} && c3.edges == [] && c3.visible == {}
    ensures c3.implicit == {0, 2} && c3.known.Keys == {Key(0, 1, item), Key(2, 3, item)}
  {
    hide Ok, Acceptable, WellFormed, AfterAdd, After, Allowed, SymbolLength, Boundary, IsVertex;
    var c := Empty({t}, {});
    LettersFirst(t);
    c1 := c.(text := ThreeLetters);
    c2 := AddsLetter(c1, item, 0);
    c3 := AddsLetter(c2, item, 2);
  }

  /** The first letter, the last and the first again are read as the first alone. */
  lemma {:induction false} LostRun(item: Item, t: Tag, p: Tag) returns (c: Content)
    requires t != p
    ensures Ok(Empty({t}, {})) && Run(Empty({t}, {}), LostSteps(item, t, p), c)
    ensures Ok(c) && Readable(c) && AllDenote(c, Returning()) && Live(c, Returning()) && Mistaken(c, Returning())
    ensures var s := Built(BuildAll(c, Returning()));
            s == EdgeSequence([], 0, 1) && Placed(c, s) && Usages(c, s) == Some([EdgeUsage(Implicit(0), None)])
  {
    hide Ok, Run, Acceptable, WellFormed, AfterAdd, SymbolLength, Boundary, Usages, BuildAll, Mistaken;
    var steps, token := LostSteps(item, t, p), Asking(0, 3, item, {p});
    var c1, c2, c3 := TwoSymbols(item, t);
    ThreeLettersAreText();
    Letters(c3, 0, 3, item, {p});
    AcceptableIsAddable(c3, token);
    FirstOfKey(c3, token);
    AddsEdge(c3, token);
    c := WithEdge(c3, token);
    FourSteps(Empty({t}, {}), c1, c2, c3, c, steps);
    OkIsReady(c);
    assert IsHidden(c, Implicit(0)) && IsHidden(c, Implicit(2));
    ReturningIsLost(c);
    BuiltIsPlaced(c, Returning());
    ReadBackIff(c, Returning());
  }

  // ---------- A walk that does not end ----------

  function LooseSteps(item: Item, p: Tag): seq<Step> {
    [AddVertex, AddVertex, Add(Asking(-1, -2, item, {p})), Add(Asking(-2, -1, item, {p}))]
  }

  lemma AddsVertex(c: Content)
    requires Ok(c)
    ensures LeadsTo(c, AddVertex, c.(loose := c.loose + 1))
  {
    hide Ok;
    LooseIsOk(c);
  }

  lemma AddsLoose(c: Content, r: Request)
    requires Ok(c) && Acceptable(c, r) && r.tags != c.symbol && KeyOf(r) !in c.known
    ensures LeadsTo(c, Add(r), WithEdge(c, r))
  {
    hide Ok, Acceptable, AfterAdd, Partner;
    AcceptableIsAddable(c, r);
    FirstOfKey(c, r);
    AddsEdge(c, r);
  }

  lemma KeptOfTwo(first: Edge, second: Edge, id: nat)
    requires id < 2 && first.from != second.from
    ensures var edges := [first, second]; Kept(edges, Outgoing, edges[id].from, AnyTag, {}) == [id]
  {
    hide Kept;
    var v := if id == 0 then first.from else second.from;
    assert Kept([], Outgoing, v, AnyTag, {}) == [] by { NothingKept(v); }
    assert [] + [first] == [first] && [first] + [second] == [first, second];
    KeptAppend([], first, Outgoing, v, AnyTag, {});
    KeptAppend([first], second, Outgoing, v, AnyTag, {});
  }

  lemma NothingKept(v: int)
    ensures Kept([], Outgoing, v, AnyTag, {}) == []
  {
  }

  lemma OnlyEdgeFrom(c: Content, id: nat)
    requires |c.edges| == 2 && id < 2 && c.edges[0].from != c.edges[1].from && c.implicit == {}
    requires |c.missed| == |c.masks| && c.edges[id].from <= |c.text|
    ensures EdgesAt(c, Outgoing, c.edges[id].from, AnyTag) == [Explicit(id)]
  {
    hide Kept, Matches;
    assert c.edges == [c.edges[0], c.edges[1]];
    KeptOfTwo(c.edges[0], c.edges[1], id);
    OneExplicit(id);
  }

  lemma OneExplicit(id: nat)
    ensures [] + Explicits([id]) == [Explicit(id)]
  {
  }

  /** Two edges between two loose vertices, there and back. */
  lemma {:induction false} LooseRun(item: Item, t: Tag, p: Tag) returns (c: Content)
    requires t != p
    ensures Ok(Empty({t}, {})) && Run(Empty({t}, {}), LooseSteps(item, p), c)
    ensures Ok(c) && IsVertex(c, -1) && Circles(c, -1, AnyTag)
  {
    hide Ok, Run, WellFormed, After, Allowed, EdgesAt;
    var there, back := Asking(-1, -2, item, {p}), Asking(-2, -1, item, {p});
    var c0 := Empty({t}, {});
    EmptyIsOk(t, {});
    AddsVertex(c0);
    var c1 := c0.(loose := 1);
    AddsVertex(c1);
    var c2 := c1.(loose := 2);
    AddsLoose(c2, there);
    var c3 := WithEdge(c2, there);
    AddsLoose(c3, back);
    c := WithEdge(c3, back);
    FourSteps(c0, c1, c2, c3, c, LooseSteps(item, p));
    OkIsReady(c);
    OnlyEdgeFrom(c, 0);
    OnlyEdgeFrom(c, 1);
    ThereAndBack(c, -1, -2);
  }

  lemma ThereAndBack(c: Content, u: int, v: int)
    requires Ok(c) && IsVertex(c, u) && IsVertex(c, v)
    requires BestAt(c, u, AnyTag).Some? && TargetOf(c, BestAt(c, u, AnyTag).value) == v
    requires BestAt(c, v, AnyTag).Some? && TargetOf(c, BestAt(c, v, AnyTag).value) == u
    ensures Circles(c, u, AnyTag)
  {
    hide Ok, IsVertex, BestAt, TargetOf;
    assert Walk(c, v, AnyTag, 1) == Walk(c, u, AnyTag, 0) == Some(u);
    assert Walk(c, u, AnyTag, 2) == Walk(c, v, AnyTag, 1);
    assert Meets(c, u, AnyTag, 0, 2);
  }

  function MixedSteps(item: Item, p: Tag): seq<Step> {
    [AppendText(OneLetter), AddVertex, Add(Asking(0, -1, item, {p})), Add(Asking(-1, 0, item, {p}))]
  }

  /** One loose vertex is enough, with an edge to it from a position of the text and one back. */
  lemma {:induction false} MixedRun(item: Item, t: Tag, p: Tag) returns (c: Content)
    requires t != p
    ensures Ok(Empty({t}, {})) && Run(Empty({t}, {}), MixedSteps(item, p), c)
    ensures Ok(c) && IsVertex(c, 0) && Circles(c, 0, AnyTag)
  {
    hide Ok, Run, WellFormed, After, Allowed, EdgesAt, Boundary;
    var there, back := Asking(0, -1, item, {p}), Asking(-1, 0, item, {p});
    OneLetterIsText();
    FirstLetter(t, {});
    var c1 := Empty({t}, {}).(text := OneLetter);
    AddsVertex(c1);
    var c2 := c1.(loose := 1);
    AddsLoose(c2, there);
    var c3 := WithEdge(c2, there);
    AddsLoose(c3, back);
    c := WithEdge(c3, back);
    FourSteps(Empty({t}, {}), c1, c2, c3, c, MixedSteps(item, p));
    OkIsReady(c);
    OnlyEdgeFrom(c, 0);
    OnlyEdgeFrom(c, 1);
    ThereAndBack(c, 0, -1);
  }
}
