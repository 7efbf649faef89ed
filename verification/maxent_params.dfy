/** The numbering of features: `build_params` and its variant for large outcome sets. */
module MaxentParams {

  /** A training event: the ids of its contextual predicates and of its outcome. */
  datatype Event = Event(context: seq<nat>, outcome: nat)

  /** An entry of a parameter row. */
  datatype Entry = Entry(oid: nat, fid: nat)

  type Params = seq<seq<Entry>>

  /** All ids are known to the predicate map and the outcome map. */
  ghost predicate KnownIds(events: seq<Event>, preds: nat, outcomes: nat) {
    forall e :: e in events ==> e.outcome < outcomes && forall p :: p in e.context ==> p < preds
  }

  /** Predicate `p` occurs with outcome `o`. */
  ghost predicate Feature(events: seq<Event>, p: nat, o: nat) {
    exists k :: 0 <= k < |events| && Occurs(events[k], p, o)
  }

  predicate Occurs(e: Event, p: nat, o: nat) {
    e.outcome == o && p in e.context
  }

  /** The number of entries in the rows before row `p`. */
  function Offset(params: Params, p: nat): nat
    requires p <= |params|
  {
    if p == 0 then 0 else Offset(params, p - 1) + |params[p - 1]|
  }

  ghost predicate HasOutcome(row: seq<Entry>, o: nat) {
    exists j :: 0 <= j < |row| && row[j].oid == o
  }

  /** The row of predicate `p`, restricted to the outcomes below `limit`: its outcomes ascend, they
      are those that occur with `p`, and its feature ids count on from `start`. */
  ghost predicate RowOf(events: seq<Event>, p: nat, limit: nat, row: seq<Entry>, start: nat) {
    && (forall j :: 0 <= j < |row| ==> Feature(events, p, row[j].oid) && row[j].oid < limit)
    && (forall j :: 0 <= j < |row| ==> row[j].fid == start + j)
    && (forall i, j :: 0 <= i < j < |row| ==> row[i].oid < row[j].oid)
    && (forall o: nat :: o < limit && Feature(events, p, o) ==> HasOutcome(row, o))
  }

  /** Features are numbered from 0 in the order of (predicate, outcome). */
  ghost predicate NumberedTable(events: seq<Event>, preds: nat, outcomes: nat, params: Params, nTheta: nat) {
    && |params| == preds
    && nTheta == Offset(params, preds)
    && forall p :: 0 <= p < preds ==> RowOf(events, p, outcomes, params[p], Offset(params, p))
  }

  // ---------- That describes one table only ----------

  lemma SamePrefix<T>(a: seq<T>, b: seq<T>, n: nat)
    requires n <= |a| && n <= |b| && a[..n] == b[..n]
    ensures forall k :: 0 <= k < n ==> a[k] == b[k]
  {
    forall k | 0 <= k < n
      ensures a[k] == b[k]
    {
      assert a[..n][k] == b[..n][k];
    }
  }

  lemma NextNotBefore(events: seq<Event>, p: nat, limit: nat, a: seq<Entry>, b: seq<Entry>, start: nat, n: nat)
    requires RowOf(events, p, limit, a, start) && RowOf(events, p, limit, b, start)
    requires n < |a| && n <= |b| && a[..n] == b[..n]
    ensures n < |b| && b[n].oid <= a[n].oid
  {
    SamePrefix(a, b, n);
    assert HasOutcome(b, a[n].oid);
  }

  lemma {:induction false} RowsEqual(events: seq<Event>, p: nat, limit: nat, a: seq<Entry>, b: seq<Entry>, start: nat,
                                    n: nat)
    requires RowOf(events, p, limit, a, start) && RowOf(events, p, limit, b, start)
    requires n <= |a| && n <= |b| && a[..n] == b[..n]
    ensures a == b
    decreases |a| + |b| - n
  {
    if n < |a| || n < |b| {
      if n < |a| {
        NextNotBefore(events, p, limit, a, b, start, n);
      }
      if n < |b| {
        NextNotBefore(events, p, limit, b, a, start, n);
      }
      assert a[..n + 1] == a[..n] + [a[n]] && b[..n + 1] == b[..n] + [b[n]];
      RowsEqual(events, p, limit, a, b, start, n + 1);
    } else {
      assert a[..n] == a && b[..n] == b;
    }
  }

  lemma TableShape(events: seq<Event>, preds: nat, outcomes: nat, a: Params, na: nat)
    requires NumberedTable(events, preds, outcomes, a, na)
    ensures |a| == preds && na == Offset(a, preds)
  {
  }

  lemma TableRow(events: seq<Event>, preds: nat, outcomes: nat, a: Params, na: nat, p: nat)
    requires NumberedTable(events, preds, outcomes, a, na) && p < preds
    ensures p < |a| && RowOf(events, p, outcomes, a[p], Offset(a, p))
  {
  }

  /** Two tables for the same events are the same table: the builders below cannot differ. */
  lemma {:induction false} TablesEqual(events: seq<Event>, preds: nat, outcomes: nat,
                                      a: Params, na: nat, b: Params, nb: nat)
    requires NumberedTable(events, preds, outcomes, a, na) && NumberedTable(events, preds, outcomes, b, nb)
    ensures a == b && na == nb
  {
    TableRowsEqual(events, preds, outcomes, a, na, b, nb, preds);
    assert a[..preds] == a && b[..preds] == b;
  }

  lemma {:induction false} TableRowsEqual(events: seq<Event>, preds: nat, outcomes: nat,
                                         a: Params, na: nat, b: Params, nb: nat, n: nat)
    requires NumberedTable(events, preds, outcomes, a, na) && NumberedTable(events, preds, outcomes, b, nb)
    requires n <= preds
    ensures |a| == |b| == preds && a[..n] == b[..n] && Offset(a, n) == Offset(b, n)
  {
    hide RowOf, NumberedTable, Feature;
    TableShape(events, preds, outcomes, a, na);
    TableShape(events, preds, outcomes, b, nb);
    if n > 0 {
      TableRow(events, preds, outcomes, a, na, n - 1);
      TableRow(events, preds, outcomes, b, nb, n - 1);
      TableRowsEqual(events, preds, outcomes, a, na, b, nb, n - 1);
      RowsEqual(events, n - 1, outcomes, a[n - 1], b[n - 1], Offset(a, n - 1), 0);
      assert a[..n] == a[..n - 1] + [a[n - 1]] && b[..n] == b[..n - 1] + [b[n - 1]];
    }
  }

  // ---------- The table while it is built ----------

  /** Row `bound` is the next to be filled. */
  ghost predicate FilledUpTo(events: seq<Event>, outcomes: nat, params: Params, bound: nat) {
    && bound <= |params|
    && (forall p :: 0 <= p < bound ==> RowOf(events, p, outcomes, params[p], Offset(params, p)))
    && (forall p :: bound <= p < |params| ==> params[p] == [])
  }

  lemma NothingFilled(events: seq<Event>, outcomes: nat, params: Params)
    requires forall p :: 0 <= p < |params| ==> params[p] == []
    ensures FilledUpTo(events, outcomes, params, 0)
  {
  }

  lemma AllFilled(events: seq<Event>, preds: nat, outcomes: nat, params: Params)
    requires FilledUpTo(events, outcomes, params, preds) && |params| == preds
    ensures NumberedTable(events, preds, outcomes, params, Offset(params, preds))
  {
  }

  lemma {:induction false} OffsetFrame(a: Params, b: Params, p: nat)
    requires p <= |a| && p <= |b| && forall k :: 0 <= k < p ==> a[k] == b[k]
    ensures Offset(a, p) == Offset(b, p)
  {
    if p > 0 {
      OffsetFrame(a, b, p - 1);
    }
  }

  lemma FillRow(events: seq<Event>, outcomes: nat, params: Params, p: nat, row: seq<Entry>)
    requires FilledUpTo(events, outcomes, params, p) && p < |params|
    requires RowOf(events, p, outcomes, row, Offset(params, p))
    ensures FilledUpTo(events, outcomes, params[p := row], p + 1)
    ensures Offset(params[p := row], p + 1) == Offset(params, p) + |row|
  {
    hide RowOf;
    var after := params[p := row];
    forall k | 0 <= k <= p
      ensures Offset(after, k) == Offset(params, k)
    {
      OffsetFrame(params, after, k);
    }
  }

  /** Rows of predicates without features stay empty. */
  lemma {:induction false} SkipRows(events: seq<Event>, outcomes: nat, params: Params, bound: nat, next: nat)
    requires FilledUpTo(events, outcomes, params, bound) && bound <= next <= |params|
    requires forall p: nat, o: nat :: Feature(events, p, o) ==> !(bound <= p < next)
    ensures FilledUpTo(events, outcomes, params, next) && Offset(params, next) == Offset(params, bound)
    decreases next
  {
    hide Feature, FilledUpTo;
    if bound < next {
      SkipRows(events, outcomes, params, bound, next - 1);
      SkipRow(events, outcomes, params, next - 1);
    }
  }

  lemma SkipRow(events: seq<Event>, outcomes: nat, params: Params, p: nat)
    requires FilledUpTo(events, outcomes, params, p) && p < |params|
    requires forall o: nat :: !Feature(events, p, o)
    ensures FilledUpTo(events, outcomes, params, p + 1) && Offset(params, p + 1) == Offset(params, p)
  {
    hide Feature, RowOf;
    EmptyRow(events, p, outcomes, Offset(params, p));
  }

  lemma EmptyRow(events: seq<Event>, p: nat, outcomes: nat, start: nat)
    requires forall o: nat :: !Feature(events, p, o)
    ensures RowOf(events, p, outcomes, [], start)
  {
    hide Feature;
  }

  lemma AppendEntry(events: seq<Event>, p: nat, limit: nat, row: seq<Entry>, start: nat, oid: nat)
    requires RowOf(events, p, limit, row, start) && limit <= oid && Feature(events, p, oid)
    requires forall o: nat :: limit <= o < oid ==> !Feature(events, p, o)
    ensures RowOf(events, p, oid + 1, row + [Entry(oid, start + |row|)], start)
  {
    hide Feature;
    var longer := row + [Entry(oid, start + |row|)];
    forall o: nat | o <= oid && Feature(events, p, o)
      ensures HasOutcome(longer, o)
    {
      if o == oid {
        assert longer[|row|].oid == o;
      } else {
        assert HasOutcome(row, o);
        var j :| 0 <= j < |row| && row[j].oid == o;
        assert longer[j].oid == o;
      }
    }
  }

  lemma RaiseLimit(events: seq<Event>, p: nat, limit: nat, row: seq<Entry>, start: nat, higher: nat)
    requires RowOf(events, p, limit, row, start) && limit <= higher
    requires forall o: nat :: limit <= o < higher ==> !Feature(events, p, o)
    ensures RowOf(events, p, higher, row, start)
  {
  }

  lemma MoreEvents(events: seq<Event>, e: nat, p: nat, o: nat)
    requires e < |events|
    ensures Feature(events[..e + 1], p, o) <==> Feature(events[..e], p, o) || Occurs(events[e], p, o)
  {
    var longer, shorter := events[..e + 1], events[..e];
    if Feature(longer, p, o) {
      var k :| 0 <= k < |longer| && Occurs(longer[k], p, o);
      assert k < e ==> shorter[k] == longer[k];
    }
    if Feature(shorter, p, o) {
      var k :| 0 <= k < |shorter| && Occurs(shorter[k], p, o);
      assert longer[k] == shorter[k];
    }
    if Occurs(events[e], p, o) {
      assert longer[e] == events[e];
    }
  }

  lemma KnownFeature(events: seq<Event>, preds: nat, outcomes: nat, p: nat, o: nat)
    requires KnownIds(events, preds, outcomes) && Feature(events, p, o)
    ensures p < preds && o < outcomes
  {
    var k :| 0 <= k < |events| && Occurs(events[k], p, o);
    assert events[k] in events;
  }

  // ---------- build_params ----------

  ghost predicate Collects(featMap: set<(nat, nat)>, events: seq<Event>) {
    forall p: nat, o: nat :: (p, o) in featMap <==> Feature(events, p, o)
  }

  method CollectFeatures(events: seq<Event>) returns (featMap: set<(nat, nat)>)
    ensures Collects(featMap, events)
  {
    hide Feature;
    featMap := {};
    assert Collects(featMap, events[..0]) by { NoEvents(events[..0]); }
    for e := 0 to |events|
      invariant Collects(featMap, events[..e])
    {
      var event := events[e];
      ghost var before := featMap;
      for i := 0 to |event.context|
        invariant forall p: nat, o: nat :: (p, o) in featMap <==>
                    (p, o) in before || (o == event.outcome && p in event.context[..i])
      {
        featMap := featMap + {(event.context[i], event.outcome)};
      }
      assert event.context[..|event.context|] == event.context;
      forall p: nat, o: nat
        ensures (p, o) in featMap <==> Feature(events[..e + 1], p, o)
      {
        MoreEvents(events, e, p, o);
      }
    }
    assert events[..|events|] == events;
  }

  lemma NoEvents(events: seq<Event>)
    requires events == []
    ensures forall p: nat, o: nat :: !Feature(events, p, o)
  {
  }

  /** The row of one predicate: the inner loop over all outcomes. */
  method CollectRow(ghost events: seq<Event>, featMap: set<(nat, nat)>, pid: nat, outcomes: nat, start: nat)
    returns (row: seq<Entry>, nTheta: nat)
    requires Collects(featMap, events)
    ensures RowOf(events, pid, outcomes, row, start) && nTheta == start + |row|
  {
    hide Feature;
    row, nTheta := [], start;
    for oid := 0 to outcomes
      invariant RowOf(events, pid, oid, row, start) && nTheta == start + |row|
    {
      if (pid, oid) in featMap {
        AppendEntry(events, pid, oid, row, start, oid);
        row := row + [Entry(oid, nTheta)];
        nTheta := nTheta + 1;
      } else {
        RaiseLimit(events, pid, oid, row, start, oid + 1);
      }
    }
  }

  /** A set of features, then all pairs of ids in order. */
  method BuildParams(events: seq<Event>, preds: nat, outcomes: nat) returns (params: Params, nTheta: nat)
    requires KnownIds(events, preds, outcomes)
    ensures NumberedTable(events, preds, outcomes, params, nTheta)
  {
    hide Feature, KnownIds, RowOf, FilledUpTo, Collects;
    var featMap := CollectFeatures(events);
    params, nTheta := seq(preds, _ => []), 0;
    NothingFilled(events, outcomes, params);
    for pid := 0 to preds
      invariant |params| == preds && FilledUpTo(events, outcomes, params, pid) && nTheta == Offset(params, pid)
    {
      var row;
      row, nTheta := CollectRow(events, featMap, pid, outcomes, nTheta);
      FillRow(events, outcomes, params, pid, row);
      params := params[pid := row];
    }
    AllFilled(events, preds, outcomes, params);
  }

  // ---------- build_params2 ----------

  lemma {:induction false} SmallestExists(s: set<nat>) returns (m: nat)
    requires s != {}
    ensures m in s && forall k :: k in s ==> m <= k
    decreases |s|
  {
    m :| m in s;
    var rest := s - {m};
    assert s == rest + {m};
    if rest != {} {
      var least := SmallestExists(rest);
      if least < m {
        m := least;
      }
    }
  }

  /** The next element in the order of iteration of a `std::set` or of the keys of a `std::map`. */
  method Smallest(s: set<nat>) returns (m: nat)
    requires s != {}
    ensures m in s && forall k :: k in s ==> m <= k
  {
    ghost var least := SmallestExists(s);
    m :| m in s && forall k :: k in s ==> m <= k;
  }

  ghost predicate Groups(featMap: map<nat, set<nat>>, events: seq<Event>) {
    forall p: nat, o: nat :: InGroup(featMap, p, o) <==> Feature(events, p, o)
  }

  predicate InGroup(featMap: map<nat, set<nat>>, p: nat, o: nat) {
    p in featMap && o in featMap[p]
  }

  method GroupFeatures(events: seq<Event>) returns (featMap: map<nat, set<nat>>)
    ensures Groups(featMap, events)
    ensures forall p :: p in featMap ==> featMap[p] != {}
  {
    hide Feature;
    featMap := map[];
    assert Groups(featMap, events[..0]) by { NoEvents(events[..0]); }
    for e := 0 to |events|
      invariant Groups(featMap, events[..e])
      invariant forall p :: p in featMap ==> featMap[p] != {}
    {
      var event := events[e];
      ghost var before := featMap;
      for i := 0 to |event.context|
        invariant forall p: nat, o: nat :: InGroup(featMap, p, o) <==>
                    InGroup(before, p, o) || (o == event.outcome && p in event.context[..i])
        invariant forall p :: p in featMap ==> featMap[p] != {}
      {
        var pid := event.context[i];
        ghost var earlier := featMap;
        var group := if pid in featMap then featMap[pid] else {};
        featMap := featMap[pid := group + {event.outcome}];
        assert forall p: nat, o: nat :: InGroup(featMap, p, o) <==>
                 InGroup(earlier, p, o) || (o == event.outcome && p == pid);
      }
      assert event.context[..|event.context|] == event.context;
      forall p: nat, o: nat
        ensures InGroup(featMap, p, o) <==> Feature(events[..e + 1], p, o)
      {
        MoreEvents(events, e, p, o);
      }
    }
    assert events[..|events|] == events;
  }

  /** The entries of one predicate. */
  method BuildRow(ghost events: seq<Event>, ghost pid: nat, ghost outcomes: nat, outs: set<nat>, start: nat)
    returns (row: seq<Entry>, nTheta: nat)
    requires forall o: nat :: o in outs <==> Feature(events, pid, o)
    requires forall o: nat :: o in outs ==> o < outcomes
    ensures RowOf(events, pid, outcomes, row, start) && nTheta == start + |row|
  {
    hide Feature;
    row, nTheta := [], start;
    var rest := outs;
    ghost var bound: nat := 0;
    while rest != {}
      invariant RowOf(events, pid, bound, row, start) && nTheta == start + |row|
      invariant forall o: nat :: o in rest <==> o in outs && bound <= o
      invariant bound <= outcomes
      decreases rest
    {
      var oid := Smallest(rest);
      rest := rest - {oid};
      AppendEntry(events, pid, bound, row, start, oid);
      row := row + [Entry(oid, nTheta)];
      nTheta := nTheta + 1;
      bound := oid + 1;
    }
    RaiseLimit(events, pid, bound, row, start, outcomes);
  }

  /** A map from predicates to sets of outcomes, both walked in order. */
  method BuildParams2(events: seq<Event>, preds: nat, outcomes: nat) returns (params: Params, nTheta: nat)
    requires KnownIds(events, preds, outcomes)
    ensures NumberedTable(events, preds, outcomes, params, nTheta)
  {
    hide Feature, KnownIds, RowOf, FilledUpTo;
    var featMap := GroupFeatures(events);
    forall p: nat, o: nat | InGroup(featMap, p, o)
      ensures p < preds && o < outcomes
    {
      KnownFeature(events, preds, outcomes, p, o);
    }
    params, nTheta := seq(preds, _ => []), 0;
    NothingFilled(events, outcomes, params);
    var keys := featMap.Keys;
    ghost var bound: nat := 0;
    while keys != {}
      invariant bound <= preds == |params|
      invariant FilledUpTo(events, outcomes, params, bound) && nTheta == Offset(params, bound)
      invariant forall p: nat :: p in keys <==> p in featMap && bound <= p
      decreases keys
    {
      var pid := Smallest(keys);
      keys := keys - {pid};
      assert forall o: nat :: o in featMap[pid] <==> InGroup(featMap, pid, o);
      ghost var some :| some in featMap[pid];
      assert pid < preds;
      SkipRows(events, outcomes, params, bound, pid);
      var row;
      row, nTheta := BuildRow(events, pid, outcomes, featMap[pid], nTheta);
      FillRow(events, outcomes, params, pid, row);
      params := params[pid := row];
      bound := pid + 1;
    }
    SkipRows(events, outcomes, params, bound, preds);
    AllFilled(events, preds, outcomes, params);
  }
}
