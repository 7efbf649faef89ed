/** Which of several complete pipelines is taken: the best one whose processors can all be created. */
module PipelineChoice {
  import opened Common
  import opened PromisePlanning
  import opened PlanSolutions

  function Quality(q: Pipeline): real {
    if q == [] then 0.0 else q[0].quality + Quality(q[1..])
  }

  function Time(q: Pipeline): real {
    if q == [] then 0.0 else q[0].time + Time(q[1..])
  }

  function FirstFailure(q: Pipeline): Option<Failure> {
    if q == [] then None else if q[0].creation.Some? then q[0].creation else FirstFailure(q[1..])
  }

  predicate Better(a: Pipeline, b: Pipeline) {
    Quality(a) > Quality(b) || (Quality(a) == Quality(b) && Time(a) < Time(b))
  }

  /** Quality and time are sums over the promises, and failures are looked for in their order. */
  lemma {:induction false} ScoresAdd(a: Pipeline, b: Pipeline)
    ensures Quality(a + b) == Quality(a) + Quality(b)
    ensures Time(a + b) == Time(a) + Time(b)
    ensures FirstFailure(a + b) == if FirstFailure(a).Some? then FirstFailure(a) else FirstFailure(b)
  {
    if a == [] {
      assert a + b == b;
    } else {
      assert (a + b)[1..] == a[1..] + b;
      ScoresAdd(a[1..], b);
    }
  }

  /** Of two pipelines of one promise each the better one has more quality or, with the same quality, takes less
      time. */
  lemma OnePromise(p: Promise, q: Promise)
    ensures Quality([p]) == p.quality && Time([p]) == p.time && FirstFailure([p]) == p.creation
    ensures Better([p], [q]) <==> p.quality > q.quality || (p.quality == q.quality && p.time < q.time)
  {
    assert [p][1..] == [] && [q][1..] == [];
  }

  /** Better is better in the sum, or as good and faster in the sum. */
  lemma {:induction false} BetterAdds(a: Pipeline, b: Pipeline, c: Pipeline)
    ensures Better(a + c, b + c) <==> Better(a, b)
    ensures Better(c + a, c + b) <==> Better(a, b)
  {
    ScoresAdd(a, c);
    ScoresAdd(b, c);
    ScoresAdd(c, a);
    ScoresAdd(c, b);
  }

  /** Candidate `i` is tried before candidate `j`. */
  predicate Precedes(all: seq<Pipeline>, i: nat, j: nat)
    requires i < |all| && j < |all|
  {
    Better(all[i], all[j]) || (!Better(all[j], all[i]) && i < j)
  }

  /** No other candidate is tried before `k`. */
  ghost predicate FirstCandidate(all: seq<Pipeline>, k: nat) {
    k < |all| && forall j :: 0 <= j < |all| && j != k ==> Precedes(all, k, j)
  }

  predicate Creatable(q: Pipeline) {
    FirstFailure(q).None?
  }

  /** No other candidate that can be created is tried before `k`. */
  ghost predicate FirstCreatable(all: seq<Pipeline>, k: nat) {
    && k < |all| && Creatable(all[k])
    && forall j :: 0 <= j < |all| && j != k && Creatable(all[j]) ==> Precedes(all, k, j)
  }

  datatype Outcome = Found(pipeline: Pipeline) | Nothing | Thrown(failure: Failure)

  ghost predicate NoneCreatable(all: seq<Pipeline>) {
    forall j :: 0 <= j < |all| ==> !Creatable(all[j])
  }

  /** The first candidate in the order of trial that can be created; without one, the failure of the very
      first candidate; nothing only if there are no candidates. */
  ghost predicate Answers(all: seq<Pipeline>, r: Outcome) {
    match r
    case Found(q) => exists k: nat :: FirstCreatable(all, k) && all[k] == q
    case Nothing => all == []
    case Thrown(failure) =>
      NoneCreatable(all) && exists k: nat :: FirstCandidate(all, k) && FirstFailure(all[k]) == Some(failure)
  }

  lemma PrecedesIsStrict(all: seq<Pipeline>, i: nat, j: nat)
    requires i < |all| && j < |all| && i != j
    ensures Precedes(all, i, j) <==> !Precedes(all, j, i)
  {
  }

  /** There is one answer only. */
  lemma {:induction false} OneAnswer(all: seq<Pipeline>, a: Outcome, b: Outcome)
    requires Answers(all, a) && Answers(all, b)
    ensures a == b
  {
    hide Precedes, Creatable, FirstFailure;
    if a.Found? && b.Found? {
      var i: nat :| FirstCreatable(all, i) && all[i] == a.pipeline;
      var j: nat :| FirstCreatable(all, j) && all[j] == b.pipeline;
      if i != j {
        PrecedesIsStrict(all, i, j);
      }
    } else if a.Thrown? && b.Thrown? {
      var i: nat :| FirstCandidate(all, i) && FirstFailure(all[i]) == Some(a.failure);
      var j: nat :| FirstCandidate(all, j) && FirstFailure(all[j]) == Some(b.failure);
      if i != j {
        PrecedesIsStrict(all, i, j);
      }
    }
  }

  // ---------- The candidates not tried yet ----------

  /** `now` holds the candidates with the numbers `left`. */
  ghost predicate Holds(all: seq<Pipeline>, left: seq<nat>, now: seq<Pipeline>) {
    && Ascending(left) && |left| == |now|
    && forall i :: 0 <= i < |left| ==> left[i] < |all| && now[i] == all[left[i]]
  }

  /** Whatever has been tried failed, and came before what is left. */
  ghost predicate TriedFailed(all: seq<Pipeline>, left: seq<nat>) {
    && (forall a :: a in left ==> a < |all|)
    && forall j :: 0 <= j < |all| && j !in left ==>
         !Creatable(all[j]) && forall a :: a in left ==> Precedes(all, j, a)
  }

  ghost predicate FirstKept(all: seq<Pipeline>, left: seq<nat>, first: Option<Failure>) {
    if first.None? then forall j :: 0 <= j < |all| ==> j in left
    else exists k: nat :: FirstCandidate(all, k) && FirstFailure(all[k]) == first
  }

  function Without<T>(s: seq<T>, b: nat): seq<T>
    requires b < |s|
  {
    s[..b] + s[b + 1..]
  }

  /** All candidates at first. */
  lemma AllLeft(all: seq<Pipeline>) returns (left: seq<nat>)
    ensures Holds(all, left, all) && TriedFailed(all, left) && FirstKept(all, left, None)
  {
    left := seq(|all|, i => i);
    forall j | 0 <= j < |all|
      ensures j in left
    {
      assert left[j] == j;
    }
  }

  lemma MembersWithout(left: seq<nat>, b: nat)
    requires Ascending(left) && b < |left|
    ensures Ascending(Without(left, b))
    ensures forall j :: j in Without(left, b) <==> j in left && j != left[b]
  {
    var after := Without(left, b);
    assert forall i :: 0 <= i < |after| ==> after[i] == left[if i < b then i else i + 1];
    forall j | j in left && j != left[b]
      ensures j in after
    {
      var i :| 0 <= i < |left| && left[i] == j;
      assert after[if i < b then i else i - 1] == j;
    }
  }

  lemma HoldsWithout(all: seq<Pipeline>, left: seq<nat>, now: seq<Pipeline>, b: nat)
    requires Holds(all, left, now) && b < |now|
    ensures b < |left| && |Without(now, b)| < |now|
    ensures Holds(all, Without(left, b), Without(now, b))
  {
    MembersWithout(left, b);
  }

  /** The first of those left is first among them by number too. */
  lemma FirstOfLeft(all: seq<Pipeline>, left: seq<nat>, now: seq<Pipeline>, b: nat, a: nat)
    requires Holds(all, left, now) && b < |left| && FirstCandidate(now, b) && a in left && a != left[b]
    ensures a < |all| && Precedes(all, left[b], a)
  {
    hide Better;
    var i :| 0 <= i < |left| && left[i] == a;
    assert Precedes(now, b, i);
  }

  /** Candidate `k` is taken, and exactly the candidates after it have not been tried. */
  ghost predicate Taken(all: seq<Pipeline>, k: nat, q: Pipeline, left: seq<nat>) {
    && FirstCreatable(all, k) && all[k] == q
    && forall j :: 0 <= j < |all| ==> (j in left <==> Precedes(all, k, j))
  }

  lemma TakeFirst(all: seq<Pipeline>, left: seq<nat>, now: seq<Pipeline>, b: nat)
    requires Holds(all, left, now) && TriedFailed(all, left)
    requires b < |now| && FirstCandidate(now, b) && Creatable(now[b])
    ensures b < |left| && Taken(all, left[b], now[b], Without(left, b))
    ensures Answers(all, Found(now[b]))
  {
    hide Precedes, Creatable, FirstCandidate, Without;
    var k := left[b];
    MembersWithout(left, b);
    forall a | a in left && a != k
      ensures Precedes(all, k, a)
    {
      FirstOfLeft(all, left, now, b, a);
    }
    assert FirstCreatable(all, k);
    forall j | 0 <= j < |all|
      ensures j in Without(left, b) <==> Precedes(all, k, j)
    {
      if j == k {
        assert !Precedes(all, k, k) by { NotBeforeItself(all, k); }
      } else {
        PrecedesIsStrict(all, j, k);
      }
    }
  }

  lemma NotBeforeItself(all: seq<Pipeline>, k: nat)
    requires k < |all|
    ensures !Precedes(all, k, k)
  {
  }

  lemma FailureOf(q: Pipeline)
    requires !Creatable(q)
    ensures FirstFailure(q).Some?
  {
  }

  lemma DropFirst(all: seq<Pipeline>, left: seq<nat>, now: seq<Pipeline>, b: nat, first: Option<Failure>)
    requires Holds(all, left, now) && TriedFailed(all, left) && FirstKept(all, left, first)
    requires FirstCandidate(now, b) && !Creatable(now[b])
    ensures TriedFailed(all, Without(left, b))
    ensures FirstKept(all, Without(left, b), if first.None? then FirstFailure(now[b]) else first)
  {
    hide Precedes, FirstFailure, Without;
    var k := left[b];
    MembersWithout(left, b);
    forall a | a in left && a != k
      ensures Precedes(all, k, a)
    {
      hide FirstCandidate;
      FirstOfLeft(all, left, now, b, a);
    }
    if first.None? {
      FailureOf(now[b]);
      assert FirstCandidate(all, k);
    }
  }

  lemma NothingLeft(all: seq<Pipeline>, first: Option<Failure>)
    requires TriedFailed(all, []) && FirstKept(all, [], first)
    ensures Answers(all, if first.None? then Nothing else Thrown(first.value))
  {
    hide Precedes, FirstFailure;
    var left: seq<nat> := [];
    assert FirstKept(all, left, first);
    assert first.None? && all != [] ==> 0 in left;
  }
}
