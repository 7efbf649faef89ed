/** When the walk along the last matching edges ends: exactly if it does not come to a vertex twice. */
module LatticeWalks {
  import opened Common
  import opened LatticeStore
  import opened LatticeUpdates
  import opened EdgeSequences

  /** The vertex that the walk from `v` has come to after `k` steps; nothing if it has ended before. */
  ghost function Walk(c: Content, v: int, mask: Mask, k: nat): (r: Option<int>)
    requires Ok(c) && IsVertex(c, v)
    ensures r.Some? ==> IsVertex(c, r.value)
    decreases k
  {
    if k == 0 then Some(v)
    else
      var best := BestAt(c, v, mask);
      if best.None? then None else Walk(c, TargetOf(c, best.value), mask, k - 1)
  }

  lemma {:induction false} WalkOn(c: Content, v: int, mask: Mask, i: nat, k: nat)
    requires Ok(c) && IsVertex(c, v) && Walk(c, v, mask, i).Some?
    ensures Walk(c, v, mask, i + k) == Walk(c, Walk(c, v, mask, i).value, mask, k)
    decreases i
  {
    hide Ok, IsVertex, BestAt, TargetOf;
    if i > 0 {
      WalkOn(c, TargetOf(c, BestAt(c, v, mask).value), mask, i - 1, k);
    }
  }

  lemma {:induction false} WalkedBefore(c: Content, v: int, mask: Mask, i: nat, j: nat)
    requires Ok(c) && IsVertex(c, v) && i <= j && Walk(c, v, mask, j).Some?
    ensures Walk(c, v, mask, i).Some?
    decreases i
  {
    hide Ok, IsVertex, BestAt, TargetOf;
    if i > 0 {
      WalkedBefore(c, TargetOf(c, BestAt(c, v, mask).value), mask, i - 1, j - 1);
    }
  }

  lemma {:induction false} EndsIffNoStep(c: Content, v: int, mask: Mask, n: nat)
    requires Ok(c) && IsVertex(c, v)
    ensures PathEnds(c, v, mask, n) <==> Walk(c, v, mask, n + 1).None?
    decreases n
  {
    hide Ok, IsVertex, BestAt, TargetOf;
    var best := BestAt(c, v, mask);
    if best.Some? {
      var next := TargetOf(c, best.value);
      assert Walk(c, v, mask, n + 1) == Walk(c, next, mask, n);
      if n > 0 {
        EndsIffNoStep(c, next, mask, n - 1);
      }
    }
  }

  // ---------- Circles ----------

  /** After `i` steps and after `j` steps the walk is at the same vertex. */
  ghost predicate Meets(c: Content, v: int, mask: Mask, i: nat, j: nat)
    requires Ok(c) && IsVertex(c, v)
  {
    i < j && Walk(c, v, mask, i).Some? && Walk(c, v, mask, i) == Walk(c, v, mask, j)
  }

  /** The walk comes to some vertex twice. */
  ghost predicate Circles(c: Content, v: int, mask: Mask)
    requires Ok(c) && IsVertex(c, v)
  {
    exists i: nat, j: nat :: Meets(c, v, mask, i, j)
  }

  /** Around a circle of any length there is always a next step. */
  lemma {:induction false} CircleGoesOn(c: Content, u: int, mask: Mask, length: nat, k: nat)
    requires Ok(c) && IsVertex(c, u) && length > 0 && Walk(c, u, mask, length) == Some(u)
    ensures Walk(c, u, mask, k).Some?
    decreases k
  {
    hide Ok, IsVertex, Walk;
    if k <= length {
      WalkedBefore(c, u, mask, k, length);
    } else {
      CircleGoesOn(c, u, mask, length, k - length);
      WalkOn(c, u, mask, length, k - length);
    }
  }

  lemma CirclingGoesOn(c: Content, v: int, mask: Mask, i: nat, j: nat, k: nat)
    requires Ok(c) && IsVertex(c, v) && Meets(c, v, mask, i, j)
    ensures Walk(c, v, mask, k).Some?
  {
    hide Ok, IsVertex, Walk;
    if k <= j {
      WalkedBefore(c, v, mask, k, j);
    } else {
      var u := Walk(c, v, mask, i).value;
      WalkOn(c, v, mask, i, j - i);
      WalkOn(c, v, mask, i, k - i);
      CircleGoesOn(c, u, mask, j - i, k - i);
    }
  }

  /** A walk that has come to each vertex at most once has fewer steps than there are places for vertices. */
  ghost function Steps(c: Content): nat {
    |c.text| + c.loose
  }

  ghost function Places(low: int, past: int): (r: set<int>)
    requires low <= past
    ensures |r| == past - low && forall u :: u in r <==> low <= u < past
    decreases past - low
  {
    if low == past then {} else Places(low, past - 1) + {past - 1}
  }

  lemma AtPlace(c: Content, v: int)
    requires IsVertex(c, v)
    ensures -(c.loose as int) <= v < |c.text| + 1
  {
  }

  lemma LongWalkCircles(c: Content, v: int, mask: Mask)
    requires Ok(c) && IsVertex(c, v) && Walk(c, v, mask, Steps(c) + 1).Some?
    ensures Circles(c, v, mask)
  {
    hide Ok, IsVertex, Walk;
    var n := Steps(c) + 2;
    forall i: nat | i < n
      ensures Walk(c, v, mask, i).Some?
    {
      WalkedBefore(c, v, mask, i, Steps(c) + 1);
    }
    var visited: seq<int> := seq(n, i requires 0 <= i < n && Walk(c, v, mask, i).Some? => Walk(c, v, mask, i).value);
    var places := Places(-(c.loose as int), |c.text| + 1);
    forall i | 0 <= i < n
      ensures visited[i] in places
    {
      AtPlace(c, visited[i]);
    }
    if !Circles(c, v, mask) {
      forall i: nat, j: nat | i < j < n
        ensures visited[i] != visited[j]
      {
        assert !Meets(c, v, mask, i, j);
      }
      Pigeonhole(visited, places);
      assert false;
    }
  }

  /** The walk ends, within `Steps` steps, if and only if it does not come to a vertex twice; if it does, there
      is a next step after any number of steps. */
  lemma WalkEndsIff(c: Content, v: int, mask: Mask)
    requires Ok(c) && IsVertex(c, v)
    ensures (exists n: nat :: PathEnds(c, v, mask, n)) <==> !Circles(c, v, mask)
    ensures PathEnds(c, v, mask, Steps(c)) <==> !Circles(c, v, mask)
    ensures (forall k: nat :: Walk(c, v, mask, k).Some?) <==> Circles(c, v, mask)
  {
    hide Ok, IsVertex, Walk, PathEnds;
    EndsIffNoStep(c, v, mask, Steps(c));
    if i: nat, j: nat :| Meets(c, v, mask, i, j) {
      forall k: nat
        ensures Walk(c, v, mask, k).Some?
      {
        CirclingGoesOn(c, v, mask, i, j, k);
      }
      forall n: nat
        ensures !PathEnds(c, v, mask, n)
      {
        EndsIffNoStep(c, v, mask, n);
      }
    } else if Walk(c, v, mask, Steps(c) + 1).Some? {
      LongWalkCircles(c, v, mask);
    }
  }

  // ---------- Circles need a loose vertex ----------

  /** Over the text the walk goes forward. */
  lemma {:induction false} Climbs(c: Content, v: int, mask: Mask, k: nat)
    requires Ok(c) && IsVertex(c, v) && Walk(c, v, mask, k).Some?
    requires forall m: nat :: m <= k && Walk(c, v, mask, m).Some? ==> 0 <= Walk(c, v, mask, m).value
    ensures v + k <= Walk(c, v, mask, k).value
    decreases k
  {
    hide Ok, IsVertex, EdgesAt, SourceOf, TargetOf;
    if k > 0 {
      var best := BestAt(c, v, mask).value;
      var next := TargetOf(c, best);
      BestGoesOn(c, v, mask);
      assert Walk(c, v, mask, 0) == Some(v);
      forall m: nat | m <= k - 1 && Walk(c, next, mask, m).Some?
        ensures 0 <= Walk(c, next, mask, m).value
      {
        assert Walk(c, v, mask, m + 1) == Walk(c, next, mask, m);
      }
      assert Walk(c, next, mask, 0) == Some(next);
      Climbs(c, next, mask, k - 1);
    }
  }

  lemma BestGoesOn(c: Content, v: int, mask: Mask)
    requires Ok(c) && IsVertex(c, v) && BestAt(c, v, mask).Some?
    ensures var next := TargetOf(c, BestAt(c, v, mask).value); 0 <= v && 0 <= next ==> v < next
  {
    hide Ok, IsVertex, TargetOf;
    StepsOn(c, v, mask, BestAt(c, v, mask).value);
  }

  /** Every circle passes a loose vertex. */
  lemma CirclePassesLoose(c: Content, v: int, mask: Mask, i: nat, j: nat)
    requires Ok(c) && IsVertex(c, v) && Meets(c, v, mask, i, j)
    ensures exists k: nat :: i <= k < j && Walk(c, v, mask, k).Some? && Walk(c, v, mask, k).value < 0
  {
    hide Ok, IsVertex, Walk;
    var u := Walk(c, v, mask, i).value;
    WalkOn(c, v, mask, i, j - i);
    if forall k: nat :: i <= k < j && Walk(c, v, mask, k).Some? ==> 0 <= Walk(c, v, mask, k).value {
      forall m: nat | m <= j - i && Walk(c, u, mask, m).Some?
        ensures 0 <= Walk(c, u, mask, m).value
      {
        WalkOn(c, v, mask, i, m);
      }
      Climbs(c, u, mask, j - i);
      assert false;
    }
  }
}
