/** `levenshteinDistance` and `findTheMostSimilarString`. */
module EditDistance {
  import opened Common

  // ---------- Edit scripts ----------

  datatype Edit<T> = Insert(at: nat, x: T) | Delete(at: nat) | Substitute(at: nat, x: T)

  predicate Applies<T>(e: Edit<T>, s: seq<T>) {
    if e.Insert? then e.at <= |s| else e.at < |s|
  }

  function Apply<T>(e: Edit<T>, s: seq<T>): seq<T>
    requires Applies(e, s)
  {
    match e
    case Insert(i, x) => s[..i] + [x] + s[i..]
    case Delete(i) => s[..i] + s[i + 1..]
    case Substitute(i, x) => s[i := x]
  }

  /** The script leads from `s` to `t`, one edit after the other. */
  ghost predicate Leads<T>(script: seq<Edit<T>>, s: seq<T>, t: seq<T>)
    decreases |script|
  {
    if script == [] then s == t
    else Applies(script[0], s) && Leads(script[1..], Apply(script[0], s), t)
  }

  lemma {:induction false} LeadsConcat<T>(a: seq<Edit<T>>, b: seq<Edit<T>>, s: seq<T>, t: seq<T>, u: seq<T>)
    requires Leads(a, s, t) && Leads(b, t, u)
    ensures Leads(a + b, s, u)
    decreases |a|
  {
    hide Applies, Apply;
    if a == [] {
      assert a + b == b;
    } else {
      LeadsConcat(a[1..], b, Apply(a[0], s), t, u);
      assert (a + b)[1..] == a[1..] + b;
    }
  }

  /** A script that works on a string works in front of one more element. */
  lemma {:induction false} LeadsBefore<T>(script: seq<Edit<T>>, s: seq<T>, t: seq<T>, x: T)
    requires Leads(script, s, t)
    ensures Leads(script, s + [x], t + [x])
    decreases |script|
  {
    hide Applies, Apply;
    if script != [] {
      ApplyBefore(script[0], s, x);
      LeadsBefore(script[1..], Apply(script[0], s), t, x);
    }
  }

  lemma ApplyBefore<T>(e: Edit<T>, s: seq<T>, x: T)
    requires Applies(e, s)
    ensures Applies(e, s + [x]) && Apply(e, s + [x]) == Apply(e, s) + [x]
  {
  }

  // ---------- The recurrence ----------

  function Cost<T(==)>(x: T, y: T): nat {
    if x == y then 0 else 1
  }

  function DropLast<T>(s: seq<T>): seq<T>
    requires s != []
  {
    s[..|s| - 1]
  }

  function Last<T>(s: seq<T>): T
    requires s != []
  {
    s[|s| - 1]
  }

  /** The cell of the dynamic programming table for two whole strings. */
  function Distance<T(==)>(s: seq<T>, t: seq<T>): nat
    decreases |s| + |t|
  {
    if s == [] then |t|
    else if t == [] then |s|
    else
      Min(Min(1 + Distance(s, DropLast(t)), 1 + Distance(DropLast(s), t)),
          Cost(Last(s), Last(t)) + Distance(DropLast(s), DropLast(t)))
  }

  lemma {:induction false} DistanceBound<T>(s: seq<T>, t: seq<T>)
    ensures Distance(s, t) <= if |s| <= |t| then |t| else |s|
    decreases |s| + |t|
  {
    if s != [] && t != [] {
      DistanceBound(DropLast(s), DropLast(t));
    }
  }

  /** The recurrence is achieved by a script of that length. */
  lemma {:induction false} ShortestScript<T>(s: seq<T>, t: seq<T>) returns (script: seq<Edit<T>>)
    ensures |script| == Distance(s, t) && Leads(script, s, t)
    decreases |s| + |t|
  {
    if s == [] {
      if t == [] {
        script := [];
      } else {
        var first := ShortestScript(s, DropLast(t));
        script := ThenInsert(first, s, t);
      }
    } else if t == [] {
      var rest := ShortestScript(DropLast(s), t);
      script := DeleteThen(rest, s, t);
    } else if Distance(s, t) == 1 + Distance(s, DropLast(t)) {
      var first := ShortestScript(s, DropLast(t));
      script := ThenInsert(first, s, t);
    } else if Distance(s, t) == 1 + Distance(DropLast(s), t) {
      var rest := ShortestScript(DropLast(s), t);
      script := DeleteThen(rest, s, t);
    } else {
      var first := ShortestScript(DropLast(s), DropLast(t));
      script := ThenSubstitute(first, s, t);
    }
  }

  lemma AppendEdit<T>(first: seq<Edit<T>>, e: Edit<T>, s: seq<T>, t: seq<T>)
    requires Leads(first, s, t) && Applies(e, t)
    ensures Leads(first + [e], s, Apply(e, t))
  {
    assert [e][1..] == [];
    LeadsConcat(first, [e], s, t, Apply(e, t));
  }

  lemma ThenInsert<T>(first: seq<Edit<T>>, s: seq<T>, t: seq<T>) returns (script: seq<Edit<T>>)
    requires t != [] && Leads(first, s, DropLast(t))
    ensures |script| == |first| + 1 && Leads(script, s, t)
  {
    var e := Insert(|t| - 1, Last(t));
    assert Apply(e, DropLast(t)) == t;
    AppendEdit(first, e, s, DropLast(t));
    script := first + [e];
  }

  lemma DeleteThen<T>(rest: seq<Edit<T>>, s: seq<T>, t: seq<T>) returns (script: seq<Edit<T>>)
    requires s != [] && Leads(rest, DropLast(s), t)
    ensures |script| == |rest| + 1 && Leads(script, s, t)
  {
    var e: Edit<T> := Delete(|s| - 1);
    script := [e] + rest;
    assert script[1..] == rest && Apply(e, s) == DropLast(s);
  }

  lemma ThenSubstitute<T>(first: seq<Edit<T>>, s: seq<T>, t: seq<T>) returns (script: seq<Edit<T>>)
    requires s != [] && t != [] && Leads(first, DropLast(s), DropLast(t))
    ensures |script| == |first| + Cost(Last(s), Last(t)) && Leads(script, s, t)
  {
    hide Leads;
    LeadsBefore(first, DropLast(s), DropLast(t), Last(s));
    assert s == DropLast(s) + [Last(s)] && t == DropLast(t) + [Last(t)];
    script := first;
    if Last(s) != Last(t) {
      var e := Substitute(|t| - 1, Last(t));
      var u := DropLast(t) + [Last(s)];
      assert Apply(e, u) == t;
      AppendEdit(first, e, s, u);
      script := first + [e];
    }
  }

  // ---------- No script is shorter ----------

  lemma Unfold<T>(s: seq<T>, x: T, t: seq<T>, y: T)
    ensures Distance(s + [x], t + [y]) ==
            Min(Min(1 + Distance(s + [x], t), 1 + Distance(s, t + [y])), Cost(x, y) + Distance(s, t))
  {
    hide DropLast, Last, Distance;
    LastOfAppended(s, x);
    LastOfAppended(t, y);
    Recurrence(s + [x], t + [y]);
  }

  lemma Recurrence<T>(s: seq<T>, t: seq<T>)
    requires s != [] && t != []
    ensures Distance(s, t) ==
            Min(Min(1 + Distance(s, DropLast(t)), 1 + Distance(DropLast(s), t)),
                Cost(Last(s), Last(t)) + Distance(DropLast(s), DropLast(t)))
  {
    hide DropLast, Last, Min, Cost;
  }

  lemma FromEmpty<T>(s: seq<T>)
    ensures Distance(s, []) == |s|
  {
  }

  lemma LastOfAppended<T>(s: seq<T>, x: T)
    ensures s + [x] != [] && DropLast(s + [x]) == s && Last(s + [x]) == x
  {
  }

  ghost predicate Near(a: nat, b: nat) {
    a <= b + 1 && b <= a + 1
  }

  /** One element more at the end changes the distance by at most one. */
  lemma {:induction false} AppendNear<T>(s: seq<T>, x: T, t: seq<T>)
    ensures Near(Distance(s + [x], t), Distance(s, t))
    decreases |s| + |t|
  {
    assert DropLast(s + [x]) == s;
    if t != [] {
      AppendNear(s, x, DropLast(t));
      if s != [] {
        AppendOther(s, t);
      }
    }
  }

  lemma AppendOther<T>(s: seq<T>, t: seq<T>)
    requires s != [] && t != []
    ensures Distance(s, t) <= 1 + Distance(s, DropLast(t))
  {
  }

  /** Strings that differ in one element, or by one element, are near in their distance to any
      other: `a + p + b` and `a + q + b`, where `p` and `q` have at most one element. */
  lemma {:induction false} EditNear<T>(a: seq<T>, p: seq<T>, q: seq<T>, b: seq<T>, t: seq<T>)
    requires |p| <= 1 && |q| <= 1
    ensures Near(Distance(a + p + b, t), Distance(a + q + b, t))
    decreases |b| + |t|
  {
    if b == [] {
      assert a + p + b == a + p && a + q + b == a + q;
      EndNear(a, p, q, t);
    } else {
      var b', y := DropLast(b), Last(b);
      assert a + p + b == (a + p + b') + [y] && a + q + b == (a + q + b') + [y];
      if t != [] {
        var t', z := DropLast(t), Last(t);
        assert t == t' + [z];
        EditNear(a, p, q, b, t');
        EditNear(a, p, q, b', t);
        EditNear(a, p, q, b', t');
        Unfold(a + p + b', y, t', z);
        Unfold(a + q + b', y, t', z);
      }
    }
  }

  lemma {:induction false} EndNear<T>(a: seq<T>, p: seq<T>, q: seq<T>, t: seq<T>)
    requires |p| <= 1 && |q| <= 1
    ensures Near(Distance(a + p, t), Distance(a + q, t))
    decreases |t|
  {
    hide Distance, DropLast, Last, Cost;
    assert a + [] == a;
    if p == [] && q == [] {
    } else if p == [] {
      assert q == [q[0]];
      AppendNear(a, q[0], t);
    } else if q == [] {
      assert p == [p[0]];
      AppendNear(a, p[0], t);
    } else {
      assert p == [p[0]] && q == [q[0]];
      if t == [] {
        FromEmpty(a + p);
        FromEmpty(a + q);
      } else {
        var t', z := t[..|t| - 1], t[|t| - 1];
        assert t == t' + [z];
        CostAtMostOne(p[0], z);
        CostAtMostOne(q[0], z);
        EndNear(a, p, q, t');
        Unfold(a, p[0], t', z);
        Unfold(a, q[0], t', z);
      }
    }
  }

  lemma CostAtMostOne<T>(x: T, y: T)
    ensures Cost(x, y) <= 1
  {
  }

  lemma OneEditNear<T>(e: Edit<T>, s: seq<T>, t: seq<T>)
    requires Applies(e, s)
    ensures Near(Distance(Apply(e, s), t), Distance(s, t))
  {
    match e
    case Insert(i, x) =>
      assert s == s[..i] + [] + s[i..];
      EditNear(s[..i], [x], [], s[i..], t);
    case Delete(i) =>
      assert s == s[..i] + [s[i]] + s[i + 1..] && s[..i] + s[i + 1..] == s[..i] + [] + s[i + 1..];
      EditNear(s[..i], [], [s[i]], s[i + 1..], t);
    case Substitute(i, x) =>
      assert s == s[..i] + [s[i]] + s[i + 1..] && s[i := x] == s[..i] + [x] + s[i + 1..];
      EditNear(s[..i], [x], [s[i]], s[i + 1..], t);
  }

  lemma {:induction false} NoShorterScript<T>(script: seq<Edit<T>>, s: seq<T>, t: seq<T>)
    requires Leads(script, s, t)
    ensures |script| >= Distance(s, t)
    decreases |script|
  {
    if script == [] {
      DistanceToItself(s);
    } else {
      NoShorterScript(script[1..], Apply(script[0], s), t);
      OneEditNear(script[0], s, t);
    }
  }

  lemma {:induction false} DistanceToItself<T>(s: seq<T>)
    ensures Distance(s, s) == 0
  {
    if s != [] {
      DistanceToItself(DropLast(s));
    }
  }

  // ---------- The distance is a metric ----------

  lemma {:induction false} Symmetric<T>(s: seq<T>, t: seq<T>)
    ensures Distance(s, t) == Distance(t, s)
    decreases |s| + |t|
  {
    if s != [] && t != [] {
      Symmetric(s, DropLast(t));
      Symmetric(DropLast(s), t);
      Symmetric(DropLast(s), DropLast(t));
    }
  }

  lemma {:induction false} ZeroIffEqual<T>(s: seq<T>, t: seq<T>)
    ensures Distance(s, t) == 0 <==> s == t
  {
    if s == t {
      DistanceToItself(s);
    }
    var script := ShortestScript(s, t);
  }

  lemma Triangle<T>(s: seq<T>, t: seq<T>, u: seq<T>)
    ensures Distance(s, u) <= Distance(s, t) + Distance(t, u)
  {
    var a := ShortestScript(s, t);
    var b := ShortestScript(t, u);
    LeadsConcat(a, b, s, t, u);
    NoShorterScript(a + b, s, u);
  }

  // ---------- The two-column loop ----------

  /** Lengths have to be below 2^32 - 1, so that the `unsigned int` cells do not wrap around. */
  method LevenshteinDistance<T(==)>(s1: seq<T>, s2: seq<T>) returns (d: Word)
    requires |s1| < WORD - 1 && |s2| < WORD - 1
    ensures d == Distance(s1, s2)
  {
    hide Distance;
    var len1, len2 := |s1|, |s2|;
    var col, prevCol := new Word[len2 + 1](_ => 0), new Word[len2 + 1](_ => 0);
    for i := 0 to len2 + 1
      invariant forall k :: 0 <= k < i ==> prevCol[k] == k
    {
      prevCol[i] := i;
    }
    FirstRow(s1, s2);
    for i := 0 to len1
      invariant col != prevCol && col.Length == prevCol.Length == len2 + 1
      invariant fresh(col) && fresh(prevCol)
      invariant forall k :: 0 <= k <= len2 ==> prevCol[k] == Distance(s1[..i], s2[..k])
    {
      FirstColumn(s1, s2, i + 1);
      col[0] := i + 1;
      for j := 0 to len2
        invariant forall k :: 0 <= k <= j ==> col[k] == Distance(s1[..i + 1], s2[..k])
        invariant forall k :: 0 <= k <= len2 ==> prevCol[k] == Distance(s1[..i], s2[..k])
      {
        CellBounds(s1, s2, i, j);
        col[j + 1] := Min(Min(1 + col[j], 1 + prevCol[1 + j]), Cost(s1[i], s2[j]) + prevCol[j]);
      }
      col, prevCol := prevCol, col;
    }
    assert s1[..len1] == s1 && s2[..len2] == s2;
    return prevCol[len2];
  }

  lemma FirstRow<T>(s: seq<T>, t: seq<T>)
    ensures forall k :: 0 <= k <= |t| ==> Distance(s[..0], t[..k]) == k
  {
  }

  lemma FirstColumn<T>(s: seq<T>, t: seq<T>, i: nat)
    requires i <= |s|
    ensures Distance(s[..i], t[..0]) == i
  {
  }

  lemma CellBounds<T>(s: seq<T>, t: seq<T>, i: nat, j: nat)
    requires i < |s| < WORD - 1 && j < |t| < WORD - 1
    ensures Distance(s[..i + 1], t[..j + 1]) ==
            Min(Min(1 + Distance(s[..i + 1], t[..j]), 1 + Distance(s[..i], t[..j + 1])),
                Cost(s[i], t[j]) + Distance(s[..i], t[..j]))
    ensures Distance(s[..i + 1], t[..j]) < WORD - 1 && Distance(s[..i], t[..j + 1]) < WORD - 1
    ensures Distance(s[..i], t[..j]) < WORD - 1
  {
    hide Distance, Cost, Min;
    assert s[..i + 1] == s[..i] + [s[i]] && t[..j + 1] == t[..j] + [t[j]];
    Unfold(s[..i], s[i], t[..j], t[j]);
    DistanceBound(s[..i + 1], t[..j]);
    DistanceBound(s[..i], t[..j + 1]);
    DistanceBound(s[..i], t[..j]);
  }

  const FAR: nat := 99

  /** `best` is the element whose distance is least, and the first such element. */
  ghost predicate FirstNearest<T>(container: seq<seq<T>>, s: seq<T>, best: nat)
    requires best < |container|
  {
    && (forall k :: 0 <= k < |container| ==> Distance(container[best], s) <= Distance(container[k], s))
    && (forall k :: 0 <= k < best ==> Distance(container[best], s) < Distance(container[k], s))
  }

  /** `int` holds the distances, so lengths have to be below 2^31. The default string is returned
      when no element is nearer than 99. */
  method FindTheMostSimilarString<T(==)>(s: seq<T>, container: seq<seq<T>>) returns (r: seq<T>)
    requires |s| < 0x8000_0000 && forall e :: e in container ==> |e| < 0x8000_0000
    ensures (forall k :: 0 <= k < |container| ==> Distance(container[k], s) >= 99) ==> r == []
    ensures (exists k :: 0 <= k < |container| && Distance(container[k], s) < 99) ==>
              exists k :: 0 <= k < |container| && r == container[k] && FirstNearest(container, s, k)
  {
    hide Distance;
    r := [];
    var shortestDistance := FAR;
    ghost var best := 0;
    for i := 0 to |container|
      invariant shortestDistance <= FAR
      invariant shortestDistance < FAR ==> best < i && r == container[best]
      invariant shortestDistance < FAR ==> shortestDistance == Distance(container[best], s)
      invariant shortestDistance == FAR ==> r == []
      invariant forall k :: 0 <= k < i ==> Distance(container[k], s) >= shortestDistance
      invariant best <= i && forall k :: 0 <= k < best ==> Distance(container[k], s) > shortestDistance
    {
      assert container[i] in container;
      var distance := LevenshteinDistance(container[i], s);
      if distance < shortestDistance {
        r := container[i];
        shortestDistance := distance;
        best := i;
      }
    }
  }
}
