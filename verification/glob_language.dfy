/** Globs over any alphabet: the language, and the greedy matcher that only ever retries the most recent
    star. */
module GlobLanguage {

  /** The two wildcards of an alphabet. */
  datatype Wildcards<T> = Wildcards(star: T, any: T)

  /** The language of a glob: `*` is any string, `?` any one symbol. */
  ghost predicate InLanguage<T>(w: Wildcards<T>, glob: seq<T>, s: seq<T>)
    decreases |glob|, 0
  {
    if glob == [] then s == []
    else if glob[0] == w.star then Starred(w, glob[1..], s)
    else s != [] && (glob[0] == w.any || glob[0] == s[0]) && InLanguage(w, glob[1..], s[1..])
  }

  /** Some suffix of `s` is in the language of `glob`. */
  ghost predicate Starred<T>(w: Wildcards<T>, glob: seq<T>, s: seq<T>)
    decreases |glob|, 1
  {
    exists k: nat :: k <= |s| && InLanguage(w, glob, s[k..])
  }

  /** A star-free stretch of a glob fits the front of a string. */
  ghost predicate Fits<T>(w: Wildcards<T>, part: seq<T>, s: seq<T>) {
    |part| <= |s| && forall i :: 0 <= i < |part| ==> part[i] != w.star && (part[i] == w.any || part[i] == s[i])
  }

  lemma {:induction false} FitsThenRest<T>(w: Wildcards<T>, part: seq<T>, rest: seq<T>, s: seq<T>)
    requires w.star !in part
    ensures InLanguage(w, part + rest, s) <==> Fits(w, part, s) && InLanguage(w, rest, s[|part|..])
  {
    if part == [] {
      assert part + rest == rest && s[0..] == s;
    } else {
      assert (part + rest)[1..] == part[1..] + rest;
      assert part[0] in part;
      if s != [] {
        FitsThenRest(w, part[1..], rest, s[1..]);
        assert |part| <= |s| ==> s[1..][|part| - 1..] == s[|part|..];
        assert Fits(w, part, s) <==> (part[0] == w.any || part[0] == s[0]) && Fits(w, part[1..], s[1..]) by {
          assert forall i :: 0 <= i < |part| - 1 && i + 1 < |s| ==>
                   part[1..][i] == part[i + 1] && s[1..][i] == s[i + 1];
          assert forall i :: 0 < i < |part| ==> part[i] == part[1..][i - 1];
        }
      }
    }
  }

  lemma {:induction false} FixedLanguage<T>(w: Wildcards<T>, glob: seq<T>, s: seq<T>)
    requires w.star !in glob && w.any !in glob
    ensures InLanguage(w, glob, s) <==> s == glob
  {
    if glob != [] {
      assert glob[0] in glob;
      if s != [] {
        FixedLanguage(w, glob[1..], s[1..]);
        assert s == [s[0]] + s[1..] && glob == [glob[0]] + glob[1..];
      }
    }
  }

  lemma SuffixStarred<T>(w: Wildcards<T>, glob: seq<T>, s: seq<T>, k: nat)
    requires k <= |s| && Starred(w, glob, s[k..])
    ensures Starred(w, glob, s)
  {
    var m: nat :| m <= |s[k..]| && InLanguage(w, glob, s[k..][m..]);
    assert s[k..][m..] == s[k + m..];
  }

  /** When an attempt fails at `s`, the star has to swallow at least one more symbol. */
  lemma StarSwallows<T>(w: Wildcards<T>, glob: seq<T>, s: seq<T>)
    requires s != [] && !InLanguage(w, glob, s)
    ensures Starred(w, glob, s) <==> Starred(w, glob, s[1..])
  {
    if Starred(w, glob, s) {
      var k: nat :| k <= |s| && InLanguage(w, glob, s[k..]);
      assert k != 0 by { assert s[0..] == s; }
      assert s[1..][k - 1..] == s[k..];
    }
    if Starred(w, glob, s[1..]) {
      SuffixStarred(w, glob, s, 1);
    }
  }

  /** Once the stretch between two stars fits, only the later star matters. */
  lemma LaterStarDecides<T>(w: Wildcards<T>, part: seq<T>, rest: seq<T>, s: seq<T>)
    requires Fits(w, part, s)
    ensures Starred(w, part + [w.star] + rest, s) <==> Starred(w, rest, s[|part|..])
  {
    var glob, tail := part + [w.star] + rest, [w.star] + rest;
    assert glob == part + tail && tail[1..] == rest;
    assert w.star !in part;
    if Starred(w, rest, s[|part|..]) {
      FitsThenRest(w, part, tail, s);
      assert InLanguage(w, glob, s[0..]) by { assert s[0..] == s; }
    }
    if k: nat :| k <= |s| && InLanguage(w, glob, s[k..]) {
      FitsThenRest(w, part, tail, s[k..]);
      assert s[k..][|part|..] == s[|part|..][k..];
      SuffixStarred(w, rest, s[|part|..], k);
    }
  }

  /** When the segment runs out during an attempt, the rest of the glob has to be stars. */
  lemma RunsOut<T>(w: Wildcards<T>, part: seq<T>, rest: seq<T>, s: seq<T>)
    requires Fits(w, part, s) && |part| == |s| && (rest != [] ==> rest[0] != w.star)
    ensures Starred(w, part + rest, s) <==> rest == []
  {
    assert w.star !in part;
    if rest == [] {
      FitsThenRest(w, part, rest, s);
      assert InLanguage(w, part + rest, s[0..]) by { assert s[0..] == s; }
    } else if k: nat :| k <= |s| && InLanguage(w, part + rest, s[k..]) {
      FitsThenRest(w, part, rest, s[k..]);
    }
  }

  // ---------- The greedy matcher ----------

  predicate AllStars<T(==)>(w: Wildcards<T>, glob: seq<T>) {
    glob == [] || (glob[0] == w.star && AllStars(w, glob[1..]))
  }

  /** The matcher from a given pair of positions on; after a mismatch it resumes at `mark` and
      `resume`, the positions saved by the most recent star. */
  function Greedy<T(==)>(w: Wildcards<T>, glob: seq<T>, s: seq<T>, g: nat, p: nat, mark: nat, resume: nat): bool
    requires mark <= g <= |glob| && resume <= p + 1 && p <= |s|
    decreases |glob| - mark, |s| + 1 - resume, |s| - p
  {
    if p == |s| then AllStars(w, glob[g..])
    else if g < |glob| && glob[g] == w.star then
      g + 1 == |glob| || Greedy(w, glob, s, g + 1, p, g + 1, p + 1)
    else if g < |glob| && glob[g] == w.any then
      Greedy(w, glob, s, g + 1, p + 1, mark, resume)
    else if g < |glob| && glob[g] == s[p] then
      Greedy(w, glob, s, g + 1, p + 1, mark, resume)
    else
      Greedy(w, glob, s, mark, resume, mark, resume + 1)
  }

  /** The matcher before the first star. */
  function Head<T(==)>(w: Wildcards<T>, glob: seq<T>, s: seq<T>, g: nat, p: nat): bool
    requires g <= |glob| && p <= |s|
    decreases |s| - p
  {
    if p == |s| || (g < |glob| && glob[g] == w.star) then Greedy(w, glob, s, g, p, g, p + 1)
    else if g == |glob| || (glob[g] != s[p] && glob[g] != w.any) then false
    else Head(w, glob, s, g + 1, p + 1)
  }

  lemma {:induction false} GreedyIsLanguage<T>(w: Wildcards<T>, glob: seq<T>, s: seq<T>, g: nat, p: nat,
                                              mark: nat, resume: nat)
    requires mark <= g <= |glob| && 1 <= resume <= p + 1 && p <= |s|
    requires g - mark == p + 1 - resume && Fits(w, glob[mark..g], s[resume - 1..])
    ensures Greedy(w, glob, s, g, p, mark, resume) <==> Starred(w, glob[mark..], s[resume - 1..])
    decreases |glob| - mark, |s| + 1 - resume, |s| - p
  {
    hide Starred, InLanguage;
    var part, rest, tail := glob[mark..g], glob[g..], s[resume - 1..];
    assert glob[mark..] == part + rest;
    assert tail[|part|..] == s[p..];
    if p == |s| {
      ExhaustedIsLanguage(w, part, rest, tail);
    } else if g < |glob| && glob[g] == w.star {
      var after := glob[g + 1..];
      assert rest == [w.star] + after && part + rest == part + [w.star] + after;
      LaterStarDecides(w, part, after, tail);
      if after == [] {
        EmptyStarred(w, s[p..]);
      } else {
        assert glob[g + 1..g + 1] == [] && s[p + 1 - 1..] == s[p..];
        GreedyIsLanguage(w, glob, s, g + 1, p, g + 1, p + 1);
      }
    } else if g < |glob| && (glob[g] == w.any || glob[g] == s[p]) {
      assert glob[mark..g + 1] == part + [glob[g]];
      assert tail[|part|] == s[p];
      GreedyIsLanguage(w, glob, s, g + 1, p + 1, mark, resume);
    } else {
      Mismatch(w, part, rest, tail);
      assert tail[1..] == s[resume..] && glob[mark..mark] == [];
      GreedyIsLanguage(w, glob, s, mark, resume, mark, resume + 1);
    }
  }

  lemma EmptyStarred<T>(w: Wildcards<T>, s: seq<T>)
    ensures Starred(w, [], s)
  {
    assert InLanguage(w, [], s[|s|..]);
  }

  lemma Mismatch<T>(w: Wildcards<T>, part: seq<T>, rest: seq<T>, s: seq<T>)
    requires Fits(w, part, s) && |part| < |s|
    requires rest == [] || (rest[0] != w.star && rest[0] != w.any && rest[0] != s[|part|])
    ensures Starred(w, part + rest, s) <==> Starred(w, part + rest, s[1..])
  {
    FitsThenRest(w, part, rest, s);
    StarSwallows(w, part + rest, s);
  }

  lemma {:induction false} ExhaustedIsLanguage<T>(w: Wildcards<T>, part: seq<T>, rest: seq<T>, s: seq<T>)
    requires Fits(w, part, s) && |part| == |s|
    ensures Starred(w, part + rest, s) <==> AllStars(w, rest)
    decreases |rest|
  {
    if rest != [] && rest[0] == w.star {
      var after := rest[1..];
      assert part + rest == part + [w.star] + after;
      LaterStarDecides(w, part, after, s);
      assert s[|part|..] == [];
      ExhaustedIsLanguage(w, [], after, []);
      assert [] + after == after;
    } else {
      RunsOut(w, part, rest, s);
    }
  }

  lemma {:induction false} HeadIsLanguage<T>(w: Wildcards<T>, glob: seq<T>, s: seq<T>, g: nat, p: nat)
    requires g <= |glob| && p <= |s|
    ensures Head(w, glob, s, g, p) <==> InLanguage(w, glob[g..], s[p..])
    decreases |s| - p
  {
    if p == |s| || (g < |glob| && glob[g] == w.star) {
      GreedyIsLanguage(w, glob, s, g, p, g, p + 1);
      StarredFront(w, glob[g..], s[p..]);
    } else if g < |glob| && (glob[g] == s[p] || glob[g] == w.any) {
      assert glob[g..][1..] == glob[g + 1..] && s[p..][1..] == s[p + 1..];
      HeadIsLanguage(w, glob, s, g + 1, p + 1);
    }
  }

  /** An extra star in front changes nothing when a star is there already or nothing is left. */
  lemma StarredFront<T>(w: Wildcards<T>, glob: seq<T>, s: seq<T>)
    requires s == [] || (glob != [] && glob[0] == w.star)
    ensures Starred(w, glob, s) <==> InLanguage(w, glob, s)
  {
    assert s[0..] == s;
    if k: nat :| k <= |s| && InLanguage(w, glob, s[k..]) {
      if s != [] {
        SuffixStarred(w, glob[1..], s, k);
      }
    }
  }
}
