/** When the search for completions ends, whatever the plan: exactly if no cycle of required lists is live. */
module PlanningEnds {
  import opened Common
  import opened PromisePlanning
  import opened PlanningTermination

  // ---------- Bounded runs ----------

  /** No run from the plan has more than `n` steps. */
  ghost predicate Ends(w: World, plan: Plan, n: nat)
    decreases n
  {
    if n == 0 then Next(w, plan) == [] else forall next :: next in Next(w, plan) ==> Ends(w, next, n - 1)
  }

  ghost predicate HasEnd(w: World, plan: Plan) {
    exists n: nat :: Ends(w, plan, n)
  }

  ghost predicate Leads(w: World, plan: Plan, target: Plan, n: nat)
    decreases n
  {
    if n == 0 then plan == target
    else exists k :: 0 <= k < |Next(w, plan)| && Leads(w, Next(w, plan)[k], target, n - 1)
  }

  ghost predicate RunsWithin(w: World, plan: Plan, n: nat) {
    forall target, m: nat :: Leads(w, plan, target, m) ==> m <= n
  }

  lemma EndsIffRunsWithin(w: World, plan: Plan, n: nat)
    ensures Ends(w, plan, n) <==> RunsWithin(w, plan, n)
  {
    hide Next;
    if Ends(w, plan, n) {
      forall target, m: nat | Leads(w, plan, target, m)
        ensures m <= n
      {
        RunIsWithin(w, plan, n, target, m);
      }
    }
    if RunsWithin(w, plan, n) {
      WithinEnds(w, plan, n);
    }
  }

  lemma {:induction false} WithinEnds(w: World, plan: Plan, n: nat)
    requires RunsWithin(w, plan, n)
    ensures Ends(w, plan, n)
    decreases n
  {
    hide Next, RunsWithin;
    if Next(w, plan) != [] {
      NextRunsWithin(w, plan, n, Next(w, plan)[0]);
    }
    forall next | next in Next(w, plan)
      ensures n > 0 && Ends(w, next, n - 1)
    {
      NextRunsWithin(w, plan, n, next);
      WithinEnds(w, next, n - 1);
    }
  }

  lemma NextRunsWithin(w: World, plan: Plan, n: nat, next: Plan)
    requires RunsWithin(w, plan, n) && next in Next(w, plan)
    ensures n > 0 && RunsWithin(w, next, n - 1)
  {
    hide Next;
    assert Leads(w, next, next, 0) && Leads(w, plan, next, 1);
    forall target, m: nat | Leads(w, next, target, m)
      ensures m <= n - 1
    {
      assert Leads(w, plan, target, m + 1);
    }
  }

  lemma {:induction false} RunIsWithin(w: World, plan: Plan, n: nat, target: Plan, m: nat)
    requires Ends(w, plan, n) && Leads(w, plan, target, m)
    ensures m <= n
    decreases m
  {
    hide Next;
    if m > 0 {
      var k :| 0 <= k < |Next(w, plan)| && Leads(w, Next(w, plan)[k], target, m - 1);
      assert Next(w, plan)[k] in Next(w, plan);
      RunIsWithin(w, Next(w, plan)[k], n - 1, target, m - 1);
    }
  }

  lemma {:induction false} EndsMore(w: World, plan: Plan, n: nat, m: nat)
    requires Ends(w, plan, n) && n <= m
    ensures Ends(w, plan, m)
    decreases n
  {
    hide Next;
    forall next | next in Next(w, plan)
      ensures m > 0 && Ends(w, next, m - 1)
    {
      EndsMore(w, next, n - 1, m - 1);
    }
  }

  lemma {:induction false} CommonEnd(w: World, plans: seq<Plan>) returns (n: nat)
    requires forall plan :: plan in plans ==> HasEnd(w, plan)
    ensures forall plan :: plan in plans ==> Ends(w, plan, n)
  {
    n := 0;
    if plans != [] {
      var rest := CommonEnd(w, plans[1..]);
      assert HasEnd(w, plans[0]);
      var first: nat :| Ends(w, plans[0], first);
      n := if first <= rest then rest else first;
      EndsMore(w, plans[0], first, n);
      forall plan | plan in plans[1..]
        ensures Ends(w, plan, n)
      {
        EndsMore(w, plan, rest, n);
      }
    }
  }

  lemma EndsByNext(w: World, plan: Plan)
    requires forall next :: next in Next(w, plan) ==> HasEnd(w, next)
    ensures HasEnd(w, plan)
  {
    hide Next;
    var n := CommonEnd(w, Next(w, plan));
    assert Ends(w, plan, n + 1);
  }

  // ---------- What can be completed ----------

  /** The plan is well-formed and the search for its completions ends. */
  ghost predicate Completable(w: World, plan: Plan) {
    Sound(w) && WellFormed(plan) && HasEnd(w, plan)
  }

  /** The length of the longest run. */
  ghost function Longest(w: World, plan: Plan): (n: nat)
    requires Completable(w, plan)
    ensures Ends(w, plan, n) && forall m: nat :: m < n ==> !Ends(w, plan, m)
  {
    var n: nat :| Ends(w, plan, n);
    LeastEnd(w, plan, n)
  }

  ghost function LeastEnd(w: World, plan: Plan, n: nat): (r: nat)
    requires Ends(w, plan, n)
    ensures Ends(w, plan, r) && forall m: nat :: m < r ==> !Ends(w, plan, m)
    decreases n
  {
    if m: nat :| m < n && Ends(w, plan, m) then LeastEnd(w, plan, m) else n
  }

  lemma ExpandedIsWellFormed(w: World, pre: Plan, alt: Alternative, post: Plan, next: Plan)
    requires Sound(w) && WellFormed(pre + [alt] + post) && next in Expanded(w, pre, alt, post)
    ensures WellFormed(next)
  {
    hide SetsLanguage, SameTags, Fulfillers, Multilingual, Met, Filtered, LanguageStated;
    WellFormedParts(pre, [alt], post);
    assert [alt][0] == alt;
    if Multilingual(alt) {
      var copies := Copies(w, alt, w.langCodes);
      forall k | 0 <= k < |copies|
        ensures copies[k] != [] && forall c :: c in copies[k] ==> LanguageStated(c)
      {
        assert copies[k] in copies;
        FilteredIsMonolingual(w, alt, w.langCodes[k]);
      }
      WellFormedParts(pre, copies, post);
    } else if |alt| != 1 {
      var k :| 0 <= k < |alt| && next == pre + [[alt[k]]] + post;
      assert alt[k] in alt;
      WellFormedParts(pre, [[alt[k]]], post);
    } else {
      var tags := FirstUnmet(pre, alt[0].required).value;
      var f := Fulfillers(w, w.factories, tags, OneLanguage(alt[0]));
      FulfillersProvide(w, w.factories, tags, OneLanguage(alt[0]));
      WellFormedParts(pre, [f] + [alt], post);
      assert pre + ([f] + [alt]) + post == next;
    }
  }

  lemma NextIsCompletable(w: World, plan: Plan, next: Plan)
    requires Completable(w, plan) && next in Next(w, plan)
    ensures Completable(w, next) && Longest(w, next) < Longest(w, plan)
  {
    hide Sound, Expanded, WellFormed, Settled;
    assert Ends(w, next, Longest(w, plan) - 1);
    var i := FirstUnsettled(plan, 0);
    assert plan[..i] + [plan[i]] + plan[i + 1..] == plan;
    ExpandedIsWellFormed(w, plan[..i], plan[i], plan[i + 1..], next);
  }

  /** In a layered world the measure of a plan bounds its runs. */
  lemma {:induction false} LayeredEnds(w: World, plan: Plan, n: nat)
    requires Layered(w) && WellFormed(plan) && Total(w, [], plan) <= n
    ensures Ends(w, plan, n)
    decreases n
  {
    hide Layered, WellFormed, Next, Total;
    forall next | next in Next(w, plan)
      ensures n > 0 && Ends(w, next, n - 1)
    {
      NextIsLess(w, plan, next);
      LayeredEnds(w, next, n - 1);
    }
    if Next(w, plan) != [] {
      NextIsLess(w, plan, Next(w, plan)[0]);
    }
  }

  // ---------- The first unsettled alternative ----------

  lemma StopsHere(plan: Plan, iter: nat)
    requires iter < |plan| && SettledUpTo(plan, iter) && !Settled(plan[..iter], plan[iter])
    ensures FirstUnsettled(plan, 0) == iter
  {
    hide Settled;
  }

  lemma PrefixStaysSettled(plan: Plan, next: Plan, iter: nat)
    requires iter <= |plan| && iter <= |next| && plan[..iter] == next[..iter] && SettledUpTo(plan, iter)
    ensures SettledUpTo(next, iter)
  {
    hide Settled;
    forall i | 0 <= i < iter
      ensures Settled(next[..i], next[i])
    {
      assert plan[..iter][..i] == plan[..i] && next[..iter][..i] == next[..i];
      assert plan[..iter][i] == plan[i] && next[..iter][i] == next[i];
    }
  }

  /** Alternatives that are settled already. */
  ghost predicate Ready(pre: Plan) {
    WellFormed(pre) && SettledUpTo(pre, |pre|)
  }

  lemma NextAt(w: World, pre: Plan, alt: Alternative, post: Plan)
    requires Ready(pre) && !Settled(pre, alt)
    ensures Next(w, pre + [alt] + post) == Expanded(w, pre, alt, post)
  {
    hide Settled, Expanded, WellFormed;
    var plan := pre + [alt] + post;
    assert plan[..|pre|] == pre && pre[..|pre|] == pre && plan[|pre|] == alt && plan[|pre| + 1..] == post;
    PrefixStaysSettled(pre, plan, |pre|);
    StopsHere(plan, |pre|);
  }

  lemma SettledIsReady(pre: Plan, alt: Alternative)
    requires Ready(pre) && WellFormed([alt]) && Settled(pre, alt)
    ensures Ready(pre + [alt])
  {
    hide Settled, LanguageStated;
    var plan := pre + [alt];
    assert plan[..|pre|] == pre && pre[..|pre|] == pre;
    PrefixStaysSettled(pre, plan, |pre|);
    WellFormedParts(pre, [alt], []);
    assert pre + [alt] + [] == plan;
  }

  lemma ReadyEnds(w: World, pre: Plan)
    requires Ready(pre)
    ensures HasEnd(w, pre)
  {
    hide Settled, WellFormed;
    assert Next(w, pre) == [];
    assert Ends(w, pre, 0);
  }

  // ---------- Live cycles ----------

  /** Working on `tags`, required by `p`, puts `q` right behind what is settled: a fulfiller, or one for
      the first language if the fulfillers are multilingual. */
  ghost predicate BringsIn(w: World, p: Promise, tags: Tags, q: Promise) {
    var fulfillers := Fulfillers(w, w.factories, tags, OneLanguage(p));
    if Multilingual(fulfillers) then
      var copies := Copies(w, fulfillers, w.langCodes);
      copies != [] && [] !in copies && q in copies[0]
    else q in fulfillers
  }

  /** Promises of which each requires a list that brings in the next, and the last one that brings in the
      first, while none of their earlier lists has all the tags of one of these lists. */
  ghost predicate LiveCycle(w: World, ps: seq<Promise>, ks: seq<nat>) {
    && |ps| == |ks| > 0
    && (forall i :: 0 <= i < |ps| ==> ks[i] < |ps[i].required|)
    && (forall i :: 0 <= i < |ps| ==> BringsIn(w, ps[i], ps[i].required[ks[i]], ps[if i + 1 < |ps| then i + 1 else 0]))
    && (forall a, b :: 0 <= a < |ps| && 0 <= b < |ps| ==>
         forall e :: 0 <= e < ks[a] ==> !Subset(ps[b].required[ks[b]], ps[a].required[e]))
  }

  ghost predicate HasLiveCycle(w: World) {
    exists ps, ks :: LiveCycle(w, ps, ks)
  }

  /** All promises that can be brought in. */
  ghost function Stock(w: World): set<Promise> {
    (set g | g in w.factories :: g.byDefault)
    + (set g, l | g in w.factories && l in g.byDefault.languages :: w.withLanguage(g.byDefault, l))
  }

  lemma {:induction false} FulfillerInStock(w: World, factories: seq<Factory>, tags: Tags, lang: Option<Lang>,
                                           f: Promise)
    requires SetsLanguage(w) && forall g :: g in factories ==> g in w.factories && SameTags(g)
    requires f in Fulfillers(w, factories, tags, lang)
    ensures f in Stock(w) && LanguageStated(f) && !f.handling.Dependent?
    ensures exists g :: g in w.factories && f.required == g.required
  {
    hide CanFulfill;
    if f in Fulfiller(w, factories[0], tags, lang) {
      assert factories[0] in w.factories && SameTags(factories[0]);
    } else {
      FulfillerInStock(w, factories[1..], tags, lang, f);
    }
  }

  /** Copies of alternatives without language-dependent members are members. */
  lemma {:induction false} FilteredIsMember(w: World, alt: Alternative, lang: Lang, c: Promise)
    requires c in Filtered(w, alt, lang) && forall p :: p in alt ==> !p.handling.Dependent?
    ensures c in alt
  {
    if c !in ToList(ForLanguage(w, alt[0], lang)) {
      FilteredIsMember(w, alt[1..], lang, c);
    }
  }

  lemma BroughtIn(w: World, p: Promise, tags: Tags, q: Promise)
    requires Sound(w) && BringsIn(w, p, tags, q)
    ensures q in Fulfillers(w, w.factories, tags, OneLanguage(p))
    ensures q in Stock(w) && LanguageStated(q) && !q.handling.Dependent?
    ensures exists g :: g in w.factories && q.required == g.required
  {
    hide SetsLanguage, SameTags, Multilingual, Fulfillers, Filtered, Stock, LanguageStated;
    var fulfillers := Fulfillers(w, w.factories, tags, OneLanguage(p));
    forall f | f in fulfillers
      ensures f in Stock(w) && LanguageStated(f) && !f.handling.Dependent?
      ensures exists g :: g in w.factories && f.required == g.required
    {
      FulfillerInStock(w, w.factories, tags, OneLanguage(p), f);
    }
    if Multilingual(fulfillers) {
      FilteredIsMember(w, fulfillers, w.langCodes[0], q);
    }
  }
}
