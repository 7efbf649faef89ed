/** The completions of a plan: all settled plans that its steps lead to, and what holds of each. */
module PlanSolutions {
  import opened Common
  import opened PromisePlanning
  import opened PlanningTermination
  import opened PlanningEnds
  import opened PlanningLanguages

  type Pipeline = seq<Promise>

  function Chosen(plan: Plan): (q: Pipeline)
    requires forall i :: 0 <= i < |plan| ==> plan[i] != []
    ensures |q| == |plan| && forall i :: 0 <= i < |plan| ==> q[i] == plan[i][0]
  {
    if plan == [] then [] else [plan[0][0]] + Chosen(plan[1..])
  }

  lemma AllNextAreLess(w: World, plan: Plan)
    requires Completable(w, plan)
    ensures forall next :: next in Next(w, plan) ==> Completable(w, next) && Longest(w, next) < Longest(w, plan)
  {
    hide Sound, WellFormed, HasEnd, Next;
    forall next | next in Next(w, plan)
      ensures Completable(w, next) && Longest(w, next) < Longest(w, plan)
    {
      NextIsCompletable(w, plan, next);
    }
  }

  /** In the order in which they are found. */
  ghost function Solutions(w: World, plan: Plan): seq<Pipeline>
    requires Completable(w, plan)
    decreases Longest(w, plan), 1, 0
  {
    if FirstUnsettled(plan, 0) == |plan| then [Chosen(plan)]
    else
      AllNextAreLess(w, plan);
      SolutionsOfAll(w, Next(w, plan), Longest(w, plan))
  }

  ghost function SolutionsOfAll(w: World, plans: seq<Plan>, bound: nat): seq<Pipeline>
    requires forall plan :: plan in plans ==> Completable(w, plan) && Longest(w, plan) < bound
    decreases bound, 0, |plans|
  {
    if plans == [] then [] else Solutions(w, plans[0]) + SolutionsOfAll(w, plans[1..], bound)
  }

  lemma {:induction false} InSolutionsOfAll(w: World, plans: seq<Plan>, bound: nat, q: Pipeline)
    requires forall plan :: plan in plans ==> Completable(w, plan) && Longest(w, plan) < bound
    ensures q in SolutionsOfAll(w, plans, bound) <==> exists k :: 0 <= k < |plans| && q in Solutions(w, plans[k])
    decreases |plans|
  {
    hide Sound, WellFormed, HasEnd, Solutions;
    if plans != [] {
      InSolutionsOfAll(w, plans[1..], bound, q);
      if q in SolutionsOfAll(w, plans[1..], bound) {
        var k :| 0 <= k < |plans[1..]| && q in Solutions(w, plans[1..][k]);
        assert q in Solutions(w, plans[k + 1]);
      }
      if k :| 0 < k < |plans| && q in Solutions(w, plans[k]) {
        assert plans[k] == plans[1..][k - 1];
      }
    }
  }

  /** A solution of a plan is the plan itself or a solution of one of its successors. */
  lemma SolutionStep(w: World, plan: Plan, q: Pipeline)
    requires Completable(w, plan)
    ensures forall k :: 0 <= k < |Next(w, plan)| ==> Completable(w, Next(w, plan)[k])
    ensures q in Solutions(w, plan) <==>
            (SettledUpTo(plan, |plan|) && q == Chosen(plan))
            || exists k :: 0 <= k < |Next(w, plan)| && q in Solutions(w, Next(w, plan)[k])
  {
    hide Sound, WellFormed, HasEnd, Settled, Expanded;
    AllNextAreLess(w, plan);
    forall k | 0 <= k < |Next(w, plan)|
      ensures Completable(w, Next(w, plan)[k])
    {
      assert Next(w, plan)[k] in Next(w, plan);
    }
    if FirstUnsettled(plan, 0) != |plan| {
      InSolutionsOfAll(w, Next(w, plan), Longest(w, plan), q);
    }
  }

  // ---------- All runs ----------

  ghost predicate Finished(target: Plan, q: Pipeline) {
    && SettledUpTo(target, |target|)
    && (forall i :: 0 <= i < |target| ==> target[i] != [])
    && q == Chosen(target)
  }

  /** The solutions are exactly the settled plans that some run reaches. */
  lemma {:induction false} SolutionsAreReached(w: World, plan: Plan, q: Pipeline)
    requires Completable(w, plan)
    ensures q in Solutions(w, plan) <==> exists n: nat, target :: Leads(w, plan, target, n) && Finished(target, q)
  {
    if q in Solutions(w, plan) {
      SolutionIsReached(w, plan, q);
    }
    if n: nat, target :| Leads(w, plan, target, n) && Finished(target, q) {
      ReachedIsSolution(w, plan, q, n, target);
    }
  }

  lemma {:induction false} SolutionIsReached(w: World, plan: Plan, q: Pipeline)
    requires Completable(w, plan) && q in Solutions(w, plan)
    ensures exists n: nat, target :: Leads(w, plan, target, n) && Finished(target, q)
    decreases Longest(w, plan)
  {
    hide Sound, LanguageStated, HasEnd, SettledUpTo, Next, Solutions;
    SolutionStep(w, plan, q);
    if SettledUpTo(plan, |plan|) && q == Chosen(plan) {
      assert Leads(w, plan, plan, 0) && Finished(plan, q);
    } else {
      var k :| 0 <= k < |Next(w, plan)| && q in Solutions(w, Next(w, plan)[k]);
      NextIsCompletable(w, plan, Next(w, plan)[k]);
      SolutionIsReached(w, Next(w, plan)[k], q);
      var n: nat, target :| Leads(w, Next(w, plan)[k], target, n) && Finished(target, q);
      assert Leads(w, plan, target, n + 1);
    }
  }

  lemma {:induction false} ReachedIsSolution(w: World, plan: Plan, q: Pipeline, n: nat, target: Plan)
    requires Completable(w, plan) && Leads(w, plan, target, n) && Finished(target, q)
    ensures q in Solutions(w, plan)
    decreases n
  {
    hide Sound, WellFormed, HasEnd, SettledUpTo, Next, Solutions;
    SolutionStep(w, plan, q);
    if n > 0 {
      var k :| 0 <= k < |Next(w, plan)| && Leads(w, Next(w, plan)[k], target, n - 1);
      ReachedIsSolution(w, Next(w, plan)[k], q, n - 1, target);
    }
  }

  // ---------- Solutions are complete ----------

  ghost predicate ProvidedBefore(q: Pipeline, i: nat, tags: Tags)
    requires i <= |q|
  {
    exists j :: 0 <= j < i && Subset(tags, q[j].provided)
  }

  /** Each required list of tags is provided by one earlier promise, and no language is left open. */
  ghost predicate IsComplete(q: Pipeline) {
    && (forall i, tags :: 0 <= i < |q| && tags in q[i].required ==> ProvidedBefore(q, i, tags))
    && (forall i :: 0 <= i < |q| ==> !q[i].handling.Dependent?)
  }

  lemma SettledIsComplete(plan: Plan)
    requires WellFormed(plan) && SettledUpTo(plan, |plan|)
    ensures IsComplete(Chosen(plan))
  {
    hide LanguageStated;
    var q := Chosen(plan);
    forall i, tags | 0 <= i < |q| && tags in q[i].required
      ensures ProvidedBefore(q, i, tags)
    {
      assert Settled(plan[..i], plan[i]) && Met(plan[..i], tags);
      var j :| 0 <= j < i && Provides(plan[..i][j], tags);
      assert plan[j][0] in plan[j];
      assert Subset(tags, q[j].provided);
    }
    forall i | 0 <= i < |q|
      ensures !q[i].handling.Dependent?
    {
      assert Settled(plan[..i], plan[i]);
      assert plan[i][0] in plan[i];
    }
  }

  lemma {:induction false} SolutionsAreComplete(w: World, plan: Plan, q: Pipeline)
    requires Completable(w, plan) && q in Solutions(w, plan)
    ensures IsComplete(q)
    decreases Longest(w, plan)
  {
    hide Sound, LanguageStated, HasEnd, SettledUpTo, Next, Solutions, IsComplete;
    SolutionStep(w, plan, q);
    if SettledUpTo(plan, |plan|) && q == Chosen(plan) {
      SettledIsComplete(plan);
    } else {
      var k :| 0 <= k < |Next(w, plan)| && q in Solutions(w, Next(w, plan)[k]);
      NextIsCompletable(w, plan, Next(w, plan)[k]);
      SolutionsAreComplete(w, Next(w, plan)[k], q);
    }
  }

  // ---------- Solutions carry the plan, and nothing without a reason ----------

  /** The places to fill: an alternative, or its copies for the languages if it is multilingual. */
  ghost function Slots(w: World, plan: Plan): Plan {
    if plan == [] then [] else SlotsOf(w, plan[0]) + Slots(w, plan[1..])
  }

  ghost function SlotsOf(w: World, alt: Alternative): Plan {
    if Multilingual(alt) then Copies(w, alt, w.langCodes) else [alt]
  }

  /** `p` provides something that a later promise requires, and speaks its language. */
  ghost predicate Helps(p: Promise, later: Pipeline) {
    exists k, tags :: 0 <= k < |later| && tags in later[k].required && HelpsWith(p, later[k], tags)
  }

  predicate HelpsWith(helper: Promise, p: Promise, tags: Tags) {
    Subset(tags, helper.provided) && SpeaksFor(helper, p)
  }

  /** The places are filled in order by members of theirs, and all else helps something later. */
  ghost predicate Carries(slots: Plan, q: Pipeline)
    decreases q
  {
    if q == [] then slots == []
    else
      || (slots != [] && q[0] in slots[0] && Carries(slots[1..], q[1..]))
      || (Helps(q[0], q[1..]) && Carries(slots, q[1..]))
  }

  lemma {:induction false} SlotsAppend(w: World, a: Plan, b: Plan)
    ensures Slots(w, a + b) == Slots(w, a) + Slots(w, b)
  {
    hide SlotsOf;
    if a == [] {
      assert a + b == b;
    } else {
      assert (a + b)[1..] == a[1..] + b;
      SlotsAppend(w, a[1..], b);
    }
  }

  lemma SlotsOfOne(w: World, alt: Alternative)
    ensures Slots(w, [alt]) == SlotsOf(w, alt)
  {
    assert Slots(w, [alt][1..]) == [];
  }

  lemma {:induction false} SlotsOfMonolingual(w: World, plan: Plan)
    requires forall i :: 0 <= i < |plan| ==> !Multilingual(plan[i])
    ensures Slots(w, plan) == plan
  {
    hide Multilingual;
    if plan != [] {
      SlotsOfMonolingual(w, plan[1..]);
    }
  }

  lemma {:induction false} CarriesChosen(plan: Plan)
    requires forall i :: 0 <= i < |plan| ==> plan[i] != []
    ensures Carries(plan, Chosen(plan))
  {
    if plan != [] {
      CarriesChosen(plan[1..]);
      assert Chosen(plan)[1..] == Chosen(plan[1..]);
    }
  }

  lemma {:induction false} CarriesMember(slots: Plan, k: nat, p: Promise, q: Pipeline)
    requires Carries(slots, q) && k < |slots| && slots[k] == [p]
    ensures p in q
    decreases q
  {
    hide Helps;
    if q[0] in slots[0] && Carries(slots[1..], q[1..]) {
      if k > 0 {
        CarriesMember(slots[1..], k - 1, p, q[1..]);
      }
    } else {
      CarriesMember(slots, k, p, q[1..]);
    }
  }

  /** Widening a place keeps a pipeline. */
  lemma {:induction false} CarriesWider(a: Plan, p: Promise, alt: Alternative, b: Plan, q: Pipeline)
    requires p in alt && Carries(a + [[p]] + b, q)
    ensures Carries(a + [alt] + b, q)
    decreases q
  {
    hide Helps;
    var narrow, wide := a + [[p]] + b, a + [alt] + b;
    assert wide[1..] == if a == [] then b else a[1..] + [alt] + b;
    assert narrow[1..] == if a == [] then b else a[1..] + [[p]] + b;
    if q[0] in narrow[0] && Carries(narrow[1..], q[1..]) {
      if a != [] {
        CarriesWider(a[1..], p, alt, b, q[1..]);
      }
    } else {
      CarriesWider(a, p, alt, b, q[1..]);
    }
  }

  ghost predicate AllHelp(slots: Plan, p: Promise, tags: Tags) {
    forall k, helper :: 0 <= k < |slots| && helper in slots[k] ==> HelpsWith(helper, p, tags)
  }

  /** Places for fulfillers of `p`, in front of it, need not be counted. */
  lemma {:induction false} CarriesWithout(a: Plan, x: Plan, p: Promise, b: Plan, tags: Tags, q: Pipeline)
    requires AllHelp(x, p, tags) && tags in p.required && Carries(a + x + [[p]] + b, q)
    ensures Carries(a + [[p]] + b, q)
    decreases q
  {
    hide Helps, AllHelp;
    var more, less := a + x + [[p]] + b, a + [[p]] + b;
    if x == [] {
      assert more == less;
    } else if q[0] in more[0] && Carries(more[1..], q[1..]) {
      if a != [] {
        assert more[1..] == a[1..] + x + [[p]] + b && less[1..] == a[1..] + [[p]] + b;
        CarriesWithout(a[1..], x, p, b, tags, q[1..]);
      } else {
        assert more[1..] == [] + x[1..] + [[p]] + b && less == [] + [[p]] + b;
        assert AllHelp(x[1..], p, tags) by { TailHelps(x, p, tags); }
        CarriesWithout([], x[1..], p, b, tags, q[1..]);
        CarriesMember(less, 0, p, q[1..]);
        HelpsMember(x, q[0], tags, p, q[1..]);
      }
    } else {
      CarriesWithout(a, x, p, b, tags, q[1..]);
    }
  }

  lemma TailHelps(x: Plan, p: Promise, tags: Tags)
    requires AllHelp(x, p, tags) && x != []
    ensures AllHelp(x[1..], p, tags)
  {
    forall k, helper | 0 <= k < |x[1..]| && helper in x[1..][k]
      ensures HelpsWith(helper, p, tags)
    {
      assert helper in x[k + 1];
    }
  }

  lemma HelpsMember(x: Plan, helper: Promise, tags: Tags, p: Promise, later: Pipeline)
    requires AllHelp(x, p, tags) && x != [] && helper in x[0] && tags in p.required && p in later
    ensures Helps(helper, later)
  {
    var k :| 0 <= k < |later| && later[k] == p;
    assert HelpsWith(helper, later[k], tags);
  }

  /** Fulfillers help the promise that requires the list, also in the copies for the languages. */
  lemma SlotsHelp(w: World, p: Promise, tags: Tags)
    requires Sound(w) && LanguageStated(p) && Fulfillers(w, w.factories, tags, OneLanguage(p)) != []
    ensures AllHelp(SlotsOf(w, Fulfillers(w, w.factories, tags, OneLanguage(p))), p, tags)
  {
    hide SetsLanguage, SameTags, Multilingual, Filtered, Fulfillers, LanguageStated, SpeaksFor;
    var alt := Fulfillers(w, w.factories, tags, OneLanguage(p));
    FulfillersProvide(w, w.factories, tags, OneLanguage(p));
    FulfillersSpeakFor(w, p, tags);
    var slots: Plan := SlotsOf(w, alt);
    forall k: nat, c | k < |slots| && c in slots[k]
      ensures HelpsWith(c, p, tags)
    {
      if Multilingual(alt) {
        FilteredMember(w, alt, w.langCodes[k], c);
        var q :| q in alt && c.required == q.required && c.provided == q.provided;
        OpenToAll(c, p);
      }
    }
  }

  lemma OpenToAll(f: Promise, p: Promise)
    requires !f.handling.Dependent? && !p.handling.JustOne?
    ensures SpeaksFor(f, p)
  {
  }

  lemma CopiesAreMonolingual(w: World, alt: Alternative, langs: seq<Lang>)
    requires SetsLanguage(w) && forall p :: p in alt ==> LanguageStated(p)
    ensures Slots(w, Copies(w, alt, langs)) == Copies(w, alt, langs)
  {
    hide SetsLanguage, Multilingual, Filtered;
    var copies: Plan := Copies(w, alt, langs);
    forall k | 0 <= k < |copies|
      ensures !Multilingual(copies[k])
    {
      FilteredIsMonolingual(w, alt, langs[k]);
    }
    SlotsOfMonolingual(w, copies);
  }

  lemma SlotsOfThree(w: World, a: Plan, b: Plan, c: Plan)
    ensures Slots(w, a + b + c) == Slots(w, a) + Slots(w, b) + Slots(w, c)
  {
    SlotsAppend(w, a + b, c);
    SlotsAppend(w, a, b);
  }

  /** Whatever carries the places after a step carries those before it. */
  lemma CarriesBack(w: World, pre: Plan, alt: Alternative, post: Plan, next: Plan, q: Pipeline)
    requires Sound(w) && WellFormed(pre + [alt] + post) && next in Expanded(w, pre, alt, post)
    requires Carries(Slots(w, next), q)
    ensures Carries(Slots(w, pre + [alt] + post), q)
  {
    hide SetsLanguage, SameTags, Acyclic, Multilingual, Met, Filtered, LanguageStated, Carries, Slots, Fulfillers;
    WellFormedParts(pre, [alt], post);
    assert [alt][0] == alt;
    var a, b := Slots(w, pre), Slots(w, post);
    SlotsOfThree(w, pre, [alt], post);
    SlotsOfOne(w, alt);
    if Multilingual(alt) {
      CopiesAreMonolingual(w, alt, w.langCodes);
      SlotsOfThree(w, pre, Copies(w, alt, w.langCodes), post);
    } else if |alt| != 1 {
      var k :| 0 <= k < |alt| && next == pre + [[alt[k]]] + post;
      SlotsOfThree(w, pre, [[alt[k]]], post);
      SlotsOfOne(w, [alt[k]]);
      MemberIsMonolingual(alt, alt[k]);
      CarriesWider(a, alt[k], alt, b, q);
    } else {
      var tags := FirstUnmet(pre, alt[0].required).value;
      var f := Fulfillers(w, w.factories, tags, OneLanguage(alt[0]));
      assert alt == [alt[0]];
      SlotsHelp(w, alt[0], tags);
      SlotsOfThree(w, pre + [f], [alt], post);
      SlotsAppend(w, pre, [f]);
      SlotsOfOne(w, f);
      CarriesWithout(a, SlotsOf(w, f), alt[0], b, tags, q);
    }
  }

  lemma MemberIsMonolingual(alt: Alternative, p: Promise)
    requires !Multilingual(alt) && p in alt
    ensures !Multilingual([p])
  {
  }

  /** Every alternative of the plan survives in order, as one of its own members or as one per language,
      and whatever else a solution contains provides something required later in it. */
  lemma {:induction false} SolutionsCarryThePlan(w: World, plan: Plan, q: Pipeline)
    requires Completable(w, plan) && q in Solutions(w, plan)
    ensures Carries(Slots(w, plan), q)
    decreases Longest(w, plan)
  {
    hide Sound, WellFormed, HasEnd, Solutions, Carries, Expanded, LanguageStated, Slots, Multilingual, AllMet;
    SolutionStep(w, plan, q);
    if SettledUpTo(plan, |plan|) && q == Chosen(plan) {
      forall i | 0 <= i < |plan|
        ensures !Multilingual(plan[i])
      {
        assert Settled(plan[..i], plan[i]);
      }
      SlotsOfMonolingual(w, plan);
      CarriesChosen(plan);
    } else {
      var k :| 0 <= k < |Next(w, plan)| && q in Solutions(w, Next(w, plan)[k]);
      var next := Next(w, plan)[k];
      NextIsCompletable(w, plan, next);
      SolutionsCarryThePlan(w, next, q);
      var i := FirstUnsettled(plan, 0);
      assert plan[..i] + [plan[i]] + plan[i + 1..] == plan;
      CarriesBack(w, plan[..i], plan[i], plan[i + 1..], next, q);
    }
  }
}
