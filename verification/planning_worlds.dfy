/** Which worlds have live cycles: how they relate to worlds in which some factory depends on itself. */
module PlanningWorlds {
  import opened Common
  import opened PromisePlanning
  import opened PlanningTermination
  import opened PlanningEnds
  import opened PlanningCycles
  import opened PlanningBounds

  /** If no factory depends on itself, there is no live cycle. */
  lemma LayeredHasNoLiveCycle(w: World)
    requires Layered(w)
    ensures !HasLiveCycle(w)
  {
    hide WellFormed, HasEnd, Acyclic, SetsLanguage, SameTags;
    forall plan | WellFormed(plan)
      ensures HasEnd(w, plan)
    {
      LayeredEnds(w, plan, Total(w, [], plan));
      EndIsAnEnd(w, plan, Total(w, [], plan));
    }
    AllPlansEndIff(w);
  }

  lemma EndIsAnEnd(w: World, plan: Plan, n: nat)
    requires Ends(w, plan, n)
    ensures HasEnd(w, plan)
  {
  }

  // ---------- Annotators that do not depend on the language and require at most one list ----------

  ghost predicate Plain(w: World) {
    Sound(w) && forall g :: g in w.factories ==> g.annotator && g.byDefault.handling.Independent? && |g.required| <= 1
  }

  /** What stands behind does not keep the steps in front from being taken. */
  lemma {:induction false} EndsInFront(w: World, plan: Plan, post: Plan, n: nat)
    requires Ends(w, plan + post, n)
    ensures Ends(w, plan, n)
    decreases n
  {
    hide Next;
    forall next | next in Next(w, plan)
      ensures n > 0 && Ends(w, next, n - 1)
    {
      NextInFront(w, plan, post, next);
      EndsInFront(w, next, post, n - 1);
    }
    if Next(w, plan) != [] {
      NextInFront(w, plan, post, Next(w, plan)[0]);
    }
  }

  lemma NextInFront(w: World, plan: Plan, post: Plan, next: Plan)
    requires next in Next(w, plan)
    ensures next + post in Next(w, plan + post)
  {
    hide Settled, Multilingual, FirstUnmet, Fulfillers, Filtered;
    var i := FirstUnsettled(plan, 0);
    var all := plan + post;
    assert all[..i] == plan[..i] && all[i] == plan[i] && all[i + 1..] == plan[i + 1..] + post;
    assert plan[..i] == all[..i];
    PrefixStaysSettled(plan, all, i);
    StopsHere(all, i);
    ExpandedInFront(w, plan[..i], plan[i], plan[i + 1..], post, next);
  }

  lemma ExpandedInFront(w: World, pre: Plan, alt: Alternative, middle: Plan, post: Plan, next: Plan)
    requires next in Expanded(w, pre, alt, middle)
    ensures next + post in Expanded(w, pre, alt, middle + post)
  {
    hide Multilingual, FirstUnmet, Fulfillers, Filtered;
    if Multilingual(alt) {
      var copies := Copies(w, alt, w.langCodes);
      assert pre + copies + middle + post == pre + copies + (middle + post);
    } else if |alt| != 1 {
      var k :| 0 <= k < |alt| && next == pre + [[alt[k]]] + middle;
      assert next + post == pre + [[alt[k]]] + (middle + post);
      assert Choices(pre, alt, middle + post)[k] in Choices(pre, alt, middle + post);
    } else {
      var tags := FirstUnmet(pre, alt[0].required).value;
      var f := Fulfillers(w, w.factories, tags, OneLanguage(alt[0]));
      assert pre + [f] + [alt] + middle + post == pre + [f] + [alt] + (middle + post);
    }
  }

  lemma {:induction false} FulfillerIsListed(w: World, factories: seq<Factory>, tags: Tags, h: Factory)
    requires h in factories && CanFulfill(h, tags) && h.byDefault.handling.Independent?
    ensures h.byDefault in Fulfillers(w, factories, tags, None)
  {
    hide CanFulfill;
    if h != factories[0] {
      FulfillerIsListed(w, factories[1..], tags, h);
    }
  }

  lemma {:induction false} FulfillersArePlain(w: World, factories: seq<Factory>, tags: Tags, lang: Option<Lang>)
    requires forall g :: g in factories ==> g.byDefault.handling.Independent?
    ensures forall f :: f in Fulfillers(w, factories, tags, lang) ==> f.handling.Independent?
  {
    hide CanFulfill;
    if factories != [] {
      assert factories[0].byDefault.handling.Independent?;
      FulfillersArePlain(w, factories[1..], tags, lang);
    }
  }

  /** The run of a helper is part of a longer run of the factory that it helps. */
  lemma HelperEndsSooner(w: World, g: Factory, h: Factory, n: nat)
    requires Plain(w) && g in w.factories && h in w.factories && Helper(h, g.required)
    requires Ends(w, [[g.byDefault]], n)
    ensures n > 0 && Ends(w, [[h.byDefault]], n - 1)
  {
    hide SetsLanguage, CanFulfill, Ends, Next, Fulfillers;
    var p, q := g.byDefault, h.byDefault;
    assert SameTags(g);
    var tags :| tags in g.required && CanFulfill(h, tags);
    assert p.required[0] == tags && !Met([], tags);
    FirstUnmetIs([], p.required, 0);
    assert Ready([]) by { NothingIsReady(); }
    FulfillersAreNext(w, [], p, [], tags);
    var fulfillers := Fulfillers(w, w.factories, tags, None);
    FulfillerIsListed(w, w.factories, tags, h);
    FulfillersArePlain(w, w.factories, tags, None);
    assert [] + [[p]] + [] == [[p]];
    OnlyNextEnds(w, [[p]], [] + [fulfillers] + ([[p]] + []), n);
    ChosenEnds(w, [], fulfillers, q, [[p]] + [], n - 1);
    assert [] + [[q]] + ([[p]] + []) == [[q]] + [[p]];
    EndsInFront(w, [[q]], [[p]], n - 1);
  }

  ghost predicate DefaultsEnd(w: World) {
    forall g :: g in w.factories ==> HasEnd(w, [[g.byDefault]])
  }

  lemma DefaultIsWellFormed(w: World, g: Factory)
    requires Sound(w) && g in w.factories
    ensures WellFormed([[g.byDefault]])
  {
    assert SameTags(g);
  }

  /** The length of the longest run is a rank. */
  lemma RunsRank(w: World)
    requires Plain(w) && DefaultsEnd(w)
    ensures Acyclic(w)
  {
    hide SetsLanguage, SameTags, Helper, Ends, WellFormed, HasEnd;
    forall g | g in w.factories
      ensures Completable(w, [[g.byDefault]])
    {
      DefaultIsWellFormed(w, g);
    }
    var n := |w.factories|;
    var rank: seq<nat> := seq(n, i requires 0 <= i < n && Completable(w, [[w.factories[i].byDefault]]) =>
                                   Longest(w, [[w.factories[i].byDefault]]));
    forall g, h | 0 <= g < n && 0 <= h < n && Helper(w.factories[h], w.factories[g].required)
      ensures rank[h] < rank[g]
    {
      HelperEndsSooner(w, w.factories[g], w.factories[h], rank[g]);
    }
    assert Ranked(w, rank);
  }

  /** For plain factories: the search ends for every plan, it ends for the default promise of every factory,
      and no factory depends on itself are the same. */
  lemma PlainWorldsIff(w: World)
    requires Plain(w)
    ensures Acyclic(w) <==> !HasLiveCycle(w)
    ensures Acyclic(w) <==> DefaultsEnd(w)
  {
    hide Acyclic, HasLiveCycle, WellFormed, HasEnd, Sound;
    if Acyclic(w) {
      LayeredHasNoLiveCycle(w);
    }
    if !HasLiveCycle(w) {
      forall g | g in w.factories
        ensures HasEnd(w, [[g.byDefault]])
      {
        DefaultIsWellFormed(w, g);
        WithoutLiveCycleEnds(w, [[g.byDefault]]);
      }
    }
    if DefaultsEnd(w) {
      RunsRank(w);
    }
  }

  // ---------- Examples ----------

  function Annotator(required: seq<Tags>, provided: Tags): Factory {
    Factory(true, required, provided, Promise(required, provided, Independent, [], 0.0, 0.0, None))
  }

  lemma FulfillersOfTwo(w: World, a: Factory, b: Factory, tags: Tags)
    ensures Fulfillers(w, [a, b], tags, None) == Fulfiller(w, a, tags, None) + Fulfiller(w, b, tags, None)
  {
    hide Fulfiller;
    assert [a, b][1..] == [b] && [b][1..] == [];
    assert Fulfillers(w, [b], tags, None) == Fulfiller(w, b, tags, None) + Fulfillers(w, [b][1..], tags, None);
  }

  lemma IndependentIsMonolingual(p: Promise)
    requires p.handling.Independent?
    ensures !Multilingual([p])
  {
  }

  /** The code only looks for cycles of one step. Two factories that require what the other provides are a
      live cycle. */
  lemma TwoStepCycle(w: World, x: Tag, y: Tag)
    requires x != y && w.factories == [Annotator([[x]], [y]), Annotator([[y]], [x])]
    ensures HasLiveCycle(w)
  {
    hide Fulfillers, Multilingual;
    var a, b := w.factories[0], w.factories[1];
    FulfillersOfTwo(w, a, b, [x]);
    FulfillersOfTwo(w, a, b, [y]);
    assert x in [x] && y in [y] && x !in [y] && y !in [x];
    assert [x] in a.required && [y] in b.required;
    assert Subset([x], [x]) && Subset([y], [y]) && !Subset([x], [y]) && !Subset([y], [x]);
    assert CanFulfill(a, [y]) && !CanFulfill(a, [x]) && CanFulfill(b, [x]) && !CanFulfill(b, [y]);
    IndependentIsMonolingual(a.byDefault);
    IndependentIsMonolingual(b.byDefault);
    assert Fulfillers(w, w.factories, [x], None) == [b.byDefault];
    assert Fulfillers(w, w.factories, [y], None) == [a.byDefault];
    assert LiveCycle(w, [a.byDefault, b.byDefault], [0, 0]);
  }

  /** `x` and `y` at once are required by the first factory and provided by none, so work on it never gets
      to its second list. */
  ghost predicate BlockedCycle(w: World, x: Tag, y: Tag, z: Tag) {
    && x != y && x != z && y != z && w.langCodes != [] && SetsLanguage(w)
    && w.factories == [Annotator([[x, y], [x]], [z]), Annotator([[z]], [x])]
  }

  lemma BlockedFulfillers(w: World, x: Tag, y: Tag, z: Tag)
    requires BlockedCycle(w, x, y, z)
    ensures Fulfillers(w, w.factories, [x, y], None) == []
    ensures Fulfillers(w, w.factories, [z], None) == [w.factories[0].byDefault]
    ensures CanFulfill(w.factories[1], [x]) && CanFulfill(w.factories[0], [z])
  {
    hide Fulfillers;
    var a, b := w.factories[0], w.factories[1];
    FulfillersOfTwo(w, a, b, [x, y]);
    FulfillersOfTwo(w, a, b, [z]);
    assert x in [x, y] && y in [x, y] && z in [z] && x in [x];
    assert y !in [z] && x !in [z] && y !in [x] && z !in [x] && z !in [x, y];
    assert !Subset([x, y], [z]) && !Subset([x, y], [x]) && !Subset([z], [x]) && !Subset([z], [x, y]);
    assert Subset([z], [z]) && Subset([x], [x]) && !Subset([x], [z]);
    assert [z] in b.required;
  }

  lemma LinkIsFulfilled(w: World, ps: seq<Promise>, ks: seq<nat>, i: nat)
    requires LiveCycle(w, ps, ks) && i < |ps| && w.langCodes != []
    ensures i < |ks| && ks[i] < |ps[i].required|
    ensures Fulfillers(w, w.factories, ps[i].required[ks[i]], OneLanguage(ps[i])) != []
    ensures forall e :: 0 <= e < ks[i] ==> !Subset(ps[i].required[ks[i]], ps[i].required[e])
  {
    hide Fulfillers, Multilingual;
    assert BringsIn(w, ps[i], ps[i].required[ks[i]], ps[if i + 1 < |ps| then i + 1 else 0]);
  }

  lemma BlockedPromise(w: World, x: Tag, y: Tag, z: Tag, ps: seq<Promise>, ks: seq<nat>, i: nat)
    requires BlockedCycle(w, x, y, z) && LiveCycle(w, ps, ks) && i < |ps|
    ensures ps[i] != w.factories[0].byDefault
  {
    hide Fulfillers, SetsLanguage, LiveCycle;
    BlockedFulfillers(w, x, y, z);
    LinkIsFulfilled(w, ps, ks, i);
    var p := w.factories[0].byDefault;
    assert p.required[0] == [x, y] && p.required[1] == [x] && OneLanguage(p) == None;
    assert Subset([x], [x, y]) by { assert x in [x, y]; }
    assert ps[i] == p ==> ks[i] != 1;
    assert ps[i] == p ==> ks[i] != 0;
  }

  /** A factory may depend on itself through others without a live cycle: an earlier unmet list can end the
      search first. */
  lemma CyclicButEnds(w: World, x: Tag, y: Tag, z: Tag)
    requires BlockedCycle(w, x, y, z)
    ensures Sound(w) && !Acyclic(w) && !HasLiveCycle(w)
  {
    hide Fulfillers, SetsLanguage, CanFulfill, LiveCycle;
    var a, b := w.factories[0], w.factories[1];
    BlockedFulfillers(w, x, y, z);
    assert [x] in a.required && [z] in b.required;
    assert Helper(b, a.required) && Helper(a, b.required);
    if ps, ks :| LiveCycle(w, ps, ks) {
      BlockedCycleIsNotLive(w, x, y, z, ps, ks);
    }
  }

  lemma BlockedCycleIsNotLive(w: World, x: Tag, y: Tag, z: Tag, ps: seq<Promise>, ks: seq<nat>)
    requires BlockedCycle(w, x, y, z)
    ensures !LiveCycle(w, ps, ks)
  {
    hide Fulfillers, SetsLanguage, Multilingual, Sound, LanguageStated, Stock;
    if LiveCycle(w, ps, ks) {
      var next := if 1 < |ps| then 1 else 0;
      InBlockedStock(w, x, y, z, ps, ks);
      BlockedPromise(w, x, y, z, ps, ks, 0);
      BroughtIn(w, ps[0], ps[0].required[ks[0]], ps[next]);
      BlockedFulfillers(w, x, y, z);
      BlockedPromise(w, x, y, z, ps, ks, next);
    }
  }

  lemma InBlockedStock(w: World, x: Tag, y: Tag, z: Tag, ps: seq<Promise>, ks: seq<nat>)
    requires BlockedCycle(w, x, y, z) && LiveCycle(w, ps, ks)
    ensures Sound(w) && (ps[0] == w.factories[0].byDefault || ps[0] == w.factories[1].byDefault)
  {
    hide Fulfillers, SetsLanguage, BringsIn;
    var last := |ps| - 1;
    assert BringsIn(w, ps[last], ps[last].required[ks[last]], ps[0]);
    BroughtIn(w, ps[last], ps[last].required[ks[last]], ps[0]);
  }
}
