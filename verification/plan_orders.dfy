/** In which order completions are found, and that no choice is passed over. */
module PlanOrders {
  import opened Common
  import opened PromisePlanning
  import opened PlanningTermination
  import opened PlanningEnds
  import opened PlanningCycles
  import opened PlanSolutions

  /** The plans in which a member of an alternative has been chosen can be completed. */
  ghost predicate AllCompletable(w: World, pre: Plan, alt: Alternative, post: Plan) {
    forall p :: p in alt ==> Completable(w, pre + [[p]] + post)
  }

  /** The completions with the first member chosen, then those with the second, and so on. */
  ghost function MemberByMember(w: World, pre: Plan, alt: Alternative, post: Plan): seq<Pipeline>
    requires AllCompletable(w, pre, alt, post)
    decreases |alt|
  {
    if alt == [] then []
    else
      assert alt[0] in alt;
      Solutions(w, pre + [[alt[0]]] + post) + MemberByMember(w, pre, alt[1..], post)
  }

  /** Completions are found member by member. */
  lemma EarlierMembersFirst(w: World, pre: Plan, alt: Alternative, post: Plan)
    requires Ready(pre) && !Multilingual(alt) && Completable(w, pre + [alt] + post)
    ensures AllCompletable(w, pre, alt, post)
    ensures Solutions(w, pre + [alt] + post) == MemberByMember(w, pre, alt, post)
  {
    hide Ready, Multilingual, Sound, WellFormed, HasEnd, Next, Solutions;
    var plan := pre + [alt] + post;
    if |alt| == 1 {
      assert alt == [alt[0]] && alt[1..] == [];
      assert MemberByMember(w, pre, alt[1..], post) == [];
    } else {
      NextAt(w, pre, alt, post);
      assert Next(w, plan) == Choices(pre, alt, post);
      AllNextAreLess(w, plan);
      forall p | p in alt
        ensures Completable(w, pre + [[p]] + post)
      {
        var k :| 0 <= k < |alt| && alt[k] == p;
        assert Choices(pre, alt, post)[k] in Next(w, plan);
      }
      ChoicesInOrder(w, pre, alt, post, Longest(w, plan));
      StepsOf(w, pre, alt, post);
    }
  }

  lemma StepsOf(w: World, pre: Plan, alt: Alternative, post: Plan)
    requires Ready(pre) && |alt| != 1 && Completable(w, pre + [alt] + post)
    ensures var plan := pre + [alt] + post;
            && (forall next :: next in Next(w, plan) ==> Completable(w, next) && Longest(w, next) < Longest(w, plan))
            && Solutions(w, plan) == SolutionsOfAll(w, Next(w, plan), Longest(w, plan))
  {
    hide Multilingual, Sound, WellFormed, HasEnd, Next, AllMet;
    var plan := pre + [alt] + post;
    AllNextAreLess(w, plan);
    assert plan[..|pre|] == pre && pre[..|pre|] == pre && plan[|pre|] == alt;
    PrefixStaysSettled(pre, plan, |pre|);
    StopsHere(plan, |pre|);
  }

  lemma {:induction false} ChoicesInOrder(w: World, pre: Plan, alt: Alternative, post: Plan, bound: nat)
    requires AllCompletable(w, pre, alt, post)
    requires forall next :: next in Choices(pre, alt, post) ==> Completable(w, next) && Longest(w, next) < bound
    ensures SolutionsOfAll(w, Choices(pre, alt, post), bound) == MemberByMember(w, pre, alt, post)
    decreases |alt|
  {
    hide Completable, Solutions, Longest;
    if alt != [] {
      var first, rest := pre + [[alt[0]]] + post, Choices(pre, alt[1..], post);
      assert Choices(pre, alt, post) == [first] + rest;
      assert ([first] + rest)[1..] == rest;
      ChoicesInOrder(w, pre, alt[1..], post, bound);
    }
  }

  /** Every fulfiller of the first unmet list is tried: the completions with it in front are completions. */
  lemma EveryFulfillerIsTried(w: World, pre: Plan, p: Promise, post: Plan, tags: Tags, f: Promise, q: Pipeline)
    requires Ready(pre) && !p.handling.Dependent? && Completable(w, pre + [[p]] + post)
    requires FirstUnmet(pre, p.required) == Some(tags)
    requires var fulfillers := Fulfillers(w, w.factories, tags, OneLanguage(p));
             f in fulfillers && !Multilingual(fulfillers)
    ensures Completable(w, pre + [[f]] + ([[p]] + post))
    ensures q in Solutions(w, pre + [[f]] + ([[p]] + post)) ==> q in Solutions(w, pre + [[p]] + post)
  {
    hide Ready, Multilingual, Sound, WellFormed, HasEnd, Next, Solutions, Fulfillers, Settled, FirstUnmet;
    var plan, behind := pre + [[p]] + post, [[p]] + post;
    var fulfillers := Fulfillers(w, w.factories, tags, OneLanguage(p));
    var next := pre + [fulfillers] + behind;
    FulfillersAreNext(w, pre, p, post, tags);
    assert next in Next(w, plan);
    NextIsCompletable(w, plan, next);
    EarlierMembersFirst(w, pre, fulfillers, behind);
    SolutionStep(w, plan, q);
    assert Next(w, plan)[0] == next;
    if q in Solutions(w, pre + [[f]] + behind) {
      MemberIsListed(w, pre, fulfillers, behind, f, q);
    }
  }

  lemma {:induction false} MemberIsListed(w: World, pre: Plan, alt: Alternative, post: Plan, f: Promise, q: Pipeline)
    requires AllCompletable(w, pre, alt, post) && f in alt && q in Solutions(w, pre + [[f]] + post)
    ensures q in MemberByMember(w, pre, alt, post)
    decreases |alt|
  {
    hide Completable, Solutions;
    if f != alt[0] {
      MemberIsListed(w, pre, alt[1..], post, f, q);
    }
  }
}
