/** Without a live cycle the search ends for every plan: whatever is brought in, either fewer lists are
    unmet behind it, or the chain of promises that brought it in has grown by one that is not on it. */
module PlanningBounds {
  import opened Common
  import opened PromisePlanning
  import opened PlanningTermination
  import opened PlanningEnds
  import opened PlanningCycles

  // ---------- Chains of promises that bring in one another ----------

  ghost predicate Follows(w: World, pre: Plan, p: Promise, q: Promise) {
    FirstUnmet(pre, p.required).Some? && BringsIn(w, p, FirstUnmet(pre, p.required).value, q)
  }

  /** Promises in front of which `pre` is settled, each of which has brought in the next. */
  ghost predicate Chain(w: World, pre: Plan, chain: seq<Promise>) {
    && chain != []
    && (forall i :: 1 <= i < |chain| ==> chain[i] in Stock(w))
    && (forall i :: 0 <= i < |chain| - 1 ==> Follows(w, pre, chain[i], chain[i + 1]))
    && (forall i, j :: 0 <= i < j < |chain| ==> chain[i] != chain[j])
  }

  ghost function Room(w: World, pre: Plan, chain: seq<Promise>): nat
    requires Chain(w, pre, chain)
  {
    Pigeonhole(chain[1..], Stock(w));
    |Stock(w)| + 1 - |chain|
  }

  ghost function UnmetAt(before: Plan, required: seq<Tags>): (k: nat)
    requires FirstUnmet(before, required).Some?
    ensures k < |required| && FirstUnmet(before, required) == Some(required[k])
    ensures forall e :: 0 <= e < k ==> Met(before, required[e])
  {
    if !Met(before, required[0]) then 0 else 1 + UnmetAt(before, required[1..])
  }

  /** Promises that bring in each other in a circle, in front of which the same is settled, are a live cycle. */
  lemma CircleIsLive(w: World, pre: Plan, ps: seq<Promise>)
    requires ps != [] && Follows(w, pre, ps[|ps| - 1], ps[0])
    requires forall i :: 0 <= i < |ps| - 1 ==> Follows(w, pre, ps[i], ps[i + 1])
    ensures HasLiveCycle(w)
  {
    hide BringsIn, Met, Subset, FirstUnmet;
    assert forall i :: 0 <= i < |ps| ==> Follows(w, pre, ps[i], ps[if i + 1 < |ps| then i + 1 else 0]);
    forall i | 0 <= i < |ps|
      ensures FirstUnmet(pre, ps[i].required).Some?
    {
      assert Follows(w, pre, ps[i], ps[if i + 1 < |ps| then i + 1 else 0]);
    }
    var ks := seq(|ps|, i requires 0 <= i < |ps| && FirstUnmet(pre, ps[i].required).Some? =>
                          UnmetAt(pre, ps[i].required));
    forall a, b, e | 0 <= a < |ps| && 0 <= b < |ps| && 0 <= e < ks[a]
      ensures !Subset(ps[b].required[ks[b]], ps[a].required[e])
    {
      FirstIsUnmet(pre, ps[b].required);
      if Subset(ps[b].required[ks[b]], ps[a].required[e]) {
        SubsetSettles(pre, ps[b].required[ks[b]], ps[a].required[e]);
        assert false;
      }
    }
    assert LiveCycle(w, ps, ks);
  }

  lemma FirstIsUnmet(before: Plan, required: seq<Tags>)
    requires FirstUnmet(before, required).Some?
    ensures !Met(before, FirstUnmet(before, required).value)
  {
  }

  lemma ChainGrows(w: World, pre: Plan, chain: seq<Promise>, q: Promise)
    requires Sound(w) && !HasLiveCycle(w) && Chain(w, pre, chain) && Follows(w, pre, chain[|chain| - 1], q)
    ensures Chain(w, pre, chain + [q]) && Room(w, pre, chain + [q]) < Room(w, pre, chain)
  {
    hide Sound, HasLiveCycle, Follows, LanguageStated, Stock;
    InStock(w, pre, chain[|chain| - 1], q);
    if j :| 0 <= j < |chain| && chain[j] == q {
      CircleIsLive(w, pre, chain[j..]);
    }
    var longer := chain + [q];
    forall i | 0 <= i < |longer| - 1
      ensures Follows(w, pre, longer[i], longer[i + 1])
    {
    }
  }

  lemma InStock(w: World, pre: Plan, p: Promise, q: Promise)
    requires Sound(w) && Follows(w, pre, p, q)
    ensures q in Stock(w)
  {
    hide Sound, BringsIn, Stock, LanguageStated;
    BroughtIn(w, p, FirstUnmet(pre, p.required).value, q);
  }

  lemma SingleChain(w: World, pre: Plan, p: Promise)
    ensures Chain(w, pre, [p]) && Room(w, pre, [p]) == |Stock(w)|
  {
  }

  // ---------- The lists that can be asked for ----------

  ghost predicate Within(p: Promise, lists: seq<Tags>) {
    forall r :: r in p.required ==> r in lists
  }

  ghost predicate PlanWithin(plan: Plan, lists: seq<Tags>) {
    forall i, p :: 0 <= i < |plan| && p in plan[i] ==> Within(p, lists)
  }

  /** There is no live cycle, and all that factories require is on the list. */
  ghost predicate Setting(w: World, lists: seq<Tags>) {
    Sound(w) && !HasLiveCycle(w) && forall g, r :: g in w.factories && r in g.required ==> r in lists
  }

  lemma FollowerIsFine(w: World, lists: seq<Tags>, pre: Plan, p: Promise, q: Promise)
    requires Setting(w, lists) && Follows(w, pre, p, q)
    ensures LanguageStated(q) && !q.handling.Dependent? && Within(q, lists)
    ensures q in Fulfillers(w, w.factories, FirstUnmet(pre, p.required).value, OneLanguage(p))
  {
    hide Sound, BringsIn, Stock, HasLiveCycle, LanguageStated;
    BroughtIn(w, p, FirstUnmet(pre, p.required).value, q);
  }

  lemma FulfillersMeet(w: World, tags: Tags, lang: Option<Lang>, q: Promise)
    requires Sound(w) && q in Fulfillers(w, w.factories, tags, lang)
    ensures Provides([q], tags)
  {
    hide SetsLanguage, SameTags, Fulfillers, LanguageStated;
    FulfillersProvide(w, w.factories, tags, lang);
  }

  lemma CopiesAreFine(w: World, lists: seq<Tags>, alt: Alternative)
    requires Sound(w) && WellFormed([alt]) && PlanWithin([alt], lists)
    ensures var copies := Copies(w, alt, w.langCodes);
            && ([] !in copies ==> WellFormed(copies)) && PlanWithin(copies, lists)
            && forall k :: 0 <= k < |copies| ==> !Multilingual(copies[k])
  {
    hide SetsLanguage, SameTags, Filtered, LanguageStated, Multilingual;
    var copies: Plan := Copies(w, alt, w.langCodes);
    assert [alt][0] == alt;
    AltWithin(alt, lists);
    forall k: nat | k < |copies|
      ensures !Multilingual(copies[k]) && forall c :: c in copies[k] ==> LanguageStated(c) && Within(c, lists)
      ensures copies[k] in copies
    {
      FilteredIsMonolingual(w, alt, w.langCodes[k]);
      forall c | c in copies[k]
        ensures Within(c, lists)
      {
        FilteredMember(w, alt, w.langCodes[k], c);
        var p :| p in alt && c.required == p.required && c.provided == p.provided;
        assert Within(p, lists);
      }
    }
  }

  lemma AltWithin(alt: Alternative, lists: seq<Tags>)
    requires PlanWithin([alt], lists)
    ensures forall p :: p in alt ==> Within(p, lists)
  {
    var plan := [alt];
    forall p | p in alt
      ensures Within(p, lists)
    {
      assert 0 < |plan| && p in plan[0];
    }
  }

  // ---------- What comes behind ----------

  /** Whatever covers `more` and is settled, the search ends if only `post` comes behind it. */
  ghost predicate EndsBehind(w: World, more: Plan, post: Plan) {
    forall pre :: Ready(pre) && Covers(pre, more) ==> HasEnd(w, pre + post)
  }

  lemma CoversTransitive(a: Plan, b: Plan, c: Plan)
    requires Covers(a, b) && Covers(b, c)
    ensures Covers(a, c)
  {
  }

  lemma CoversFront(more: Plan, less: Plan, after: Plan)
    requires Covers(more, less + after)
    ensures Covers(more, less) && forall tags :: Met(after, tags) ==> Met(more, tags)
  {
    hide Met;
    forall tags | Met(less, tags) || Met(after, tags)
      ensures Met(more, tags)
    {
      MetAppend(less, after, tags);
    }
  }

  lemma BehindMore(w: World, more: Plan, less: Plan, post: Plan)
    requires EndsBehind(w, less, post) && Covers(more, less)
    ensures EndsBehind(w, more, post)
  {
    hide Covers, Ready, HasEnd;
    forall pre | Ready(pre) && Covers(pre, more)
      ensures HasEnd(w, pre + post)
    {
      CoversTransitive(pre, more, less);
    }
  }

  lemma MemberCovers(pre: Plan, alt: Alternative, q: Promise)
    requires q in alt
    ensures Covers(pre + [[q]], pre + [alt])
  {
    forall tags | Provides(alt, tags)
      ensures Met([[q]], tags)
    {
      assert Provides([[q]][0], tags);
    }
    CoversByLast(pre, [[q]], alt);
  }

  /** The search ends for an alternative if it does for each of its members. */
  lemma MembersEnd(w: World, pre: Plan, alt: Alternative, post: Plan)
    requires Ready(pre) && alt != [] && !Multilingual(alt)
    requires forall q :: q in alt ==> HasEnd(w, pre + [[q]] + post)
    ensures HasEnd(w, pre + [alt] + post)
  {
    hide Ready, Multilingual, Next, HasEnd;
    if |alt| == 1 {
      assert alt == [alt[0]];
    } else {
      NextAt(w, pre, alt, post);
      EndsByNext(w, pre + [alt] + post);
    }
  }

  lemma OneNext(w: World, plan: Plan, next: Plan)
    requires Next(w, plan) == [next] && HasEnd(w, next)
    ensures HasEnd(w, plan)
  {
    hide Next, HasEnd;
    EndsByNext(w, plan);
  }

  lemma NoNext(w: World, plan: Plan)
    requires Next(w, plan) == []
    ensures HasEnd(w, plan)
  {
    hide Next, HasEnd;
    EndsByNext(w, plan);
  }

  ghost function Weight(w: World, alts: Plan): nat {
    if alts == [] then 0 else (if Multilingual(alts[0]) then 1 + |w.langCodes| else 1) + Weight(w, alts[1..])
  }

  lemma {:induction false} CopiesWeigh(w: World, copies: Plan, rest: Plan)
    requires forall k :: 0 <= k < |copies| ==> !Multilingual(copies[k])
    ensures Weight(w, copies + rest) == |copies| + Weight(w, rest)
    decreases |copies|
  {
    hide Multilingual;
    if copies == [] {
      assert copies + rest == rest;
    } else {
      assert (copies + rest)[1..] == copies[1..] + rest;
      CopiesWeigh(w, copies[1..], rest);
    }
  }

  /** More is covered and the list is met, so fewer lists are unmet. */
  lemma FewerUnmet(pre: Plan, more: Plan, lists: seq<Tags>, tags: Tags)
    requires Covers(more, pre) && Met(more, tags) && !Met(pre, tags) && tags in lists
    ensures Unmet(more, lists) < Unmet(pre, lists)
  {
    UnmetDrops(more, pre, lists, tags);
  }

  // ---------- The search ends ----------

  /** Working on a promise ends. */
  lemma {:induction false} PromiseEnds(w: World, lists: seq<Tags>, pre: Plan, chain: seq<Promise>, post: Plan)
    requires chain != [] && Setting(w, lists) && Ready(pre) && Chain(w, pre, chain)
    requires var p := chain[|chain| - 1];
             LanguageStated(p) && !p.handling.Dependent? && Within(p, lists) && EndsBehind(w, pre + [[p]], post)
    ensures HasEnd(w, pre + [[chain[|chain| - 1]]] + post)
    decreases Unmet(pre, lists), Room(w, pre, chain), 2, 0
  {
    hide Setting, Ready, Covers, HasEnd, Fulfillers, FirstUnmet, EndsBehind, LanguageStated, Met, Next, Room, Unmet,
         Chain;
    var p := chain[|chain| - 1];
    if FirstUnmet(pre, p.required).None? {
      SettledPromiseEnds(w, pre, p, post);
    } else {
      var tags := FirstUnmet(pre, p.required).value;
      var fulfillers := Fulfillers(w, w.factories, tags, OneLanguage(p));
      var behind := [[p]] + post;
      FirstIsUnmet(pre, p.required);
      FulfillersAreNext(w, pre, p, post, tags);
      if fulfillers == [] {
        NoNext(w, pre + [[p]] + post);
      } else {
        forall more | Ready(more) && Covers(more, pre + [fulfillers])
          ensures HasEnd(w, more + behind)
        {
          FulfillersCover(w, lists, pre, more, tags, OneLanguage(p));
          FewerUnmet(pre, more, lists, tags);
          SingleChain(w, more, p);
          CoversAppend(more, pre, [[p]]);
          BehindMore(w, more + [[p]], pre + [[p]], post);
          PromiseEnds(w, lists, more, [p], post);
          assert more + [[p]] + post == more + behind;
        }
        assert EndsBehind(w, pre + [fulfillers], behind) by { EndsBehindIs(w, pre + [fulfillers], behind); }
        FulfillersEnd(w, lists, pre, chain, tags, behind);
        OneNext(w, pre + [[p]] + post, pre + [fulfillers] + behind);
      }
    }
  }

  lemma EndsBehindIs(w: World, more: Plan, post: Plan)
    requires forall pre :: Ready(pre) && Covers(pre, more) ==> HasEnd(w, pre + post)
    ensures EndsBehind(w, more, post)
  {
  }

  lemma SettledPromiseEnds(w: World, pre: Plan, p: Promise, post: Plan)
    requires Ready(pre) && FirstUnmet(pre, p.required).None? && LanguageStated(p) && !p.handling.Dependent?
    requires EndsBehind(w, pre + [[p]], post)
    ensures HasEnd(w, pre + [[p]] + post)
  {
    hide Ready, HasEnd, Covers, LanguageStated;
    assert Settled(pre, [p]);
    assert WellFormed([[p]]);
    SettledIsReady(pre, [p]);
    CoversSelf(pre + [[p]]);
  }

  lemma FulfillersCover(w: World, lists: seq<Tags>, pre: Plan, more: Plan, tags: Tags, lang: Option<Lang>)
    requires Setting(w, lists) && Fulfillers(w, w.factories, tags, lang) != []
    requires Covers(more, pre + [Fulfillers(w, w.factories, tags, lang)])
    ensures Covers(more, pre) && Met(more, tags)
  {
    hide SetsLanguage, SameTags, HasLiveCycle, Covers, LanguageStated;
    var f := Fulfillers(w, w.factories, tags, lang);
    FulfillersProvide(w, w.factories, tags, lang);
    assert Met([f], tags) by { assert Provides([f][0], tags); }
    CoversFront(more, pre, [f]);
  }

  /** Working on what is brought in ends, with `later` for the copies for other languages. */
  lemma {:induction false} BroughtInEnd(w: World, lists: seq<Tags>, pre: Plan, chain: seq<Promise>, q: Promise,
                                       later: Plan, post: Plan)
    requires chain != [] && Setting(w, lists) && Ready(pre) && Chain(w, pre, chain)
    requires Follows(w, pre, chain[|chain| - 1], q)
    requires FirstUnmet(pre, chain[|chain| - 1].required).value in lists
    requires WellFormed(later) && PlanWithin(later, lists) && EndsBehind(w, pre + [[q]], post)
    ensures HasEnd(w, pre + [[q]] + (later + post))
    decreases Unmet(pre, lists), Room(w, pre, chain), 0, 0
  {
    hide Ready, Covers, HasEnd, FirstUnmet, EndsBehind, LanguageStated, Met, Room, Unmet, Follows, WellFormed, Sound,
         HasLiveCycle, Provides, Fulfillers;
    var p := chain[|chain| - 1];
    FirstIsSome(w, pre, p, q);
    var tags := FirstUnmet(pre, p.required).value;
    FollowerIsFine(w, lists, pre, p, q);
    FulfillersMeet(w, tags, OneLanguage(p), q);
    ChainGrows(w, pre, chain, q);
    FirstIsUnmet(pre, p.required);
    forall more | Ready(more) && Covers(more, pre + [[q]])
      ensures HasEnd(w, more + (later + post))
    {
      CoversFront(more, pre, [[q]]);
      MetByOne(q, tags);
      FewerUnmet(pre, more, lists, tags);
      BehindMore(w, more, pre + [[q]], post);
      SequenceEnds(w, lists, more, later, post);
      assert more + later + post == more + (later + post);
    }
    EndsBehindIs(w, pre + [[q]], later + post);
    assert (chain + [q])[|chain + [q]| - 1] == q;
    PromiseEnds(w, lists, pre, chain + [q], later + post);
  }

  lemma FirstIsSome(w: World, pre: Plan, p: Promise, q: Promise)
    requires Follows(w, pre, p, q)
    ensures FirstUnmet(pre, p.required).Some?
  {
  }

  lemma MetByOne(q: Promise, tags: Tags)
    requires Provides([q], tags)
    ensures Met([[q]], tags)
  {
    assert Provides([[q]][0], tags);
  }

  /** Working on the fulfillers of a list ends. */
  lemma {:induction false} FulfillersEnd(w: World, lists: seq<Tags>, pre: Plan, chain: seq<Promise>, tags: Tags,
                                        post: Plan)
    requires chain != [] && Setting(w, lists) && Ready(pre) && Chain(w, pre, chain) && tags in lists
    requires FirstUnmet(pre, chain[|chain| - 1].required) == Some(tags)
    requires var fulfillers := Fulfillers(w, w.factories, tags, OneLanguage(chain[|chain| - 1]));
             fulfillers != [] && EndsBehind(w, pre + [fulfillers], post)
    ensures HasEnd(w, pre + [Fulfillers(w, w.factories, tags, OneLanguage(chain[|chain| - 1]))] + post)
    decreases Unmet(pre, lists), Room(w, pre, chain), 1, 0
  {
    hide Setting, Ready, Covers, HasEnd, FirstUnmet, EndsBehind, LanguageStated, Met, Room, Unmet, Chain, Next,
         Fulfillers, Filtered, Multilingual, WellFormed, PlanWithin;
    var p := chain[|chain| - 1];
    var fulfillers := Fulfillers(w, w.factories, tags, OneLanguage(p));
    var first, later := FirstToTry(w, lists, p, tags);
    if later.Some? {
      forall q | q in first
        ensures HasEnd(w, pre + [[q]] + (later.value + post))
      {
        MemberCovers(pre, fulfillers, q);
        BehindMore(w, pre + [[q]], pre + [fulfillers], post);
        BroughtInEnd(w, lists, pre, chain, q, later.value, post);
      }
      MembersEnd(w, pre, first, later.value + post);
      FirstEnds(w, pre, fulfillers, first, later.value, post);
    } else {
      CopiesAreNext(w, pre, fulfillers, post);
      NoNext(w, pre + [fulfillers] + post);
    }
  }

  lemma FirstEnds(w: World, pre: Plan, alt: Alternative, first: Alternative, later: Plan, post: Plan)
    requires Ready(pre) && HasEnd(w, pre + [first] + (later + post)) && [] !in [first] + later
    requires [first] + later == if Multilingual(alt) then Copies(w, alt, w.langCodes) else [alt]
    ensures HasEnd(w, pre + [alt] + post)
  {
    hide Ready, HasEnd, Next, Multilingual, Filtered, Copies;
    assert pre + [first] + (later + post) == pre + ([first] + later) + post;
    if Multilingual(alt) {
      CopiesAreNext(w, pre, alt, post);
      OneNext(w, pre + [alt] + post, pre + ([first] + later) + post);
    }
  }

  /** The fulfillers, or those for the first language and those for the later ones, if there are some for
      each language. */
  lemma FirstToTry(w: World, lists: seq<Tags>, p: Promise, tags: Tags)
    returns (first: Alternative, later: Option<Plan>)
    requires Setting(w, lists) && Fulfillers(w, w.factories, tags, OneLanguage(p)) != []
    ensures var fulfillers := Fulfillers(w, w.factories, tags, OneLanguage(p));
            && (later.None? ==> Multilingual(fulfillers) && [] in Copies(w, fulfillers, w.langCodes))
            && (later.Some? ==>
                  && first != [] && !Multilingual(first)
                  && (forall q :: q in first ==> q in fulfillers && BringsIn(w, p, tags, q))
                  && [first] + later.value == (if Multilingual(fulfillers) then Copies(w, fulfillers, w.langCodes)
                                               else [fulfillers])
                  && [] !in [first] + later.value
                  && WellFormed(later.value) && PlanWithin(later.value, lists))
  {
    hide SetsLanguage, SameTags, HasLiveCycle, LanguageStated, Fulfillers, Filtered, Multilingual;
    var fulfillers := Fulfillers(w, w.factories, tags, OneLanguage(p));
    if Multilingual(fulfillers) {
      var copies := Copies(w, fulfillers, w.langCodes);
      if [] in copies {
        first, later := [], None;
      } else {
        FulfillersAreFine(w, lists, tags, OneLanguage(p));
        CopiesAreFine(w, lists, fulfillers);
        first, later := copies[0], Some(copies[1..]);
        assert copies == [first] + copies[1..];
        assert forall i :: 0 <= i < |copies[1..]| ==> copies[1..][i] == copies[i + 1];
        forall q | q in first
          ensures q in fulfillers && BringsIn(w, p, tags, q)
        {
          BroughtIn(w, p, tags, q);
        }
      }
    } else {
      first, later := fulfillers, Some([]);
      assert [first] + [] == [fulfillers];
    }
  }

  lemma FulfillersAreFine(w: World, lists: seq<Tags>, tags: Tags, lang: Option<Lang>)
    requires Setting(w, lists) && Fulfillers(w, w.factories, tags, lang) != []
    ensures var fulfillers := Fulfillers(w, w.factories, tags, lang);
            WellFormed([fulfillers]) && PlanWithin([fulfillers], lists)
  {
    hide SetsLanguage, SameTags, HasLiveCycle, LanguageStated, Fulfillers, Stock;
    var fulfillers := Fulfillers(w, w.factories, tags, lang);
    forall f | f in fulfillers
      ensures LanguageStated(f) && Within(f, lists)
    {
      FulfillerInStock(w, w.factories, tags, lang, f);
    }
  }

  /** Working on a list of alternatives ends if what comes behind it ends. */
  lemma {:induction false} SequenceEnds(w: World, lists: seq<Tags>, pre: Plan, alts: Plan, post: Plan)
    requires Setting(w, lists) && Ready(pre) && WellFormed(alts) && PlanWithin(alts, lists)
    requires EndsBehind(w, pre, post)
    ensures HasEnd(w, pre + alts + post)
    decreases Unmet(pre, lists), |Stock(w)| + 1, 0, Weight(w, alts)
  {
    hide Setting, Ready, Covers, HasEnd, EndsBehind, LanguageStated, Met, Unmet, Chain, Next, Filtered, Multilingual,
         WellFormed, PlanWithin, Stock, Room;
    if alts == [] {
      CoversSelf(pre);
      EndsHere(w, pre, post);
      assert pre + alts + post == pre + post;
    } else {
      var alt, rest := alts[0], alts[1..];
      AltsSplit(alts, lists);
      assert pre + alts + post == pre + [alt] + (rest + post);
      if Multilingual(alt) {
        var copies := Copies(w, alt, w.langCodes);
        CopiesAreNext(w, pre, alt, rest + post);
        if [] in copies {
          NoNext(w, pre + [alt] + (rest + post));
        } else {
          SettingIsSound(w, lists);
          CopiesAreFine(w, lists, alt);
          CopiesWeigh(w, copies, rest);
          AltsJoin(copies, rest, lists);
          SequenceEnds(w, lists, pre, copies + rest, post);
          assert pre + (copies + rest) + post == pre + copies + (rest + post);
          OneNext(w, pre + [alt] + (rest + post), pre + copies + (rest + post));
        }
      } else {
        forall q | q in alt
          ensures HasEnd(w, pre + [[q]] + (rest + post))
        {
          forall more | Ready(more) && Covers(more, pre + [[q]])
            ensures HasEnd(w, more + (rest + post))
          {
            CoversFront(more, pre, [[q]]);
            UnmetMonotone(more, pre, lists);
            BehindMore(w, more, pre, post);
            SequenceEnds(w, lists, more, rest, post);
            assert more + rest + post == more + (rest + post);
          }
          EndsBehindIs(w, pre + [[q]], rest + post);
          SingleChain(w, pre, q);
          NotDependent(alt, q);
          PromiseEnds(w, lists, pre, [q], rest + post);
        }
        MembersEnd(w, pre, alt, rest + post);
      }
    }
  }

  lemma NotDependent(alt: Alternative, q: Promise)
    requires !Multilingual(alt) && q in alt
    ensures !q.handling.Dependent?
  {
  }

  lemma SettingIsSound(w: World, lists: seq<Tags>)
    requires Setting(w, lists)
    ensures Sound(w)
  {
  }

  lemma EndsHere(w: World, pre: Plan, post: Plan)
    requires EndsBehind(w, pre, post) && Ready(pre) && Covers(pre, pre)
    ensures HasEnd(w, pre + post)
  {
  }

  lemma AltsSplit(alts: Plan, lists: seq<Tags>)
    requires alts != [] && WellFormed(alts) && PlanWithin(alts, lists)
    ensures alts[0] != [] && WellFormed([alts[0]]) && PlanWithin([alts[0]], lists)
    ensures forall q :: q in alts[0] ==> LanguageStated(q) && Within(q, lists)
    ensures WellFormed(alts[1..]) && PlanWithin(alts[1..], lists)
  {
    hide LanguageStated;
    assert forall i :: 0 <= i < |alts| - 1 ==> alts[1..][i] == alts[i + 1];
  }

  lemma AltsJoin(a: Plan, b: Plan, lists: seq<Tags>)
    requires WellFormed(a) && WellFormed(b) && PlanWithin(a, lists) && PlanWithin(b, lists)
    ensures WellFormed(a + b) && PlanWithin(a + b, lists)
  {
    hide LanguageStated;
  }

  // ---------- Exactly when it ends ----------

  function RequiredBy(ps: seq<Promise>): (r: seq<Tags>) {
    if ps == [] then [] else ps[0].required + RequiredBy(ps[1..])
  }

  function RequiredIn(plan: Plan): seq<Tags> {
    if plan == [] then [] else RequiredBy(plan[0]) + RequiredIn(plan[1..])
  }

  lemma {:induction false} RequiredByHas(ps: seq<Promise>, p: Promise)
    requires p in ps
    ensures Within(p, RequiredBy(ps))
  {
    if p != ps[0] {
      RequiredByHas(ps[1..], p);
    }
  }

  lemma {:induction false} RequiredInHas(plan: Plan, i: nat, p: Promise)
    requires i < |plan| && p in plan[i]
    ensures Within(p, RequiredIn(plan))
  {
    if i == 0 {
      RequiredByHas(plan[0], p);
    } else {
      RequiredInHas(plan[1..], i - 1, p);
    }
  }

  function Defaults(factories: seq<Factory>): (r: seq<Promise>)
    ensures forall g :: g in factories ==> g.byDefault in r
  {
    if factories == [] then [] else [factories[0].byDefault] + Defaults(factories[1..])
  }

  lemma WithoutLiveCycleEnds(w: World, plan: Plan)
    requires Sound(w) && !HasLiveCycle(w) && WellFormed(plan)
    ensures HasEnd(w, plan)
  {
    hide SetsLanguage, HasLiveCycle, WellFormed, HasEnd, LanguageStated;
    var all := [Defaults(w.factories)] + plan;
    var lists := RequiredIn(all);
    forall g, r | g in w.factories && r in g.required
      ensures r in lists
    {
      assert SameTags(g);
      assert g.byDefault in all[0];
      RequiredInHas(all, 0, g.byDefault);
    }
    forall i, p | 0 <= i < |plan| && p in plan[i]
      ensures Within(p, lists)
    {
      assert p in all[i + 1];
      RequiredInHas(all, i + 1, p);
    }
    assert Ready([]) by { NothingIsReady(); }
    forall pre | Ready(pre) && Covers(pre, [])
      ensures HasEnd(w, pre + [])
    {
      ReadyEnds(w, pre);
      assert pre + [] == pre;
    }
    EndsBehindIs(w, [], []);
    SequenceEnds(w, lists, [], plan, []);
    assert [] + plan + [] == plan;
  }

  lemma NothingIsReady()
    ensures Ready([])
  {
  }

  /** The search ends for every plan if and only if there is no live cycle. */
  lemma AllPlansEndIff(w: World)
    requires Sound(w)
    ensures (forall plan :: WellFormed(plan) ==> HasEnd(w, plan)) <==> !HasLiveCycle(w)
  {
    hide Sound, WellFormed, HasEnd, LiveCycle;
    if ps, ks :| LiveCycle(w, ps, ks) {
      CycleIsNotEmpty(w, ps, ks);
      LiveCycleNeverEnds(w, ps, ks);
    } else {
      forall plan | WellFormed(plan)
        ensures HasEnd(w, plan)
      {
        WithoutLiveCycleEnds(w, plan);
      }
    }
  }

  lemma CycleIsNotEmpty(w: World, ps: seq<Promise>, ks: seq<nat>)
    requires LiveCycle(w, ps, ks)
    ensures |ps| == |ks| > 0 && forall i :: 0 <= i < |ps| ==> ks[i] < |ps[i].required|
  {
    hide BringsIn;
  }
}
