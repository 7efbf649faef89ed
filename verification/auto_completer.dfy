/** `AutoCompleter`: the in-place search for complete pipelines, and the choice among them. */
module AutoCompleter {
  import opened Common
  import opened PromisePlanning
  import opened PlanningEnds
  import opened PlanSolutions
  import opened PipelineChoice

  // ---------- How the list changes under the cursor ----------

  lemma Listed<T>(o: Option<T>)
    ensures ToList(o) == if o.Some? then [o.value] else []
  {
  }

  lemma AtCursor(before: Plan, inserted: Plan, rest: Plan)
    requires rest != []
    ensures var plan, at := before + inserted + rest, |before| + |inserted|;
            && plan[..at] == before + inserted && plan[at..] == rest && plan[at] == rest[0]
            && plan[at + 1..] == rest[1..]
  {
  }

  lemma OneMoreCopy(before: Plan, copies: Plan, i: nat, rest: Plan)
    requires i < |copies|
    ensures copies[..i + 1] == copies[..i] + [copies[i]]
    ensures before + copies[..i] + [copies[i]] + rest == before + copies[..i + 1] + rest
  {
  }

  lemma OnlySuccessor(w: World, plan: Plan, next: Plan)
    requires Completable(w, plan) && FirstUnsettled(plan, 0) < |plan| && Next(w, plan) == [next]
    ensures Completable(w, next) && Longest(w, next) < Longest(w, plan) && Solutions(w, next) == Solutions(w, plan)
  {
    hide Sound, WellFormed, HasEnd, Next, FirstUnsettled;
    AllNextAreLess(w, plan);
    assert next in Next(w, plan);
    assert SolutionsOfAll(w, [next][1..], Longest(w, plan)) == [];
  }

  lemma NoSuccessor(w: World, plan: Plan)
    requires Completable(w, plan) && FirstUnsettled(plan, 0) < |plan| && Next(w, plan) == []
    ensures Solutions(w, plan) == []
  {
    hide Sound, WellFormed, HasEnd, Next, FirstUnsettled;
  }

  lemma AllSettled(w: World, plan: Plan)
    requires Completable(w, plan) && SettledUpTo(plan, |plan|)
    ensures Solutions(w, plan) == [Chosen(plan)]
  {
    hide Sound, LanguageStated, HasEnd, Next, Settled;
  }

  class AutoCompleter {
    const world: World
    const originalSequence: Plan

    var bestFound: Option<Pipeline>
    var bestQualityScore: Option<real>
    var bestEstimatedTime: Option<real>
    var alternativeSequences: seq<Pipeline>

    constructor (world: World, sequence: Plan)
      ensures this.world == world && originalSequence == sequence && alternativeSequences == []
      ensures bestFound.None? && bestQualityScore.None? && bestEstimatedTime.None?
    {
      this.world, originalSequence, alternativeSequences := world, sequence, [];
      bestFound, bestQualityScore, bestEstimatedTime := None, None, None;
    }

    // ---------- Looking at tags and languages ----------

    method IsSubset(sub: Tags, sup: Tags) returns (r: bool)
      ensures r <==> Subset(sub, sup)
    {
      for i := 0 to |sub|
        invariant forall k :: 0 <= k < i ==> sub[k] in sup
      {
        var tagFound := false;
        for j := 0 to |sup|
          invariant !tagFound && sub[i] !in sup[..j]
        {
          if sub[i] == sup[j] {
            tagFound := true;
            break;
          }
        }
        if !tagFound {
          assert sup[..|sup|] == sup;
          return false;
        }
      }
      return true;
    }

    method IsMultilingual(alt: Alternative) returns (r: bool)
      requires forall p :: p in alt ==> LanguageStated(p)
      ensures r <==> Multilingual(alt)
    {
      var theOneLanguage: Option<Lang> := None;
      for i := 0 to |alt|
        invariant forall k :: 0 <= k < i ==> !alt[k].handling.Dependent?
        invariant forall k :: 0 <= k < i && alt[k].handling.JustOne? ==>
                    theOneLanguage.Some? && alt[k].languages == [theOneLanguage.value]
        invariant theOneLanguage.Some? ==>
                    exists k :: 0 <= k < i && alt[k].handling.JustOne? && alt[k].languages == [theOneLanguage.value]
      {
        var p := alt[i];
        assert p in alt && LanguageStated(p);
        if p.handling.Dependent? {
          return true;
        } else if p.handling.JustOne? {
          assert p.languages == [p.languages[0]];
          if theOneLanguage.None? {
            theOneLanguage := Some(p.languages[0]);
          } else if theOneLanguage.value != p.languages[0] {
            return true;
          }
        }
      }
      return false;
    }

    /** All promises before `end` are chosen, so the first of each list is looked at. */
    method CheckRequiredTags(requiredList: Tags, plan: Plan, end: nat) returns (r: bool)
      requires end <= |plan| && forall j :: 0 <= j < end ==> |plan[j]| == 1
      ensures r <==> Met(plan[..end], requiredList)
    {
      for j := 0 to end
        invariant forall k :: 0 <= k < j ==> !Provides(plan[..end][k], requiredList)
      {
        var somePrecedingPromise := plan[j][0];
        var subset := IsSubset(requiredList, somePrecedingPromise.provided);
        assert plan[..end][j] == [somePrecedingPromise] && somePrecedingPromise in plan[j];
        if subset {
          assert Provides(plan[..end][j], requiredList);
          return true;
        }
      }
      return false;
    }

    /** The first required list of the promise at `end` that is not provided before it. */
    method FindUnfulfilled(plan: Plan, end: nat) returns (r: Option<Tags>)
      requires end < |plan| && forall j :: 0 <= j <= end ==> |plan[j]| == 1
      ensures r == FirstUnmet(plan[..end], plan[end][0].required)
    {
      hide Met;
      var required := plan[end][0].required;
      assert required[0..] == required;
      for i := 0 to |required|
        invariant FirstUnmet(plan[..end], required[i..]) == FirstUnmet(plan[..end], required)
      {
        assert required[i..][1..] == required[i + 1..];
        var met := CheckRequiredTags(required[i], plan, end);
        if !met {
          return Some(required[i]);
        }
      }
      return None;
    }

    // ---------- Looking for fulfillers ----------

    method IsViciousCircle(factory: Factory, requiredTags: Tags) returns (r: bool)
      ensures r <==> ViciousCircle(factory, requiredTags)
    {
      for i := 0 to |factory.required|
        invariant forall k :: 0 <= k < i ==> !Subset(requiredTags, factory.required[k])
      {
        var subset := IsSubset(requiredTags, factory.required[i]);
        if subset {
          assert factory.required[i] in factory.required;
          return true;
        }
      }
      return false;
    }

    method GetDefaultPromise(factory: Factory, langCode: Option<Lang>) returns (r: Option<Promise>)
      requires LanguageStated(factory.byDefault)
      ensures r == DefaultPromise(world, factory, langCode)
    {
      var p := factory.byDefault;
      match p.handling {
        case Independent =>
        case Guesser =>
        case JustOne =>
          assert p.languages == [p.languages[0]];
          if langCode.Some? && p.languages[0] != langCode.value {
            return None;
          }
        case Dependent =>
          var langFound := false;
          for i := 0 to |p.languages|
            invariant !langFound && (langCode.Some? ==> langCode.value !in p.languages[..i])
          {
            if langCode.Some? && p.languages[i] == langCode.value {
              langFound := true;
              p := world.withLanguage(p, langCode.value);
              break;
            }
          }
          if !langFound {
            assert p.languages[..|p.languages|] == p.languages;
            return None;
          }
      }
      return Some(p);
    }

    /** The default promise of one factory, if it can be used. */
    method FindFulfiller(g: Factory, requiredTags: Tags, langCode: Option<Lang>) returns (r: Alternative)
      requires SameTags(g)
      ensures r == Fulfiller(world, g, requiredTags, langCode)
    {
      hide ViciousCircle, DefaultPromise, Subset;
      r := [];
      if g.annotator {
        var vicious := IsViciousCircle(g, requiredTags);
        if !vicious {
          var subset := IsSubset(requiredTags, g.provided);
          if subset {
            var defaultPromise := GetDefaultPromise(g, langCode);
            if defaultPromise.Some? {
              r := [defaultPromise.value];
            }
          }
        }
      }
    }

    method FindFulfillers(requiredTags: Tags, langCode: Option<Lang>) returns (fulfillers: Alternative)
      requires forall g :: g in world.factories ==> SameTags(g)
      ensures fulfillers == Fulfillers(world, world.factories, requiredTags, langCode)
    {
      hide Fulfiller, SameTags;
      fulfillers := [];
      var factories := world.factories;
      assert factories[0..] == factories;
      for i := 0 to |factories|
        invariant fulfillers + Fulfillers(world, factories[i..], requiredTags, langCode)
               == Fulfillers(world, factories, requiredTags, langCode)
      {
        assert factories[i..][1..] == factories[i + 1..] && factories[i] in factories;
        var found := FindFulfiller(factories[i], requiredTags, langCode);
        fulfillers := fulfillers + found;
      }
      assert factories[|factories|..] == [];
    }

    // ---------- One copy for each language ----------

    method CanHandleLanguage(p: Promise, langCode: Lang) returns (r: Option<Promise>)
      ensures r == ForLanguage(world, p, langCode)
    {
      match p.handling {
        case Independent => return Some(p);
        case Guesser => return Some(p);
        case _ =>
          for i := 0 to |p.languages|
            invariant langCode !in p.languages[..i]
          {
            if p.languages[i] == langCode {
              if p.handling.Dependent? {
                return Some(world.withLanguage(p, langCode));
              } else {
                return Some(p);
              }
            }
          }
          assert p.languages[..|p.languages|] == p.languages;
          return None;
      }
    }

    method FilterByLanguage(alt: Alternative, langCode: Lang) returns (r: Alternative)
      ensures r == Filtered(world, alt, langCode)
    {
      hide ForLanguage, ToList;
      r := [];
      assert alt[0..] == alt;
      for i := 0 to |alt|
        invariant r + Filtered(world, alt[i..], langCode) == Filtered(world, alt, langCode)
      {
        assert alt[i..][1..] == alt[i + 1..];
        var promise := CanHandleLanguage(alt[i], langCode);
        Listed(promise);
        if promise.Some? {
          r := r + [promise.value];
        }
      }
      assert alt[|alt|..] == [];
    }

    /** Inserts the copies in front of the alternative and erases it; fails on a language without any. */
    method MultiplyByLanguages(sequence: Plan, iter: nat) returns (ok: bool, plan: Plan)
      requires iter < |sequence|
      ensures ok <==> [] !in Copies(world, sequence[iter], world.langCodes)
      ensures ok ==> plan == sequence[..iter] + Copies(world, sequence[iter], world.langCodes) + sequence[iter + 1..]
    {
      hide Filtered, Copies;
      plan := sequence;
      var at := iter;
      var langs := world.langCodes;
      ghost var copies := Copies(world, sequence[iter], langs);
      for i := 0 to |langs|
        invariant at == iter + i && plan == sequence[..iter] + copies[..i] + sequence[iter..]
        invariant [] !in copies[..i]
      {
        AtCursor(sequence[..iter], copies[..i], sequence[iter..]);
        var langAlt := FilterByLanguage(plan[at], langs[i]);
        OneMoreCopy(sequence[..iter], copies, i, sequence[iter..]);
        if langAlt == [] {
          assert copies[i] in copies;
          return false, plan;
        }
        plan := plan[..at] + [langAlt] + plan[at..];
        at := at + 1;
      }
      assert copies[..|langs|] == copies;
      AtCursor(sequence[..iter], copies, sequence[iter..]);
      plan := plan[..at] + plan[at + 1..];
      ok := true;
    }

    // ---------- The search ----------

    /** Tries the members of an alternative one after the other, each in a list of its own. */
    method TryAlternatives(sequence: Plan, iter: nat)
      requires Completable(world, sequence) && iter < |sequence|
      requires SettledUpTo(sequence, iter) && !Multilingual(sequence[iter]) && |sequence[iter]| > 1
      modifies this`alternativeSequences
      ensures alternativeSequences == old(alternativeSequences) + Solutions(world, sequence)
      decreases Longest(world, sequence), 0
    {
      hide Sound, WellFormed, HasEnd, Settled, Solutions, Multilingual, SettledUpTo, FirstUnsettled;
      var alt := sequence[iter];
      ghost var next := Choices(sequence[..iter], alt, sequence[iter + 1..]);
      ghost var bound := Longest(world, sequence);
      BranchesAreNext(world, sequence, iter);
      assert next[0..] == next;
      for i := 0 to |alt|
        invariant alternativeSequences + SolutionsOfAll(world, next[i..], bound)
               == old(alternativeSequences) + SolutionsOfAll(world, next, bound)
      {
        assert next[i..][1..] == next[i + 1..] && next[i] in next;
        var newSequence := sequence[..iter] + [[alt[i]]] + sequence[iter + 1..];
        CompleteFrom(newSequence);
      }
      assert next[|alt|..] == [];
    }

    /** `complete_`: works through the list from the restart position and edits it on the way. */
    method CompleteFrom(sequence: Plan)
      requires Completable(world, sequence)
      modifies this`alternativeSequences
      ensures alternativeSequences == old(alternativeSequences) + Solutions(world, sequence)
      decreases Longest(world, sequence), 1
    {
      hide Sound, WellFormed, HasEnd, Settled, Solutions, SettledUpTo, Multilingual, FirstUnmet, Fulfillers, Next,
           FirstUnsettled;
      var plan := sequence;
      var restartPosition := 0;
      var allFulfilled := false;
      NoneSettledYet(plan);
      while !allFulfilled
        invariant Completable(world, plan) && restartPosition <= |plan| && SettledUpTo(plan, restartPosition)
        invariant Longest(world, plan) <= Longest(world, sequence)
        invariant Solutions(world, plan) == Solutions(world, sequence)
        invariant allFulfilled ==> SettledUpTo(plan, |plan|)
        invariant alternativeSequences == old(alternativeSequences)
        decreases Longest(world, plan), !allFulfilled
      {
        allFulfilled := true;
        var iter := restartPosition;
        while iter < |plan|
          invariant iter <= |plan| && SettledUpTo(plan, iter)
          invariant alternativeSequences == old(alternativeSequences)
        {
          StatedAt(plan, iter);
          var multilingual := IsMultilingual(plan[iter]);
          if multilingual {
            allFulfilled := false;
            var ok, next := MultiplyByLanguages(plan, iter);
            MultiplyingIsNext(world, plan, iter);
            if !ok {
              return;
            }
            PrefixStaysSettled(plan, next, iter);
            plan := next;
            restartPosition := iter;
            break;
          } else if |plan[iter]| > 1 {
            TryAlternatives(plan, iter);
            return;
          } else {
            SettledAreSingle(plan, iter);
            var tags := FindUnfulfilled(plan, iter);
            if tags.Some? {
              var langCode := None;
              assert plan[iter][0] in plan[iter];
              if plan[iter][0].handling.JustOne? {
                langCode := Some(plan[iter][0].languages[0]);
              }
              FactoriesKeepTags(world);
              var fulfillers := FindFulfillers(tags.value, langCode);
              FulfillingIsNext(world, plan, iter, tags.value);
              if fulfillers == [] {
                return;
              }
              var next := plan[..iter] + [fulfillers] + plan[iter..];
              PrefixStaysSettled(plan, next, iter);
              plan := next;
              restartPosition := iter;
              allFulfilled := false;
              break;
            }
            OneMoreSettled(plan, iter);
          }
          iter := iter + 1;
        }
      }
      AllSettled(world, plan);
      NotEmpty(plan);
      alternativeSequences := alternativeSequences + [Chosen(plan)];
    }

    // ---------- The choice ----------

    method CalculateQualityScore(q: Pipeline) returns (sum: real)
      ensures sum == Quality(q)
    {
      sum := 0.0;
      assert q[0..] == q;
      for i := 0 to |q|
        invariant sum + Quality(q[i..]) == Quality(q)
      {
        assert q[i..][1..] == q[i + 1..];
        sum := sum + q[i].quality;
      }
    }

    method CalculateEstimatedTime(q: Pipeline) returns (sum: real)
      ensures sum == Time(q)
    {
      sum := 0.0;
      assert q[0..] == q;
      for i := 0 to |q|
        invariant sum + Time(q[i..]) == Time(q)
      {
        assert q[i..][1..] == q[i + 1..];
        sum := sum + q[i].time;
      }
    }

    /** The failure of the first processor that cannot be created. */
    method CheckSolution(q: Pipeline) returns (r: Option<Failure>)
      ensures r == FirstFailure(q)
    {
      assert q[0..] == q;
      for i := 0 to |q|
        invariant FirstFailure(q[i..]) == FirstFailure(q)
      {
        assert q[i..][1..] == q[i + 1..];
        if q[i].creation.Some? {
          return q[i].creation;
        }
      }
      return None;
    }

    /** The scores kept are those of the best pipeline kept. */
    ghost predicate ScoresKept()
      reads this
    {
      && bestQualityScore.Some? == bestEstimatedTime.Some? == bestFound.Some?
      && (bestFound.Some? ==> bestQualityScore == Some(Quality(bestFound.value))
                              && bestEstimatedTime == Some(Time(bestFound.value)))
    }

    method TrySolution(q: Pipeline) returns (better: bool)
      requires ScoresKept()
      modifies this`bestFound, this`bestQualityScore, this`bestEstimatedTime
      ensures ScoresKept()
      ensures better <==> old(bestFound).None? || Better(q, old(bestFound).value)
      ensures bestFound == if better then Some(q) else old(bestFound)
    {
      var seqScore := CalculateQualityScore(q);
      var seqTime := CalculateEstimatedTime(q);
      if bestQualityScore.None?
         || seqScore > bestQualityScore.value
         || (seqScore == bestQualityScore.value && seqTime < bestEstimatedTime.value)
      {
        bestQualityScore, bestEstimatedTime, bestFound := Some(seqScore), Some(seqTime), Some(q);
        return true;
      }
      return false;
    }

    /** One pass over the candidates: of equally good ones the earliest is kept. */
    method FindBest() returns (best: nat)
      requires alternativeSequences != []
      modifies this`bestFound, this`bestQualityScore, this`bestEstimatedTime
      ensures FirstCandidate(alternativeSequences, best)
      ensures bestFound == Some(alternativeSequences[best])
    {
      hide Better;
      bestFound, bestQualityScore, bestEstimatedTime := None, None, None;
      best := 0;
      for i := 0 to |alternativeSequences|
        invariant ScoresKept()
        invariant if i == 0 then bestFound.None?
                  else best < i && bestFound == Some(alternativeSequences[best])
                       && FirstCandidate(alternativeSequences[..i], best)
      {
        var better := TrySolution(alternativeSequences[i]);
        OneMoreCandidate(alternativeSequences, i, best, better);
        if better {
          best := i;
        }
      }
      assert alternativeSequences[..|alternativeSequences|] == alternativeSequences;
    }

    /** Completes the sequence in all ways and takes the best completion whose processors can be created.
        `left` numbers the candidates that stay in the list. */
    method Complete() returns (r: Outcome, ghost left: seq<nat>)
      requires Completable(world, originalSequence)
      modifies this
      ensures var all := old(alternativeSequences) + Solutions(world, originalSequence);
              && Answers(all, r)
              && Holds(all, left, alternativeSequences)
              && if r.Found? then bestFound == Some(r.pipeline) && exists k: nat :: Taken(all, k, r.pipeline, left)
                 else left == []
      ensures old(alternativeSequences) == [] && r.Found? ==>
                IsComplete(r.pipeline) && Carries(Slots(world, originalSequence), r.pipeline)
    {
      hide Sound, WellFormed, HasEnd, Solutions, FirstCandidate, FirstKept, TriedFailed, Precedes, Holds, Without,
           FirstFailure, Answers, Taken, IsComplete, Carries, Slots;
      CompleteFrom(originalSequence);
      ghost var all := alternativeSequences;
      var firstException: Option<Failure> := None;
      bestFound := None;
      left := AllLeft(all);
      while alternativeSequences != []
        invariant bestFound.None?
        invariant Holds(all, left, alternativeSequences) && TriedFailed(all, left)
        invariant FirstKept(all, left, firstException)
        decreases |alternativeSequences|
      {
        var best := FindBest();
        FirstIsCandidate(alternativeSequences, best);
        var pipeline := alternativeSequences[best];
        HoldsWithout(all, left, alternativeSequences, best);
        var ex := CheckSolution(pipeline);
        if ex.None? {
          TakeFirst(all, left, alternativeSequences, best);
          r := Found(pipeline);
          if old(alternativeSequences) == [] {
            FoundIsSolution(world, originalSequence, all, pipeline);
          }
          alternativeSequences := Without(alternativeSequences, best);
          left := Without(left, best);
          return;
        }
        DropFirst(all, left, alternativeSequences, best, firstException);
        alternativeSequences := Without(alternativeSequences, best);
        left := Without(left, best);
        if firstException.None? {
          firstException := ex;
        }
        bestFound := None;
      }
      NoneHeld(all, left);
      NothingLeft(all, firstException);
      r := if firstException.None? then Nothing else Thrown(firstException.value);
    }
  }

  // ---------- The choice, step by step ----------

  lemma FoundIsSolution(w: World, plan: Plan, all: seq<Pipeline>, q: Pipeline)
    requires Completable(w, plan) && all == [] + Solutions(w, plan) && Answers(all, Found(q))
    ensures IsComplete(q) && Carries(Slots(w, plan), q)
  {
    hide Sound, WellFormed, HasEnd, Solutions, Precedes, IsComplete, Carries, Slots;
    SolutionsAreComplete(w, plan, q);
    SolutionsCarryThePlan(w, plan, q);
  }

  lemma OneMoreCandidate(all: seq<Pipeline>, i: nat, best: nat, better: bool)
    requires i < |all|
    requires i == 0 || (best < i && FirstCandidate(all[..i], best))
    requires better <==> i == 0 || Better(all[i], all[best])
    ensures FirstCandidate(all[..i + 1], if better then i else best)
  {
    var k := if better then i else best;
    var longer := all[..i + 1];
    forall j: nat | j <= i && j != k
      ensures Precedes(longer, k, j)
    {
      if j < i && j != best {
        assert Precedes(all[..i], best, j);
      }
    }
  }

  lemma FirstIsCandidate(all: seq<Pipeline>, k: nat)
    requires FirstCandidate(all, k)
    ensures k < |all|
  {
  }

  lemma NoneHeld(all: seq<Pipeline>, left: seq<nat>)
    requires Holds(all, left, [])
    ensures left == []
  {
  }

  // ---------- The branches of the loop are steps ----------

  lemma NoneSettledYet(plan: Plan)
    ensures SettledUpTo(plan, 0)
  {
  }

  lemma StatedAt(plan: Plan, iter: nat)
    requires WellFormed(plan) && iter < |plan|
    ensures plan[iter] != [] && forall p :: p in plan[iter] ==> LanguageStated(p)
  {
  }

  lemma NotEmpty(plan: Plan)
    requires WellFormed(plan)
    ensures forall i :: 0 <= i < |plan| ==> plan[i] != []
  {
    hide LanguageStated;
  }

  lemma FactoriesKeepTags(w: World)
    requires Sound(w)
    ensures forall g :: g in w.factories ==> SameTags(g)
  {
    hide SetsLanguage, Acyclic, SameTags;
  }

  lemma SettledAreSingle(plan: Plan, n: nat)
    requires n <= |plan| && SettledUpTo(plan, n)
    ensures forall j :: 0 <= j < n ==> |plan[j]| == 1
  {
    hide Multilingual, AllMet;
  }

  lemma OneMoreSettled(plan: Plan, iter: nat)
    requires iter < |plan| && SettledUpTo(plan, iter) && |plan[iter]| == 1 && !Multilingual(plan[iter])
    requires FirstUnmet(plan[..iter], plan[iter][0].required).None?
    ensures SettledUpTo(plan, iter + 1)
  {
    hide Multilingual, AllMet;
  }

  lemma BranchesAreNext(w: World, plan: Plan, iter: nat)
    requires Completable(w, plan) && iter < |plan|
    requires SettledUpTo(plan, iter) && !Multilingual(plan[iter]) && |plan[iter]| > 1
    ensures var next := Choices(plan[..iter], plan[iter], plan[iter + 1..]);
            && (forall p :: p in next ==> Completable(w, p) && Longest(w, p) < Longest(w, plan))
            && Solutions(w, plan) == SolutionsOfAll(w, next, Longest(w, plan))
  {
    hide Sound, WellFormed, HasEnd, SettledUpTo, Multilingual, Choices;
    StopsHere(plan, iter);
    AllNextAreLess(w, plan);
  }

  lemma MultiplyingIsNext(w: World, plan: Plan, iter: nat)
    requires Completable(w, plan) && iter < |plan|
    requires SettledUpTo(plan, iter) && Multilingual(plan[iter])
    ensures var copies := Copies(w, plan[iter], w.langCodes);
            var next := plan[..iter] + copies + plan[iter + 1..];
            if [] in copies then Solutions(w, plan) == []
            else Completable(w, next) && Longest(w, next) < Longest(w, plan) && Solutions(w, next) == Solutions(w, plan)
  {
    hide Sound, WellFormed, HasEnd, SettledUpTo, Multilingual, Copies, Solutions;
    StopsHere(plan, iter);
    var copies := Copies(w, plan[iter], w.langCodes);
    if [] in copies {
      NoSuccessor(w, plan);
    } else {
      OnlySuccessor(w, plan, plan[..iter] + copies + plan[iter + 1..]);
    }
  }

  lemma FulfillingIsNext(w: World, plan: Plan, iter: nat, tags: Tags)
    requires Completable(w, plan) && iter < |plan|
    requires SettledUpTo(plan, iter) && |plan[iter]| == 1 && !Multilingual(plan[iter])
    requires FirstUnmet(plan[..iter], plan[iter][0].required) == Some(tags)
    ensures var p := plan[iter][0];
            var lang := if p.handling.JustOne? && p.languages != [] then Some(p.languages[0]) else None;
            var fulfillers := Fulfillers(w, w.factories, tags, lang);
            var next := plan[..iter] + [fulfillers] + plan[iter..];
            if fulfillers == [] then Solutions(w, plan) == []
            else Completable(w, next) && Longest(w, next) < Longest(w, plan) && Solutions(w, next) == Solutions(w, plan)
  {
    hide Sound, WellFormed, HasEnd, SettledUpTo, Multilingual, Fulfillers, Solutions;
    StopsHere(plan, iter);
    var fulfillers := Fulfillers(w, w.factories, tags, OneLanguage(plan[iter][0]));
    if fulfillers == [] {
      NoSuccessor(w, plan);
    } else {
      assert plan[iter..] == [plan[iter]] + plan[iter + 1..];
      assert plan[..iter] + [fulfillers] + plan[iter..]
          == plan[..iter] + [fulfillers] + [plan[iter]] + plan[iter + 1..];
      OnlySuccessor(w, plan, plan[..iter] + [fulfillers] + [plan[iter]] + plan[iter + 1..]);
    }
  }
}
