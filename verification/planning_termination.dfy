/** Each step of completing a plan makes a measure smaller that charges every unmet list of tags more
    than anything the step can bring in. */
module PlanningTermination {
  import opened Common
  import opened PromisePlanning

  // ---------- The measure ----------

  ghost function Lists(factories: seq<Factory>): nat {
    if factories == [] then 0 else |factories[0].required| + Lists(factories[1..])
  }

  /** An upper bound for the rank of the factories among the first `n` that can help with `required`. */
  ghost function HeightUpTo(w: World, rank: seq<nat>, required: seq<Tags>, n: nat): (h: nat)
    requires n <= |rank| == |w.factories|
    ensures forall g :: 0 <= g < n && Helper(w.factories[g], required) ==> rank[g] < h
  {
    if n == 0 then 0
    else
      var before := HeightUpTo(w, rank, required, n - 1);
      if Helper(w.factories[n - 1], required) && before <= rank[n - 1] then rank[n - 1] + 1 else before
  }

  ghost function Height(w: World, required: seq<Tags>): nat
    requires Layered(w)
  {
    HeightUpTo(w, Rank(w), required, |w.factories|)
  }

  /** More than any alternative costs that consists of fulfillers below height `n`. */
  ghost function Charge(w: World, n: nat): nat {
    if n == 0 then 0 else 1 + |w.langCodes| * (2 + Lists(w.factories) * (1 + Charge(w, n - 1)))
  }

  ghost function Unmet(before: Plan, required: seq<Tags>): (n: nat)
    ensures n <= |required|
  {
    if required == [] then 0 else (if Met(before, required[0]) then 0 else 1) + Unmet(before, required[1..])
  }

  ghost function PromiseCost(w: World, before: Plan, p: Promise): nat
    requires Layered(w)
  {
    1 + Unmet(before, p.required) * (1 + Charge(w, Height(w, p.required)))
  }

  ghost function Dearest(w: World, before: Plan, alt: Alternative): (n: nat)
    requires Layered(w)
    ensures forall p :: p in alt ==> PromiseCost(w, before, p) <= n
  {
    if alt == [] then 0
    else
      var rest := Dearest(w, before, alt[1..]);
      if rest < PromiseCost(w, before, alt[0]) then PromiseCost(w, before, alt[0]) else rest
  }

  ghost function Cost(w: World, before: Plan, alt: Alternative): nat
    requires Layered(w)
  {
    var n := Dearest(w, before, alt);
    if Multilingual(alt) then 1 + |w.langCodes| * (1 + n)
    else if |alt| != 1 then 1 + n
    else n
  }

  ghost function Total(w: World, before: Plan, rest: Plan): nat
    requires Layered(w)
    decreases rest
  {
    if rest == [] then 0 else Cost(w, before, rest[0]) + Total(w, before + [rest[0]], rest[1..])
  }

  lemma {:induction false} HeightAtMost(w: World, rank: seq<nat>, required: seq<Tags>, n: nat, bound: nat)
    requires n <= |rank| == |w.factories|
    requires forall g :: 0 <= g < n && Helper(w.factories[g], required) ==> rank[g] < bound
    ensures HeightUpTo(w, rank, required, n) <= bound
  {
    hide Helper;
    if n > 0 {
      HeightAtMost(w, rank, required, n - 1, bound);
    }
  }

  lemma {:induction false} DearestAtMost(w: World, before: Plan, alt: Alternative, bound: nat)
    requires Layered(w) && forall p :: p in alt ==> PromiseCost(w, before, p) <= bound
    ensures Dearest(w, before, alt) <= bound
  {
    hide Layered, PromiseCost;
    if alt != [] {
      DearestAtMost(w, before, alt[1..], bound);
    }
  }

  // ---------- More that is provided means less to do ----------

  ghost predicate Covers(more: Plan, less: Plan) {
    forall tags :: Met(less, tags) ==> Met(more, tags)
  }

  lemma MetAppend(before: Plan, after: Plan, tags: Tags)
    ensures Met(before + after, tags) <==> Met(before, tags) || Met(after, tags)
  {
    var all := before + after;
    if Met(before, tags) {
      var j :| 0 <= j < |before| && Provides(before[j], tags);
      assert Provides(all[j], tags);
    }
    if Met(after, tags) {
      var j :| 0 <= j < |after| && Provides(after[j], tags);
      assert Provides(all[|before| + j], tags);
    }
    if Met(all, tags) {
      var j :| 0 <= j < |all| && Provides(all[j], tags);
      if j < |before| {
        assert Provides(before[j], tags);
      } else {
        assert Provides(after[j - |before|], tags);
      }
    }
  }

  lemma CoversAppend(more: Plan, less: Plan, after: Plan)
    requires Covers(more, less)
    ensures Covers(more + after, less + after)
  {
    hide Met;
    forall tags | Met(less + after, tags)
      ensures Met(more + after, tags)
    {
      MetAppend(less, after, tags);
      MetAppend(more, after, tags);
    }
  }

  lemma CoversByLast(before: Plan, more: Plan, alt: Alternative)
    requires forall tags :: Provides(alt, tags) ==> Met(more, tags)
    ensures Covers(before + more, before + [alt])
  {
    hide Provides;
    forall tags | Met(before + [alt], tags)
      ensures Met(before + more, tags)
    {
      MetAppend(before, [alt], tags);
      MetAppend(before, more, tags);
      if Met([alt], tags) {
        var j :| 0 <= j < |[alt]| && Provides([alt][j], tags);
      }
    }
  }

  lemma {:induction false} UnmetMonotone(more: Plan, less: Plan, required: seq<Tags>)
    requires Covers(more, less)
    ensures Unmet(more, required) <= Unmet(less, required)
  {
    hide Met;
    if required != [] {
      UnmetMonotone(more, less, required[1..]);
    }
  }

  lemma {:induction false} UnmetDrops(more: Plan, less: Plan, required: seq<Tags>, tags: Tags)
    requires Covers(more, less) && tags in required && Met(more, tags) && !Met(less, tags)
    ensures Unmet(more, required) < Unmet(less, required)
  {
    hide Met;
    UnmetMonotone(more, less, required[1..]);
    if tags != required[0] {
      UnmetDrops(more, less, required[1..], tags);
    }
  }

  lemma TimesMonotone(a: nat, b: nat, c: nat)
    requires a <= b
    ensures a * c <= b * c && c * a <= c * b
  {
  }

  lemma PromiseCostMonotone(w: World, more: Plan, less: Plan, p: Promise)
    requires Layered(w) && Covers(more, less)
    ensures PromiseCost(w, more, p) <= PromiseCost(w, less, p)
  {
    UnmetMonotone(more, less, p.required);
    TimesMonotone(Unmet(more, p.required), Unmet(less, p.required), 1 + Charge(w, Height(w, p.required)));
  }

  lemma CostMonotone(w: World, more: Plan, less: Plan, alt: Alternative)
    requires Layered(w) && Covers(more, less)
    ensures Cost(w, more, alt) <= Cost(w, less, alt)
  {
    hide Layered, Covers, PromiseCost, Multilingual;
    forall p | p in alt
      ensures PromiseCost(w, more, p) <= Dearest(w, less, alt)
    {
      PromiseCostMonotone(w, more, less, p);
    }
    DearestAtMost(w, more, alt, Dearest(w, less, alt));
    TimesMonotone(1 + Dearest(w, more, alt), 1 + Dearest(w, less, alt), |w.langCodes|);
  }

  lemma {:induction false} TotalMonotone(w: World, more: Plan, less: Plan, rest: Plan)
    requires Layered(w) && Covers(more, less)
    ensures Total(w, more, rest) <= Total(w, less, rest)
    decreases rest
  {
    hide Layered, Covers, Cost;
    if rest != [] {
      CostMonotone(w, more, less, rest[0]);
      CoversAppend(more, less, [rest[0]]);
      TotalMonotone(w, more + [rest[0]], less + [rest[0]], rest[1..]);
    }
  }

  lemma {:induction false} TotalAppend(w: World, before: Plan, a: Plan, b: Plan)
    requires Layered(w)
    ensures Total(w, before, a + b) == Total(w, before, a) + Total(w, before + a, b)
    decreases a
  {
    hide Layered, Cost;
    if a == [] {
      assert a + b == b && before + a == before;
    } else {
      assert (a + b)[1..] == a[1..] + b;
      assert before + [a[0]] + a[1..] == before + a;
      TotalAppend(w, before + [a[0]], a[1..], b);
    }
  }

  lemma TotalOne(w: World, before: Plan, alt: Alternative)
    requires Layered(w)
    ensures Total(w, before, [alt]) == Cost(w, before, alt)
  {
    hide Layered, Cost;
    assert Total(w, before + [alt], []) == 0;
    assert [alt][1..] == [];
  }

  /** Replacing `alt` by something that costs less and provides as much. */
  lemma {:induction false} Replaced(w: World, pre: Plan, alt: Alternative, subst: Plan, post: Plan)
    requires Layered(w)
    requires Total(w, pre, subst) < Cost(w, pre, alt)
    requires forall tags :: Provides(alt, tags) ==> Met(subst, tags)
    ensures Total(w, [], pre + subst + post) < Total(w, [], pre + [alt] + post)
  {
    hide Layered, Cost, Provides, Met, Total, Covers;
    assert [] + pre == pre && [] + (pre + subst) == pre + subst && [] + (pre + [alt]) == pre + [alt];
    TotalAppend(w, [], pre + subst, post);
    TotalAppend(w, [], pre, subst);
    TotalAppend(w, [], pre + [alt], post);
    TotalAppend(w, [], pre, [alt]);
    TotalOne(w, pre, alt);
    CoversByLast(pre, subst, alt);
    TotalMonotone(w, pre + subst, pre + [alt], post);
  }

  // ---------- Choosing a member ----------

  lemma ChoiceIsLess(w: World, pre: Plan, alt: Alternative, p: Promise, post: Plan)
    requires Layered(w) && !Multilingual(alt) && |alt| != 1 && p in alt
    ensures Total(w, [], pre + [[p]] + post) < Total(w, [], pre + [alt] + post)
  {
    hide Layered, PromiseCost;
    TotalOne(w, pre, [p]);
    assert !Multilingual([p]);
    assert forall q :: q in [p] ==> q == p;
    DearestAtMost(w, pre, [p], Dearest(w, pre, alt));
    assert Provides([p], []) by { assert Subset([], p.provided); }
    forall tags | Provides(alt, tags)
      ensures Met([[p]], tags)
    {
      assert Provides([[p]][0], tags);
    }
    Replaced(w, pre, alt, [[p]], post);
  }

  // ---------- One copy per language ----------

  lemma {:induction false} FilteredMember(w: World, alt: Alternative, lang: Lang, c: Promise)
    requires SetsLanguage(w) && c in Filtered(w, alt, lang)
    ensures exists p :: p in alt && c.required == p.required && c.provided == p.provided
    ensures !c.handling.Dependent?
    ensures c.handling.JustOne? ==> lang in c.languages
  {
    if c !in ToList(ForLanguage(w, alt[0], lang)) {
      FilteredMember(w, alt[1..], lang, c);
      var p :| p in alt[1..] && c.required == p.required && c.provided == p.provided;
      assert p in alt;
    } else {
      assert alt[0] in alt;
      assert c.required == alt[0].required && c.provided == alt[0].provided;
    }
  }

  lemma {:induction false} FilteredStates(w: World, alt: Alternative, lang: Lang)
    requires SetsLanguage(w) && forall p :: p in alt ==> LanguageStated(p)
    ensures forall c :: c in Filtered(w, alt, lang) ==> LanguageStated(c)
  {
    if alt != [] {
      FilteredStates(w, alt[1..], lang);
    }
  }

  /** The copy for one language is not multilingual, as the code asserts. */
  lemma FilteredIsMonolingual(w: World, alt: Alternative, lang: Lang)
    requires SetsLanguage(w) && forall p :: p in alt ==> LanguageStated(p)
    ensures !Multilingual(Filtered(w, alt, lang))
    ensures forall c :: c in Filtered(w, alt, lang) ==> LanguageStated(c)
  {
    hide SetsLanguage;
    FilteredStates(w, alt, lang);
    forall c | c in Filtered(w, alt, lang)
      ensures !c.handling.Dependent? && (c.handling.JustOne? ==> c.languages == [lang])
    {
      FilteredMember(w, alt, lang, c);
    }
  }

  lemma CopyCost(w: World, pre: Plan, more: Plan, alt: Alternative, lang: Lang)
    requires Layered(w) && Covers(more, pre) && forall p :: p in alt ==> LanguageStated(p)
    ensures Cost(w, more, Filtered(w, alt, lang)) <= 1 + Dearest(w, pre, alt)
  {
    hide Covers, SetsLanguage, Filtered, Acyclic, SameTags, PromiseCost, Multilingual, LanguageStated;
    var copy := Filtered(w, alt, lang);
    FilteredIsMonolingual(w, alt, lang);
    forall c | c in copy
      ensures PromiseCost(w, more, c) <= Dearest(w, pre, alt)
    {
      FilteredMember(w, alt, lang, c);
      var p :| p in alt && c.required == p.required && c.provided == p.provided;
      PromiseCostMonotone(w, more, pre, p);
      SameCost(w, more, p, c);
    }
    DearestAtMost(w, more, copy, Dearest(w, pre, alt));
  }

  lemma SameCost(w: World, before: Plan, p: Promise, c: Promise)
    requires Layered(w) && c.required == p.required
    ensures PromiseCost(w, before, c) == PromiseCost(w, before, p)
  {
  }

  lemma {:induction false} CopiesCost(w: World, pre: Plan, more: Plan, alt: Alternative, langs: seq<Lang>)
    requires Layered(w) && Covers(more, pre) && forall p :: p in alt ==> LanguageStated(p)
    ensures Total(w, more, Copies(w, alt, langs)) <= |langs| * (1 + Dearest(w, pre, alt))
    decreases langs
  {
    hide Layered, Cost, Filtered, LanguageStated, Dearest;
    if langs != [] {
      var copy := Filtered(w, alt, langs[0]);
      CopyCost(w, pre, more, alt, langs[0]);
      assert Covers(more + [copy], pre) by { MetMore(more, copy, pre); }
      CopiesCost(w, pre, more + [copy], alt, langs[1..]);
      assert |langs| * (1 + Dearest(w, pre, alt))
          == (1 + Dearest(w, pre, alt)) + |langs[1..]| * (1 + Dearest(w, pre, alt));
    }
  }

  lemma MetMore(more: Plan, copy: Alternative, less: Plan)
    requires Covers(more, less)
    ensures Covers(more + [copy], less)
  {
    hide Met;
    forall tags | Met(less, tags)
      ensures Met(more + [copy], tags)
    {
      MetAppend(more, [copy], tags);
    }
  }

  lemma FilteredProvides(w: World, alt: Alternative, lang: Lang, tags: Tags)
    requires SetsLanguage(w) && Provides(alt, tags) && Filtered(w, alt, lang) != []
    ensures Provides(Filtered(w, alt, lang), tags)
  {
    hide SetsLanguage, Filtered;
    forall c | c in Filtered(w, alt, lang)
      ensures Subset(tags, c.provided)
    {
      FilteredMember(w, alt, lang, c);
      var p :| p in alt && c.required == p.required && c.provided == p.provided;
    }
  }

  lemma CopiesAreLess(w: World, pre: Plan, alt: Alternative, post: Plan)
    requires Layered(w) && Multilingual(alt) && forall p :: p in alt ==> LanguageStated(p)
    requires [] !in Copies(w, alt, w.langCodes)
    ensures Total(w, [], pre + Copies(w, alt, w.langCodes) + post) < Total(w, [], pre + [alt] + post)
  {
    hide SetsLanguage, SameTags, Acyclic, Dearest, LanguageStated, Filtered, Total, Multilingual, Provides;
    var copies := Copies(w, alt, w.langCodes);
    CopiesCost(w, pre, pre, alt, w.langCodes);
    forall tags | Provides(alt, tags)
      ensures Met(copies, tags)
    {
      assert copies[0] in copies;
      FilteredProvides(w, alt, w.langCodes[0], tags);
      assert Provides(copies[0], tags);
    }
    Replaced(w, pre, alt, copies, post);
  }

  // ---------- Inserting fulfillers ----------

  lemma {:induction false} FulfillerFrom(w: World, factories: seq<Factory>, tags: Tags, lang: Option<Lang>, f: Promise)
    requires SetsLanguage(w) && (forall g :: g in factories ==> SameTags(g))
    requires f in Fulfillers(w, factories, tags, lang)
    ensures exists g :: 0 <= g < |factories| && CanFulfill(factories[g], tags)
                        && f.required == factories[g].required && f.provided == factories[g].provided
    ensures LanguageStated(f)
  {
    hide CanFulfill;
    if f in Fulfiller(w, factories[0], tags, lang) {
      assert SameTags(factories[0]);
    } else {
      FulfillerFrom(w, factories[1..], tags, lang, f);
      var g :| 0 <= g < |factories[1..]| && CanFulfill(factories[1..][g], tags)
               && f.required == factories[1..][g].required && f.provided == factories[1..][g].provided;
      assert factories[g + 1] == factories[1..][g];
    }
  }

  lemma {:induction false} ListsBound(factories: seq<Factory>, g: nat)
    requires g < |factories|
    ensures |factories[g].required| <= Lists(factories)
  {
    if g > 0 {
      ListsBound(factories[1..], g - 1);
    }
  }

  lemma {:induction false} ChargeMonotone(w: World, a: nat, b: nat)
    requires a <= b
    ensures Charge(w, a) <= Charge(w, b)
    decreases a
  {
    if a > 0 {
      ChargeMonotone(w, a - 1, b - 1);
      TimesMonotone(1 + Charge(w, a - 1), 1 + Charge(w, b - 1), Lists(w.factories));
      TimesMonotone(2 + Lists(w.factories) * (1 + Charge(w, a - 1)), 2 + Lists(w.factories) * (1 + Charge(w, b - 1)),
                    |w.langCodes|);
    }
  }

  /** A fulfiller of one of the lists stands below the promise that requires it. */
  lemma FulfillerIsLower(w: World, required: seq<Tags>, tags: Tags, g: nat)
    requires Layered(w) && tags in required && g < |w.factories| && CanFulfill(w.factories[g], tags)
    ensures Height(w, w.factories[g].required) < Height(w, required)
  {
    hide CanFulfill, SetsLanguage, SameTags;
    var rank := Rank(w);
    assert Helper(w.factories[g], required);
    assert rank[g] < Height(w, required);
    HeightAtMost(w, rank, w.factories[g].required, |w.factories|, rank[g]);
  }

  lemma FulfillerCost(w: World, before: Plan, required: seq<Tags>, tags: Tags, lang: Option<Lang>, f: Promise)
    requires Layered(w) && tags in required && f in Fulfillers(w, w.factories, tags, lang)
    ensures Height(w, required) > 0
    ensures PromiseCost(w, before, f) <= 1 + Lists(w.factories) * (1 + Charge(w, Height(w, required) - 1))
  {
    hide CanFulfill, SetsLanguage, SameTags, Acyclic, Height, Unmet, Lists, Charge, Fulfillers;
    FulfillerFrom(w, w.factories, tags, lang, f);
    var g :| 0 <= g < |w.factories| && CanFulfill(w.factories[g], tags)
             && f.required == w.factories[g].required && f.provided == w.factories[g].provided;
    FulfillerIsLower(w, required, tags, g);
    ListsBound(w.factories, g);
    ChargeMonotone(w, Height(w, f.required), Height(w, required) - 1);
    TimesMonotone(Unmet(before, f.required), Lists(w.factories), 1 + Charge(w, Height(w, f.required)));
    TimesMonotone(1 + Charge(w, Height(w, f.required)), 1 + Charge(w, Height(w, required) - 1), Lists(w.factories));
  }

  /** What is inserted costs no more than is charged for the list it meets. */
  lemma FulfillersCost(w: World, before: Plan, required: seq<Tags>, tags: Tags, lang: Option<Lang>)
    requires Layered(w) && tags in required && Fulfillers(w, w.factories, tags, lang) != []
    ensures Cost(w, before, Fulfillers(w, w.factories, tags, lang)) <= Charge(w, Height(w, required))
  {
    hide SetsLanguage, SameTags, Acyclic, Height, Lists, PromiseCost, Fulfillers, Multilingual;
    var alt := Fulfillers(w, w.factories, tags, lang);
    assert alt[0] in alt;
    FulfillerCost(w, before, required, tags, lang, alt[0]);
    var bound := 1 + Lists(w.factories) * (1 + Charge(w, Height(w, required) - 1));
    forall f | f in alt
      ensures PromiseCost(w, before, f) <= bound
    {
      FulfillerCost(w, before, required, tags, lang, f);
    }
    DearestAtMost(w, before, alt, bound);
    var n := Dearest(w, before, alt);
    TimesMonotone(1 + n, 1 + bound, |w.langCodes|);
    TimesMonotone(1, |w.langCodes|, 1 + n);
  }

  lemma {:induction false} FulfillersProvide(w: World, factories: seq<Factory>, tags: Tags, lang: Option<Lang>)
    requires SetsLanguage(w) && (forall g :: g in factories ==> SameTags(g))
    requires Fulfillers(w, factories, tags, lang) != []
    ensures Provides(Fulfillers(w, factories, tags, lang), tags)
    ensures forall f :: f in Fulfillers(w, factories, tags, lang) ==> LanguageStated(f)
  {
    hide SetsLanguage, SameTags, Fulfillers, ViciousCircle, LanguageStated;
    forall f | f in Fulfillers(w, factories, tags, lang)
      ensures Subset(tags, f.provided) && LanguageStated(f)
    {
      FulfillerFrom(w, factories, tags, lang, f);
    }
  }

  lemma LessUnmet(w: World, more: Plan, less: Plan, p: Promise, tags: Tags)
    requires Layered(w) && Covers(more, less) && tags in p.required && Met(more, tags) && !Met(less, tags)
    ensures PromiseCost(w, more, p) + Charge(w, Height(w, p.required)) < PromiseCost(w, less, p)
  {
    hide Layered, Met, Charge, Height, Unmet, Covers;
    UnmetDrops(more, less, p.required, tags);
    var c := 1 + Charge(w, Height(w, p.required));
    TimesMonotone(Unmet(more, p.required) + 1, Unmet(less, p.required), c);
    assert (Unmet(more, p.required) + 1) * c == Unmet(more, p.required) * c + c;
  }

  lemma SingleCost(w: World, before: Plan, p: Promise)
    requires Layered(w) && !Multilingual([p])
    ensures Cost(w, before, [p]) == PromiseCost(w, before, p)
  {
    hide Layered, PromiseCost, Multilingual;
    assert forall q :: q in [p] ==> q == p;
    DearestAtMost(w, before, [p], PromiseCost(w, before, p));
  }

  lemma FulfillersAreLess(w: World, pre: Plan, p: Promise, post: Plan, tags: Tags, lang: Option<Lang>)
    requires Layered(w) && !Multilingual([p]) && tags in p.required && !Met(pre, tags)
    requires Fulfillers(w, w.factories, tags, lang) != []
    ensures Total(w, [], pre + [Fulfillers(w, w.factories, tags, lang)] + [[p]] + post)
          < Total(w, [], pre + [[p]] + post)
  {
    hide SetsLanguage, SameTags, Acyclic, PromiseCost, Cost, Total, Fulfillers, Height, Charge, Multilingual, Provides,
         Covers;
    var f := Fulfillers(w, w.factories, tags, lang);
    FulfillersCost(w, pre, p.required, tags, lang);
    FulfillersProvide(w, w.factories, tags, lang);
    assert Met([f], tags) by { assert Provides([f][0], tags); }
    MetAppend(pre, [f], tags);
    assert Covers(pre, pre) by { CoversSelf(pre); }
    MetMore(pre, f, pre);
    LessUnmet(w, pre + [f], pre, p, tags);
    TotalOne(w, pre, f);
    TotalOne(w, pre + [f], [p]);
    SingleCost(w, pre, p);
    SingleCost(w, pre + [f], p);
    TotalAppend(w, pre, [f], [[p]]);
    forall t | Provides([p], t)
      ensures Met([f] + [[p]], t)
    {
      assert Provides(([f] + [[p]])[1], t);
    }
    Replaced(w, pre, [p], [f] + [[p]], post);
    assert pre + ([f] + [[p]]) + post == pre + [f] + [[p]] + post;
  }

  lemma CoversSelf(plan: Plan)
    ensures Covers(plan, plan)
  {
  }

  // ---------- Every step ----------

  lemma WellFormedParts(pre: Plan, middle: Plan, post: Plan)
    ensures WellFormed(pre + middle + post) <==> WellFormed(pre) && WellFormed(middle) && WellFormed(post)
  {
    hide LanguageStated;
    var all := pre + middle + post;
    assert forall i :: 0 <= i < |pre| ==> all[i] == pre[i];
    assert forall i :: 0 <= i < |middle| ==> all[|pre| + i] == middle[i];
    assert forall i :: 0 <= i < |post| ==> all[|pre| + |middle| + i] == post[i];
  }

  lemma ExpandedIsLess(w: World, pre: Plan, alt: Alternative, post: Plan, next: Plan)
    requires Layered(w) && WellFormed(pre + [alt] + post) && next in Expanded(w, pre, alt, post)
    ensures Total(w, [], next) < Total(w, [], pre + [alt] + post)
    ensures WellFormed(next)
  {
    hide SetsLanguage, SameTags, Acyclic, Total, Fulfillers, Multilingual, Met, Filtered, LanguageStated;
    WellFormedParts(pre, [alt], post);
    assert [alt][0] == alt;
    if Multilingual(alt) {
      var copies := Copies(w, alt, w.langCodes);
      CopiesAreLess(w, pre, alt, post);
      forall k | 0 <= k < |copies|
        ensures copies[k] != [] && forall c :: c in copies[k] ==> LanguageStated(c)
      {
        assert copies[k] in copies;
        FilteredIsMonolingual(w, alt, w.langCodes[k]);
      }
      WellFormedParts(pre, copies, post);
    } else if |alt| != 1 {
      var k :| 0 <= k < |alt| && next == pre + [[alt[k]]] + post;
      assert alt[k] in alt;
      ChoiceIsLess(w, pre, alt, alt[k], post);
      WellFormedParts(pre, [[alt[k]]], post);
    } else {
      var tags := FirstUnmet(pre, alt[0].required).value;
      var lang := OneLanguage(alt[0]);
      var f := Fulfillers(w, w.factories, tags, lang);
      assert alt == [alt[0]];
      FulfillersAreLess(w, pre, alt[0], post, tags, lang);
      FulfillersProvide(w, w.factories, tags, lang);
      WellFormedParts(pre, [f] + [alt], post);
      assert pre + ([f] + [alt]) + post == next;
    }
  }

  /** Every step, whichever plan it leads to, makes the measure smaller. */
  lemma NextIsLess(w: World, plan: Plan, next: Plan)
    requires Layered(w) && WellFormed(plan) && next in Next(w, plan)
    ensures Total(w, [], next) < Total(w, [], plan)
    ensures WellFormed(next)
  {
    hide Layered, Total, Expanded, WellFormed, Settled;
    var i := FirstUnsettled(plan, 0);
    assert plan[..i] + [plan[i]] + plan[i + 1..] == plan;
    ExpandedIsLess(w, plan[..i], plan[i], plan[i + 1..], next);
  }
}
