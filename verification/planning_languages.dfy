/** Which languages the promises have that are brought in for others. */
module PlanningLanguages {
  import opened Common
  import opened PromisePlanning
  import opened PlanningTermination

  /** No language is left open; asked for one language, a promise for just one language is for that one. */
  predicate Speaks(f: Promise, lang: Option<Lang>) {
    !f.handling.Dependent? && (lang.Some? && f.handling.JustOne? ==> f.languages == [lang.value])
  }

  /** The default promise of the factory can be used for the language asked for, if any. */
  predicate Usable(g: Factory, lang: Option<Lang>) {
    && (g.byDefault.handling.Dependent? ==> lang.Some? && lang.value in g.byDefault.languages)
    && (g.byDefault.handling.JustOne? && lang.Some? ==> g.byDefault.languages == [lang.value])
  }

  /** An annotator that provides the tags and does not require a list with all of them. */
  predicate Supplies(g: Factory, tags: Tags) {
    && g.annotator && (forall t :: t in tags ==> t in g.provided)
    && forall q :: q in g.required ==> exists t :: t in tags && t !in q
  }

  lemma CanSupply(g: Factory, tags: Tags)
    ensures CanFulfill(g, tags) <==> Supplies(g, tags)
  {
  }

  /** Fulfillers are listed in the order of their factories. */
  lemma {:induction false} FulfillersInOrder(w: World, a: seq<Factory>, b: seq<Factory>, tags: Tags, lang: Option<Lang>)
    ensures Fulfillers(w, a + b, tags, lang) == Fulfillers(w, a, tags, lang) + Fulfillers(w, b, tags, lang)
  {
    hide Fulfiller;
    if a == [] {
      assert a + b == b;
    } else {
      assert (a + b)[1..] == a[1..] + b;
      FulfillersInOrder(w, a[1..], b, tags, lang);
    }
  }

  /** A factory contributes exactly if it can fulfill the list and its default promise can be used: that promise,
      with the language set if it depends on the language. */
  lemma OneFactory(w: World, g: Factory, tags: Tags, lang: Option<Lang>)
    requires SetsLanguage(w)
    ensures var r := Fulfillers(w, [g], tags, lang);
            && (r != [] <==> Supplies(g, tags) && Usable(g, lang))
            && (r != [] ==>
                  && |r| == 1 && Speaks(r[0], lang)
                  && r[0].required == g.byDefault.required && r[0].provided == g.byDefault.provided
                  && (if g.byDefault.handling.Dependent? then r[0] == w.withLanguage(g.byDefault, lang.value)
                      else r[0] == g.byDefault))
  {
    hide CanFulfill, Supplies;
    CanSupply(g, tags);
    assert Fulfillers(w, [g], tags, lang) == Fulfiller(w, g, tags, lang) by {
      assert [g][1..] == [];
    }
  }

  /** So every fulfiller has the language asked for, and every factory that can be used contributes one. */
  lemma {:induction false} FulfillersSpeak(w: World, factories: seq<Factory>, tags: Tags, lang: Option<Lang>)
    requires SetsLanguage(w)
    ensures forall f :: f in Fulfillers(w, factories, tags, lang) ==> Speaks(f, lang)
    ensures forall g :: g in factories && Supplies(g, tags) && Usable(g, lang) ==>
              exists f :: f in Fulfillers(w, factories, tags, lang)
                          && f.required == g.byDefault.required && f.provided == g.byDefault.provided
  {
    hide Supplies, Usable, SetsLanguage, Fulfillers, Speaks;
    if factories == [] {
      assert Fulfillers(w, factories, tags, lang) == [] by { NoFactories(w, tags, lang); }
    } else {
      var first, rest := [factories[0]], factories[1..];
      assert factories == first + rest;
      FulfillersInOrder(w, first, rest, tags, lang);
      OneFactory(w, factories[0], tags, lang);
      FulfillersSpeak(w, rest, tags, lang);
      forall g | g in factories && Supplies(g, tags) && Usable(g, lang)
        ensures exists f :: f in Fulfillers(w, factories, tags, lang)
                            && f.required == g.byDefault.required && f.provided == g.byDefault.provided
      {
        if g == factories[0] {
          var f := Fulfillers(w, first, tags, lang)[0];
          assert f in Fulfillers(w, factories, tags, lang);
        } else {
          var f :| f in Fulfillers(w, rest, tags, lang)
                   && f.required == g.byDefault.required && f.provided == g.byDefault.provided;
          assert f in Fulfillers(w, factories, tags, lang);
        }
      }
    }
  }

  lemma NoFactories(w: World, tags: Tags, lang: Option<Lang>)
    ensures Fulfillers(w, [], tags, lang) == []
  {
  }

  // ---------- The copy for one language ----------

  /** The promise can be used for the language. */
  predicate Handles(p: Promise, lang: Lang) {
    p.handling.Independent? || p.handling.Guesser? || lang in p.languages
  }

  lemma {:induction false} FilteredInOrder(w: World, a: Alternative, b: Alternative, lang: Lang)
    ensures Filtered(w, a + b, lang) == Filtered(w, a, lang) + Filtered(w, b, lang)
  {
    hide ForLanguage, ToList;
    if a == [] {
      assert a + b == b;
    } else {
      assert (a + b)[1..] == a[1..] + b;
      FilteredInOrder(w, a[1..], b, lang);
    }
  }

  /** A member is in the copy exactly if it can be used for the language, with the language set if it depends on
      it. */
  lemma OneMember(w: World, p: Promise, lang: Lang)
    requires SetsLanguage(w) && LanguageStated(p)
    ensures var r := Filtered(w, [p], lang);
            && (r != [] <==> Handles(p, lang))
            && (r != [] ==>
                  && |r| == 1 && Speaks(r[0], Some(lang))
                  && r[0] == if p.handling.Dependent? then w.withLanguage(p, lang) else p)
  {
    assert [p][1..] == [];
    assert Filtered(w, [p], lang) == ToList(ForLanguage(w, p, lang)) + Filtered(w, [], lang);
  }

  /** A language, if any, in which every member of the alternative speaks. */
  predicate AllSpeak(alt: Alternative, lang: Option<Lang>) {
    forall p :: p in alt ==>
      !p.handling.Dependent? && (p.handling.JustOne? ==> lang.Some? && p.languages == [lang.value])
  }

  /** An alternative is multilingual exactly if there is no one language for all its members. */
  lemma MonolingualIff(alt: Alternative)
    requires forall p :: p in alt ==> LanguageStated(p)
    ensures !Multilingual(alt) <==> exists lang :: AllSpeak(alt, lang)
  {
    if !Multilingual(alt) {
      if p :| p in alt && p.handling.JustOne? {
        assert LanguageStated(p) && p.languages == [p.languages[0]];
        assert AllSpeak(alt, Some(p.languages[0]));
      } else {
        assert AllSpeak(alt, None);
      }
    }
  }

  // ---------- Fulfillers for a promise ----------

  /** `f` has the language of `p`, if both are for just one. */
  predicate SpeaksFor(f: Promise, p: Promise) {
    !f.handling.Dependent? && (p.handling.JustOne? && f.handling.JustOne? ==> f.languages == p.languages)
  }

  lemma FulfillersSpeakFor(w: World, p: Promise, tags: Tags)
    requires SetsLanguage(w) && LanguageStated(p)
    ensures var f := Fulfillers(w, w.factories, tags, OneLanguage(p));
            && (forall q :: q in f ==> SpeaksFor(q, p))
            && (p.handling.JustOne? ==> !Multilingual(f))
  {
    hide SetsLanguage, Fulfillers;
    FulfillersSpeak(w, w.factories, tags, OneLanguage(p));
    if p.handling.JustOne? {
      assert p.languages == [p.languages[0]];
    }
  }
}
