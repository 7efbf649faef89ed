/** Completing a pipeline: what a plan still lacks, how one step supplies it, and what is assumed. */
module PromisePlanning {
  import opened Common

  type Tag(==, !new)
  type Lang(==, !new)
  type Failure(!new)

  type Tags = seq<Tag>

  datatype Handling = Independent | Guesser | JustOne | Dependent

  /** `creation` is what goes wrong when the processor is created. */
  datatype Promise = Promise(required: seq<Tags>, provided: Tags, handling: Handling, languages: seq<Lang>,
                             quality: real, time: real, creation: Option<Failure>)

  /** A processor factory; `byDefault` is the promise with the default options. */
  datatype Factory = Factory(annotator: bool, required: seq<Tags>, provided: Tags, byDefault: Promise)

  /** The known factories, the languages asked for and the setting of a language in a promise. */
  datatype World = World(factories: seq<Factory>, langCodes: seq<Lang>, withLanguage: (Promise, Lang) -> Promise)

  type Alternative = seq<Promise>
  type Plan = seq<Alternative>

  // ---------- What a plan lacks ----------

  predicate Subset(sub: Tags, sup: Tags) {
    forall t :: t in sub ==> t in sup
  }

  /** Whatever is chosen from `alt`, the tags are provided. */
  ghost predicate Provides(alt: Alternative, tags: Tags) {
    alt != [] && forall p :: p in alt ==> Subset(tags, p.provided)
  }

  ghost predicate Met(before: Plan, tags: Tags) {
    exists j :: 0 <= j < |before| && Provides(before[j], tags)
  }

  ghost predicate Multilingual(alt: Alternative) {
    || (exists p :: p in alt && p.handling.Dependent?)
    || (exists p, q :: p in alt && q in alt && p.handling.JustOne? && q.handling.JustOne? && p.languages != q.languages)
  }

  ghost predicate AllMet(before: Plan, required: seq<Tags>) {
    forall r :: r in required ==> Met(before, r)
  }

  ghost predicate Settled(before: Plan, alt: Alternative) {
    |alt| == 1 && !Multilingual(alt) && AllMet(before, alt[0].required)
  }

  ghost predicate SettledUpTo(plan: Plan, n: nat)
    requires n <= |plan|
  {
    forall i :: 0 <= i < n ==> Settled(plan[..i], plan[i])
  }

  /** The first alternative at or after `from` that needs work. */
  ghost function FirstUnsettled(plan: Plan, from: nat): (i: nat)
    requires from <= |plan|
    ensures from <= i <= |plan|
    ensures forall k :: from <= k < i ==> Settled(plan[..k], plan[k])
    ensures i < |plan| ==> !Settled(plan[..i], plan[i])
    decreases |plan| - from
  {
    if from < |plan| && Settled(plan[..from], plan[from]) then FirstUnsettled(plan, from + 1) else from
  }

  ghost function FirstUnmet(before: Plan, required: seq<Tags>): (r: Option<Tags>)
    ensures r.None? <==> AllMet(before, required)
    ensures r.Some? ==> r.value in required && !Met(before, r.value)
  {
    if required == [] then None
    else if !Met(before, required[0]) then Some(required[0])
    else FirstUnmet(before, required[1..])
  }

  // ---------- What supplies it ----------

  ghost predicate ViciousCircle(g: Factory, tags: Tags) {
    exists r :: r in g.required && Subset(tags, r)
  }

  ghost predicate CanFulfill(g: Factory, tags: Tags) {
    g.annotator && !ViciousCircle(g, tags) && Subset(tags, g.provided)
  }

  function DefaultPromise(w: World, g: Factory, lang: Option<Lang>): Option<Promise> {
    var p := g.byDefault;
    match p.handling
    case Independent => Some(p)
    case Guesser => Some(p)
    case JustOne => if lang.Some? && p.languages != [lang.value] then None else Some(p)
    case Dependent => if lang.Some? && lang.value in p.languages then Some(w.withLanguage(p, lang.value)) else None
  }

  function ToList<T>(o: Option<T>): seq<T> {
    if o.Some? then [o.value] else []
  }

  ghost function Fulfiller(w: World, g: Factory, tags: Tags, lang: Option<Lang>): Alternative {
    if CanFulfill(g, tags) then ToList(DefaultPromise(w, g, lang)) else []
  }

  ghost function Fulfillers(w: World, factories: seq<Factory>, tags: Tags, lang: Option<Lang>): Alternative {
    if factories == [] then []
    else Fulfiller(w, factories[0], tags, lang) + Fulfillers(w, factories[1..], tags, lang)
  }

  function ForLanguage(w: World, p: Promise, lang: Lang): Option<Promise> {
    match p.handling
    case Independent => Some(p)
    case Guesser => Some(p)
    case JustOne => if lang in p.languages then Some(p) else None
    case Dependent => if lang in p.languages then Some(w.withLanguage(p, lang)) else None
  }

  function Filtered(w: World, alt: Alternative, lang: Lang): (r: Alternative)
    ensures |r| <= |alt|
  {
    if alt == [] then [] else ToList(ForLanguage(w, alt[0], lang)) + Filtered(w, alt[1..], lang)
  }

  function Copies(w: World, alt: Alternative, langs: seq<Lang>): (r: Plan)
    ensures |r| == |langs|
    ensures forall k :: 0 <= k < |langs| ==> r[k] == Filtered(w, alt, langs[k])
  {
    if langs == [] then [] else [Filtered(w, alt, langs[0])] + Copies(w, alt, langs[1..])
  }

  function OneLanguage(p: Promise): Option<Lang> {
    if p.handling.JustOne? && p.languages != [] then Some(p.languages[0]) else None
  }

  // ---------- One step ----------

  /** The plans in which one member of `alt` has been chosen, from the first on. */
  ghost function Choices(pre: Plan, alt: Alternative, post: Plan): (r: seq<Plan>)
    ensures |r| == |alt|
    ensures forall k :: 0 <= k < |alt| ==> r[k] == pre + [[alt[k]]] + post
  {
    if alt == [] then [] else [pre + [[alt[0]]] + post] + Choices(pre, alt[1..], post)
  }

  ghost function Expanded(w: World, pre: Plan, alt: Alternative, post: Plan): seq<Plan> {
    if Multilingual(alt) then
      var copies := Copies(w, alt, w.langCodes);
      if [] in copies then [] else [pre + copies + post]
    else if |alt| != 1 then Choices(pre, alt, post)
    else
      match FirstUnmet(pre, alt[0].required)
      case None => []
      case Some(tags) =>
        var fulfillers := Fulfillers(w, w.factories, tags, OneLanguage(alt[0]));
        if fulfillers == [] then [] else [pre + [fulfillers] + [alt] + post]
  }

  /** The plans that work on the first unsettled alternative leads to; none for a plan that is settled
      or cannot be completed. */
  ghost function Next(w: World, plan: Plan): seq<Plan> {
    var i := FirstUnsettled(plan, 0);
    if i == |plan| then [] else Expanded(w, plan[..i], plan[i], plan[i + 1..])
  }

  // ---------- What is assumed ----------

  ghost predicate LanguageStated(p: Promise) {
    p.handling.JustOne? ==> |p.languages| == 1
  }

  ghost predicate WellFormed(plan: Plan) {
    forall i :: 0 <= i < |plan| ==> plan[i] != [] && forall p :: p in plan[i] ==> LanguageStated(p)
  }

  /** Setting the language of a language-dependent promise leaves its tags alone. */
  ghost predicate SetsLanguage(w: World) {
    forall p: Promise, lang: Lang :: p.handling.Dependent? ==>
      var c := w.withLanguage(p, lang);
      c.handling.JustOne? && c.languages == [lang] && c.required == p.required && c.provided == p.provided
  }

  ghost predicate SameTags(g: Factory) {
    g.byDefault.required == g.required && g.byDefault.provided == g.provided && LanguageStated(g.byDefault)
  }

  ghost predicate Helper(g: Factory, required: seq<Tags>) {
    exists r :: r in required && CanFulfill(g, r)
  }

  /** `rank` witnesses that no factory depends on itself through others. */
  ghost predicate Ranked(w: World, rank: seq<nat>) {
    && |rank| == |w.factories|
    && forall g, h :: 0 <= g < |rank| && 0 <= h < |rank| && Helper(w.factories[h], w.factories[g].required) ==>
         rank[h] < rank[g]
  }

  ghost predicate Acyclic(w: World) {
    exists rank :: Ranked(w, rank)
  }

  /** What factories and options promise. */
  ghost predicate Sound(w: World) {
    w.langCodes != [] && SetsLanguage(w) && forall g :: g in w.factories ==> SameTags(g)
  }

  ghost predicate Layered(w: World) {
    Sound(w) && Acyclic(w)
  }

  ghost function Rank(w: World): (rank: seq<nat>)
    requires Acyclic(w)
    ensures Ranked(w, rank)
  {
    var rank :| Ranked(w, rank); rank
  }
}
