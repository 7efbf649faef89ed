/** A live cycle makes the search run on without end; without one, it ends for every plan. */
module PlanningCycles {
  import opened Common
  import opened PromisePlanning
  import opened PlanningTermination
  import opened PlanningEnds

  // ---------- A live cycle never ends ----------

  /** Needs nothing and provides the tags. */
  function Supplier(tags: Tags): Promise {
    Promise([], tags, Independent, [], 0.0, 0.0, None)
  }

  function Suppliers(lists: seq<Tags>): (r: Plan)
    ensures |r| == |lists| && forall i :: 0 <= i < |lists| ==> r[i] == [Supplier(lists[i])]
  {
    if lists == [] then [] else [[Supplier(lists[0])]] + Suppliers(lists[1..])
  }

  lemma SuppliersMeet(lists: seq<Tags>, tags: Tags)
    ensures Met(Suppliers(lists), tags) <==> exists l :: l in lists && Subset(tags, l)
  {
    var plan := Suppliers(lists);
    if Met(plan, tags) {
      var j :| 0 <= j < |plan| && Provides(plan[j], tags);
      assert plan[j][0] in plan[j] && lists[j] in lists;
    }
    if l :| l in lists && Subset(tags, l) {
      var j :| 0 <= j < |lists| && lists[j] == l;
      assert Provides(plan[j], tags);
    }
  }

  lemma SuppliersAreReady(lists: seq<Tags>)
    ensures Ready(Suppliers(lists))
  {
    var plan := Suppliers(lists);
    forall i | 0 <= i < |plan|
      ensures Settled(plan[..i], plan[i])
    {
      assert plan[i][0] in plan[i];
    }
  }

  /** The lists of the cycle's promises before those of the cycle. */
  ghost function EarlierLists(ps: seq<Promise>, ks: seq<nat>): seq<Tags>
    requires |ps| == |ks| && forall i :: 0 <= i < |ps| ==> ks[i] < |ps[i].required|
  {
    if ps == [] then [] else ps[0].required[..ks[0]] + EarlierLists(ps[1..], ks[1..])
  }

  lemma {:induction false} InEarlierLists(ps: seq<Promise>, ks: seq<nat>, l: Tags)
    requires |ps| == |ks| && forall i :: 0 <= i < |ps| ==> ks[i] < |ps[i].required|
    ensures l in EarlierLists(ps, ks) <==> exists a :: 0 <= a < |ps| && l in ps[a].required[..ks[a]]
  {
    if ps != [] {
      InEarlierLists(ps[1..], ks[1..], l);
      if l in EarlierLists(ps[1..], ks[1..]) {
        var a :| 0 <= a < |ps[1..]| && l in ps[1..][a].required[..ks[1..][a]];
        assert l in ps[a + 1].required[..ks[a + 1]];
      }
      if a :| 0 < a < |ps| && l in ps[a].required[..ks[a]] {
        assert l in ps[1..][a - 1].required[..ks[1..][a - 1]];
      }
    }
  }

  lemma {:induction false} FirstUnmetIs(before: Plan, required: seq<Tags>, k: nat)
    requires k < |required| && !Met(before, required[k]) && forall e :: 0 <= e < k ==> Met(before, required[e])
    ensures FirstUnmet(before, required) == Some(required[k])
  {
    hide Met;
    if k > 0 {
      assert Met(before, required[0]);
      FirstUnmetIs(before, required[1..], k - 1);
    }
  }

  /** Behind the suppliers of all earlier lists, the list of the cycle is the first unmet. */
  lemma CycleListIsUnmet(w: World, ps: seq<Promise>, ks: seq<nat>, i: nat)
    requires LiveCycle(w, ps, ks) && i < |ps|
    ensures FirstUnmet(Suppliers(EarlierLists(ps, ks)), ps[i].required) == Some(ps[i].required[ks[i]])
  {
    hide BringsIn, Met, Subset;
    var lists := EarlierLists(ps, ks);
    var required, k := ps[i].required, ks[i];
    SuppliersMeet(lists, required[k]);
    forall l | l in lists
      ensures !Subset(required[k], l)
    {
      InEarlierLists(ps, ks, l);
      var a :| 0 <= a < |ps| && l in ps[a].required[..ks[a]];
      var e :| 0 <= e < ks[a] && ps[a].required[e] == l;
    }
    forall e | 0 <= e < k
      ensures Met(Suppliers(lists), required[e])
    {
      assert required[..k][e] == required[e];
      InEarlierLists(ps, ks, required[e]);
      SuppliersMeet(lists, required[e]);
      assert Subset(required[e], required[e]) by { SubsetSelf(required[e]); }
    }
    FirstUnmetIs(Suppliers(lists), required, k);
  }

  lemma SubsetSelf(tags: Tags)
    ensures Subset(tags, tags)
  {
  }

  lemma SubsetSettles(before: Plan, sub: Tags, sup: Tags)
    requires Subset(sub, sup) && Met(before, sup)
    ensures Met(before, sub)
  {
    var j :| 0 <= j < |before| && Provides(before[j], sup);
    assert Provides(before[j], sub);
  }

  lemma OnlyNextEnds(w: World, plan: Plan, next: Plan, n: nat)
    requires Next(w, plan) == [next] && Ends(w, plan, n)
    ensures n > 0 && Ends(w, next, n - 1)
  {
    hide Next;
    assert next in Next(w, plan);
  }

  lemma ChosenEnds(w: World, pre: Plan, alt: Alternative, q: Promise, post: Plan, n: nat)
    requires Ready(pre) && !Multilingual(alt) && q in alt && Ends(w, pre + [alt] + post, n)
    ensures Ends(w, pre + [[q]] + post, n)
  {
    hide Ready, Multilingual, Next;
    if |alt| == 1 {
      assert alt == [q];
    } else {
      NextAt(w, pre, alt, post);
      var k :| 0 <= k < |alt| && alt[k] == q;
      assert pre + [[q]] + post in Next(w, pre + [alt] + post);
      EndsMore(w, pre + [[q]] + post, n - 1, n);
    }
  }

  lemma FulfillersAreNext(w: World, pre: Plan, p: Promise, post: Plan, tags: Tags)
    requires Ready(pre) && FirstUnmet(pre, p.required) == Some(tags) && !p.handling.Dependent?
    ensures var fulfillers := Fulfillers(w, w.factories, tags, OneLanguage(p));
            Next(w, pre + [[p]] + post) == if fulfillers == [] then [] else [pre + [fulfillers] + ([[p]] + post)]
  {
    hide Ready, Fulfillers, Next;
    var fulfillers := Fulfillers(w, w.factories, tags, OneLanguage(p));
    assert !Multilingual([p]);
    NextAt(w, pre, [p], post);
    assert [p][0] == p;
    assert pre + [fulfillers] + [[p]] + post == pre + [fulfillers] + ([[p]] + post);
  }

  lemma CopiesAreNext(w: World, pre: Plan, alt: Alternative, post: Plan)
    requires Ready(pre) && Multilingual(alt)
    ensures var copies := Copies(w, alt, w.langCodes);
            Next(w, pre + [alt] + post) == if [] in copies then [] else [pre + copies + post]
  {
    hide Ready, Multilingual, Next;
    NextAt(w, pre, alt, post);
  }

  /** What is brought in stands right behind what is settled some steps later. */
  lemma BroughtInEnds(w: World, pre: Plan, p: Promise, tags: Tags, q: Promise, post: Plan, n: nat)
    returns (behind: Plan)
    requires Sound(w) && Ready(pre) && FirstUnmet(pre, p.required) == Some(tags) && BringsIn(w, p, tags, q)
    requires !p.handling.Dependent? && Ends(w, pre + [[p]] + post, n)
    ensures n > 0 && Ends(w, pre + [[q]] + behind, n - 1)
  {
    hide Ready, Multilingual, Next, Fulfillers, Filtered, Sound, FirstUnmet, Ends, LanguageStated;
    var fulfillers := Fulfillers(w, w.factories, tags, OneLanguage(p));
    behind := [[p]] + post;
    BroughtIn(w, p, tags, q);
    FulfillersAreNext(w, pre, p, post, tags);
    OnlyNextEnds(w, pre + [[p]] + post, pre + [fulfillers] + behind, n);
    if Multilingual(fulfillers) {
      var copies := Copies(w, fulfillers, w.langCodes);
      CopiesAreNext(w, pre, fulfillers, behind);
      OnlyNextEnds(w, pre + [fulfillers] + behind, pre + copies + behind, n - 1);
      SoundSets(w);
      assert pre + copies + behind == pre + [copies[0]] + (copies[1..] + behind);
      behind := copies[1..] + behind;
      FulfillersStated(w, tags, OneLanguage(p));
      FilteredIsMonolingual(w, fulfillers, w.langCodes[0]);
      ChosenEnds(w, pre, copies[0], q, behind, n - 2);
      EndsMore(w, pre + [[q]] + behind, n - 2, n - 1);
    } else {
      ChosenEnds(w, pre, fulfillers, q, behind, n - 1);
    }
  }

  lemma SoundSets(w: World)
    requires Sound(w)
    ensures SetsLanguage(w) && w.langCodes != []
  {
    hide SetsLanguage;
  }

  lemma FulfillersStated(w: World, tags: Tags, lang: Option<Lang>)
    requires Sound(w)
    ensures forall f :: f in Fulfillers(w, w.factories, tags, lang) ==> LanguageStated(f)
  {
    hide SetsLanguage, SameTags, Fulfillers, LanguageStated;
    if Fulfillers(w, w.factories, tags, lang) != [] {
      FulfillersProvide(w, w.factories, tags, lang);
    }
  }

  lemma CycleMembers(w: World, ps: seq<Promise>, ks: seq<nat>, i: nat)
    requires Sound(w) && LiveCycle(w, ps, ks) && i < |ps|
    ensures LanguageStated(ps[i]) && !ps[i].handling.Dependent?
  {
    hide Sound, BringsIn, LanguageStated;
    var before := if i == 0 then |ps| - 1 else i - 1;
    BroughtIn(w, ps[before], ps[before].required[ks[before]], ps[i]);
  }

  lemma {:induction false} CycleGoesOn(w: World, ps: seq<Promise>, ks: seq<nat>, i: nat, post: Plan, n: nat)
    requires Sound(w) && LiveCycle(w, ps, ks) && i < |ps|
    ensures !Ends(w, Suppliers(EarlierLists(ps, ks)) + [[ps[i]]] + post, n)
    decreases n
  {
    hide Sound, BringsIn, LanguageStated, Next, Ready, FirstUnmet, EarlierLists, Suppliers;
    var pre := Suppliers(EarlierLists(ps, ks));
    if Ends(w, pre + [[ps[i]]] + post, n) {
      var next := if i + 1 < |ps| then i + 1 else 0;
      SuppliersAreReady(EarlierLists(ps, ks));
      CycleListIsUnmet(w, ps, ks, i);
      CycleMembers(w, ps, ks, i);
      var behind := BroughtInEnds(w, pre, ps[i], ps[i].required[ks[i]], ps[next], post, n);
      CycleGoesOn(w, ps, ks, next, behind, n - 1);
    }
  }

  /** From the first promise of a live cycle, behind suppliers of the earlier lists, runs have any length. */
  lemma LiveCycleNeverEnds(w: World, ps: seq<Promise>, ks: seq<nat>)
    requires Sound(w) && LiveCycle(w, ps, ks)
    ensures var plan := Suppliers(EarlierLists(ps, ks)) + [[ps[0]]];
            WellFormed(plan) && !HasEnd(w, plan)
  {
    hide Sound, LanguageStated, BringsIn, Settled, Suppliers;
    var pre := Suppliers(EarlierLists(ps, ks));
    SuppliersAreReady(EarlierLists(ps, ks));
    CycleMembers(w, ps, ks, 0);
    assert WellFormed([[ps[0]]]);
    WellFormedParts(pre, [[ps[0]]], []);
    assert pre + [[ps[0]]] + [] == pre + [[ps[0]]];
    forall n: nat
      ensures !Ends(w, pre + [[ps[0]]], n)
    {
      CycleGoesOn(w, ps, ks, 0, [], n);
    }
  }
}
