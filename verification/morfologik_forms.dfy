/** `getFormAttributes`: the combinations of a tag without the attributes of the lexeme. */
module MorfologikForms {
  import opened Morfologik

  const POS: string := "pos"

  /** `LEXEME_TAGS`: from a part of speech to the category that belongs to the lexeme. */
  const LEXEME_TAGS: seq<Pair> := [Pair("subst", "gender"), Pair("verb", "aspect")]

  /** `description[key]`; a missing key has an empty value. */
  function ValueOf(d: Attributes, key: string): string {
    if d == [] then "" else if d[0].key == key then d[0].value else ValueOf(d[1..], key)
  }

  /** `std::map::erase` for some keys. */
  function Without(d: Attributes, keys: set<string>): Attributes {
    if d == [] then []
    else (if d[0].key in keys then [] else [d[0]]) + Without(d[1..], keys)
  }

  lemma {:induction false} WithoutMembers(d: Attributes, keys: set<string>)
    requires Ordered(d)
    ensures Ordered(Without(d, keys))
    ensures forall q :: q in Without(d, keys) <==> q in d && q.key !in keys
  {
    hide Less;
    if d != [] {
      var rest := Without(d[1..], keys);
      WithoutMembers(d[1..], keys);
      forall i | 0 <= i < |rest|
        ensures Less(d[0].key, rest[i].key)
      {
        assert rest[i] in rest;
        var j :| 0 <= j < |d[1..]| && d[1..][j] == rest[i];
        assert d[j + 1] == rest[i];
      }
    }
  }

  lemma {:induction false} WithoutTwice(d: Attributes, a: set<string>, b: set<string>)
    ensures Without(Without(d, a), b) == Without(d, a + b)
  {
    if d != [] {
      WithoutTwice(d[1..], a, b);
      var rest := Without(d[1..], a);
      assert ([d[0]] + rest)[1..] == rest && [] + rest == rest;
    }
  }

  lemma {:induction false} WithoutNothing(d: Attributes, keys: set<string>)
    requires forall i :: 0 <= i < |d| ==> d[i].key !in keys
    ensures Without(d, keys) == d
  {
    if d != [] {
      WithoutNothing(d[1..], keys);
    }
  }

  lemma {:induction false} OthersStay(d: Attributes, key: string, keys: set<string>)
    requires key !in keys
    ensures ValueOf(Without(d, keys), key) == ValueOf(d, key)
  {
    if d != [] {
      OthersStay(d[1..], key, keys);
      var rest := Without(d[1..], keys);
      assert ([d[0]] + rest)[1..] == rest && [] + rest == rest;
    }
  }

  /** Erasing a key takes away a dotted value exactly if its value is dotted. */
  lemma {:induction false} EraseCounts(d: Attributes, key: string)
    requires Ordered(d)
    ensures Dotted(d) == Dotted(Without(d, {key})) + (if HasDot(ValueOf(d, key)) then 1 else 0)
  {
    hide Less, HasDot;
    if d == [] {
      assert !HasDot("") by { NoDot(); }
    } else if d[0].key == key {
      forall i | 0 <= i < |d[1..]|
        ensures d[1..][i].key != key
      {
        LessIsOrder(d[0].key, d[i + 1].key);
      }
      WithoutNothing(d[1..], {key});
      assert Without(d, {key}) == d[1..];
    } else {
      EraseCounts(d[1..], key);
      var rest := Without(d[1..], {key});
      assert Without(d, {key}) == [d[0]] + rest && ([d[0]] + rest)[1..] == rest;
    }
  }

  lemma NoDot()
    ensures !HasDot("")
  {
  }

  /** The categories that belong to lexemes of this part of speech, as the first `n` entries say. */
  function LexemeKeys(pos: string, n: nat): set<string>
    requires n <= |LEXEME_TAGS|
  {
    set k | 0 <= k < n && LEXEME_TAGS[k].key == pos :: LEXEME_TAGS[k].value
  }

  function Form(d: Attributes): Attributes {
    Without(d, LexemeKeys(ValueOf(d, POS), |LEXEME_TAGS|) + {POS})
  }

  /** The gender of a noun and the aspect of a verb belong to the lexeme, and so does the part of speech. */
  lemma FormMembers(d: Attributes)
    requires Ordered(d)
    ensures Ordered(Form(d))
    ensures forall q :: q in Form(d) <==>
              && q in d && q.key != "pos"
              && !(q.key == "gender" && ValueOf(d, "pos") == "subst")
              && !(q.key == "aspect" && ValueOf(d, "pos") == "verb")
  {
    hide Ordered, Without;
    var pos := ValueOf(d, POS);
    var keys := LexemeKeys(pos, |LEXEME_TAGS|) + {POS};
    WithoutMembers(d, keys);
    assert LEXEME_TAGS[0] == Pair("subst", "gender") && LEXEME_TAGS[1] == Pair("verb", "aspect");
    forall key
      ensures key in keys <==>
              key == "pos" || (key == "gender" && pos == "subst") || (key == "aspect" && pos == "verb")
    {
    }
  }

  function DottedPos(d: Attributes): nat {
    if HasDot(ValueOf(d, POS)) then 1 else 0
  }

  /** Erases the categories of the lexeme and the part of speech. The counter is lowered for the dotted ones
      among the first, but not for a dotted part of speech. */
  method RemoveLexemeAttributes(description: Attributes, counter: int) returns (r: Attributes, left: int)
    requires Ordered(description)
    ensures r == Form(description) && Ordered(r)
    ensures left == counter - (Dotted(description) - Dotted(r) - DottedPos(description))
  {
    hide Less, HasDot, Without, Ordered;
    var pos := ValueOf(description, POS);
    r, left := description, counter;
    KeepsAll(description);
    for i := 0 to |LEXEME_TAGS|
      invariant r == Without(description, LexemeKeys(pos, i)) && Ordered(r)
      invariant left == counter - (Dotted(description) - Dotted(r))
    {
      assert LexemeKeys(pos, i + 1)
          == LexemeKeys(pos, i) + if LEXEME_TAGS[i].key == pos then {LEXEME_TAGS[i].value} else {};
      if LEXEME_TAGS[i].key == pos {
        var category := LEXEME_TAGS[i].value;
        if HasDot(ValueOf(r, category)) {
          left := left - 1;
        }
        EraseCounts(r, category);
        WithoutTwice(description, LexemeKeys(pos, i), {category});
        WithoutMembers(r, {category});
        r := Without(r, {category});
      } else {
        assert LexemeKeys(pos, i + 1) == LexemeKeys(pos, i);
      }
    }
    OthersStay(description, POS, LexemeKeys(pos, |LEXEME_TAGS|));
    EraseCounts(r, POS);
    WithoutTwice(description, LexemeKeys(pos, |LEXEME_TAGS|), {POS});
    WithoutMembers(r, {POS});
    r := Without(r, {POS});
  }

  lemma KeepsAll(d: Attributes)
    ensures Without(d, LexemeKeys(ValueOf(d, POS), 0)) == d
  {
    WithoutNothing(d, LexemeKeys(ValueOf(d, POS), 0));
  }

  // ---------- The condition, in terms of the tag ----------

  function Entry(table: Tags, attribute: string): Pair
    requires SeekKey(attribute) in table
  {
    Pair(table[SeekKey(attribute)], attribute)
  }

  /** The description holds exactly the recognized attributes that are the first of their category. */
  lemma {:induction false} DescribedMembers(table: Tags, attrs: seq<string>)
    ensures forall q :: q in Described(table, attrs) <==>
              exists i :: 0 <= i < |attrs| && Kept(table, attrs, i) && q == Entry(table, attrs[i])
    decreases |attrs|
  {
    hide Less, Insert, SeekKey;
    if attrs != [] {
      var n := |attrs| - 1;
      var before, last := attrs[..n], attrs[n];
      var m := Described(table, before);
      DescribedMembers(table, before);
      DescribedKeys(table, before);
      assert forall i :: 0 <= i < n ==> before[i] == attrs[i] && (Kept(table, attrs, i) <==> Kept(table, before, i));
      if SeekKey(last) in table {
        InsertKeeps(m, Entry(table, last));
        assert Kept(table, attrs, n) <==> !HasKey(m, table[SeekKey(last)]);
      }
      forall q
        ensures q in Described(table, attrs) <==>
                q in m || (Kept(table, attrs, n) && q == Entry(table, last))
      {
      }
    }
  }

  lemma {:induction false} ValueOfMember(d: Attributes, key: string)
    requires Ordered(d)
    ensures forall q :: q in d && q.key == key ==> ValueOf(d, key) == q.value
    ensures HasDot(ValueOf(d, key)) ==> Pair(key, ValueOf(d, key)) in d
  {
    hide Less;
    if d != [] {
      ValueOfMember(d[1..], key);
      forall q | q in d && q.key == key
        ensures ValueOf(d, key) == q.value
      {
        var j :| 0 <= j < |d| && d[j] == q;
        if j > 0 {
          LessIsOrder(d[0].key, d[j].key);
          assert q in d[1..];
        }
      }
    }
  }

  /** Every dotted attribute is recognized, the first of its category, and no part of speech. */
  predicate AllDottedInForm(table: Tags, attrs: seq<string>) {
    forall i :: 0 <= i < |attrs| && HasDot(attrs[i]) ==> Kept(table, attrs, i) && table[SeekKey(attrs[i])] != POS
  }

  lemma {:induction false} FormCondition(table: Tags, attrs: seq<string>)
    ensures AllDottedInForm(table, attrs) <==>
            AllDottedKept(table, attrs) && !HasDot(ValueOf(Described(table, attrs), POS))
  {
    hide Less, HasDot, SeekKey, InCategory;
    var d := Described(table, attrs);
    DescribedMembers(table, attrs);
    DescribedKeys(table, attrs);
    ValueOfMember(d, POS);
    if HasDot(ValueOf(d, POS)) {
      var i :| 0 <= i < |attrs| && Kept(table, attrs, i) && Pair(POS, ValueOf(d, POS)) == Entry(table, attrs[i]);
      assert HasDot(attrs[i]) && table[SeekKey(attrs[i])] == POS;
    }
    if AllDottedKept(table, attrs) && !HasDot(ValueOf(d, POS)) {
      forall i | 0 <= i < |attrs| && HasDot(attrs[i])
        ensures Kept(table, attrs, i) && SeekKey(attrs[i]) in table && table[SeekKey(attrs[i])] != POS
      {
        assert Kept(table, attrs, i);
        assert Entry(table, attrs[i]) in d;
      }
    }
  }

  /** The combinations of what is left come out exactly if every dotted attribute is recognized, the first of
      its category and no part of speech; otherwise nothing comes out. */
  method GetFormAttributes(table: Tags, tag: string) returns (all: seq<Attributes>)
    ensures var attrs := Split(tag, OUTER_SEPARATOR);
            all == if AllDottedInForm(table, attrs) then Product(Form(Described(table, attrs))) else []
  {
    hide Less, HasDot, SeekKey, Form, AllDottedInForm, AllDottedKept, Described, Product, Ordered;
    ghost var attrs := Split(tag, OUTER_SEPARATOR);
    var rawDescription, counter := ParseSimple(table, tag);
    CountedAndKept(table, attrs);
    DescribedKeys(table, attrs);
    FormCondition(table, attrs);
    var form, left := RemoveLexemeAttributes(rawDescription, counter);
    ExpandedIsProduct(form, left);
    if left == 0 {
      PlainIsItsProduct(form);
      return [form];
    }
    all, left := ExpandDescriptions(form, left);
  }

  // ---------- Tags of which nothing comes out ----------

  const SOME_TAGS: Tags := map["subst" := "pos", "sg" := "number", "m1" := "gender", "m3" := "gender"]

  lemma SeekKeyOf(first: string, rest: string)
    requires INNER_SEPARATOR !in first
    ensures SeekKey(first) == first && SeekKey(first + [INNER_SEPARATOR] + rest) == first
    ensures !HasDot(first) && HasDot(first + [INNER_SEPARATOR] + rest)
  {
    SplitFront(first, rest, INNER_SEPARATOR);
  }

  /** Two dotted genders: the second is counted, but not put into the description. */
  lemma SecondGenderIsLost()
    ensures var attrs := Split("sg:m1.m2:m3.f", OUTER_SEPARATOR);
            && attrs == ["sg", "m1.m2", "m3.f"]
            && !AllDottedKept(SOME_TAGS, attrs) && Product(Described(SOME_TAGS, attrs)) != []
  {
    hide Split, SeekKey, Described, Product;
    var attrs := ["sg", "m1.m2", "m3.f"];
    SplitJoin(attrs, OUTER_SEPARATOR);
    assert attrs[1..] == ["m1.m2", "m3.f"] && attrs[1..][1..] == ["m3.f"];
    assert Join(attrs, OUTER_SEPARATOR) == "sg:m1.m2:m3.f";
    SeekKeyOf("m1", "m2");
    SeekKeyOf("m3", "f");
    assert "m1" + [INNER_SEPARATOR] + "m2" == attrs[1] && "m3" + [INNER_SEPARATOR] + "f" == attrs[2];
    assert InCategory(SOME_TAGS, attrs[1], "gender");
    assert HasDot(attrs[2]) && !Kept(SOME_TAGS, attrs, 2);
    ProductNonEmpty(Described(SOME_TAGS, attrs));
  }

  lemma NoValues()
    ensures Product([]) == [[]]
  {
  }

  /** The description is ordered by category, and its combinations by the parts of the values. */
  lemma TwoReadings()
    ensures Described(SOME_TAGS, ["sg", "m1.m2"]) == [Pair("gender", "m1.m2"), Pair("number", "sg")]
    ensures Product([Pair("gender", "m1.m2"), Pair("number", "sg")])
         == [[Pair("gender", "m1"), Pair("number", "sg")], [Pair("gender", "m2"), Pair("number", "sg")]]
  {
    hide Split, SeekKey, Product;
    var attrs, number, gender := ["sg", "m1.m2"], Pair("number", "sg"), Pair("gender", "m1.m2");
    SeekKeyOf("m1", "m2");
    SeekKeyOf("sg", "");
    assert "m1" + [INNER_SEPARATOR] + "m2" == attrs[1];
    assert attrs[..1] == ["sg"] && attrs[..1][..0] == [];
    assert Described(SOME_TAGS, ["sg"]) == [number] by {
      assert ["sg"][..0] == [] && Described(SOME_TAGS, []) == [];
    }
    assert Less("gender", "number");
    assert Insert([number], gender) == [gender, number];
    SplitFront("m1", "m2", INNER_SEPARATOR);
    SplitFront("m2", "", INNER_SEPARATOR);
    SplitFront("sg", "", INNER_SEPARATOR);
    var d: Attributes := [gender, number];
    assert d[1..] == [number] && [number][1..] == [];
    assert Product([]) == [[]] by { NoValues(); }
    ProductAt([number], 0, 0, 0);
    assert |Product([number])| == 1 && Product([number])[0] == [number];
    assert Product([number]) == [[number]];
    assert Split("m1.m2", INNER_SEPARATOR) == ["m1", "m2"] by {
      assert "m1" + [INNER_SEPARATOR] + "m2" == "m1.m2";
    }
    ProductAt(d, 0, 0, 0);
    ProductAt(d, 1, 0, 1);
    var all := Product(d);
    assert |all| == 2 && all == [all[0], all[1]];
    assert all[0] == [Pair("gender", "m1"), number] && all[1] == [Pair("gender", "m2"), number];
  }

  /** A dotted part of speech: `parse` gives both readings, `getFormAttributes` gives nothing. */
  lemma DottedPosIsLost()
    ensures var attrs := Split("subst.adj:sg", OUTER_SEPARATOR);
            && attrs == ["subst.adj", "sg"]
            && AllDottedKept(SOME_TAGS, attrs) && !AllDottedInForm(SOME_TAGS, attrs)
            && Product(Form(Described(SOME_TAGS, attrs))) != []
  {
    hide Split, SeekKey, Described, Product, Form;
    var attrs := ["subst.adj", "sg"];
    SplitJoin(attrs, OUTER_SEPARATOR);
    assert attrs[1..] == ["sg"];
    assert Join(attrs, OUTER_SEPARATOR) == "subst.adj:sg";
    SeekKeyOf("subst", "adj");
    SeekKeyOf("sg", "");
    assert "subst" + [INNER_SEPARATOR] + "adj" == attrs[0];
    assert HasDot(attrs[0]) && Kept(SOME_TAGS, attrs, 0);
    ProductNonEmpty(Form(Described(SOME_TAGS, attrs)));
  }
}
