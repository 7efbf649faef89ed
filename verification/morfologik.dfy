/** `MorfologikTagsParser`: a tag with dotted values stands for every combination of their parts. */
module Morfologik {

  const INNER_SEPARATOR: char := '.'
  const OUTER_SEPARATOR: char := ':'

  // ---------- std::map<string, string> in key order ----------

  datatype Pair = Pair(key: string, value: string)

  /** The entries of a `std::map`, in the order of iteration. */
  type Attributes = seq<Pair>

  predicate Less(a: string, b: string) {
    b != [] && (a == [] || a[0] < b[0] || (a[0] == b[0] && Less(a[1..], b[1..])))
  }

  lemma {:induction false} LessIsOrder(a: string, b: string)
    ensures Less(a, b) ==> !Less(b, a) && a != b
    ensures !Less(a, b) && !Less(b, a) ==> a == b
    decreases |a|
  {
    if a != [] && b != [] {
      LessIsOrder(a[1..], b[1..]);
      assert a == [a[0]] + a[1..] && b == [b[0]] + b[1..];
    }
  }

  predicate Ordered(m: Attributes) {
    forall i, j :: 0 <= i < j < |m| ==> Less(m[i].key, m[j].key)
  }

  /** `std::map::insert`: an existing key keeps its value. */
  function Insert(m: Attributes, p: Pair): Attributes {
    if m == [] || Less(p.key, m[0].key) then [p] + m
    else if p.key == m[0].key then m
    else [m[0]] + Insert(m[1..], p)
  }

  lemma {:induction false} InsertLast(m: Attributes, p: Pair)
    requires forall i :: 0 <= i < |m| ==> Less(m[i].key, p.key)
    ensures Insert(m, p) == m + [p]
    decreases |m|
  {
    if m != [] {
      LessIsOrder(m[0].key, p.key);
      InsertLast(m[1..], p);
    }
  }

  // ---------- Dotted values ----------

  predicate HasDot(v: string) {
    INNER_SEPARATOR in v
  }

  /** `boost::split` on one separator. */
  function Split(s: string, sep: char): (parts: seq<string>)
    ensures parts != [] && forall k :: 0 <= k < |parts| ==> sep !in parts[k]
    ensures |parts| == 1 <==> sep !in s
    ensures |parts| == 1 ==> parts[0] == s
  {
    if s == [] then [[]]
    else if s[0] == sep then [[]] + Split(s[1..], sep)
    else
      var rest := Split(s[1..], sep);
      [[s[0]] + rest[0]] + rest[1..]
  }

  function Join(parts: seq<string>, sep: char): string
    requires parts != []
  {
    if |parts| == 1 then parts[0] else parts[0] + [sep] + Join(parts[1..], sep)
  }

  /** Splitting loses nothing. */
  lemma {:induction false} JoinSplit(s: string, sep: char)
    ensures Join(Split(s, sep), sep) == s
  {
    if s != [] {
      JoinSplit(s[1..], sep);
      JoinFront(s[0], Split(s[1..], sep), sep);
      assert s == [s[0]] + s[1..];
    }
  }

  lemma JoinFront(c: char, rest: seq<string>, sep: char)
    requires rest != []
    ensures Join([[]] + rest, sep) == [sep] + Join(rest, sep)
    ensures Join([[c] + rest[0]] + rest[1..], sep) == [c] + Join(rest, sep)
  {
    var dotted, longer := [[]] + rest, [[c] + rest[0]] + rest[1..];
    assert dotted[1..] == rest && longer[1..] == rest[1..];
    if |rest| > 1 {
      assert ([c] + rest[0]) + [sep] + Join(rest[1..], sep) == [c] + (rest[0] + [sep] + Join(rest[1..], sep));
    }
  }

  lemma {:induction false} SplitFront(part: string, rest: string, sep: char)
    requires sep !in part
    ensures Split(part, sep) == [part]
    ensures Split(part + [sep] + rest, sep) == [part] + Split(rest, sep)
  {
    if part == [] {
      SplitHere(rest, sep);
      assert part + [sep] + rest == [sep] + rest;
    } else {
      SplitFront(part[1..], rest, sep);
      SplitLater(part[0], part[1..], rest, sep);
      assert [part[0]] + part[1..] == part;
    }
  }

  lemma SplitHere(rest: string, sep: char)
    ensures Split([sep] + rest, sep) == [[]] + Split(rest, sep)
  {
    assert ([sep] + rest)[1..] == rest;
  }

  lemma SplitLater(c: char, part: string, rest: string, sep: char)
    requires c != sep && Split(part + [sep] + rest, sep) == [part] + Split(rest, sep)
    ensures Split([c] + part + [sep] + rest, sep) == [[c] + part] + Split(rest, sep)
  {
    var all := [c] + part + [sep] + rest;
    assert all[0] == c && all[1..] == part + [sep] + rest;
  }

  /** And splitting what was joined gives the parts. */
  lemma {:induction false} SplitJoin(parts: seq<string>, sep: char)
    requires parts != [] && forall k :: 0 <= k < |parts| ==> sep !in parts[k]
    ensures Split(Join(parts, sep), sep) == parts
  {
    if |parts| == 1 {
      SplitFront(parts[0], [], sep);
    } else {
      SplitJoin(parts[1..], sep);
      SplitFront(parts[0], Join(parts[1..], sep), sep);
    }
  }

  function Count(s: string, c: char): nat {
    if s == [] then 0 else (if s[0] == c then 1 else 0) + Count(s[1..], c)
  }

  lemma {:induction false} PartsCounted(s: string, sep: char)
    ensures |Split(s, sep)| == Count(s, sep) + 1
  {
    if s != [] {
      PartsCounted(s[1..], sep);
    }
  }

  /** The number of dotted values. */
  function Dotted(d: Attributes): nat {
    if d == [] then 0 else (if HasDot(d[0].value) then 1 else 0) + Dotted(d[1..])
  }

  // ---------- The Cartesian product ----------

  /** Each part of the first value, in order, in front of every combination of the rest. */
  function Product(d: Attributes): seq<Attributes> {
    if d == [] then [[]]
    else Spread(d[0].key, Split(d[0].value, INNER_SEPARATOR), Product(d[1..]))
  }

  function Spread(key: string, parts: seq<string>, ms: seq<Attributes>): seq<Attributes> {
    if parts == [] then [] else Prefixed(Pair(key, parts[0]), ms) + Spread(key, parts[1..], ms)
  }

  function Prefixed(p: Pair, ms: seq<Attributes>): (r: seq<Attributes>)
    ensures |r| == |ms|
  {
    seq(|ms|, i requires 0 <= i < |ms| => [p] + ms[i])
  }

  /** `m` takes one part of every value of `d`. */
  ghost predicate Chooses(m: Attributes, d: Attributes) {
    && |m| == |d|
    && forall i :: 0 <= i < |d| ==> m[i].key == d[i].key && m[i].value in Split(d[i].value, INNER_SEPARATOR)
  }

  function Combinations(d: Attributes): nat {
    if d == [] then 1 else |Split(d[0].value, INNER_SEPARATOR)| * Combinations(d[1..])
  }

  lemma {:induction false} InSpread(key: string, parts: seq<string>, ms: seq<Attributes>, m: Attributes)
    ensures |Spread(key, parts, ms)| == |parts| * |ms|
    ensures m in Spread(key, parts, ms) <==>
            m != [] && m[0].key == key && m[0].value in parts && m[1..] in ms
    decreases |parts|
  {
    if parts != [] {
      InSpread(key, parts[1..], ms, m);
      InPrefixed(Pair(key, parts[0]), ms, m);
      assert |parts| * |ms| == |ms| + (|parts| - 1) * |ms|;
    }
  }

  lemma InPrefixed(p: Pair, ms: seq<Attributes>, m: Attributes)
    ensures m in Prefixed(p, ms) <==> m != [] && m[0] == p && m[1..] in ms
  {
    if m in Prefixed(p, ms) {
      var i :| 0 <= i < |ms| && m == [p] + ms[i];
      assert m[1..] == ms[i];
    }
    if m != [] && m[0] == p && m[1..] in ms {
      var i :| 0 <= i < |ms| && ms[i] == m[1..];
      assert m == [p] + ms[i] == Prefixed(p, ms)[i];
    }
  }

  /** The product holds exactly the combinations of parts, as many as the part counts multiply to. */
  lemma {:induction false} ProductMembers(d: Attributes, m: Attributes)
    ensures m in Product(d) <==> Chooses(m, d)
    ensures |Product(d)| == Combinations(d)
    decreases |d|
  {
    if d != [] {
      InSpread(d[0].key, Split(d[0].value, INNER_SEPARATOR), Product(d[1..]), m);
      if m != [] {
        ProductMembers(d[1..], m[1..]);
        assert Chooses(m, d) ==> Chooses(m[1..], d[1..]);
      } else {
        ProductMembers(d[1..], m);
      }
    }
  }

  /** Position `j` of block `k` among `count` blocks of `n`. */
  lemma {:induction false} InBlock(k: nat, j: nat, n: nat, count: nat)
    requires k < count && j < n
    ensures k * n + j < count * n
    ensures k > 0 ==> (k - 1) * n + j >= 0 && k * n + j == n + ((k - 1) * n + j)
    ensures k == 0 ==> k * n + j == j
    decreases k
  {
    assert count * n == (count - 1) * n + n;
    if k > 0 {
      InBlock(k - 1, j, n, count - 1);
      assert k * n == (k - 1) * n + n;
    }
  }

  lemma {:induction false} SpreadAt(key: string, parts: seq<string>, ms: seq<Attributes>, k: nat, j: nat, i: nat)
    requires k < |parts| && j < |ms| && i == k * |ms| + j
    ensures i < |Spread(key, parts, ms)| == |parts| * |ms|
    ensures Spread(key, parts, ms)[i] == [Pair(key, parts[k])] + ms[j]
    decreases |parts|
  {
    InSpread(key, parts, ms, []);
    InBlock(k, j, |ms|, |parts|);
    var first, rest := Prefixed(Pair(key, parts[0]), ms), Spread(key, parts[1..], ms);
    assert Spread(key, parts, ms) == first + rest;
    if k > 0 {
      SpreadAt(key, parts[1..], ms, k - 1, j, i - |ms|);
    }
  }

  /** The combinations with the first part of the first value come first, each block of them in the order of the
      other values. */
  lemma ProductAt(d: Attributes, k: nat, j: nat, i: nat)
    requires d != [] && k < |Split(d[0].value, INNER_SEPARATOR)| && j < |Product(d[1..])|
    requires i == k * |Product(d[1..])| + j
    ensures i < |Product(d)| == |Split(d[0].value, INNER_SEPARATOR)| * |Product(d[1..])|
    ensures Product(d)[i] == [Pair(d[0].key, Split(d[0].value, INNER_SEPARATOR)[k])] + Product(d[1..])[j]
  {
    hide Split, Spread;
    SpreadAt(d[0].key, Split(d[0].value, INNER_SEPARATOR), Product(d[1..]), k, j, i);
  }

  lemma {:induction false} ChoicesHaveNoDots(m: Attributes, d: Attributes)
    requires Chooses(m, d)
    ensures Dotted(m) == 0
    decreases |d|
  {
    if d != [] {
      assert m[0].value in Split(d[0].value, INNER_SEPARATOR);
      ChoicesHaveNoDots(m[1..], d[1..]);
    }
  }

  lemma {:induction false} ProductNonEmpty(d: Attributes)
    ensures Product(d) != [] && forall m :: m in Product(d) ==> Dotted(m) == 0
  {
    forall m | m in Product(d)
      ensures Dotted(m) == 0
    {
      ProductMembers(d, m);
      ChoicesHaveNoDots(m, d);
    }
    ProductMembers(d, []);
    CombinationsPositive(d);
  }

  lemma {:induction false} CombinationsPositive(d: Attributes)
    ensures Combinations(d) > 0
  {
    if d != [] {
      CombinationsPositive(d[1..]);
    }
  }

  // ---------- One level of expansion ----------

  /** The first dotted value replaced by each of its parts; nothing when no value is dotted. */
  function ExpandOne(d: Attributes): seq<Attributes> {
    if d == [] then []
    else if HasDot(d[0].value) then Headed(d[0].key, Split(d[0].value, INNER_SEPARATOR), d[1..])
    else Prefixed(d[0], ExpandOne(d[1..]))
  }

  function Headed(key: string, parts: seq<string>, tail: Attributes): (r: seq<Attributes>)
    ensures |r| == |parts|
  {
    seq(|parts|, k requires 0 <= k < |parts| => [Pair(key, parts[k])] + tail)
  }

  function ExpandEach(ds: seq<Attributes>): seq<Attributes> {
    if ds == [] then [] else ExpandOne(ds[0]) + ExpandEach(ds[1..])
  }

  /** `n` levels of expansion. */
  function Levels(ds: seq<Attributes>, n: nat): seq<Attributes>
    decreases n
  {
    if n == 0 then ds else Levels(ExpandEach(ds), n - 1)
  }

  function Products(ds: seq<Attributes>): seq<Attributes> {
    if ds == [] then [] else Product(ds[0]) + Products(ds[1..])
  }

  lemma {:induction false} ProductsConcat(a: seq<Attributes>, b: seq<Attributes>)
    ensures Products(a + b) == Products(a) + Products(b)
    decreases |a|
  {
    if a == [] {
      assert a + b == b;
    } else {
      ProductsConcat(a[1..], b);
      assert (a + b)[1..] == a[1..] + b;
      assert Product(a[0]) + (Products(a[1..]) + Products(b)) == (Product(a[0]) + Products(a[1..])) + Products(b);
    }
  }

  lemma ProductOfPlain(p: Pair, tail: Attributes)
    requires !HasDot(p.value)
    ensures Product([p] + tail) == Prefixed(p, Product(tail))
  {
    var d := [p] + tail;
    assert d[1..] == tail;
    var parts := Split(p.value, INNER_SEPARATOR);
    assert d[0] == p && parts[0] == p.value && parts[1..] == [];
    assert Spread(p.key, parts[1..], Product(tail)) == [];
    assert Spread(p.key, parts, Product(tail)) == Prefixed(Pair(p.key, parts[0]), Product(tail)) + [];
  }

  lemma {:induction false} ProductsHeaded(key: string, parts: seq<string>, tail: Attributes)
    requires forall k :: 0 <= k < |parts| ==> !HasDot(parts[k])
    ensures Products(Headed(key, parts, tail)) == Spread(key, parts, Product(tail))
    decreases |parts|
  {
    if parts != [] {
      ProductsHeaded(key, parts[1..], tail);
      ProductOfPlain(Pair(key, parts[0]), tail);
      assert Headed(key, parts, tail)[1..] == Headed(key, parts[1..], tail);
    }
  }

  lemma PrefixedConcat(p: Pair, a: seq<Attributes>, b: seq<Attributes>)
    ensures Prefixed(p, a + b) == Prefixed(p, a) + Prefixed(p, b)
  {
  }

  lemma {:induction false} ProductsPrefixed(p: Pair, ds: seq<Attributes>)
    requires !HasDot(p.value)
    ensures Products(Prefixed(p, ds)) == Prefixed(p, Products(ds))
    decreases |ds|
  {
    if ds != [] {
      ProductsPrefixed(p, ds[1..]);
      ProductOfPlain(p, ds[0]);
      PrefixedConcat(p, Product(ds[0]), Products(ds[1..]));
      assert Prefixed(p, ds)[1..] == Prefixed(p, ds[1..]);
    }
  }

  /** Expanding the first dotted value keeps the product, and its order. */
  lemma {:induction false} ExpandKeepsProduct(d: Attributes)
    requires Dotted(d) > 0
    ensures Products(ExpandOne(d)) == Product(d)
  {
    if HasDot(d[0].value) {
      ProductsHeaded(d[0].key, Split(d[0].value, INNER_SEPARATOR), d[1..]);
    } else {
      ExpandKeepsProduct(d[1..]);
      ProductsPrefixed(d[0], ExpandOne(d[1..]));
      ProductOfPlain(d[0], d[1..]);
      assert d == [d[0]] + d[1..];
    }
  }

  ghost predicate AllDotted(ds: seq<Attributes>, n: nat) {
    forall k :: 0 <= k < |ds| ==> Dotted(ds[k]) == n
  }

  lemma {:induction false} ExpandOneDotted(d: Attributes)
    ensures Dotted(d) > 0 ==> ExpandOne(d) != [] && AllDotted(ExpandOne(d), Dotted(d) - 1)
    ensures Dotted(d) == 0 ==> ExpandOne(d) == []
  {
    if d != [] {
      ExpandOneDotted(d[1..]);
      var r := ExpandOne(d);
      forall k | 0 <= k < |r|
        ensures Dotted(r[k]) == Dotted(d) - 1
      {
        if HasDot(d[0].value) {
          assert r[k][1..] == d[1..];
        } else {
          assert r[k][1..] == ExpandOne(d[1..])[k];
        }
      }
    }
  }

  lemma {:induction false} ExpandEachDotted(ds: seq<Attributes>, n: nat)
    requires AllDotted(ds, n)
    ensures n > 0 ==> AllDotted(ExpandEach(ds), n - 1) && (ds != [] ==> ExpandEach(ds) != [])
    ensures n > 0 ==> Products(ExpandEach(ds)) == Products(ds)
    ensures n == 0 ==> ExpandEach(ds) == []
    decreases |ds|
  {
    if ds != [] {
      ExpandOneDotted(ds[0]);
      ExpandEachDotted(ds[1..], n);
      if n > 0 {
        ExpandKeepsProduct(ds[0]);
        ProductsConcat(ExpandOne(ds[0]), ExpandEach(ds[1..]));
      }
    }
  }

  lemma {:induction false} PlainIsItsProduct(d: Attributes)
    requires Dotted(d) == 0
    ensures Product(d) == [d]
  {
    if d != [] {
      PlainIsItsProduct(d[1..]);
      ProductOfPlain(d[0], d[1..]);
      assert d == [d[0]] + d[1..];
    }
  }

  lemma {:induction false} PlainProducts(ds: seq<Attributes>)
    requires AllDotted(ds, 0)
    ensures Products(ds) == ds
    decreases |ds|
  {
    if ds != [] {
      PlainIsItsProduct(ds[0]);
      PlainProducts(ds[1..]);
    }
  }

  /** As many levels as there are dotted values give the product; fewer leave dots, more leave
      nothing. */
  lemma {:induction false} LevelsAre(ds: seq<Attributes>, n: nat, counter: nat)
    requires ds != [] && AllDotted(ds, n)
    ensures counter == n ==> Levels(ds, counter) == Products(ds)
    ensures counter > n ==> Levels(ds, counter) == []
    ensures counter < n ==> Levels(ds, counter) != [] && AllDotted(Levels(ds, counter), n - counter)
    decreases counter
  {
    hide ExpandEach, Products, Dotted;
    if counter == 0 {
      if n == 0 {
        PlainProducts(ds);
      }
    } else {
      ExpandEachDotted(ds, n);
      if n == 0 {
        NothingLeft(counter - 1);
      } else {
        LevelsAre(ExpandEach(ds), n - 1, counter - 1);
      }
    }
  }

  lemma {:induction false} NothingLeft(n: nat)
    ensures Levels([], n) == []
  {
    if n > 0 {
      NothingLeft(n - 1);
    }
  }

  /** The result of `expandDescriptions_` for a counter of any sign. */
  function Expanded(d: Attributes, counter: int): seq<Attributes> {
    Levels([d], if counter > 0 then counter else 0)
  }

  /** The result is the Cartesian product exactly when the counter is the number of dotted values. */
  lemma ExpandedIsProduct(d: Attributes, counter: int)
    ensures Expanded(d, counter) == Product(d) <==> (if counter > 0 then counter else 0) == Dotted(d)
    ensures counter > Dotted(d) ==> Expanded(d, counter) == []
  {
    var n: nat := if counter > 0 then counter else 0;
    LevelsAre([d], Dotted(d), n);
    ProductNonEmpty(d);
    assert Products([d]) == Product(d) + Products([]);
    if n < Dotted(d) {
      assert Dotted(Levels([d], n)[0]) > 0;
      assert Levels([d], n)[0] in Levels([d], n);
    }
  }

  // ---------- The loops ----------

  /** The position of the first dotted value, or |d|. */
  function FirstDotted(d: Attributes): (i: nat)
    ensures i <= |d| && (i < |d| ==> HasDot(d[i].value)) && forall j :: 0 <= j < i ==> !HasDot(d[j].value)
    ensures i == |d| <==> Dotted(d) == 0
  {
    if d == [] || HasDot(d[0].value) then 0 else 1 + FirstDotted(d[1..])
  }

  /** The expansions differ from `d` in the first dotted value only. */
  lemma {:induction false} ExpandOneAt(d: Attributes)
    ensures FirstDotted(d) == |d| ==> ExpandOne(d) == []
    ensures var i := FirstDotted(d);
            i < |d| ==>
              var parts := Split(d[i].value, INNER_SEPARATOR);
              && |ExpandOne(d)| == |parts|
              && forall k :: 0 <= k < |parts| ==> ExpandOne(d)[k] == d[i := Pair(d[i].key, parts[k])]
  {
    hide Split, HasDot, Dotted;
    if d != [] {
      if HasDot(d[0].value) {
        var parts := Split(d[0].value, INNER_SEPARATOR);
        assert ExpandOne(d) == Headed(d[0].key, parts, d[1..]);
        forall k | 0 <= k < |parts|
          ensures [Pair(d[0].key, parts[k])] + d[1..] == d[0 := Pair(d[0].key, parts[k])]
        {
        }
      } else {
        var i := FirstDotted(d[1..]);
        ExpandOneAt(d[1..]);
        assert ExpandOne(d) == Prefixed(d[0], ExpandOne(d[1..]));
        assert FirstDotted(d) == i + 1;
        if i < |d[1..]| {
          var parts := Split(d[i + 1].value, INNER_SEPARATOR);
          forall k | 0 <= k < |parts|
            ensures ExpandOne(d)[k] == d[i + 1 := Pair(d[i + 1].key, parts[k])]
          {
            BehindFirst(d, i, Pair(d[i + 1].key, parts[k]));
          }
        }
      }
    }
  }

  lemma BehindFirst(d: Attributes, i: nat, p: Pair)
    requires i + 1 < |d|
    ensures d[1..][i] == d[i + 1] && [d[0]] + d[1..][i := p] == d[i + 1 := p]
  {
  }

  lemma ExpandOneOrdered(d: Attributes)
    requires Ordered(d)
    ensures forall k :: 0 <= k < |ExpandOne(d)| ==> Ordered(ExpandOne(d)[k])
  {
    ExpandOneAt(d);
  }

  method GetLengthOfFirstComplexAttribute(d: Attributes) returns (n: nat)
    ensures n == |ExpandOne(d)|
  {
    ExpandOneAt(d);
    for i := 0 to |d|
      invariant forall j :: 0 <= j < i ==> !HasDot(d[j].value)
    {
      if HasDot(d[i].value) {
        PartsCounted(d[i].value, INNER_SEPARATOR);
        return Count(d[i].value, INNER_SEPARATOR) + 1;
      }
    }
    return 0;
  }

  /** `result[i].insert` for every map of the vector. */
  method InsertEverywhere(maps: seq<Attributes>, ps: seq<Pair>) returns (r: seq<Attributes>)
    requires |ps| == |maps|
    requires forall i, j :: 0 <= i < |maps| && 0 <= j < |maps[i]| ==> Less(maps[i][j].key, ps[i].key)
    ensures |r| == |maps| && forall i :: 0 <= i < |maps| ==> r[i] == maps[i] + [ps[i]]
  {
    r := maps;
    for i := 0 to |maps|
      invariant |r| == |maps|
      invariant forall k :: 0 <= k < i ==> r[k] == maps[k] + [ps[k]]
      invariant forall k :: i <= k < |maps| ==> r[k] == maps[k]
    {
      InsertLast(r[i], ps[i]);
      r := r[i := Insert(r[i], ps[i])];
    }
  }

  /** Pair `it` of each of them. */
  lemma ExpandedPair(d: Attributes, it: nat)
    requires it < |d|
    ensures forall k :: 0 <= k < |ExpandOne(d)| ==> |ExpandOne(d)[k]| == |d| && ExpandOne(d)[k][it].key == d[it].key
    ensures FirstDotted(d) < it ==> forall k :: 0 <= k < |ExpandOne(d)| ==> ExpandOne(d)[k][it] == d[it]
    ensures it < FirstDotted(d) ==> forall k :: 0 <= k < |ExpandOne(d)| ==> ExpandOne(d)[k][it] == d[it]
    ensures it == FirstDotted(d) ==>
              var parts := Split(d[it].value, INNER_SEPARATOR);
              |ExpandOne(d)| == |parts|
              && forall k :: 0 <= k < |parts| ==> ExpandOne(d)[k][it] == Pair(d[it].key, parts[k])
  {
    hide Split, HasDot, Dotted, ExpandOne;
    ExpandOneAt(d);
  }

  lemma ExpandedShape(d: Attributes)
    ensures forall k :: 0 <= k < |ExpandOne(d)| ==>
              |ExpandOne(d)[k]| == |d| && forall j :: 0 <= j < |d| ==> ExpandOne(d)[k][j].key == d[j].key
  {
    hide Split, HasDot, Dotted, ExpandOne;
    ExpandOneAt(d);
  }

  method ExpandSingleDescription(d: Attributes) returns (result: seq<Attributes>)
    requires Ordered(d)
    ensures result == ExpandOne(d)
  {
    var length := GetLengthOfFirstComplexAttribute(d);
    result := seq(length, _ => []);
    hide ExpandOne, Split, HasDot, Dotted, Ordered, Less;
    ghost var goal, f := ExpandOne(d), FirstDotted(d);
    ExpandedShape(d);
    var firstComplexAttribute := true;
    for it := 0 to |d|
      invariant |result| == length
      invariant firstComplexAttribute <==> it <= f
      invariant forall k :: 0 <= k < length ==> result[k] == goal[k][..it]
    {
      ExpandedPair(d, it);
      var p := d[it];
      var ps := seq(length, _ => p);
      if firstComplexAttribute && HasDot(p.value) {
        var parts := Split(p.value, INNER_SEPARATOR);
        ps := seq(length, k requires 0 <= k < length => Pair(p.key, parts[k]));
        firstComplexAttribute := false;
      }
      assert forall k :: 0 <= k < length ==> ps[k] == goal[k][it];
      OrderedUpTo(goal, d, it);
      result := InsertEverywhere(result, ps);
    }
    assert forall k :: 0 <= k < length ==> goal[k][..|d|] == goal[k];
  }

  /** All maps have the keys of `d`, so the next pair belongs at the end of each prefix. */
  lemma OrderedUpTo(goal: seq<Attributes>, d: Attributes, it: nat)
    requires Ordered(d) && it < |d|
    requires forall k :: 0 <= k < |goal| ==> |goal[k]| == |d| && forall j :: 0 <= j < |d| ==> goal[k][j].key == d[j].key
    ensures forall k, j :: 0 <= k < |goal| && 0 <= j < it ==> Less(goal[k][..it][j].key, goal[k][it].key)
    ensures forall k :: 0 <= k < |goal| ==> goal[k][..it] + [goal[k][it]] == goal[k][..it + 1]
  {
  }

  /** One turn of the loop of `expandDescriptions_`. */
  method ExpandLevel(all: seq<Attributes>) returns (temp: seq<Attributes>)
    requires forall k :: 0 <= k < |all| ==> Ordered(all[k])
    ensures temp == ExpandEach(all)
    ensures forall k :: 0 <= k < |temp| ==> Ordered(temp[k])
  {
    hide ExpandOne, Ordered;
    temp := [];
    for i := 0 to |all|
      invariant temp + ExpandEach(all[i..]) == ExpandEach(all)
      invariant forall k :: 0 <= k < |temp| ==> Ordered(temp[k])
    {
      var expanded := ExpandSingleDescription(all[i]);
      ExpandOneOrdered(all[i]);
      assert all[i..][0] == all[i] && all[i..][1..] == all[i + 1..];
      temp := temp + expanded;
    }
    assert all[|all|..] == [];
  }

  method ExpandDescriptions(description: Attributes, counter: int) returns (all: seq<Attributes>, left: int)
    requires Ordered(description)
    ensures all == Expanded(description, counter)
    ensures left == if counter > 0 then 0 else counter
    ensures all == Product(description) <==> (if counter > 0 then counter else 0) == Dotted(description)
  {
    hide Ordered, ExpandEach, Product, Dotted;
    ExpandedIsProduct(description, counter);
    all, left := [description], counter;
    while left > 0
      invariant left <= counter && (counter > 0 ==> left >= 0) && (counter <= 0 ==> left == counter)
      invariant Levels(all, if left > 0 then left else 0) == Expanded(description, counter)
      invariant forall k :: 0 <= k < |all| ==> Ordered(all[k])
    {
      all := ExpandLevel(all);
      left := left - 1;
    }
  }

  // ---------- parse ----------

  /** `PREDEFINED_TAGS`: from a tag to its category. */
  type Tags = map<string, string>

  lemma {:induction false} LessTransitive(a: string, b: string, c: string)
    requires Less(a, b) && Less(b, c)
    ensures Less(a, c)
    decreases |a|
  {
    if a != [] && a[0] == b[0] == c[0] {
      LessTransitive(a[1..], b[1..], c[1..]);
    }
  }

  ghost predicate HasKey(m: Attributes, key: string) {
    exists i :: 0 <= i < |m| && m[i].key == key
  }

  lemma {:induction false} InsertKeeps(m: Attributes, p: Pair)
    requires Ordered(m)
    ensures Ordered(Insert(m, p))
    ensures forall q :: q in Insert(m, p) <==> q in m || (q == p && !HasKey(m, p.key))
    ensures Dotted(Insert(m, p)) == Dotted(m) + (if !HasKey(m, p.key) && HasDot(p.value) then 1 else 0)
    decreases |m|
  {
    if m == [] {
    } else if Less(p.key, m[0].key) {
      forall i | 0 <= i < |m|
        ensures Less(p.key, m[i].key) && m[i].key != p.key
      {
        if i > 0 {
          LessTransitive(p.key, m[0].key, m[i].key);
        }
        LessIsOrder(p.key, m[i].key);
      }
      assert ([p] + m)[1..] == m;
    } else if p.key == m[0].key {
    } else {
      InsertKeeps(m[1..], p);
      LessIsOrder(p.key, m[0].key);
      InsertFront(m, p);
    }
  }

  lemma InsertFront(m: Attributes, p: Pair)
    requires m != [] && Ordered(m) && Less(m[0].key, p.key) && Ordered(Insert(m[1..], p))
    requires forall q :: q in Insert(m[1..], p) <==> q in m[1..] || (q == p && !HasKey(m[1..], p.key))
    requires !Less(p.key, m[0].key) && p.key != m[0].key
    ensures Ordered(Insert(m, p))
    ensures forall q :: q in Insert(m, p) <==> q in m || (q == p && !HasKey(m, p.key))
    ensures HasKey(m, p.key) <==> HasKey(m[1..], p.key)
    ensures Insert(m, p)[1..] == Insert(m[1..], p)
  {
    hide Less, Insert;
    var rest := Insert(m[1..], p);
    assert Insert(m, p) == [m[0]] + rest by { InsertUnfold(m, p); }
    assert HasKey(m, p.key) <==> HasKey(m[1..], p.key) by {
      if i :| 0 <= i < |m| && m[i].key == p.key {
        assert m[1..][i - 1].key == p.key;
      }
      if i :| 0 <= i < |m[1..]| && m[1..][i].key == p.key {
        assert m[i + 1].key == p.key;
      }
    }
    forall k | 0 <= k < |rest|
      ensures Less(m[0].key, rest[k].key)
    {
      assert rest[k] in rest;
      if rest[k] in m[1..] {
        var j :| 0 <= j < |m[1..]| && m[1..][j] == rest[k];
        assert m[j + 1] == rest[k];
      }
    }
  }

  lemma InsertUnfold(m: Attributes, p: Pair)
    requires m != [] && !Less(p.key, m[0].key) && p.key != m[0].key
    ensures Insert(m, p) == [m[0]] + Insert(m[1..], p)
  {
  }

  /** The tag to look up: what stands before the first separator. */
  function SeekKey(attribute: string): string {
    Split(attribute, INNER_SEPARATOR)[0]
  }

  /** The description built from the attributes seen so far. */
  function Described(table: Tags, attrs: seq<string>): Attributes
    decreases |attrs|
  {
    if attrs == [] then []
    else
      var m, last := Described(table, attrs[..|attrs| - 1]), attrs[|attrs| - 1];
      if SeekKey(last) in table then Insert(m, Pair(table[SeekKey(last)], last)) else m
  }

  function DottedAttributes(attrs: seq<string>): nat
    decreases |attrs|
  {
    if attrs == [] then 0
    else DottedAttributes(attrs[..|attrs| - 1]) + (if HasDot(attrs[|attrs| - 1]) then 1 else 0)
  }

  predicate InCategory(table: Tags, attribute: string, category: string) {
    SeekKey(attribute) in table && table[SeekKey(attribute)] == category
  }

  /** Attribute `i` is recognized and the first of its category. */
  predicate Kept(table: Tags, attrs: seq<string>, i: nat)
    requires i < |attrs|
  {
    SeekKey(attrs[i]) in table &&
    forall j :: 0 <= j < i ==> !InCategory(table, attrs[j], table[SeekKey(attrs[i])])
  }

  predicate AllDottedKept(table: Tags, attrs: seq<string>) {
    forall i :: 0 <= i < |attrs| && HasDot(attrs[i]) ==> Kept(table, attrs, i)
  }

  /** The description is ordered, and its keys are the categories of the attributes. */
  lemma {:induction false} DescribedKeys(table: Tags, attrs: seq<string>)
    ensures Ordered(Described(table, attrs))
    ensures forall category :: HasKey(Described(table, attrs), category) <==>
              exists j :: 0 <= j < |attrs| && InCategory(table, attrs[j], category)
    decreases |attrs|
  {
    hide Less, Insert, SeekKey, Dotted;
    if attrs != [] {
      var before, last := attrs[..|attrs| - 1], attrs[|attrs| - 1];
      DescribedKeys(table, before);
      var m := Described(table, before);
      forall category
        ensures (exists j :: 0 <= j < |attrs| && InCategory(table, attrs[j], category)) <==>
                HasKey(m, category) || InCategory(table, last, category)
      {
        if j :| 0 <= j < |attrs| && InCategory(table, attrs[j], category) {
          assert j < |before| ==> before[j] == attrs[j];
        }
        if j :| 0 <= j < |before| && InCategory(table, before[j], category) {
          assert attrs[j] == before[j];
        }
      }
      if SeekKey(last) in table {
        var p := Pair(table[SeekKey(last)], last);
        InsertKeeps(m, p);
        forall category
          ensures HasKey(Insert(m, p), category) <==> HasKey(m, category) || category == p.key
        {
          KeysAfterInsert(m, p, category);
        }
      }
    }
  }

  lemma KeysAfterInsert(m: Attributes, p: Pair, category: string)
    requires forall q :: q in Insert(m, p) <==> q in m || (q == p && !HasKey(m, p.key))
    ensures HasKey(Insert(m, p), category) <==> HasKey(m, category) || category == p.key
  {
    hide Insert;
    var r := Insert(m, p);
    if i :| 0 <= i < |r| && r[i].key == category {
      assert r[i] in r;
    }
    if i :| 0 <= i < |m| && m[i].key == category {
      assert m[i] in r;
    }
    if category == p.key && !HasKey(m, category) {
      assert p in r;
    }
  }

  /** Dotted attributes are counted whether or not they get into the description. */
  lemma {:induction false} CountedAndKept(table: Tags, attrs: seq<string>)
    ensures Dotted(Described(table, attrs)) <= DottedAttributes(attrs)
    ensures Dotted(Described(table, attrs)) == DottedAttributes(attrs) <==> AllDottedKept(table, attrs)
    decreases |attrs|
  {
    hide Less, Insert, SeekKey, InCategory;
    if attrs != [] {
      var n := |attrs| - 1;
      var before, last := attrs[..n], attrs[n];
      CountedAndKept(table, before);
      DescribedKeys(table, before);
      var m := Described(table, before);
      assert forall i :: 0 <= i < n ==> (Kept(table, attrs, i) <==> Kept(table, before, i));
      assert AllDottedKept(table, attrs) <==>
             AllDottedKept(table, before) && (HasDot(last) ==> Kept(table, attrs, n));
      if SeekKey(last) in table {
        InsertKeeps(m, Pair(table[SeekKey(last)], last));
        assert Kept(table, attrs, n) <==> !HasKey(m, table[SeekKey(last)]);
      }
    }
  }

  method ParseSimple(table: Tags, tag: string) returns (descriptions: Attributes, counter: nat)
    ensures var attrs := Split(tag, OUTER_SEPARATOR);
            descriptions == Described(table, attrs) && counter == DottedAttributes(attrs)
  {
    var attributes := Split(tag, OUTER_SEPARATOR);
    descriptions, counter := [], 0;
    for i := 0 to |attributes|
      invariant descriptions == Described(table, attributes[..i])
      invariant counter == DottedAttributes(attributes[..i])
    {
      var attribute := attributes[i];
      assert attributes[..i + 1][..i] == attributes[..i];
      var key := attribute;
      if HasDot(attribute) {
        counter := counter + 1;
        key := SeekKey(attribute);
      }
      if key in table {
        descriptions := Insert(descriptions, Pair(table[key], attribute));
      }
    }
    assert attributes[..|attributes|] == attributes;
  }

  /** The combinations of the recognized parts come out exactly when every dotted attribute is
      recognized and the first of its category; otherwise nothing comes out at all. */
  method Parse(table: Tags, tag: string) returns (all: seq<Attributes>)
    ensures var attrs := Split(tag, OUTER_SEPARATOR);
            all == if AllDottedKept(table, attrs) then Product(Described(table, attrs)) else []
  {
    ghost var attrs := Split(tag, OUTER_SEPARATOR);
    var rawDescription, counter := ParseSimple(table, tag);
    CountedAndKept(table, attrs);
    DescribedKeys(table, attrs);
    ExpandedIsProduct(rawDescription, counter);
    if counter == 0 {
      PlainIsItsProduct(rawDescription);
      return [rawDescription];
    }
    var left;
    all, left := ExpandDescriptions(rawDescription, counter);
  }
}
