/** When the byte matcher decides the language of a glob over UTF-8 symbols: exactly on the segments that
    are not deceptive. */
module SymbolGlobs {
  import opened Common
  import opened Utf8
  import opened GlobMatcher
  import GL = GlobLanguage

  // ---------- Before the first star ----------

  /** The matcher before the first star, at symbol `g` of the glob and symbol `p` of the segment. */
  ghost predicate HeadAt(glob: Text, s: Text, G: seq<Text>, S: seq<Text>, g: nat, p: nat)
    requires Pair(glob, s, G, S) && g <= |G| && p <= |S|
  {
    TextFrom(G, g);
    TextFrom(S, p);
    Head(glob, s, StartOf(G, g), StartOf(S, p))
  }

  lemma {:induction false} EqualHead(glob: Text, s: Text, G: seq<Text>, S: seq<Text>, g: nat, p: nat, j: nat)
    requires Pair(glob, s, G, S) && g < |G| && p < |S| && G[g] == S[p] && G[g] != [STAR] && G[g] != [QUESTION]
    requires j <= |G[g]|
    ensures StartOf(G, g) + j <= |glob| && StartOf(S, p) + j <= |s|
    ensures Head(glob, s, StartOf(G, g) + j, StartOf(S, p) + j) <==> HeadAt(glob, s, G, S, g + 1, p + 1)
    decreases |G[g]| - j
  {
    hide SymbolLength, IsTrail, Concat, StepsInside;
    TextFrom(G, g + 1);
    TextFrom(S, p + 1);
    if j < |G[g]| {
      FirstByte(G[g]);
      SymbolByte(G, g, j);
      SymbolByte(S, p, j);
      EqualHead(glob, s, G, S, g, p, j + 1);
    }
  }

  lemma {:induction false} UnequalHead(glob: Text, s: Text, G: seq<Text>, S: seq<Text>, g: nat, p: nat, j: nat)
    requires Pair(glob, s, G, S) && g < |G| && p < |S| && G[g] != S[p] && G[g] != [STAR] && G[g] != [QUESTION]
    requires j <= |G[g]| && j <= |S[p]| && G[g][..j] == S[p][..j]
    ensures StartOf(G, g) + j <= |glob| && StartOf(S, p) + j <= |s|
    ensures !Head(glob, s, StartOf(G, g) + j, StartOf(S, p) + j)
    decreases |G[g]| - j
  {
    hide SymbolLength, IsTrail, Concat, StepsInside;
    var x, y := G[g], S[p];
    if j > 0 {
      assert x[..j][0] == y[..j][0];
      assert IsSymbol(x) && IsSymbol(y) && |x| == |y|;
    }
    assert x[..|x|] == x && y[..|y|] == y;
    FirstByte(x);
    SymbolByte(G, g, j);
    SymbolByte(S, p, j);
    if x[j] == y[j] {
      assert x[..j + 1] == x[..j] + [x[j]] && y[..j + 1] == y[..j] + [y[j]];
      UnequalHead(glob, s, G, S, g, p, j + 1);
    }
  }

  lemma QuestionHead(glob: Text, s: Text, G: seq<Text>, S: seq<Text>, g: nat, p: nat)
    requires Pair(glob, s, G, S) && g < |G| && p < |S| && G[g] == [QUESTION]
    ensures HeadAt(glob, s, G, S, g, p) <==> HeadAt(glob, s, G, S, g + 1, p + 1)
  {
    hide IsTrail, Concat, StepsInside, SequenceLength, SymbolLength;
    SymbolByte(G, g, 0);
    SymbolByte(S, p, 0);
    FirstByte(S[p]);
  }

  lemma StarHead(glob: Text, s: Text, G: seq<Text>, S: seq<Text>, g: nat, p: nat)
    requires Pair(glob, s, G, S) && g < |G| && p < |S| && G[g] == [STAR]
    ensures StartOf(S, p) <= |s|
    ensures HeadAt(glob, s, G, S, g, p) <==> g + 1 == |G| || Retries(glob, s, G, g + 1, StartOf(S, p))
  {
    hide IsTrail, Concat, StepsInside, SequenceLength, SymbolLength;
    SymbolByte(G, g, 0);
    SymbolByte(S, p, 0);
    StarByte(glob, s, G, S, g, p, StartOf(G, g), StartOf(S, p) + 1);
  }

  lemma HeadEnds(glob: Text, s: Text, G: seq<Text>, S: seq<Text>, g: nat, p: nat)
    requires Pair(glob, s, G, S) && g <= |G| && p <= |S| && (p == |S| || g == |G|)
    ensures HeadAt(glob, s, G, S, g, p) <==> p == |S| && GL.AllStars(SYMBOLS, G[g..])
  {
    hide IsTrail, Concat, StepsInside, SequenceLength, SymbolLength;
    if p == |S| {
      SegmentUsedUp(glob, s, G, S, g, StartOf(G, g), StartOf(S, p) + 1);
      TextFrom(S, |S|);
    } else {
      TextFrom(G, |G|);
      SymbolByte(S, p, 0);
    }
  }

  /** What it does after its one attempt. */
  ghost predicate HeadContinues(glob: Text, s: Text, G: seq<Text>, S: seq<Text>, r: Attempt)
    requires Pair(glob, s, G, S)
    requires r.AtStar? ==> r.g < |G| && r.p < |S|
    requires r.UsedUp? ==> r.g <= |G|
  {
    match r
    case Mismatch => false
    case AtStar(g, p) => g + 1 == |G| || (StartOf(S, p) <= |s| && Retries(glob, s, G, g + 1, StartOf(S, p)))
    case UsedUp(g) => GL.AllStars(SYMBOLS, G[g..])
  }

  lemma {:induction false} HeadTry(glob: Text, s: Text, G: seq<Text>, S: seq<Text>, g: nat, p: nat)
    requires Pair(glob, s, G, S) && g <= |G| && p <= |S|
    ensures glob == Concat(G) && StepsInside(s)
    ensures HeadAt(glob, s, G, S, g, p) <==> HeadContinues(glob, s, G, S, Try(G, S, g, p))
    decreases |S| - p
  {
    hide HeadAt, Concat, StepsInside, IsSymbol, Retries;
    if p == |S| || g == |G| {
      HeadEnds(glob, s, G, S, g, p);
    } else if G[g] == [STAR] {
      StarHead(glob, s, G, S, g, p);
    } else if G[g] == [QUESTION] {
      QuestionHead(glob, s, G, S, g, p);
      HeadTry(glob, s, G, S, g + 1, p + 1);
    } else if G[g] == S[p] {
      EqualHeadHere(glob, s, G, S, g, p);
      HeadTry(glob, s, G, S, g + 1, p + 1);
    } else {
      UnequalHeadHere(glob, s, G, S, g, p);
    }
  }

  lemma EqualHeadHere(glob: Text, s: Text, G: seq<Text>, S: seq<Text>, g: nat, p: nat)
    requires Pair(glob, s, G, S) && g < |G| && p < |S| && G[g] == S[p] && G[g] != [STAR] && G[g] != [QUESTION]
    ensures HeadAt(glob, s, G, S, g, p) <==> HeadAt(glob, s, G, S, g + 1, p + 1)
  {
    EqualHead(glob, s, G, S, g, p, 0);
  }

  lemma UnequalHeadHere(glob: Text, s: Text, G: seq<Text>, S: seq<Text>, g: nat, p: nat)
    requires Pair(glob, s, G, S) && g < |G| && p < |S| && G[g] != S[p] && G[g] != [STAR] && G[g] != [QUESTION]
    ensures !HeadAt(glob, s, G, S, g, p)
  {
    UnequalHead(glob, s, G, S, g, p, 0);
  }

  /** The same on symbols. */
  lemma {:induction false} SymbolHeadTry(G: seq<Text>, S: seq<Text>, g: nat, p: nat)
    requires g <= |G| && p <= |S|
    ensures GL.Head(SYMBOLS, G, S, g, p) <==>
            match Try(G, S, g, p)
            case Mismatch => false
            case AtStar(g', p') => g' + 1 == |G| || Scan(G, S, g' + 1, p')
            case UsedUp(g') => GL.AllStars(SYMBOLS, G[g'..])
    decreases |S| - p
  {
    if p < |S| && g < |G| && G[g] != [STAR] && (G[g] == [QUESTION] || G[g] == S[p]) {
      SymbolHeadTry(G, S, g + 1, p + 1);
    }
  }

  // ---------- What the matcher decides ----------

  lemma PairOf(glob: Text, s: Text)
    requires WellFormed(glob) && WellFormed(s)
    ensures Pair(glob, s, Symbols(glob), Symbols(s))
    ensures HeadAt(glob, s, Symbols(glob), Symbols(s), 0, 0) <==> Head(glob, s, 0, 0)
  {
    SymbolsOfText(glob);
    SymbolsOfText(s);
    WellFormedSteps(s);
  }

  lemma LanguageIsHead(G: seq<Text>, S: seq<Text>)
    ensures GL.Head(SYMBOLS, G, S, 0, 0) <==> GL.InLanguage(SYMBOLS, G, S)
  {
    GL.HeadIsLanguage(SYMBOLS, G, S, 0, 0);
    assert G[0..] == G && S[0..] == S;
  }

  /** No segment of the language is refused, whatever symbols it is made of. */
  lemma LanguageIsAccepted(glob: Text, s: Text)
    requires WellFormed(glob) && WellFormed(s) && InSymbolLanguage(glob, s)
    ensures StepsInside(s) && Head(glob, s, 0, 0)
  {
    hide WellFormed, Pair, HeadAt, Retries, Symbols, GL.Starred, GL.InLanguage;
    var G, S := Symbols(glob), Symbols(s);
    PairOf(glob, s);
    LanguageIsHead(G, S);
    HeadTry(glob, s, G, S, 0, 0);
    SymbolHeadTry(G, S, 0, 0);
    match Try(G, S, 0, 0) {
      case AtStar(g, p) =>
        if g + 1 < |G| {
          assert G[g + 1..g + 1] == [];
          GL.GreedyIsLanguage(SYMBOLS, G, S, g + 1, p, g + 1, p + 1);
          ScanIsComplete(glob, s, G, S, g + 1, p);
        }
      case _ =>
    }
  }

  /** On a segment that is not deceptive, exactly the language is accepted. */
  lemma AcceptedIsLanguage(glob: Text, s: Text)
    requires WellFormed(glob) && WellFormed(s) && !Deceptive(Symbols(s))
    ensures StepsInside(s)
    ensures Head(glob, s, 0, 0) <==> InSymbolLanguage(glob, s)
  {
    hide WellFormed, Pair, HeadAt, Retries, Symbols, Deceptive, GL.InLanguage;
    var G, S := Symbols(glob), Symbols(s);
    PairOf(glob, s);
    LanguageIsHead(G, S);
    HeadTry(glob, s, G, S, 0, 0);
    SymbolHeadTry(G, S, 0, 0);
    match Try(G, S, 0, 0) {
      case AtStar(g, p) =>
        if g + 1 < |G| {
          ScanOnBytes(glob, s, G, S, g + 1, p, p);
        }
      case _ =>
    }
  }

  /** In particular if no symbol takes more than two bytes. */
  lemma ShortSymbolsAreDecided(glob: Text, s: Text)
    requires WellFormed(glob) && WellFormed(s)
    requires forall x :: x in Symbols(s) ==> |x| <= 2
    ensures StepsInside(s)
    ensures Head(glob, s, 0, 0) <==> InSymbolLanguage(glob, s)
  {
    hide WellFormed, Symbols, Head, StepsInside;
    AcceptedIsLanguage(glob, s) by {
      var S := Symbols(s);
      forall t, i | 0 <= t < i < |S| - 1
        ensures !DeceptiveAt(S, t, i)
      {
        assert S[t] in S;
      }
    }
  }

  // ---------- The glob that a deceptive segment fools ----------

  function Repeated(n: nat): (r: seq<Text>)
    ensures |r| == n && forall j :: 0 <= j < n ==> r[j] == [QUESTION]
  {
    seq(n, _ => [QUESTION])
  }

  /** After the star as many symbols as the segment has from `t` on, and one more. */
  function Tail(S: seq<Text>, t: nat, i: nat): (r: seq<Text>)
    requires t < i < |S| - 1
    ensures |r| == |S| - t + 1
  {
    Repeated(i - t + 1) + [S[i]] + Repeated(|S| - 1 - i)
  }

  /** `?` up to `t`, a star, and then symbol `i` after all the symbols from `t` to `i`. */
  function Fooling(S: seq<Text>, t: nat, i: nat): (r: seq<Text>)
    requires t < i < |S| - 1
    ensures |r| == |S| + 2
    ensures r[t] == [STAR] && r[t + 1..] == Tail(S, t, i)
    ensures Questions(r, 0, t) && Questions(r, t + 1, i - t + 1) && r[i + 2] == S[i]
    ensures Questions(r, i + 3, |S| - 1 - i)
  {
    Repeated(t) + [[STAR]] + Tail(S, t, i)
  }

  /** It asks for one symbol more than there is. */
  lemma NotInLanguage(S: seq<Text>, t: nat, i: nat)
    requires t < i < |S| - 1 && S[i] != [STAR]
    ensures !GL.InLanguage(SYMBOLS, Fooling(S, t, i), S)
  {
    hide Repeated, Tail, GL.InLanguage, GL.Starred;
    var glob, front, tail := Fooling(S, t, i), Repeated(t), Tail(S, t, i);
    var rest := [[STAR]] + tail;
    assert rest[1..] == tail;
    hide Fooling;
    FoolingParts(S, t, i);
    GL.FitsThenRest(SYMBOLS, front, rest, S);
    if |front| <= |S| {
      TooLong(tail, S[t..]);
      StarInFront(rest, S[t..]);
    }
  }

  lemma FoolingParts(S: seq<Text>, t: nat, i: nat)
    requires t < i < |S| - 1 && S[i] != [STAR]
    ensures Fooling(S, t, i) == Repeated(t) + ([[STAR]] + Tail(S, t, i))
    ensures [STAR] !in Repeated(t) && [STAR] !in Tail(S, t, i)
  {
  }

  lemma StarInFront(glob: seq<Text>, S: seq<Text>)
    requires glob != [] && glob[0] == [STAR]
    ensures GL.InLanguage(SYMBOLS, glob, S) <==> GL.Starred(SYMBOLS, glob[1..], S)
  {
  }

  /** Without a star a glob matches no shorter segment. */
  lemma TooLong(glob: seq<Text>, S: seq<Text>)
    requires [STAR] !in glob && |glob| > |S|
    ensures !GL.Starred(SYMBOLS, glob, S)
  {
    assert glob + [] == glob;
    forall k: nat | k <= |S|
      ensures !GL.InLanguage(SYMBOLS, glob, S[k..])
    {
      GL.FitsThenRest(SYMBOLS, glob, [], S[k..]);
    }
  }

  /** A row of `?` steps over as many symbols. */
  lemma {:induction false} TryQuestions(G: seq<Text>, S: seq<Text>, g: nat, p: nat, n: nat)
    requires p + n <= |S| && Questions(G, g, n)
    ensures Try(G, S, g, p) == Try(G, S, g + n, p + n)
    decreases n
  {
    if n > 0 {
      TryQuestions(G, S, g + 1, p + 1, n - 1);
    }
  }

  /** The attempt from the beginning of symbol `t` fails. */
  lemma LeadFails(G: seq<Text>, S: seq<Text>, t: nat, i: nat)
    requires t < i < |S| - 1 && G == Fooling(S, t, i)
    requires S[i] != S[i + 1] && S[i] != [STAR] && S[i] != [QUESTION]
    ensures Try(G, S, t + 1, t) == Mismatch
  {
    hide Fooling;
    TryQuestions(G, S, t + 1, t, i - t + 1);
  }

  /** So does one from three bytes before its end. */
  lemma ThirdFails(G: seq<Text>, S: seq<Text>, t: nat, i: nat)
    requires t < i < |S| - 1 && G == Fooling(S, t, i) && S[i] != [STAR] && S[i] != [QUESTION]
    ensures Questions(G, t + 1, 3) ==> Try(G, S, t + 4, t + 1) == Mismatch
  {
    hide Fooling;
    if i == t + 1 {
      assert G[t + 3] == S[i];
    } else {
      TryQuestions(G, S, t + 4, t + 1, i - t - 2);
      if S[i] == S[i - 1] {
        TryQuestions(G, S, i + 3, i, |S| - 1 - i);
      }
    }
  }

  /** One from two bytes before its end succeeds. */
  lemma InsideSucceeds(G: seq<Text>, S: seq<Text>, t: nat, i: nat)
    requires t < i < |S| - 1 && G == Fooling(S, t, i) && S[i] != [STAR]
    ensures Questions(G, t + 1, 2) && Try(G, S, t + 3, t + 1) == UsedUp(|G|)
  {
    hide Fooling;
    TryQuestions(G, S, t + 3, t + 1, i - t - 1);
    assert G[i + 2] == S[i];
    TryQuestions(G, S, i + 3, i + 1, |S| - 1 - i);
  }

  /** A scan that has not reached two bytes before the end of symbol `t` gets there, and succeeds. */
  lemma {:induction false} FooledFrom(glob: Text, s: Text, G: seq<Text>, S: seq<Text>, t: nat, i: nat, r: nat)
    requires Pair(glob, s, G, S) && t < i < |S| - 1 && G == Fooling(S, t, i) && DeceptiveAt(S, t, i)
    requires 2 <= r < |S[t]|
    ensures glob == Concat(G) && StepsInside(s) && r <= StartOf(S, t + 1) <= |s|
    ensures Retries(glob, s, G, t + 1, StartOf(S, t + 1) - r)
    decreases r
  {
    hide Pair, Retries, Questions, Fooling, StepsInside;
    hide IsSymbol, Try, SymbolLength, Concat, AllSymbols;
    AtMostFour(glob, s, G, S, t);
    LeadFails(G, S, t, i);
    ThirdFails(G, S, t, i);
    InsideTry(glob, s, G, S, t + 1, t, r);
    if r == 2 {
      InsideSucceeds(G, S, t, i);
      assert G[|G|..] == [];
    } else {
      RetriesIs(glob, s, G, S, t + 1, StartOf(S, t + 1) - r + 1);
      FooledFrom(glob, s, G, S, t, i, r - 1);
    }
  }

  lemma AtMostFour(glob: Text, s: Text, G: seq<Text>, S: seq<Text>, t: nat)
    requires Pair(glob, s, G, S) && t < |S|
    ensures 0 < |S[t]| <= 4
    ensures glob == Concat(G) && StepsInside(s)
  {
  }

  lemma FoolsTheMatcher(glob: Text, s: Text, G: seq<Text>, S: seq<Text>, t: nat, i: nat)
    requires Pair(glob, s, G, S) && t < i < |S| - 1 && G == Fooling(S, t, i) && DeceptiveAt(S, t, i)
    ensures HeadAt(glob, s, G, S, 0, 0)
  {
    hide Pair, Retries, Questions, HeadAt, StepsInside;
    TryQuestions(G, S, 0, 0, t);
    HeadTry(glob, s, G, S, 0, 0);
    LeadFails(G, S, t, i);
    RetriesTry(glob, s, G, S, t + 1, t);
    SymbolNotEmpty(glob, s, G, S, t);
    FooledFrom(glob, s, G, S, t, i, |S[t]| - 1);
  }

  lemma {:induction false} ConcatWithoutNul(symbols: seq<Text>)
    ensures 0 !in Concat(symbols) <==> forall x :: x in symbols ==> 0 !in x
  {
    if symbols != [] {
      ConcatWithoutNul(symbols[1..]);
      assert symbols == [symbols[0]] + symbols[1..];
    }
  }

  /** A deceptive segment is accepted for a glob that asks for more symbols than it has. */
  lemma DeceptiveIsMisread(s: Text) returns (glob: Text)
    requires WellFormed(s) && Deceptive(Symbols(s))
    ensures WellFormed(glob) && (0 !in s ==> 0 !in glob) && StepsInside(s)
    ensures Head(glob, s, 0, 0) && !InSymbolLanguage(glob, s)
  {
    hide WellFormed, Pair, HeadAt, Symbols, Concat, Fooling, StepsInside, GL.InLanguage;
    var S := Symbols(s);
    var t: nat, i: nat :| t < i < |S| - 1 && DeceptiveAt(S, t, i);
    var G := Fooling(S, t, i);
    SymbolsOfText(s);
    FoolingSymbols(S, t, i);
    TextOfSymbols(G);
    glob := Concat(G);
    PairOf(glob, s);
    FoolsTheMatcher(glob, s, G, S, t, i);
    NotInLanguage(S, t, i);
    ConcatWithoutNul(S);
    ConcatWithoutNul(G);
  }

  lemma FoolingSymbols(S: seq<Text>, t: nat, i: nat)
    requires AllSymbols(S) && t < i < |S| - 1
    ensures AllSymbols(Fooling(S, t, i))
    ensures forall x :: x in Fooling(S, t, i) ==> x == [STAR] || x == [QUESTION] || x in S
  {
  }

  /** The matcher decides the language over symbols for all globs if and only if the segment is not
      deceptive. */
  lemma DecidedIff(s: Text)
    requires WellFormed(s) && 0 !in s
    ensures StepsInside(s)
    ensures (forall glob :: WellFormed(glob) && 0 !in glob ==> (Head(glob, s, 0, 0) <==> InSymbolLanguage(glob, s)))
       <==> !Deceptive(Symbols(s))
  {
    hide WellFormed, Head, StepsInside, Deceptive, InSymbolLanguage;
    WellFormedSteps(s);
    if Deceptive(Symbols(s)) {
      var glob := DeceptiveIsMisread(s);
    } else {
      forall glob | WellFormed(glob)
        ensures Head(glob, s, 0, 0) <==> InSymbolLanguage(glob, s)
      {
        AcceptedIsLanguage(glob, s);
      }
    }
  }

  /** `*??x*` asks for two symbols before an `x`, and the segment (a three-byte symbol, `x`, `a`) has one.
      It is accepted all the same: the retry inside the first symbol lets each of its trail bytes pass for
      a symbol. */
  lemma RetriesInsideSymbols()
    ensures var glob, s := [42, 63, 63, 120, 42], [0xe2, 0x82, 0xac, 120, 97];
            && WellFormed(glob) && WellFormed(s) && StepsInside(s)
            && Head(glob, s, 0, 0) && !InSymbolLanguage(glob, s)
  {
    hide IsSymbol, WellFormed, Symbols, Greedy, Head, StepsInside, GL.InLanguage;
    var glob: Text, s: Text := [STAR, QUESTION, QUESTION, 120, STAR], [0xe2, 0x82, 0xac, 120, 97];
    var G: seq<Text> := [[STAR], [QUESTION], [QUESTION], [120], [STAR]];
    var S: seq<Text> := [[0xe2, 0x82, 0xac], [120], [97]];
    OneByte([STAR]);
    OneByte([QUESTION]);
    OneByte([120]);
    OneByte([97]);
    ThreeBytes([0xe2, 0x82, 0xac]);
    GlobConcat(G);
    SegmentConcat(S);
    TextOfSymbols(G);
    TextOfSymbols(S);
    AcceptedHere();
    NotInLanguageHere(G, S);
  }

  lemma GlobConcat(G: seq<Text>)
    requires G == [[STAR], [QUESTION], [QUESTION], [120], [STAR]]
    ensures Concat(G) == [STAR, QUESTION, QUESTION, 120, STAR]
  {
    ConcatFront(G, 4);
    ConcatFront(G, 3);
    ConcatFront(G, 2);
    ConcatFront(G, 1);
    ConcatFront(G, 0);
  }

  lemma SegmentConcat(S: seq<Text>)
    requires S == [[0xe2, 0x82, 0xac], [120], [97]]
    ensures Concat(S) == [0xe2, 0x82, 0xac, 120, 97]
  {
    ConcatFront(S, 2);
    ConcatFront(S, 1);
    ConcatFront(S, 0);
  }

  lemma OneByte(x: Text)
    requires |x| == 1 && x[0] < 0x80
    ensures IsSymbol(x)
  {
  }

  lemma ThreeBytes(x: Text)
    requires |x| == 3 && x[0] / 16 == 0xe && IsTrail(x[1]) && IsTrail(x[2])
    ensures IsSymbol(x)
  {
  }

  lemma ConcatFront(symbols: seq<Text>, i: nat)
    requires i < |symbols|
    ensures Concat(symbols[i..]) == symbols[i] + Concat(symbols[i + 1..])
    ensures i + 1 == |symbols| ==> Concat(symbols[i + 1..]) == []
    ensures i == 0 ==> symbols[i..] == symbols
  {
    assert symbols[i..][1..] == symbols[i + 1..];
  }

  lemma AcceptedHere()
    ensures var glob, s := [STAR, QUESTION, QUESTION, 120, STAR], [0xe2, 0x82, 0xac, 120, 97];
            StepsInside(s) && Head(glob, s, 0, 0)
  {
    var glob: Text, s: Text := [STAR, QUESTION, QUESTION, 120, STAR], [0xe2, 0x82, 0xac, 120, 97];
    assert Greedy(glob, s, 3, 3, 1, 2);
    assert Greedy(glob, s, 1, 1, 1, 2);
    assert Greedy(glob, s, 2, 3, 1, 1);
    assert Greedy(glob, s, 0, 0, 0, 1);
  }

  lemma NotInLanguageHere(G: seq<Text>, S: seq<Text>)
    requires G == [[STAR], [QUESTION], [QUESTION], [120], [STAR]] && S == [[0xe2, 0x82, 0xac], [120], [97]]
    ensures !GL.InLanguage(SYMBOLS, G, S)
  {
    var part: seq<Text> := [[QUESTION], [QUESTION], [120]];
    assert G[1..] == part + [[STAR]];
    forall k: nat | k <= |S|
      ensures !GL.InLanguage(SYMBOLS, G[1..], S[k..])
    {
      GL.FitsThenRest(SYMBOLS, part, [[STAR]], S[k..]);
      if |S[k..]| >= 3 {
        assert S[k..][2] == [97];
      }
    }
  }
}
