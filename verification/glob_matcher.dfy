/** The byte matcher of `SegmentGlob`, and the languages it decides: on bytes, and on UTF-8 symbols. */
module GlobMatcher {
  import opened Common
  import opened Utf8
  import GL = GlobLanguage

  const STAR: Byte := 42
  const QUESTION: Byte := 63

  /** The alphabet of bytes, and the alphabet of symbols. */
  const BYTES: GL.Wildcards<Byte> := GL.Wildcards(STAR, QUESTION)
  const SYMBOLS: GL.Wildcards<Text> := GL.Wildcards([STAR], [QUESTION])

  /** The bytes that a `const char*` to the string can reach: up to the first NUL. */
  function CString(s: Text): (r: Text)
    ensures r <= s && 0 !in r && (|r| < |s| ==> s[|r|] == 0)
    ensures 0 !in s <==> r == s
  {
    if s == [] || s[0] == 0 then [] else [s[0]] + CString(s[1..])
  }

  /** The language of a glob when every byte is a symbol. */
  ghost predicate InLanguage(glob: Text, s: Text) {
    GL.InLanguage(BYTES, glob, s)
  }

  /** The language of a glob over UTF-8 symbols: `*` is any list of symbols, `?` any one symbol. */
  ghost predicate InSymbolLanguage(glob: Text, s: Text) {
    GL.InLanguage(SYMBOLS, Symbols(glob), Symbols(s))
  }

  // ---------- The matcher ----------

  /** `utf8::unchecked::next` never runs past the end of the segment. */
  ghost predicate StepsInside(s: Text) {
    forall j :: 0 <= j < |s| ==> j + SymbolLength(s[j]) <= |s|
  }

  predicate AllStars(glob: Text) {
    glob == [] || (glob[0] == STAR && AllStars(glob[1..]))
  }

  /** The matcher from a given pair of positions on; after a mismatch it resumes at `mark` and
      `resume`, the positions saved by the most recent star. */
  function Greedy(glob: Text, s: Text, g: nat, p: nat, mark: nat, resume: nat): bool
    requires StepsInside(s) && mark <= g <= |glob| && resume <= p + 1 && p <= |s|
    decreases |glob| - mark, |s| + 1 - resume, |s| - p
  {
    if p == |s| then AllStars(glob[g..])
    else if g < |glob| && glob[g] == STAR then
      g + 1 == |glob| || Greedy(glob, s, g + 1, p, g + 1, p + 1)
    else if g < |glob| && glob[g] == QUESTION then
      Greedy(glob, s, g + 1, p + SymbolLength(s[p]), mark, resume)
    else if g < |glob| && glob[g] == s[p] then
      Greedy(glob, s, g + 1, p + 1, mark, resume)
    else
      Greedy(glob, s, mark, resume, mark, resume + 1)
  }

  /** The matcher before the first star. */
  function Head(glob: Text, s: Text, g: nat, p: nat): bool
    requires StepsInside(s) && g <= |glob| && p <= |s|
    decreases |s| - p
  {
    if p == |s| || (g < |glob| && glob[g] == STAR) then Greedy(glob, s, g, p, g, p + 1)
    else if g == |glob| || (glob[g] != s[p] && glob[g] != QUESTION) then false
    else Head(glob, s, g + 1, p + (if glob[g] == QUESTION then SymbolLength(s[p]) else 1))
  }

  // ---------- When every `?` steps over one byte ----------

  ghost predicate SingleByteSteps(glob: Text, s: Text) {
    QUESTION !in glob || forall b :: b in s ==> b < 0x80
  }

  lemma AsciiStep(glob: Text, s: Text, p: nat)
    requires SingleByteSteps(glob, s) && QUESTION in glob && p < |s|
    ensures SymbolLength(s[p]) == 1
  {
    assert s[p] in s;
  }

  lemma {:induction false} StarsOfBytes(glob: Text)
    ensures AllStars(glob) <==> GL.AllStars(BYTES, glob)
  {
    if glob != [] {
      StarsOfBytes(glob[1..]);
    }
  }

  lemma {:induction false} GreedyOnBytes(glob: Text, s: Text, g: nat, p: nat, mark: nat, resume: nat)
    requires StepsInside(s) && mark <= g <= |glob| && resume <= p + 1 && p <= |s| && SingleByteSteps(glob, s)
    ensures Greedy(glob, s, g, p, mark, resume) <==> GL.Greedy(BYTES, glob, s, g, p, mark, resume)
    decreases |glob| - mark, |s| + 1 - resume, |s| - p
  {
    hide SymbolLength, SingleByteSteps;
    if p == |s| {
      StarsOfBytes(glob[g..]);
    } else if g < |glob| && glob[g] == STAR {
      if g + 1 < |glob| {
        GreedyOnBytes(glob, s, g + 1, p, g + 1, p + 1);
      }
    } else if g < |glob| && glob[g] == QUESTION {
      AsciiStep(glob, s, p);
      GreedyOnBytes(glob, s, g + 1, p + 1, mark, resume);
    } else if g < |glob| && glob[g] == s[p] {
      GreedyOnBytes(glob, s, g + 1, p + 1, mark, resume);
    } else {
      GreedyOnBytes(glob, s, mark, resume, mark, resume + 1);
    }
  }

  lemma {:induction false} HeadOnBytes(glob: Text, s: Text, g: nat, p: nat)
    requires StepsInside(s) && g <= |glob| && p <= |s| && SingleByteSteps(glob, s)
    ensures Head(glob, s, g, p) <==> GL.Head(BYTES, glob, s, g, p)
    decreases |s| - p
  {
    hide SymbolLength, SingleByteSteps;
    if p == |s| || (g < |glob| && glob[g] == STAR) {
      GreedyOnBytes(glob, s, g, p, g, p + 1);
    } else if g < |glob| && (glob[g] == s[p] || glob[g] == QUESTION) {
      if glob[g] == QUESTION {
        AsciiStep(glob, s, p);
      }
      HeadOnBytes(glob, s, g + 1, p + 1);
    }
  }

  /** With single-byte steps the matcher decides the language of the glob over bytes. */
  lemma {:induction false} HeadIsLanguage(glob: Text, s: Text)
    requires StepsInside(s) && SingleByteSteps(glob, s)
    ensures Head(glob, s, 0, 0) <==> InLanguage(glob, s)
  {
    HeadOnBytes(glob, s, 0, 0);
    GL.HeadIsLanguage(BYTES, glob, s, 0, 0);
    assert glob[0..] == glob && s[0..] == s;
  }

  /** Well-formed text is never overrun. */
  lemma WellFormedSteps(s: Text)
    requires WellFormed(s)
    ensures StepsInside(s)
  {
    forall j: nat | j < |s|
      ensures j + SymbolLength(s[j]) <= |s|
    {
      if !IsTrail(s[j]) {
        assert SymbolAt(s, j);
      }
    }
  }

  // ---------- One attempt, symbol by symbol ----------

  /** How an attempt ends: by a mismatch, at a star, or because the segment is used up. */
  datatype Attempt = Mismatch | AtStar(g: nat, p: nat) | UsedUp(g: nat)

  function Try(G: seq<Text>, S: seq<Text>, g: nat, p: nat): (r: Attempt)
    requires g <= |G| && p <= |S|
    ensures r.AtStar? ==> g <= r.g < |G| && G[r.g] == [STAR] && p <= r.p < |S| && r.g - g == r.p - p
    ensures r.UsedUp? ==> g <= r.g <= |G| && r.g - g == |S| - p
    ensures r.Mismatch? ==> p < |S|
    decreases |S| - p
  {
    if p == |S| then UsedUp(g)
    else if g < |G| && G[g] == [STAR] then AtStar(g, p)
    else if g < |G| && (G[g] == [QUESTION] || G[g] == S[p]) then Try(G, S, g + 1, p + 1)
    else Mismatch
  }

  lemma {:induction false} TryFits(G: seq<Text>, S: seq<Text>, g: nat, p: nat)
    requires g <= |G| && p <= |S| && !Try(G, S, g, p).Mismatch?
    ensures var end := Try(G, S, g, p).g; GL.Fits(SYMBOLS, G[g..end], S[p..])
    decreases |S| - p
  {
    var end := Try(G, S, g, p).g;
    if end > g {
      TryFits(G, S, g + 1, p + 1);
      var part, rest := G[g..end], G[g + 1..end];
      forall i | 0 <= i < |part|
        ensures part[i] != [STAR] && (part[i] == [QUESTION] || part[i] == S[p..][i])
      {
        if i > 0 {
          assert part[i] == rest[i - 1] && S[p..][i] == S[p + 1..][i - 1];
        }
      }
    }
  }

  /** The matcher on symbols goes on from the end of the attempt. */
  lemma {:induction false} GreedyTries(G: seq<Text>, S: seq<Text>, g: nat, p: nat, mark: nat, resume: nat)
    requires mark <= g <= |G| && resume <= p + 1 && p <= |S|
    ensures GL.Greedy(SYMBOLS, G, S, g, p, mark, resume) <==>
            match Try(G, S, g, p)
            case Mismatch => GL.Greedy(SYMBOLS, G, S, mark, resume, mark, resume + 1)
            case AtStar(g', p') => g' + 1 == |G| || GL.Greedy(SYMBOLS, G, S, g' + 1, p', g' + 1, p' + 1)
            case UsedUp(g') => GL.AllStars(SYMBOLS, G[g'..])
    decreases |S| - p
  {
    if p < |S| && g < |G| && G[g] != [STAR] && (G[g] == [QUESTION] || G[g] == S[p]) {
      GreedyTries(G, S, g + 1, p + 1, mark, resume);
    }
  }

  // ---------- The same attempt, byte by byte ----------

  /** A glob and a segment, as text and as lists of symbols. */
  ghost predicate Pair(glob: Text, s: Text, G: seq<Text>, S: seq<Text>) {
    glob == Concat(G) && s == Concat(S) && AllSymbols(G) && AllSymbols(S) && StepsInside(s)
  }

  /** The matcher at symbol `g` of the glob and symbol `p` of the segment. */
  ghost predicate GreedyAt(glob: Text, s: Text, G: seq<Text>, S: seq<Text>, g: nat, p: nat, mark: nat, resume: nat)
    requires Pair(glob, s, G, S) && g <= |G| && p <= |S|
    requires mark <= StartOf(G, g) && resume <= StartOf(S, p) + 1
  {
    TextFrom(G, g);
    TextFrom(S, p);
    Greedy(glob, s, StartOf(G, g), StartOf(S, p), mark, resume)
  }

  /** A symbol starts with a wildcard byte only if it is that wildcard. */
  lemma FirstByte(x: Text)
    requires IsSymbol(x)
    ensures x[0] == STAR <==> x == [STAR]
    ensures x[0] == QUESTION <==> x == [QUESTION]
    ensures !IsTrail(x[0]) && SymbolLength(x[0]) == |x|
    ensures forall j :: 0 < j < |x| ==> x[j] != STAR && x[j] != QUESTION && SymbolLength(x[j]) == 1
  {
  }

  lemma {:induction false} EqualSymbols(glob: Text, s: Text, G: seq<Text>, S: seq<Text>, g: nat, p: nat, j: nat,
                                       mark: nat, resume: nat)
    requires Pair(glob, s, G, S) && g < |G| && p < |S| && G[g] == S[p] && G[g] != [STAR] && G[g] != [QUESTION]
    requires mark <= StartOf(G, g) && resume <= StartOf(S, p) + 1 && j <= |G[g]|
    ensures StartOf(G, g) + j <= |glob| && StartOf(S, p) + j <= |s|
    ensures Greedy(glob, s, StartOf(G, g) + j, StartOf(S, p) + j, mark, resume)
       <==> GreedyAt(glob, s, G, S, g + 1, p + 1, mark, resume)
    decreases |G[g]| - j
  {
    hide SymbolLength, IsTrail, Concat, StepsInside;
    TextFrom(G, g + 1);
    TextFrom(S, p + 1);
    if j < |G[g]| {
      FirstByte(G[g]);
      SymbolByte(G, g, j);
      SymbolByte(S, p, j);
      EqualSymbols(glob, s, G, S, g, p, j + 1, mark, resume);
    }
  }

  lemma {:induction false} UnequalSymbols(glob: Text, s: Text, G: seq<Text>, S: seq<Text>, g: nat, p: nat, j: nat,
                                         mark: nat, resume: nat)
    requires Pair(glob, s, G, S) && g < |G| && p < |S| && G[g] != S[p] && G[g] != [STAR] && G[g] != [QUESTION]
    requires mark <= StartOf(G, g) && resume <= StartOf(S, p) + 1 && resume <= |s|
    requires j <= |G[g]| && j <= |S[p]| && G[g][..j] == S[p][..j]
    ensures StartOf(G, g) + j <= |glob| && StartOf(S, p) + j <= |s|
    ensures Greedy(glob, s, StartOf(G, g) + j, StartOf(S, p) + j, mark, resume)
       <==> Greedy(glob, s, mark, resume, mark, resume + 1)
    decreases |G[g]| - j
  {
    hide SymbolLength, IsTrail, Concat, StepsInside;
    var x, y := G[g], S[p];
    if j > 0 {
      assert x[..j][0] == y[..j][0];
      assert IsSymbol(x) && IsSymbol(y) && |x| == |y|;
    }
    assert x[..|x|] == x && y[..|y|] == y;
    FirstByte(x);
    SymbolByte(G, g, j);
    SymbolByte(S, p, j);
    if x[j] == y[j] {
      assert x[..j + 1] == x[..j] + [x[j]] && y[..j + 1] == y[..j] + [y[j]];
      UnequalSymbols(glob, s, G, S, g, p, j + 1, mark, resume);
    }
  }

  lemma {:induction false} StarsOfSymbols(G: seq<Text>)
    requires AllSymbols(G)
    ensures AllStars(Concat(G)) <==> GL.AllStars(SYMBOLS, G)
  {
    hide SequenceLength, IsTrail;
    if G != [] {
      FirstByte(G[0]);
      StarsOfSymbols(G[1..]);
      if G[0] == [STAR] {
        assert Concat(G)[1..] == Concat(G[1..]);
      }
    }
  }

  /** What the matcher does after an attempt. */
  ghost predicate Continues(glob: Text, s: Text, G: seq<Text>, S: seq<Text>, r: Attempt, mark: nat, resume: nat)
    requires Pair(glob, s, G, S) && mark <= |glob|
    requires r.Mismatch? ==> resume <= |s|
    requires r.AtStar? ==> r.g < |G| && r.p < |S|
    requires r.UsedUp? ==> r.g <= |G|
  {
    match r
    case Mismatch => Greedy(glob, s, mark, resume, mark, resume + 1)
    case AtStar(g, p) => g + 1 == |G| || GreedyAt(glob, s, G, S, g + 1, p, StartOf(G, g + 1), StartOf(S, p) + 1)
    case UsedUp(g) => GL.AllStars(SYMBOLS, G[g..])
  }

  lemma StarByte(glob: Text, s: Text, G: seq<Text>, S: seq<Text>, g: nat, p: nat, mark: nat, resume: nat)
    requires Pair(glob, s, G, S) && g < |G| && p < |S| && G[g] == [STAR]
    requires mark <= StartOf(G, g) && resume <= StartOf(S, p) + 1
    ensures GreedyAt(glob, s, G, S, g, p, mark, resume) <==>
            (g + 1 == |G| || GreedyAt(glob, s, G, S, g + 1, p, StartOf(G, g + 1), StartOf(S, p) + 1))
  {
    hide SymbolLength, IsTrail, Concat, StepsInside;
    SymbolByte(G, g, 0);
    SymbolByte(S, p, 0);
    TextFrom(G, g + 1);
    if g + 1 < |G| {
      SymbolByte(G, g + 1, 0);
    }
  }

  lemma QuestionByte(glob: Text, s: Text, G: seq<Text>, S: seq<Text>, g: nat, p: nat, mark: nat, resume: nat)
    requires Pair(glob, s, G, S) && g < |G| && p < |S| && G[g] == [QUESTION]
    requires mark <= StartOf(G, g) && resume <= StartOf(S, p) + 1
    ensures GreedyAt(glob, s, G, S, g, p, mark, resume) <==> GreedyAt(glob, s, G, S, g + 1, p + 1, mark, resume)
  {
    hide IsTrail, Concat, StepsInside, SequenceLength, SymbolLength;
    SymbolByte(G, g, 0);
    SymbolByte(S, p, 0);
    FirstByte(S[p]);
  }

  lemma GlobUsedUp(glob: Text, s: Text, G: seq<Text>, S: seq<Text>, p: nat, mark: nat, resume: nat)
    requires Pair(glob, s, G, S) && p < |S|
    requires mark <= StartOf(G, |G|) && resume <= StartOf(S, p) + 1
    ensures mark <= |glob| && resume <= |s|
    ensures GreedyAt(glob, s, G, S, |G|, p, mark, resume) <==> Greedy(glob, s, mark, resume, mark, resume + 1)
  {
    hide SymbolLength, IsTrail, Concat, StepsInside;
    TextFrom(G, |G|);
    SymbolByte(S, p, 0);
  }

  lemma SegmentUsedUp(glob: Text, s: Text, G: seq<Text>, S: seq<Text>, g: nat, mark: nat, resume: nat)
    requires Pair(glob, s, G, S) && g <= |G|
    requires mark <= StartOf(G, g) && resume <= StartOf(S, |S|) + 1
    ensures GreedyAt(glob, s, G, S, g, |S|, mark, resume) <==> GL.AllStars(SYMBOLS, G[g..])
  {
    hide SymbolLength, IsTrail, Concat, StepsInside;
    TextFrom(S, |S|);
    TextFrom(G, g);
    StarsOfSymbols(G[g..]);
  }

  /** The matcher on bytes, at the beginning of a symbol, goes on from the end of the attempt. */
  lemma {:induction false} BytesTry(glob: Text, s: Text, G: seq<Text>, S: seq<Text>, g: nat, p: nat,
                                   mark: nat, resume: nat)
    requires Pair(glob, s, G, S) && g <= |G| && p <= |S|
    requires mark <= StartOf(G, g) && resume <= StartOf(S, p) + 1
    ensures mark <= |glob| && (p < |S| ==> resume <= |s|)
    ensures GreedyAt(glob, s, G, S, g, p, mark, resume)
       <==> Continues(glob, s, G, S, Try(G, S, g, p), mark, resume)
    decreases |S| - p
  {
    hide Pair, GreedyAt, Concat;
    PairBounds(glob, s, G, S, g, p);
    if p == |S| {
      SegmentUsedUp(glob, s, G, S, g, mark, resume);
    } else if g == |G| {
      GlobUsedUp(glob, s, G, S, p, mark, resume);
    } else if G[g] == [STAR] {
      StarByte(glob, s, G, S, g, p, mark, resume);
    } else if G[g] == [QUESTION] {
      QuestionByte(glob, s, G, S, g, p, mark, resume);
      BytesTry(glob, s, G, S, g + 1, p + 1, mark, resume);
    } else if G[g] == S[p] {
      EqualHere(glob, s, G, S, g, p, mark, resume);
      BytesTry(glob, s, G, S, g + 1, p + 1, mark, resume);
    } else {
      UnequalHere(glob, s, G, S, g, p, mark, resume);
    }
  }

  lemma PairBounds(glob: Text, s: Text, G: seq<Text>, S: seq<Text>, g: nat, p: nat)
    requires Pair(glob, s, G, S) && g <= |G| && p <= |S|
    ensures StartOf(G, g) <= |glob| && StartOf(S, p) <= |s| && (p < |S| ==> StartOf(S, p) < |s|) && StepsInside(s)
  {
    hide StepsInside, Concat;
    TextFrom(G, g);
    TextFrom(S, p);
    if p < |S| {
      SymbolByte(S, p, 0);
    }
  }

  lemma EqualHere(glob: Text, s: Text, G: seq<Text>, S: seq<Text>, g: nat, p: nat, mark: nat, resume: nat)
    requires Pair(glob, s, G, S) && g < |G| && p < |S| && G[g] == S[p] && G[g] != [STAR] && G[g] != [QUESTION]
    requires mark <= StartOf(G, g) && resume <= StartOf(S, p) + 1
    ensures GreedyAt(glob, s, G, S, g, p, mark, resume) <==> GreedyAt(glob, s, G, S, g + 1, p + 1, mark, resume)
  {
    EqualSymbols(glob, s, G, S, g, p, 0, mark, resume);
  }

  lemma UnequalHere(glob: Text, s: Text, G: seq<Text>, S: seq<Text>, g: nat, p: nat, mark: nat, resume: nat)
    requires Pair(glob, s, G, S) && g < |G| && p < |S| && G[g] != S[p] && G[g] != [STAR] && G[g] != [QUESTION]
    requires mark <= StartOf(G, g) && resume <= StartOf(S, p) + 1
    ensures mark <= |glob| && resume <= |s|
    ensures GreedyAt(glob, s, G, S, g, p, mark, resume) <==> Greedy(glob, s, mark, resume, mark, resume + 1)
  {
    PairBounds(glob, s, G, S, g, p);
    UnequalSymbols(glob, s, G, S, g, p, 0, mark, resume);
  }

  // ---------- Attempts from inside a symbol ----------

  /** The next `n` symbols of the glob are `?`. */
  predicate Questions(G: seq<Text>, g: nat, n: nat) {
    g + n <= |G| && forall j :: g <= j < g + n ==> G[j] == [QUESTION]
  }

  /** Inside a symbol of the segment every `?` takes one byte, so `r` of them lead to its end. */
  lemma {:induction false} InsideQuestions(glob: Text, s: Text, G: seq<Text>, S: seq<Text>, g: nat, p: nat, r: nat,
                                          mark: nat, resume: nat)
    requires Pair(glob, s, G, S) && p < |S| && r < |S[p]| && Questions(G, g, r)
    requires mark <= StartOf(G, g) && resume <= StartOf(S, p + 1) - r + 1
    ensures StartOf(G, g) <= |glob| && StartOf(S, p + 1) <= |s| && r <= StartOf(S, p + 1)
    ensures mark <= StartOf(G, g + r)
    ensures Greedy(glob, s, StartOf(G, g), StartOf(S, p + 1) - r, mark, resume)
       <==> GreedyAt(glob, s, G, S, g + r, p + 1, mark, resume)
    decreases r
  {
    hide SymbolLength, IsTrail, Concat, StepsInside, SequenceLength;
    TextFrom(G, g);
    TextFrom(S, p + 1);
    if r > 0 {
      FirstByte(S[p]);
      SymbolByte(G, g, 0);
      SymbolByte(S, p, |S[p]| - r);
      InsideQuestions(glob, s, G, S, g + 1, p, r - 1, mark, resume);
    }
  }

  /** With fewer of them, the next symbol of the glob, or its end, is a mismatch. */
  lemma {:induction false} InsideOther(glob: Text, s: Text, G: seq<Text>, S: seq<Text>, g: nat, p: nat, r: nat, n: nat,
                                      mark: nat, resume: nat)
    requires Pair(glob, s, G, S) && p < |S| && n < r < |S[p]| && Questions(G, g, n)
    requires g + n < |G| ==> G[g + n] != [STAR] && G[g + n] != [QUESTION]
    requires mark <= StartOf(G, g) && resume <= StartOf(S, p + 1) - r + 1
    ensures StartOf(G, g) <= |glob| && StartOf(S, p + 1) <= |s| && r < StartOf(S, p + 1) && resume <= |s|
    ensures Greedy(glob, s, StartOf(G, g), StartOf(S, p + 1) - r, mark, resume)
       <==> Greedy(glob, s, mark, resume, mark, resume + 1)
    decreases n
  {
    hide SymbolLength, Concat, StepsInside, SequenceLength;
    TextFrom(G, g);
    TextFrom(S, p + 1);
    FirstByte(S[p]);
    SymbolByte(S, p, |S[p]| - r);
    if n > 0 {
      SymbolByte(G, g, 0);
      InsideOther(glob, s, G, S, g + 1, p, r - 1, n - 1, mark, resume);
    } else if g < |G| {
      FirstByte(G[g]);
      SymbolByte(G, g, 0);
    } else {
      TextFrom(G, |G|);
    }
  }

  // ---------- Which attempts from inside a symbol are new ----------

  /** After a symbol of three or more bytes there are two neighbours that differ, and the first of them
      can stand for itself in a glob. */
  ghost predicate Deceptive(S: seq<Text>) {
    exists t, i :: 0 <= t < i < |S| - 1 && DeceptiveAt(S, t, i)
  }

  predicate DeceptiveAt(S: seq<Text>, t: nat, i: nat)
    requires t < i < |S| - 1
  {
    |S[t]| >= 3 && S[i] != S[i + 1] && S[i] != [STAR] && S[i] != [QUESTION]
  }

  /** No attempt between two symbols succeeds. */
  ghost predicate NoneSucceeds(G: seq<Text>, S: seq<Text>, m: nat, from: nat, past: nat)
    requires m <= |G| && past <= |S|
  {
    forall t :: from <= t < past ==> Try(G, S, m, t) == Mismatch
  }

  lemma {:induction false} TrySkips(G: seq<Text>, S: seq<Text>, m: nat, t: nat, n: nat)
    requires m <= |G| && t <= |S| && Try(G, S, m, t) == Mismatch && Questions(G, m, n)
    ensures t + n < |S| && Try(G, S, m + n, t + n) == Mismatch
  {
    if n > 0 {
      TrySkips(G, S, m, t, n - 1);
    }
  }

  lemma {:induction false} EqualRun(S: seq<Text>, t: nat, u: nat, w: nat)
    requires t < u <= w < |S| && |S[t]| >= 3 && !Deceptive(S) && S[u] != [STAR] && S[u] != [QUESTION]
    ensures S[w] == S[u]
    decreases w - u
  {
    if u < w {
      assert !DeceptiveAt(S, t, u);
      EqualRun(S, t, u + 1, w);
    }
  }

  /** What mismatches further on mismatches here as well. */
  lemma {:induction false} MismatchBefore(G: seq<Text>, S: seq<Text>, t: nat, g: nat, u: nat, w: nat)
    requires g <= |G| && t < u <= w <= |S| && |S[t]| >= 3 && !Deceptive(S)
    requires Try(G, S, g, w) == Mismatch
    ensures Try(G, S, g, u) == Mismatch
    decreases |S| - w
  {
    hide Deceptive;
    if g < |G| && (G[g] == [QUESTION] || G[g] == S[u]) {
      if G[g] != [QUESTION] {
        EqualRun(S, t, u, w);
      }
      MismatchBefore(G, S, t, g + 1, u + 1, w + 1);
    }
  }

  /** An attempt from inside symbol `t`, `r` bytes before its end, fails like those between symbols. */
  lemma InsideFails(G: seq<Text>, S: seq<Text>, m: nat, from: nat, t: nat, r: nat)
    requires m <= |G| && from <= t < |S| && 0 < r < |S[t]| && Questions(G, m, r) && !Deceptive(S)
    requires NoneSucceeds(G, S, m, from, t + 1)
    ensures Try(G, S, m + r, t + 1) == Mismatch
  {
    hide Deceptive;
    if from + r <= t + 1 {
      assert Try(G, S, m, t + 1 - r) == Mismatch;
      TrySkips(G, S, m, t + 1 - r, r);
    } else {
      assert Try(G, S, m, from) == Mismatch;
      TrySkips(G, S, m, from, r);
      MismatchBefore(G, S, t, m + r, t + 1, from + r);
    }
  }

  /** The number of `?` from symbol `g` of the glob on, at most `r`. */
  function QuestionsUpTo(G: seq<Text>, g: nat, r: nat): (n: nat)
    requires g <= |G|
    ensures n <= r && Questions(G, g, n)
    ensures n < r ==> g + n == |G| || G[g + n] != [QUESTION]
    decreases r
  {
    if r == 0 || g == |G| || G[g] != [QUESTION] then 0 else 1 + QuestionsUpTo(G, g + 1, r - 1)
  }

  /** A failed attempt is repeated from the next byte on. */
  ghost predicate Retries(glob: Text, s: Text, G: seq<Text>, m: nat, a: nat)
    requires glob == Concat(G) && StepsInside(s) && m <= |G| && a <= |s|
  {
    TextFrom(G, m);
    Greedy(glob, s, StartOf(G, m), a, StartOf(G, m), a + 1)
  }

  /** What an attempt from inside a symbol comes to. */
  lemma InsideTry(glob: Text, s: Text, G: seq<Text>, S: seq<Text>, m: nat, t: nat, r: nat)
    requires Pair(glob, s, G, S) && m <= |G| && t < |S| && 0 < r < |S[t]| && Try(G, S, m, t) == Mismatch
    ensures r < StartOf(S, t + 1) <= |s| && StartOf(G, m) <= |glob|
    ensures Questions(G, m, r) ==>
              (Retries(glob, s, G, m, StartOf(S, t + 1) - r) <==>
               Continues(glob, s, G, S, Try(G, S, m + r, t + 1), StartOf(G, m), StartOf(S, t + 1) - r + 1))
    ensures !Questions(G, m, r) ==>
              (Retries(glob, s, G, m, StartOf(S, t + 1) - r) <==> Retries(glob, s, G, m, StartOf(S, t + 1) - r + 1))
  {
    hide Concat, StepsInside, IsSymbol, SymbolLength;
    TextFrom(G, m);
    TextFrom(S, t + 1);
    TextFrom(S, t);
    if Questions(G, m, r) {
      InsideQuestions(glob, s, G, S, m, t, r, StartOf(G, m), StartOf(S, t + 1) - r + 1);
      BytesTry(glob, s, G, S, m + r, t + 1, StartOf(G, m), StartOf(S, t + 1) - r + 1);
    } else {
      var n := QuestionsUpTo(G, m, r);
      TrySkips(G, S, m, t, n);
      InsideOther(glob, s, G, S, m, t, r, n, StartOf(G, m), StartOf(S, t + 1) - r + 1);
    }
  }

  lemma {:induction false} InsideSkipped(glob: Text, s: Text, G: seq<Text>, S: seq<Text>, m: nat, from: nat, t: nat,
                                        r: nat)
    requires Pair(glob, s, G, S) && m <= |G| && from <= t < |S| && r < |S[t]| && !Deceptive(S)
    requires NoneSucceeds(G, S, m, from, t + 1)
    ensures r <= StartOf(S, t + 1) <= |s|
    ensures Retries(glob, s, G, m, StartOf(S, t + 1) - r) <==> Retries(glob, s, G, m, StartOf(S, t + 1))
    decreases r
  {
    hide Pair, Deceptive, Retries, Questions;
    PairBounds(glob, s, G, S, m, t + 1);
    if r > 0 {
      assert Try(G, S, m, t) == Mismatch;
      InsideTry(glob, s, G, S, m, t, r);
      if Questions(G, m, r) {
        InsideFails(G, S, m, from, t, r);
        RetriesIs(glob, s, G, S, m, StartOf(S, t + 1) - r + 1);
      }
      InsideSkipped(glob, s, G, S, m, from, t, r - 1);
    }
  }

  lemma RetriesIs(glob: Text, s: Text, G: seq<Text>, S: seq<Text>, m: nat, a: nat)
    requires Pair(glob, s, G, S) && m <= |G| && a <= |s|
    ensures glob == Concat(G) && StepsInside(s)
    ensures StartOf(G, m) <= |glob|
    ensures Retries(glob, s, G, m, a) <==> Greedy(glob, s, StartOf(G, m), a, StartOf(G, m), a + 1)
  {
    TextFrom(G, m);
  }

  // ---------- Whole scans ----------

  /** The scan after a star, on symbols. */
  ghost predicate Scan(G: seq<Text>, S: seq<Text>, m: nat, t: nat)
    requires m <= |G| && t <= |S|
  {
    GL.Greedy(SYMBOLS, G, S, m, t, m, t + 1)
  }

  lemma RetriesTry(glob: Text, s: Text, G: seq<Text>, S: seq<Text>, m: nat, t: nat)
    requires Pair(glob, s, G, S) && m <= |G| && t <= |S|
    ensures glob == Concat(G) && StepsInside(s) && StartOf(S, t) <= |s| && StartOf(G, m) <= |glob|
    ensures t < |S| ==> StartOf(S, t) < |s| && StartOf(S, t + 1) <= |s|
    ensures Retries(glob, s, G, m, StartOf(S, t)) <==>
            match Try(G, S, m, t)
            case Mismatch => Retries(glob, s, G, m, StartOf(S, t) + 1)
            case AtStar(g, p) => g + 1 == |G| || (StartOf(S, p) <= |s| && Retries(glob, s, G, g + 1, StartOf(S, p)))
            case UsedUp(g) => GL.AllStars(SYMBOLS, G[g..])
  {
    hide Concat, StepsInside, IsSymbol, SymbolLength, Try;
    PairBounds(glob, s, G, S, m, t);
    BytesTry(glob, s, G, S, m, t, StartOf(G, m), StartOf(S, t) + 1);
    if t < |S| {
      PairBounds(glob, s, G, S, m, t + 1);
    }
    match Try(G, S, m, t) {
      case AtStar(g, p) => PairBounds(glob, s, G, S, g + 1, p);
      case _ =>
    }
  }

  /** Unless the segment is deceptive, retrying from every byte gives what retrying from every symbol does. */
  lemma {:induction false} ScanOnBytes(glob: Text, s: Text, G: seq<Text>, S: seq<Text>, m: nat, from: nat, t: nat)
    requires Pair(glob, s, G, S) && m <= |G| && from <= t <= |S| && !Deceptive(S)
    requires NoneSucceeds(G, S, m, from, t)
    ensures glob == Concat(G) && StepsInside(s) && StartOf(S, t) <= |s|
    ensures Retries(glob, s, G, m, StartOf(S, t)) <==> Scan(G, S, m, t)
    decreases |G| - m, |S| - t
  {
    hide Pair, Deceptive, Retries, Try;
    RetriesTry(glob, s, G, S, m, t);
    GreedyTries(G, S, m, t, m, t + 1);
    match Try(G, S, m, t) {
      case Mismatch =>
        SymbolNotEmpty(glob, s, G, S, t);
        InsideSkipped(glob, s, G, S, m, from, t, |S[t]| - 1);
        ScanOnBytes(glob, s, G, S, m, from, t + 1);
      case AtStar(g, p) =>
        if g + 1 < |G| {
          ScanOnBytes(glob, s, G, S, g + 1, p, p);
        }
      case UsedUp(g) =>
    }
  }

  lemma SymbolNotEmpty(glob: Text, s: Text, G: seq<Text>, S: seq<Text>, t: nat)
    requires Pair(glob, s, G, S) && t < |S|
    ensures |S[t]| > 0 && StartOf(S, t + 1) - (|S[t]| - 1) == StartOf(S, t) + 1
  {
  }

  /** A part of the glob that an attempt from inside a symbol has matched leaves more of the segment than any
      later match of the same part. */
  lemma LaterFit(G: seq<Text>, S: seq<Text>, m: nat, t: nat, r: nat)
    requires m + r <= |G| && t < |S| && Questions(G, m, r) && Try(G, S, m + r, t + 1).AtStar?
    requires GL.Starred(SYMBOLS, G[m..], S[t + 1..])
    ensures var a := Try(G, S, m + r, t + 1); GL.Starred(SYMBOLS, G[a.g + 1..], S[a.p..])
  {
    var a := Try(G, S, m + r, t + 1);
    var part, rest := G[m..a.g], G[a.g..];
    NoStar(G, S, m, t, r);
    assert G[m..] == part + rest && rest[1..] == G[a.g + 1..] && rest[0] == [STAR];
    var k: nat :| k <= |S[t + 1..]| && GL.InLanguage(SYMBOLS, G[m..], S[t + 1..][k..]);
    GL.FitsThenRest(SYMBOLS, part, rest, S[t + 1..][k..]);
    var e := t + 1 + k + |part|;
    assert S[t + 1..][k..][|part|..] == S[e..];
    assert a.p <= e && S[a.p..][e - a.p..] == S[e..];
    GL.SuffixStarred(SYMBOLS, G[a.g + 1..], S[a.p..], e - a.p);
  }

  lemma NoStar(G: seq<Text>, S: seq<Text>, m: nat, t: nat, r: nat)
    requires m + r <= |G| && t < |S| && Questions(G, m, r) && !Try(G, S, m + r, t + 1).Mismatch?
    ensures [STAR] !in G[m..Try(G, S, m + r, t + 1).g]
  {
    var end := Try(G, S, m + r, t + 1).g;
    TryFits(G, S, m + r, t + 1);
    forall j | m <= j < end
      ensures G[j] != [STAR]
    {
      if j >= m + r {
        assert G[m + r..end][j - m - r] == G[j];
      }
    }
  }

  /** Such an attempt does not use up the segment if a later match exists. */
  lemma NotUsedUp(G: seq<Text>, S: seq<Text>, m: nat, t: nat, r: nat)
    requires m + r <= |G| && t < |S| && 0 < r && Questions(G, m, r)
    requires GL.Starred(SYMBOLS, G[m..], S[t + 1..])
    ensures !Try(G, S, m + r, t + 1).UsedUp?
  {
    var a := Try(G, S, m + r, t + 1);
    if a.UsedUp? {
      var part, rest := G[m..a.g], G[a.g..];
      NoStar(G, S, m, t, r);
      assert G[m..] == part + rest;
      var k: nat :| k <= |S[t + 1..]| && GL.InLanguage(SYMBOLS, G[m..], S[t + 1..][k..]);
      GL.FitsThenRest(SYMBOLS, part, rest, S[t + 1..][k..]);
      assert false;
    }
  }

  /** No match is lost, whatever the segment is. */
  lemma {:induction false} ScanIsComplete(glob: Text, s: Text, G: seq<Text>, S: seq<Text>, m: nat, t: nat)
    requires Pair(glob, s, G, S) && m <= |G| && t <= |S| && GL.Starred(SYMBOLS, G[m..], S[t..])
    ensures glob == Concat(G) && StepsInside(s) && StartOf(S, t) <= |s|
    ensures Retries(glob, s, G, m, StartOf(S, t))
    decreases |G| - m, |S| - t, 0
  {
    hide Pair, Retries, Try, GL.Starred;
    RetriesTry(glob, s, G, S, m, t);
    assert G[m..m] == [];
    GL.GreedyIsLanguage(SYMBOLS, G, S, m, t, m, t + 1);
    GreedyTries(G, S, m, t, m, t + 1);
    match Try(G, S, m, t) {
      case Mismatch =>
        GL.GreedyIsLanguage(SYMBOLS, G, S, m, t + 1, m, t + 2);
        SymbolNotEmpty(glob, s, G, S, t);
        InsideIsComplete(glob, s, G, S, m, t, |S[t]| - 1);
      case AtStar(g, p) =>
        if g + 1 < |G| {
          assert G[g + 1..g + 1] == [];
          GL.GreedyIsLanguage(SYMBOLS, G, S, g + 1, p, g + 1, p + 1);
          ScanIsComplete(glob, s, G, S, g + 1, p);
        }
      case UsedUp(g) =>
    }
  }

  lemma {:induction false} InsideIsComplete(glob: Text, s: Text, G: seq<Text>, S: seq<Text>, m: nat, t: nat, r: nat)
    requires Pair(glob, s, G, S) && m <= |G| && t < |S| && r < |S[t]| && Try(G, S, m, t) == Mismatch
    requires GL.Starred(SYMBOLS, G[m..], S[t + 1..])
    ensures glob == Concat(G) && StepsInside(s) && r <= StartOf(S, t + 1) <= |s|
    ensures Retries(glob, s, G, m, StartOf(S, t + 1) - r)
    decreases |G| - m, |S| - t - 1, r + 1
  {
    hide Pair, Retries, Try, GL.Starred, Questions;
    RetriesTry(glob, s, G, S, m, t);
    if r == 0 {
      ScanIsComplete(glob, s, G, S, m, t + 1);
    } else {
      InsideTry(glob, s, G, S, m, t, r);
      InsideIsComplete(glob, s, G, S, m, t, r - 1);
      if Questions(G, m, r) {
        RetriesIs(glob, s, G, S, m, StartOf(S, t + 1) - r + 1);
        QuestionsFit(G, m, r);
        NotUsedUp(G, S, m, t, r);
        match Try(G, S, m + r, t + 1) {
          case Mismatch =>
          case AtStar(g, p) =>
            LaterFit(G, S, m, t, r);
            ScanIsComplete(glob, s, G, S, g + 1, p);
            StarHere(glob, s, G, S, g + 1, p);
        }
      }
    }
  }

  lemma QuestionsFit(G: seq<Text>, m: nat, r: nat)
    requires Questions(G, m, r)
    ensures m + r <= |G|
  {
  }

  lemma StarHere(glob: Text, s: Text, G: seq<Text>, S: seq<Text>, g: nat, p: nat)
    requires Pair(glob, s, G, S) && g <= |G| && p <= |S|
    ensures StartOf(S, p) <= |s| && StartOf(G, g) <= |glob|
    ensures glob == Concat(G) && StepsInside(s)
    ensures Retries(glob, s, G, g, StartOf(S, p)) <==> GreedyAt(glob, s, G, S, g, p, StartOf(G, g), StartOf(S, p) + 1)
  {
    PairBounds(glob, s, G, S, g, p);
  }
}
