/** Matching segments against globs (`common/segment_glob.cpp`). */
module SegmentGlob {
  import opened Common
  import opened Utf8
  import opened GlobMatcher
  import GL = GlobLanguage
  import SymbolGlobs

  /** Well-formed UTF-8 that a `const char*` can carry. */
  ghost predicate PlainText(text: Text) {
    WellFormed(text) && 0 !in text
  }

  /** Without wildcards a glob is its own language, over bytes as over symbols. */
  lemma FixedGlob(glob: Text, s: Text)
    requires STAR !in glob && QUESTION !in glob
    ensures InLanguage(glob, s) <==> s == glob
    ensures InSymbolLanguage(glob, s) <==> s == glob
  {
    hide Symbols;
    GL.FixedLanguage(BYTES, glob, s);
    var G := Symbols(glob);
    forall x | x in G
      ensures x != [STAR] && x != [QUESTION]
    {
      BytesOfSymbol(G, x);
      assert [STAR][0] == STAR && [QUESTION][0] == QUESTION;
    }
    GL.FixedLanguage(SYMBOLS, G, Symbols(s));
  }

  lemma {:induction false} BytesOfSymbol(symbols: seq<Text>, x: Text)
    requires x in symbols
    ensures forall b :: b in x ==> b in Concat(symbols)
  {
    if x != symbols[0] {
      BytesOfSymbol(symbols[1..], x);
    }
  }

  class SegmentGlob {
    const glob: Text
    var isFixed: bool

    ghost predicate Valid()
      reads this
    {
      isFixed <==> STAR !in glob && QUESTION !in glob
    }

    constructor (glob: Text)
      ensures Valid() && this.glob == glob
    {
      this.glob := glob;
      new;
      CheckIfFixed();
    }

    method CheckIfFixed()
      modifies this
      ensures Valid()
    {
      isFixed := STAR !in glob && QUESTION !in glob;
    }

    /** On segments that are not deceptive the result is membership in the language of the glob over
        UTF-8 symbols; on the others at least nothing of the language is refused. With single-byte
        steps it is membership in the language over bytes, for any bytes. A NUL ends both strings,
        unless the glob is fixed. */
    method Matches(segment: Text) returns (r: bool)
      requires Valid() && StepsInside(CString(segment))
      ensures isFixed ==> (r <==> segment == glob)
      ensures !isFixed ==> r == Head(CString(glob), CString(segment), 0, 0)
      ensures !isFixed && SingleByteSteps(CString(glob), CString(segment)) ==>
                (r <==> InLanguage(CString(glob), CString(segment)))
      ensures 0 !in glob && 0 !in segment && SingleByteSteps(glob, segment) ==> (r <==> InLanguage(glob, segment))
      ensures PlainText(glob) && PlainText(segment) && InSymbolLanguage(glob, segment) ==> r
      ensures PlainText(glob) && PlainText(segment) && !Deceptive(Symbols(segment)) ==>
                (r <==> InSymbolLanguage(glob, segment))
    {
      hide SequenceLength, SymbolLength, Head, Greedy, InLanguage, InSymbolLanguage, WellFormed, Deceptive, StepsInside;
      if isFixed {
        FixedGlob(glob, segment);
        return segment == glob;
      }
      var g, s := CString(glob), CString(segment);
      r := MatchWild(g, s);
      if SingleByteSteps(g, s) {
        GlobMatcher.HeadIsLanguage(g, s);
      }
      if PlainText(glob) && PlainText(segment) {
        if InSymbolLanguage(glob, segment) {
          SymbolGlobs.LanguageIsAccepted(glob, segment);
        } else if !Deceptive(Symbols(segment)) {
          SymbolGlobs.AcceptedIsLanguage(glob, segment);
        }
      }
    }

    /** The three loops of `matches`. */
    static method MatchWild(g: Text, s: Text) returns (r: bool)
      requires StepsInside(s)
      ensures r == Head(g, s, 0, 0)
    {
      hide SequenceLength, SymbolLength;
      var i: nat, j: nat := 0, 0;
      while j < |s| && !(i < |g| && g[i] == STAR)
        invariant i <= |g| && j <= |s|
        invariant Head(g, s, i, j) == Head(g, s, 0, 0)
        decreases |s| - j
      {
        if i == |g| || (g[i] != s[j] && g[i] != QUESTION) {
          return false;
        }
        j := j + (if g[i] == QUESTION then SymbolLength(s[j]) else 1);
        i := i + 1;
      }
      var mp: nat, cp: nat := i, j + 1;
      while j < |s|
        invariant mp <= i <= |g| && cp <= j + 1 && j <= |s|
        invariant Greedy(g, s, i, j, mp, cp) == Head(g, s, 0, 0)
        decreases |g| - mp, |s| + 1 - cp, |s| - j
      {
        if i < |g| && g[i] == STAR {
          i := i + 1;
          if i == |g| {
            return true;
          }
          mp, cp := i, j + 1;
        } else if i < |g| && g[i] == QUESTION {
          i, j := i + 1, j + SymbolLength(s[j]);
        } else if i < |g| && g[i] == s[j] {
          i, j := i + 1, j + 1;
        } else {
          i, j, cp := mp, cp, cp + 1;
        }
      }
      while i < |g| && g[i] == STAR
        invariant i <= |g| && AllStars(g[i..]) == Head(g, s, 0, 0)
      {
        assert g[i..][1..] == g[i + 1..];
        i := i + 1;
      }
      return i == |g|;
    }
  }
}
