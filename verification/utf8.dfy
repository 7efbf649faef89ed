/** The layout of UTF-8 text, as `utf8::internal::sequence_length` and `is_trail` see it
    (the structure of section 4 of RFC 3629, without its limits on code point values). */
module Utf8 {
  import opened Common

  type Text = seq<Byte>

  predicate IsTrail(b: Byte) {
    b / 64 == 2
  }

  /** The number of bytes announced by a lead byte; 0 for a byte that cannot lead. */
  function SequenceLength(lead: Byte): (n: nat)
    ensures n <= 4 && (IsTrail(lead) ==> n == 0)
  {
    if lead < 0x80 then 1
    else if lead / 32 == 0x6 then 2
    else if lead / 16 == 0xe then 3
    else if lead / 8 == 0x1e then 4
    else 0
  }

  /** The four ranges of lead bytes; the rest are trail bytes and bytes that occur nowhere. */
  lemma LeadBytes(b: Byte)
    ensures SequenceLength(b) == 1 <==> b <= 0x7f
    ensures SequenceLength(b) == 2 <==> 0xc0 <= b <= 0xdf
    ensures SequenceLength(b) == 3 <==> 0xe0 <= b <= 0xef
    ensures SequenceLength(b) == 4 <==> 0xf0 <= b <= 0xf7
    ensures IsTrail(b) <==> 0x80 <= b <= 0xbf
  {
  }

  /** `symbolLength`, and the step of `utf8::unchecked::next`: bytes that cannot lead count as one. */
  function SymbolLength(lead: Byte): (n: nat)
    ensures 1 <= n <= 4
  {
    if SequenceLength(lead) > 0 then SequenceLength(lead) else 1
  }

  /** A whole symbol stands at `i`, and no stray trail byte follows it. */
  predicate SymbolAt(text: Text, i: nat)
    requires i < |text|
  {
    var n := SequenceLength(text[i]);
    && n > 0 && i + n <= |text|
    && (forall j :: i < j < i + n ==> IsTrail(text[j]))
    && (i + n < |text| ==> !IsTrail(text[i + n]))
  }

  predicate WellFormed(text: Text) {
    && (text != [] ==> !IsTrail(text[0]))
    && forall i: nat :: i < |text| && !IsTrail(text[i]) ==> SymbolAt(text, i)
  }

  /** A position between two symbols. */
  predicate Boundary(text: Text, i: nat) {
    i == |text| || (i < |text| && !IsTrail(text[i]))
  }

  /** The text is a concatenation of symbols. */
  predicate Parses(text: Text) {
    text == [] ||
    (var n := SequenceLength(text[0]);
     && 0 < n <= |text|
     && (forall j :: 0 < j < n ==> IsTrail(text[j]))
     && Parses(text[n..]))
  }

  lemma ShiftSymbol(text: Text, n: nat, i: nat)
    requires n + i < |text|
    ensures SymbolAt(text, n + i) <==> SymbolAt(text[n..], i)
  {
    hide SequenceLength, IsTrail;
    var rest := text[n..];
    var m := SequenceLength(rest[i]);
    assert forall j :: 0 <= j < |rest| ==> rest[j] == text[n + j];
    if SymbolAt(rest, i) {
      forall j | n + i < j < n + i + m
        ensures IsTrail(text[j])
      {
        assert text[j] == rest[j - n];
      }
    }
  }

  /** The position test used below describes exactly the texts that are made of symbols. */
  lemma {:induction false} WellFormedIffParses(text: Text)
    ensures WellFormed(text) <==> Parses(text)
    decreases |text|
  {
    hide SequenceLength, IsTrail;
    if text != [] {
      var n := SequenceLength(text[0]);
      if 0 < n <= |text| {
        var rest := text[n..];
        WellFormedIffParses(rest);
        forall i: nat | i < |rest| {
          ShiftSymbol(text, n, i);
        }
        if WellFormed(text) {
          assert SymbolAt(text, 0);
          assert forall i: nat :: i < |rest| && !IsTrail(rest[i]) ==> SymbolAt(text, n + i);
        }
        if Parses(text) {
          assert SymbolAt(text, 0);
          forall i: nat | n <= i < |text| && !IsTrail(text[i])
            ensures SymbolAt(text, i)
          {
            assert rest[i - n] == text[i];
          }
        }
      }
    }
  }

  lemma FrontIsBoundary(text: Text)
    requires WellFormed(text)
    ensures Boundary(text, 0)
  {
  }

  /** Stepping by `SymbolLength` goes from boundary to boundary and passes none. */
  lemma NextBoundary(text: Text, i: nat)
    requires WellFormed(text) && i < |text| && Boundary(text, i)
    ensures var next := i + SymbolLength(text[i]);
            next <= |text| && Boundary(text, next) && forall j :: i < j < next ==> !Boundary(text, j)
  {
    hide SequenceLength, IsTrail;
    assert SymbolAt(text, i);
  }

  /** From inside a symbol a step moves one byte, and the next boundary is at most three bytes away. */
  lemma {:induction false} BoundaryAhead(text: Text, i: nat) returns (b: nat)
    requires WellFormed(text) && i < |text| && !Boundary(text, i)
    ensures SymbolLength(text[i]) == 1
    ensures i < b <= i + 3 && b <= |text| && Boundary(text, b)
    ensures forall j :: i <= j < b ==> !Boundary(text, j)
  {
    hide SequenceLength, IsTrail;
    var start := LeadBefore(text, i);
    assert SymbolAt(text, start);
    b := start + SequenceLength(text[start]);
  }

  lemma {:induction false} LeadBefore(text: Text, i: nat) returns (start: nat)
    requires WellFormed(text) && i < |text| && IsTrail(text[i])
    ensures start < i && !IsTrail(text[start])
    ensures forall j :: start < j <= i ==> IsTrail(text[j])
  {
    hide IsTrail, SymbolAt;
    assert i > 0;
    if IsTrail(text[i - 1]) {
      start := LeadBefore(text, i - 1);
    } else {
      start := i - 1;
    }
  }

  // ---------- Text as a list of symbols ----------

  predicate IsSymbol(x: Text) {
    x != [] && SequenceLength(x[0]) == |x| && forall j :: 0 < j < |x| ==> IsTrail(x[j])
  }

  function Concat(symbols: seq<Text>): Text {
    if symbols == [] then [] else symbols[0] + Concat(symbols[1..])
  }

  ghost predicate AllSymbols(symbols: seq<Text>) {
    forall i :: 0 <= i < |symbols| ==> IsSymbol(symbols[i])
  }

  function Symbols(text: Text): (r: seq<Text>)
    ensures Concat(r) == text
  {
    if text == [] then []
    else
      var n := Min(SymbolLength(text[0]), |text|);
      [text[..n]] + Symbols(text[n..])
  }

  lemma {:induction false} SymbolsOfText(text: Text)
    requires WellFormed(text)
    ensures AllSymbols(Symbols(text))
    decreases |text|
  {
    hide SequenceLength, IsTrail, WellFormed;
    WellFormedIffParses(text);
    if text != [] {
      var n := SequenceLength(text[0]);
      assert IsSymbol(text[..n]);
      WellFormedIffParses(text[n..]);
      SymbolsOfText(text[n..]);
    }
  }

  lemma SymbolInFront(x: Text, rest: Text)
    requires IsSymbol(x) && Parses(rest)
    ensures Parses(x + rest) && Symbols(x + rest) == [x] + Symbols(rest)
  {
    hide SequenceLength, IsTrail;
    var text := x + rest;
    assert text[0] == x[0] && text[..|x|] == x && text[|x|..] == rest;
    assert forall j :: 0 < j < |x| ==> text[j] == x[j];
  }

  /** A list of symbols is a well-formed text, and the only list for that text. */
  lemma {:induction false} TextOfSymbols(symbols: seq<Text>)
    requires AllSymbols(symbols)
    ensures WellFormed(Concat(symbols)) && Symbols(Concat(symbols)) == symbols
  {
    hide SequenceLength, IsTrail, WellFormed, Symbols, Parses;
    WellFormedIffParses(Concat(symbols));
    if symbols == [] {
      NoSymbols();
    } else {
      assert IsSymbol(symbols[0]) && AllSymbols(symbols[1..]);
      TextOfSymbols(symbols[1..]);
      WellFormedIffParses(Concat(symbols[1..]));
      SymbolInFront(symbols[0], Concat(symbols[1..]));
    }
  }

  lemma NoSymbols()
    ensures Parses([]) && Symbols([]) == []
  {
  }

  /** Where symbol `i` begins. */
  function StartOf(symbols: seq<Text>, i: nat): nat
    requires i <= |symbols|
  {
    if i == 0 then 0 else StartOf(symbols, i - 1) + |symbols[i - 1]|
  }

  lemma {:induction false} StartInRest(symbols: seq<Text>, i: nat)
    requires 0 < i <= |symbols|
    ensures StartOf(symbols, i) == |symbols[0]| + StartOf(symbols[1..], i - 1)
  {
    if i > 1 {
      StartInRest(symbols, i - 1);
    }
  }

  lemma {:induction false} TextFrom(symbols: seq<Text>, i: nat)
    requires i <= |symbols|
    ensures StartOf(symbols, i) <= |Concat(symbols)| && Concat(symbols)[StartOf(symbols, i)..] == Concat(symbols[i..])
    ensures i == |symbols| ==> StartOf(symbols, i) == |Concat(symbols)|
  {
    if i > 0 {
      StartInRest(symbols, i);
      TextFrom(symbols[1..], i - 1);
      assert symbols[1..][i - 1..] == symbols[i..];
    } else {
      assert symbols[0..] == symbols && Concat(symbols)[0..] == Concat(symbols);
    }
  }

  /** Byte `j` of symbol `i`. */
  lemma SymbolByte(symbols: seq<Text>, i: nat, j: nat)
    requires i < |symbols| && j < |symbols[i]|
    ensures StartOf(symbols, i) + j < |Concat(symbols)|
    ensures Concat(symbols)[StartOf(symbols, i) + j] == symbols[i][j]
  {
    TextFrom(symbols, i);
    assert symbols[i..][0] == symbols[i];
    assert Concat(symbols)[StartOf(symbols, i)..][j] == symbols[i][j];
  }
}
