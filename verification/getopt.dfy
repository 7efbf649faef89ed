/** GNU `getopt` in PERMUTE mode: the in-place block exchange and the scanner built on it. */
module Getopt {
  import opened Common

  /** An array whose adjacent blocks [lo, mid) and [mid, hi) have changed places. */
  function Swapped<T>(s: seq<T>, lo: nat, mid: nat, hi: nat): (r: seq<T>)
    requires lo <= mid <= hi <= |s|
    ensures |r| == |s|
  {
    s[..lo] + s[mid..hi] + s[lo..mid] + s[hi..]
  }

  /** Exchanging `len` elements at `lo` with `len` elements at `far`. */
  ghost predicate BlocksSwapped<T>(before: seq<T>, after: seq<T>, lo: nat, far: nat, len: nat)
    requires lo + len <= far && far + len <= |before|
  {
    && |after| == |before|
    && after[lo..lo + len] == before[far..far + len]
    && after[far..far + len] == before[lo..lo + len]
    && after[..lo] == before[..lo]
    && after[lo + len..far] == before[lo + len..far]
    && after[far + len..] == before[far + len..]
  }

  /** Moving a short bottom block to the top leaves a smaller exchange of the same kind. */
  lemma ShortBottom<T>(before: seq<T>, after: seq<T>, bottom: nat, middle: nat, top: nat)
    requires bottom < middle < top <= |before| && middle - bottom < top - middle
    requires BlocksSwapped(before, after, bottom, top - (middle - bottom), middle - bottom)
    ensures Swapped(after, bottom, middle, top - (middle - bottom)) == Swapped(before, bottom, middle, top)
  {
    var len := middle - bottom;
    var cut := top - len;
    assert after[cut..] == after[cut..top] + after[top..];
    assert before[middle..top] == before[middle..cut] + before[cut..top];
    assert after[middle..cut] == before[middle..cut];
    assert Swapped(after, bottom, middle, cut) ==
           before[..bottom] + before[middle..cut] + before[cut..top] + before[bottom..middle] + before[top..];
  }

  /** Moving a short top block to the bottom leaves a smaller exchange of the same kind. */
  lemma ShortTop<T>(before: seq<T>, after: seq<T>, bottom: nat, middle: nat, top: nat)
    requires bottom < middle < top <= |before| && top - middle <= middle - bottom
    requires BlocksSwapped(before, after, bottom, middle, top - middle)
    ensures Swapped(after, bottom + (top - middle), middle, top) == Swapped(before, bottom, middle, top)
  {
    var len := top - middle;
    var cut := bottom + len;
    assert after[..cut] == after[..bottom] + after[bottom..cut];
    assert before[bottom..middle] == before[bottom..cut] + before[cut..middle];
    assert after[cut..middle] == before[cut..middle];
    assert Swapped(after, cut, middle, top) ==
           before[..bottom] + before[middle..top] + before[bottom..cut] + before[cut..middle] + before[top..];
  }

  method SwapBlocks<T>(a: array<T>, lo: nat, far: nat, len: nat)
    requires lo + len <= far && far + len <= a.Length
    modifies a
    ensures BlocksSwapped(old(a[..]), a[..], lo, far, len)
  {
    ghost var before := a[..];
    var i := 0;
    while i < len
      invariant 0 <= i <= len
      invariant BlocksSwapped(before, a[..], lo, far, i)
    {
      SwapOneMore(before, a[..], lo, far, i);
      ghost var s := a[..];
      var tem := a[lo + i];
      a[lo + i] := a[far + i];
      a[far + i] := tem;
      assert a[..] == s[lo + i := s[far + i]][far + i := s[lo + i]];
      i := i + 1;
    }
  }

  lemma SwapOneMore<T>(before: seq<T>, s: seq<T>, lo: nat, far: nat, i: nat)
    requires lo + i < far && far + i < |before| && BlocksSwapped(before, s, lo, far, i)
    ensures BlocksSwapped(before, s[lo + i := s[far + i]][far + i := s[lo + i]], lo, far, i + 1)
  {
    assert s[far + i..][0] == before[far + i..][0];
    assert s[lo + i..far][0] == before[lo + i..far][0];
    var t := s[lo + i := s[far + i]][far + i := s[lo + i]];
    assert t[lo..lo + i + 1] == s[lo..lo + i] + [s[far + i]];
    assert t[far..far + i + 1] == s[far..far + i] + [s[lo + i]];
    assert t[lo + i + 1..far] == s[lo + i..far][1..];
    assert t[far + i + 1..] == s[far + i..][1..];
  }

  /** One round of `exchange` when the bottom segment is the short one. */
  method PlaceBottom<T>(a: array<T>, bottom: nat, middle: nat, top: nat) returns (cut: nat)
    requires bottom < middle < top <= a.Length && middle - bottom < top - middle
    modifies a
    ensures cut == top - (middle - bottom)
    ensures Swapped(a[..], bottom, middle, cut) == Swapped(old(a[..]), bottom, middle, top)
  {
    ghost var before := a[..];
    var len: nat := middle - bottom;
    cut := top - len;
    SwapBlocks(a, bottom, cut, len);
    ShortBottom(before, a[..], bottom, middle, top);
  }

  /** One round of `exchange` when the top segment is the short one. */
  method PlaceTop<T>(a: array<T>, bottom: nat, middle: nat, top: nat) returns (cut: nat)
    requires bottom < middle < top <= a.Length && top - middle <= middle - bottom
    modifies a
    ensures cut == bottom + (top - middle)
    ensures Swapped(a[..], cut, middle, top) == Swapped(old(a[..]), bottom, middle, top)
  {
    ghost var before := a[..];
    var len: nat := top - middle;
    SwapBlocks(a, bottom, middle, len);
    cut := bottom + len;
    ShortTop(before, a[..], bottom, middle, top);
  }

  // ---------- The order that a whole scan has to produce ----------

  const TERMINATOR: string := "--"

  /** What decoding one option character does: more characters of the element follow at position
      `next`, or the element is finished and may want the following element as its argument. */
  datatype Decoded = More(next: nat) | Done(wantsArg: bool)

  type Decoder = (string, nat) -> Decoded

  /** Decoding moves forward inside the element. */
  ghost predicate Advances(decode: Decoder) {
    forall e, p: nat :: decode(e, p).More? ==> p < decode(e, p).next < |e|
  }

  /** `NONOPTION_P` */
  predicate NonOption(e: string) {
    |e| == 0 || e[0] != '-' || |e| == 1
  }

  function FirstChar(e: string, longOptions: bool): nat {
    if longOptions && |e| > 1 && e[1] == '-' then 2 else 1
  }

  /** Whether the element, decoded from position `p` on, ends by asking for an argument. */
  ghost predicate WantsArg(decode: Decoder, e: string, p: nat)
    requires Advances(decode)
    decreases |e| - p
  {
    match decode(e, p)
    case More(q) => WantsArg(decode, e, q)
    case Done(b) => b
  }

  datatype Config = Config(decode: Decoder, longOptions: bool)

  /** The index of `c` in `s`, or |s|. */
  function IndexOf(s: string, c: char): (i: nat)
    ensures i <= |s| && (i < |s| ==> s[i] == c) && c !in s[..i]
  {
    if s == [] || s[0] == c then 0 else 1 + IndexOf(s[1..], c)
  }

  /** Decoding of short options against `optstring` (without the `W;` extension). */
  function ShortOption(optstring: string, e: string, p: nat): Decoded {
    if p >= |e| then Done(false)
    else
      var last := p + 1 == |e|;
      var i := IndexOf(optstring, e[p]);
      if i + 1 >= |optstring| || e[p] == ':' || optstring[i + 1] != ':' then
        if last then Done(false) else More(p + 1)
      else
        Done(last && !(i + 2 < |optstring| && optstring[i + 2] == ':'))
  }

  /** Decoding against an option string moves forward, so the assumption about decoders can be met. */
  lemma ShortOptionsAdvance(optstring: string)
    ensures Advances((e: string, p: nat) => ShortOption(optstring, e, p))
  {
  }

  /** The number of elements that an option at the front consumes. */
  ghost function Taken(c: Config, args: seq<string>): (k: nat)
    requires Advances(c.decode) && args != []
    ensures 1 <= k <= |args|
  {
    if WantsArg(c.decode, args[0], FirstChar(args[0], c.longOptions)) && |args| > 1 then 2 else 1
  }

  /** The options with their arguments, and the terminator, in their original order. */
  ghost function Options(c: Config, args: seq<string>): seq<string>
    requires Advances(c.decode)
  {
    if args == [] then []
    else if NonOption(args[0]) then Options(c, args[1..])
    else if args[0] == TERMINATOR then [TERMINATOR]
    else args[..Taken(c, args)] + Options(c, args[Taken(c, args)..])
  }

  /** The other elements in their original order. */
  ghost function Operands(c: Config, args: seq<string>): seq<string>
    requires Advances(c.decode)
  {
    if args == [] then []
    else if NonOption(args[0]) then [args[0]] + Operands(c, args[1..])
    else if args[0] == TERMINATOR then args[1..]
    else Operands(c, args[Taken(c, args)..])
  }

  lemma OneOption(c: Config, e: string, rest: seq<string>)
    requires Advances(c.decode) && !NonOption(e) && e != TERMINATOR
    ensures var k := if WantsArg(c.decode, e, FirstChar(e, c.longOptions)) && rest != [] then 1 else 0;
            && Options(c, [e] + rest) == [e] + rest[..k] + Options(c, rest[k..])
            && Operands(c, [e] + rest) == Operands(c, rest[k..])
  {
    var args := [e] + rest;
    var k := Taken(c, args);
    assert args[..k] == [e] + rest[..k - 1] && args[k..] == rest[k - 1..];
  }

  lemma OneOperand(c: Config, e: string, rest: seq<string>)
    requires Advances(c.decode) && NonOption(e)
    ensures Options(c, [e] + rest) == Options(c, rest) && Operands(c, [e] + rest) == [e] + Operands(c, rest)
  {
    assert ([e] + rest)[1..] == rest;
  }

  function Short(optstring: string): Config {
    Config((e: string, p: nat) => ShortOption(optstring, e, p), false)
  }

  lemma Letters(c: Config)
    requires c == Short("abc::f:")
    ensures c.decode("-f", 1) == Done(true) && c.decode("-c", 1) == Done(false)
    ensures c.decode("-ab", 1) == More(2) && c.decode("-ab", 2) == Done(false)
  {
    hide IndexOf;
    IndexIs("abc::f:", 'a', 0);
    IndexIs("abc::f:", 'b', 1);
    IndexIs("abc::f:", 'c', 2);
    IndexIs("abc::f:", 'f', 5);
  }

  lemma {:induction false} IndexIs(s: string, c: char, i: nat)
    requires i < |s| && s[i] == c && c !in s[..i]
    ensures IndexOf(s, c) == i
  {
    if i > 0 {
      assert s[..i][0] == s[0] && s[1..][..i - 1] == s[..i][1..];
      IndexIs(s[1..], c, i - 1);
    }
  }

  /** `-f` takes the next element, `-c` does not, `-ab` are two options, `-` is an operand, and behind `--` all are. */
  lemma SplitExample()
    ensures var c, args := Short("abc::f:"), ["x", "-f", "y", "-ab", "-c", "-", "--", "-q"];
            && Advances(c.decode)
            && Options(c, args) == ["-f", "y", "-ab", "-c", "--"] && Operands(c, args) == ["x", "-", "-q"]
  {
    hide Options, Operands, ShortOption;
    var c := Short("abc::f:");
    assert Advances(c.decode) by { ShortOptionsAdvance("abc::f:"); }
    Letters(c);
    assert WantsArg(c.decode, "-f", 1) && !WantsArg(c.decode, "-c", 1) && !WantsArg(c.decode, "-ab", 2);
    assert !WantsArg(c.decode, "-ab", 1);
    var rest6: seq<string> := ["--"] + ["-q"];
    var rest5, rest4 := ["-"] + rest6, ["-c"] + (["-"] + rest6);
    var rest3 := ["-ab"] + rest4;
    var rest2 := ["y"] + rest3;
    var rest1 := ["-f"] + rest2;
    AfterTerminator(c, ["-q"]);
    OneOperand(c, "-", rest6);
    OneOption(c, "-c", rest5);
    OneOption(c, "-ab", rest4);
    OneOption(c, "-f", rest2);
    OneOperand(c, "x", rest1);
    assert rest5[..0] == [] && rest5[0..] == rest5 && rest4[..0] == [] && rest4[0..] == rest4;
    assert rest2[..1] == ["y"] && rest2[1..] == rest3;
    assert ["x"] + rest1 == ["x", "-f", "y", "-ab", "-c", "-", "--", "-q"];
  }

  lemma AfterTerminator(c: Config, rest: seq<string>)
    requires Advances(c.decode)
    ensures Options(c, ["--"] + rest) == ["--"] && Operands(c, ["--"] + rest) == rest
  {
    assert (["--"] + rest)[1..] == rest;
  }

  /** `s` can be split into the subsequences `a` and `b`, each keeping its order. */
  ghost predicate Interleaves<T>(s: seq<T>, a: seq<T>, b: seq<T>)
    decreases |s|
  {
    if s == [] then a == [] && b == []
    else
      || (a != [] && a[0] == s[0] && Interleaves(s[1..], a[1..], b))
      || (b != [] && b[0] == s[0] && Interleaves(s[1..], a, b[1..]))
  }

  lemma {:induction false} InterleavesPrefix<T>(p: seq<T>, s: seq<T>, a: seq<T>, b: seq<T>)
    requires Interleaves(s, a, b)
    ensures Interleaves(p + s, p + a, b)
  {
    if p == [] {
      assert p + s == s && p + a == a;
    } else {
      InterleavesPrefix(p[1..], s, a, b);
      assert (p + s)[1..] == p[1..] + s && (p + a)[1..] == p[1..] + a;
    }
  }

  lemma {:induction false} InterleavesRight<T>(s: seq<T>)
    ensures Interleaves(s, [], s)
  {
    if s != [] {
      InterleavesRight(s[1..]);
    }
  }

  /** The two parts make up the arguments, and each keeps its order: the split is stable. */
  lemma {:induction false} StableSplit(c: Config, args: seq<string>)
    requires Advances(c.decode)
    ensures Interleaves(args, Options(c, args), Operands(c, args))
    decreases |args|
  {
    if args == [] {
    } else if NonOption(args[0]) {
      StableSplit(c, args[1..]);
      var rest := Operands(c, args[1..]);
      assert ([args[0]] + rest)[1..] == rest;
    } else if args[0] == TERMINATOR {
      InterleavesRight(args[1..]);
      assert [TERMINATOR][1..] == [];
    } else {
      var k := Taken(c, args);
      StableSplit(c, args[k..]);
      InterleavesPrefix(args[..k], args[k..], Options(c, args[k..]), Operands(c, args[k..]));
      assert args[..k] + args[k..] == args;
    }
  }

  lemma {:induction false} InterleavedElements<T>(s: seq<T>, a: seq<T>, b: seq<T>)
    requires Interleaves(s, a, b)
    ensures multiset(s) == multiset(a) + multiset(b) && |s| == |a| + |b|
    decreases |s|
  {
    if s != [] {
      assert s == [s[0]] + s[1..];
      if a != [] && a[0] == s[0] && Interleaves(s[1..], a[1..], b) {
        InterleavedElements(s[1..], a[1..], b);
        assert a == [a[0]] + a[1..];
      } else {
        InterleavedElements(s[1..], a, b[1..]);
        assert b == [b[0]] + b[1..];
      }
    }
  }

  lemma SwappedTrivial<T>(s: seq<T>, lo: nat, mid: nat, hi: nat)
    requires lo <= mid <= hi <= |s|
    ensures lo == mid || mid == hi ==> Swapped(s, lo, mid, hi) == s
  {
  }

  lemma SwappedElements<T>(s: seq<T>, lo: nat, mid: nat, hi: nat)
    requires lo <= mid <= hi <= |s|
    ensures multiset(Swapped(s, lo, mid, hi)) == multiset(s)
  {
    assert s == s[..lo] + s[lo..mid] + s[mid..hi] + s[hi..];
  }

  // ---------- What every step of the scan keeps ----------

  /** `s` is `orig` with the elements before `optind` rearranged: options seen so far in
      [1, first) and [last, optind), operands seen so far in [first, last). */
  ghost predicate Scanned(c: Config, orig: seq<string>, s: seq<string>, first: nat, last: nat, optind: nat)
    requires Advances(c.decode) && 1 <= first <= last <= optind <= |s| == |orig|
  {
    && s[0] == orig[0]
    && s[optind..] == orig[optind..]
    && Options(c, orig[1..]) == s[1..first] + s[last..optind] + Options(c, orig[optind..])
    && Operands(c, orig[1..]) == s[first..last] + Operands(c, orig[optind..])
  }

  lemma SkipOperandsKeeps(c: Config, orig: seq<string>, s: seq<string>, first: nat, last: nat, from: nat,
                          t: seq<string>, optind: nat)
    requires Advances(c.decode) && 1 <= first <= last <= from <= optind <= |s| == |orig|
    requires Scanned(c, orig, s, first, last, from) && t == Swapped(s, first, last, from)
    requires forall i :: from <= i < optind ==> NonOption(t[i])
    ensures Scanned(c, orig, t, first + (from - last), optind, optind)
  {
    hide Scanned, Swapped, NonOption;
    ExchangeKeeps(c, orig, s, first, last, from);
    SkipManyKeeps(c, orig, t, first + (from - last), from, optind);
  }

  lemma {:induction false} SkipManyKeeps(c: Config, orig: seq<string>, s: seq<string>, first: nat, from: nat,
                                         optind: nat)
    requires Advances(c.decode) && 1 <= first <= from <= optind <= |s| == |orig|
    requires Scanned(c, orig, s, first, from, from) && forall i :: from <= i < optind ==> NonOption(s[i])
    ensures Scanned(c, orig, s, first, optind, optind)
    decreases optind - from
  {
    if from < optind {
      SkipKeeps(c, orig, s, first, from);
      SkipManyKeeps(c, orig, s, first, from + 1, optind);
    }
  }

  /** Options first, operands from `start` on. */
  ghost predicate Partitioned(c: Config, orig: seq<string>, s: seq<string>, start: nat)
    requires Advances(c.decode) && orig != []
  {
    && s == [orig[0]] + Options(c, orig[1..]) + Operands(c, orig[1..])
    && start == 1 + |Options(c, orig[1..])|
  }

  lemma ExchangeKeeps(c: Config, orig: seq<string>, s: seq<string>, first: nat, last: nat, optind: nat)
    requires Advances(c.decode) && 1 <= first <= last <= optind <= |s| == |orig|
    requires Scanned(c, orig, s, first, last, optind)
    ensures Scanned(c, orig, Swapped(s, first, last, optind), first + (optind - last), optind, optind)
  {
    var t := Swapped(s, first, last, optind);
    var cut := first + (optind - last);
    assert t[1..cut] == s[1..first] + s[last..optind];
    assert t[cut..optind] == s[first..last];
    assert t[optind..] == s[optind..];
    assert t[optind..optind] == [];
    assert t[1..cut] + t[optind..optind] == t[1..cut];
  }

  lemma SkipKeeps(c: Config, orig: seq<string>, s: seq<string>, first: nat, optind: nat)
    requires Advances(c.decode) && 1 <= first <= optind < |s| == |orig|
    requires Scanned(c, orig, s, first, optind, optind) && NonOption(s[optind])
    ensures Scanned(c, orig, s, first, optind + 1, optind + 1)
  {
    assert orig[optind..][0] == s[optind..][0] == s[optind];
    assert orig[optind..][1..] == orig[optind + 1..] && s[optind..][1..] == s[optind + 1..];
    assert s[first..optind] + [s[optind]] == s[first..optind + 1];
    assert s[optind..optind] == s[optind + 1..optind + 1];
    var rest := Operands(c, orig[optind + 1..]);
    assert s[first..optind] + ([s[optind]] + rest) == s[first..optind + 1] + rest;
  }

  lemma OptionKeeps(c: Config, orig: seq<string>, s: seq<string>, first: nat, last: nat, optind: nat, k: nat)
    requires Advances(c.decode) && 1 <= first <= last <= optind < |s| == |orig|
    requires Scanned(c, orig, s, first, last, optind)
    requires !NonOption(s[optind]) && s[optind] != TERMINATOR && k == Taken(c, s[optind..])
    ensures Scanned(c, orig, s, first, last, optind + k)
  {
    assert orig[optind..][k..] == orig[optind + k..] && s[optind..][k..] == s[optind + k..];
    assert s[optind..][..k] == s[optind..optind + k];
    var rest := Options(c, orig[optind + k..]);
    assert Options(c, orig[optind..]) == s[optind..optind + k] + rest;
    assert s[last..optind] + s[optind..optind + k] == s[last..optind + k];
    assert s[1..first] + s[last..optind] + (s[optind..optind + k] + rest) ==
           s[1..first] + s[last..optind + k] + rest;
  }

  lemma ScanComplete(c: Config, orig: seq<string>, s: seq<string>, first: nat)
    requires Advances(c.decode) && 1 <= first <= |s| == |orig|
    requires Scanned(c, orig, s, first, |s|, |s|)
    ensures Partitioned(c, orig, s, first)
  {
    assert orig[|s|..] == [] && s[|s|..|s|] == [];
    assert Options(c, orig[1..]) == s[1..first] && Operands(c, orig[1..]) == s[first..];
    assert s == [s[0]] + s[1..first] + s[first..];
  }

  lemma OperandsLeft(c: Config, orig: seq<string>, s: seq<string>, start: nat)
    requires Advances(c.decode) && orig != [] && Partitioned(c, orig, s, start)
    ensures start <= |s| && (start == |s| <==> Operands(c, orig[1..]) == [])
  {
  }

  lemma TerminatorCompletes(c: Config, orig: seq<string>, s: seq<string>, first: nat, optind: nat)
    requires Advances(c.decode) && 1 <= first <= optind < |s| == |orig|
    requires Scanned(c, orig, s, first, optind, optind) && s[optind] == TERMINATOR
    ensures Partitioned(c, orig, Swapped(s, first, optind, optind + 1), first + 1)
  {
    var rest := orig[optind..];
    assert rest[0] == s[optind..][0] == TERMINATOR;
    assert rest[1..] == s[optind..][1..] == s[optind + 1..];
    assert s[optind..optind] == [];
    assert Options(c, orig[1..]) == s[1..first] + [TERMINATOR];
    assert Operands(c, orig[1..]) == s[first..optind] + s[optind + 1..];
    assert s[optind..optind + 1] == [TERMINATOR];
    assert s[..first] == [s[0]] + s[1..first];
    assert Swapped(s, first, optind, optind + 1) ==
           [s[0]] + (s[1..first] + [TERMINATOR]) + (s[first..optind] + s[optind + 1..]);
  }

  /** What skipping operands does to the arguments and, during the first scan, to its state. */
  lemma SkippedOperands(c: Config, orig: seq<string>, s: seq<string>, first: nat, last: nat, from: nat,
                        t: seq<string>, optind: nat, scanning: bool)
    requires Advances(c.decode) && first <= last <= from <= |s| && t == Swapped(s, first, last, from)
    requires scanning ==> 1 <= first && from <= optind <= |s| == |orig| && Scanned(c, orig, s, first, last, from)
    requires forall i :: from <= i < optind <= |t| ==> NonOption(t[i])
    ensures multiset(t) == multiset(s)
    ensures scanning ==> Scanned(c, orig, t, first + (from - last), optind, optind)
  {
    hide Swapped, Scanned, NonOption;
    SwappedElements(s, first, last, from);
    if scanning {
      SkipOperandsKeeps(c, orig, s, first, last, from, t, optind);
    }
  }

  /** What taking the terminator does to them. */
  lemma TakenTerminator(c: Config, orig: seq<string>, s: seq<string>, first: nat, optind: nat, scanning: bool)
    requires Advances(c.decode) && first <= optind < |s|
    requires scanning ==> 1 <= first && |s| == |orig| && Scanned(c, orig, s, first, optind, optind)
                          && s[optind] == TERMINATOR
    ensures multiset(Swapped(s, first, optind, optind + 1)) == multiset(s)
    ensures scanning ==> Partitioned(c, orig, Swapped(s, first, optind, optind + 1), first + 1)
  {
    hide Swapped, Scanned, Partitioned;
    SwappedElements(s, first, optind, optind + 1);
    if scanning {
      TerminatorCompletes(c, orig, s, first, optind);
    }
  }

  /** What decoding an option character means for the call: the element goes on, or it is finished, and the next
      element is its argument exactly if it wants one and there is one. `left` elements are left. */
  predicate Reported(d: Decoded, nextchar: nat, arg: seq<string>, left: int) {
    match d
    case More(next) => nextchar == next && arg == []
    case Done(wantsArg) =>
      nextchar == 0 && |arg| <= 1 && (!wantsArg ==> arg == []) && (wantsArg && arg == [] ==> left == 0)
  }

  datatype Event = End | OptionSeen(element: string, at: nat, arg: seq<string>)

  class Scanner {
    const config: Config
    var argv: array<string>
    var firstNonopt: nat
    var lastNonopt: nat
    var optind: nat
    /** Position in `argv[optind]` of the next option character; 0 when a new element is due. */
    var nextchar: nat

    constructor (argv: array<string>, config: Config)
      requires Advances(config.decode)
      ensures this.argv == argv && this.config == config && Valid() && InScan(argv[..])
    {
      this.argv, this.config := argv, config;
      firstNonopt, lastNonopt, optind, nextchar := 1, 1, 1, 0;
    }

    ghost predicate InElement()
      reads this, argv
    {
      && optind < argv.Length && nextchar < |argv[optind]|
      && !NonOption(argv[optind]) && argv[optind] != TERMINATOR
    }

    /** Kept by every call, also by calls after the scan has ended or after the caller has moved
        `optind` back. */
    ghost predicate Valid()
      reads this, argv
    {
      && Advances(config.decode)
      && (argv.Length > 0 ==> 1 <= firstNonopt <= lastNonopt <= argv.Length && 1 <= optind <= argv.Length)
      && (nextchar != 0 ==> InElement() && lastNonopt <= optind)
    }

    /** The state between calls of the first scan, `orig` being the arguments at its start. */
    ghost predicate InScan(orig: seq<string>)
      requires Valid()
      reads this, argv
    {
      |orig| == argv.Length &&
      (argv.Length > 0 ==>
         && lastNonopt <= optind
         && Scanned(config, orig, argv[..], firstNonopt, lastNonopt, optind)
         && (nextchar != 0 ==>
               WantsArg(config.decode, argv[optind], nextchar) ==
               WantsArg(config.decode, argv[optind], FirstChar(argv[optind], config.longOptions))))
    }

    /** The state after the call that ends the first scan. */
    ghost predicate Sorted(orig: seq<string>)
      requires Valid()
      reads this, argv
    {
      |orig| == argv.Length && (argv.Length > 0 ==> Partitioned(config, orig, argv[..], optind))
    }

    /** `exchange` */
    method Exchange()
      requires firstNonopt <= lastNonopt <= optind <= argv.Length
      modifies this`firstNonopt, this`lastNonopt, argv
      ensures argv[..] == Swapped(old(argv[..]), old(firstNonopt), old(lastNonopt), optind)
      ensures firstNonopt == old(firstNonopt) + (optind - old(lastNonopt)) && lastNonopt == optind
    {
      var bottom: nat, middle: nat, top: nat := firstNonopt, lastNonopt, optind;
      ghost var goal := Swapped(argv[..], bottom, middle, top);
      hide Swapped;
      while top > middle && middle > bottom
        invariant bottom <= middle <= top <= argv.Length
        invariant Swapped(argv[..], bottom, middle, top) == goal
        decreases top - bottom
        modifies argv
      {
        if top - middle > middle - bottom {
          top := PlaceBottom(argv, bottom, middle, top);
        } else {
          bottom := PlaceTop(argv, bottom, middle, top);
        }
      }
      SwappedTrivial(argv[..], bottom, middle, top);
      firstNonopt := firstNonopt + (optind - lastNonopt);
      lastNonopt := optind;
    }

    /** The PERMUTE block of a call: options just processed go before the operands skipped earlier,
        then further operands are skipped. */
    method SkipOperands()
      requires Valid() && nextchar == 0 && argv.Length > 0
      modifies this, argv
      ensures Valid() && argv == old(argv) && nextchar == 0
      ensures var first, last := Min(old(firstNonopt), old(optind)), Min(old(lastNonopt), old(optind));
              && argv[..] == Swapped(old(argv[..]), first, last, old(optind))
              && firstNonopt == first + (old(optind) - last)
      ensures old(optind) <= optind == lastNonopt && firstNonopt <= optind
      ensures forall i :: old(optind) <= i < optind ==> NonOption(argv[i])
      ensures optind < argv.Length ==> !NonOption(argv[optind])
    {
      hide Swapped;
      SwappedTrivial(argv[..], Min(firstNonopt, optind), Min(lastNonopt, optind), optind);
      if lastNonopt > optind {
        lastNonopt := optind;
      }
      if firstNonopt > optind {
        firstNonopt := optind;
      }
      if firstNonopt != lastNonopt && lastNonopt != optind {
        Exchange();
      } else if lastNonopt != optind {
        firstNonopt := optind;
      }
      while optind < argv.Length && NonOption(argv[optind])
        invariant old(optind) <= optind <= argv.Length
        invariant forall i :: old(optind) <= i < optind ==> NonOption(argv[i])
        modifies `optind
      {
        optind := optind + 1;
      }
      lastNonopt := optind;
    }

    /** The terminator is skipped like an option, and everything behind it is an operand. */
    method TakeTerminator()
      requires Valid() && nextchar == 0 && firstNonopt <= lastNonopt == optind < argv.Length
      modifies this, argv
      ensures Valid() && argv == old(argv) && nextchar == 0
      ensures argv[..] == Swapped(old(argv[..]), old(firstNonopt), old(optind), old(optind) + 1)
      ensures firstNonopt == old(firstNonopt) + 1 && lastNonopt == optind == argv.Length
    {
      hide Swapped;
      SwappedTrivial(argv[..], firstNonopt, optind, optind + 1);
      optind := optind + 1;
      if firstNonopt != lastNonopt && lastNonopt != optind {
        Exchange();
      } else if firstNonopt == lastNonopt {
        firstNonopt := optind;
      }
      lastNonopt := argv.Length;
      optind := argv.Length;
    }

    /** The part of a call that moves to the next option element, or to the end of the arguments.
        `orig` matters only during the first scan. */
    method Advance(ghost orig: seq<string>)
      requires Valid() && nextchar == 0 && argv.Length > 0
      modifies this, argv
      ensures Valid() && argv == old(argv) && nextchar == 0
      ensures multiset(argv[..]) == multiset(old(argv[..]))
      ensures old(optind) <= optind && firstNonopt <= lastNonopt <= optind
      ensures optind < argv.Length ==> !NonOption(argv[optind]) && argv[optind] != TERMINATOR
      ensures optind < argv.Length && old(InScan(orig)) ==> InScan(orig)
      ensures optind == argv.Length ==> lastNonopt == argv.Length
      ensures optind == argv.Length && old(InScan(orig)) ==>
                |orig| == argv.Length && Partitioned(config, orig, argv[..], firstNonopt)
    {
      hide Swapped, Scanned, Partitioned, WantsArg;
      ghost var scanning, s := InScan(orig), argv[..];
      ghost var first, last, from := Min(firstNonopt, optind), Min(lastNonopt, optind), optind;
      SkipOperands();
      ghost var t, mid, skipped := argv[..], firstNonopt, optind;
      SkippedOperands(config, orig, s, first, last, from, t, skipped, scanning);
      if optind != argv.Length && argv[optind] == TERMINATOR {
        TakeTerminator();
        TakenTerminator(config, orig, t, mid, skipped, scanning);
      } else if optind == argv.Length && scanning {
        ScanComplete(config, orig, t, mid);
      }
    }

    /** `_getopt_internal` with PERMUTE ordering. */
    method Next(ghost orig: seq<string>) returns (r: Event)
      requires Valid()
      modifies this, argv
      ensures Valid() && argv == old(argv)
      ensures multiset(argv[..]) == multiset(old(argv[..]))
      ensures r.OptionSeen? ==> lastNonopt <= optind
      ensures r.OptionSeen? && nextchar != 0 ==> argv[optind] == r.element
      ensures r.OptionSeen? ==>
                r.at == if old(nextchar) != 0 then old(nextchar)
                        else if config.longOptions && |r.element| > 1 && r.element[1] == '-' then 2 else 1
      ensures r.OptionSeen? ==> Reported(config.decode(r.element, r.at), nextchar, r.arg, argv.Length - optind)
      ensures r.OptionSeen? && nextchar == 0 ==>
                |r.arg| < optind <= argv.Length && argv[optind - |r.arg| - 1..optind] == [r.element] + r.arg
      ensures r.OptionSeen? ==> old(optind) < optind || (old(optind) == optind && old(nextchar) < nextchar)
      ensures r.OptionSeen? && old(InScan(orig)) ==> InScan(orig)
      ensures r.End? ==> nextchar == 0
      ensures r.End? && argv.Length > 0 ==> lastNonopt == argv.Length
      ensures r.End? && argv.Length > 0 ==>
                optind == if firstNonopt == lastNonopt then argv.Length else firstNonopt
      ensures r.End? && old(InScan(orig)) ==> Sorted(orig)
      ensures r.End? && old(InScan(orig)) && argv.Length > 0 ==>
                (lastNonopt <= optind <==> Operands(config, orig[1..]) == [])
    {
      hide Swapped, Scanned, Partitioned, Options, Operands, WantsArg;
      if argv.Length < 1 {
        return End;
      }
      if nextchar == 0 {
        Advance(orig);
        if optind == argv.Length {
          if old(InScan(orig)) {
            OperandsLeft(config, orig, argv[..], firstNonopt);
          }
          if firstNonopt != lastNonopt {
            optind := firstNonopt;
          }
          return End;
        }
        nextchar := FirstChar(argv[optind], config.longOptions);
      }
      r := DecodeOne(orig);
    }

    /** The part of a call that handles one option character of the element at `optind`. */
    method DecodeOne(ghost orig: seq<string>) returns (r: Event)
      requires Valid() && nextchar != 0
      modifies `optind, `nextchar
      ensures Valid() && r.OptionSeen? && lastNonopt <= optind
      ensures r.element == old(argv[optind]) && r.at == old(nextchar)
      ensures Reported(config.decode(r.element, r.at), nextchar, r.arg, argv.Length - optind)
      ensures nextchar != 0 ==> argv[optind] == r.element
      ensures nextchar == 0 ==>
                |r.arg| < optind <= argv.Length && argv[optind - |r.arg| - 1..optind] == [r.element] + r.arg
      ensures old(optind) < optind || (old(optind) == optind && old(nextchar) < nextchar)
      ensures old(InScan(orig)) ==> InScan(orig)
    {
      hide Scanned, Options, Operands;
      ghost var scanning, first, last, ix := InScan(orig), firstNonopt, lastNonopt, optind;
      var element, at := argv[optind], nextchar;
      match config.decode(element, nextchar) {
        case More(next) =>
          nextchar := next;
          r := OptionSeen(element, at, []);
        case Done(wantsArg) =>
          ghost var taken := Taken(config, argv[ix..]);
          assert argv[ix..][0] == element;
          if scanning {
            OptionKeeps(config, orig, argv[..], first, last, ix, taken);
          }
          optind := optind + 1;
          nextchar := 0;
          r := OptionSeen(element, at, []);
          if wantsArg && optind < argv.Length {
            r := OptionSeen(element, at, [argv[optind]]);
            optind := optind + 1;
          }
          assert scanning ==> optind == ix + taken;
      }
    }

    /** The caller's loop: calls until the scan ends. */
    method ScanAll()
      requires Valid() && InScan(argv[..])
      modifies this, argv
      ensures Valid() && Sorted(old(argv[..]))
      ensures argv.Length > 0 ==> (lastNonopt <= optind <==> Operands(config, old(argv[..])[1..]) == [])
      ensures multiset(argv[..]) == multiset(old(argv[..]))
    {
      ghost var orig := argv[..];
      while true
        invariant Valid() && argv == old(argv) && InScan(orig)
        invariant multiset(argv[..]) == multiset(orig)
        decreases argv.Length - optind, if optind < |orig| then |orig[optind]| - nextchar else 0
      {
        var r := Next(orig);
        if r.End? {
          return;
        }
      }
    }
  }
}
