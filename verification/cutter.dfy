/** `Cutter`: text is cut into segments, and segments that break the length limits are cut further
    at spaces or symbol boundaries, through a queue of pending fragments. */
module Cutter {
  import opened Common
  import opened Utf8

  const SPACE: Byte := 0x20

  datatype Result<+T> = Success(value: T) | HardLimitTooSmall

  /** An annotation item; the kind stands for its category and attributes. */
  datatype Item<L> = Item(kind: L, text: Text)

  ghost function Joined<L>(items: seq<Item<L>>): Text {
    if items == [] then [] else items[0].text + Joined(items[1..])
  }

  /** The limits; 0 means that a limit is not set. */
  datatype Limits = Limits(soft: nat, hard: nat) {
    predicate SoftBroken(length: nat) {
      soft != 0 && length >= soft
    }

    predicate HardBroken(length: nat) {
      hard != 0 && length >= hard
    }

    predicate Broken(length: nat) {
      SoftBroken(length) || HardBroken(length)
    }
  }

  /** The first space at or after `from`, or `end`. */
  function FirstSpace(text: Text, from: nat, end: nat): (cut: nat)
    requires end <= |text|
    ensures cut <= end && (from <= end ==> from <= cut) && (cut < end ==> text[cut] == SPACE)
    ensures forall j :: from <= j < cut && j < end ==> text[j] != SPACE
    decreases end - from
  {
    if from >= end then end
    else if text[from] == SPACE then from
    else FirstSpace(text, from + 1, end)
  }

  /** The largest symbol boundary not past `limit`. */
  function LastBoundary(text: Text, limit: nat): (cut: nat)
    requires limit <= |text| && Boundary(text, 0)
    ensures cut <= limit && Boundary(text, cut) && forall j :: cut < j <= limit ==> !Boundary(text, j)
  {
    if limit == 0 || Boundary(text, limit) then limit else LastBoundary(text, limit - 1)
  }

  /** Where a fragment that starts at `start` ends inside a segment that ends at `end`. */
  function FragmentEnd(l: Limits, text: Text, start: nat, end: nat): (cut: nat)
    requires WellFormed(text) && start <= end <= |text|
    ensures cut <= end
  {
    FrontIsBoundary(text);
    var s := if l.SoftBroken(end - start) then FirstSpace(text, start + l.soft, end) else end;
    var h := if l.HardBroken(end - start) then LastBoundary(text, start + l.hard) else end;
    if s <= h then s else h
  }

  /** A symbol that does not fit the hard limit starts at `i`. */
  predicate TooLong(l: Limits, text: Text, i: nat) {
    i < |text| && l.hard != 0 && SymbolLength(text[i]) > l.hard
  }

  lemma SpaceIsBoundary(text: Text)
    ensures forall j: nat :: j < |text| && text[j] == SPACE ==> Boundary(text, j)
  {
  }

  /** No space stands between the soft limit and the cut. */
  predicate NoSpacePassed(l: Limits, text: Text, start: nat, cut: nat)
    requires cut <= |text|
  {
    l.soft != 0 ==> forall j :: start + l.soft <= j < cut ==> text[j] != 0x20
  }

  /** No later symbol begins within the hard limit. */
  predicate LastWithinLimit(l: Limits, text: Text, start: nat, cut: nat) {
    l.hard != 0 && Boundary(text, cut) && forall j :: cut < j <= start + l.hard ==> !Boundary(text, j)
  }

  /** Where to cut a segment: at its end, at the first space from the soft limit on, or at the last symbol
      within the hard limit, whichever comes first. */
  predicate CutPoint(l: Limits, text: Text, start: nat, end: nat, cut: nat)
    requires end <= |text|
  {
    && start <= cut <= end && Boundary(text, cut)
    && (l.hard != 0 ==> cut - start <= l.hard)
    && NoSpacePassed(l, text, start, cut)
    && (cut < end ==>
          || (l.soft != 0 && start + l.soft <= cut && text[cut] == 0x20)
          || LastWithinLimit(l, text, start, cut))
  }

  /** There is one such position only. */
  lemma OneCutPoint(l: Limits, text: Text, start: nat, end: nat, a: nat, b: nat)
    requires end <= |text| && CutPoint(l, text, start, end, a) && CutPoint(l, text, start, end, b)
    ensures a == b
  {
    hide Boundary;
  }

  /** Inside a well-formed text a fragment ends at the cut point; it is empty exactly when its first symbol
      breaks the hard limit. */
  lemma FragmentEndProperties(l: Limits, text: Text, start: nat, end: nat)
    requires WellFormed(text) && start < end <= |text| && Boundary(text, start) && Boundary(text, end)
    ensures var cut := FragmentEnd(l, text, start, end);
            && CutPoint(l, text, start, end, cut)
            && (cut == start <==> TooLong(l, text, start))
  {
    hide WellFormed, SymbolLength, LastBoundary, FirstSpace, SequenceLength, IsTrail;
    NextBoundary(text, start);
    SpaceIsBoundary(text);
    assert Boundary(text, 0) by { FrontIsBoundary(text); }
    var s := if l.SoftBroken(end - start) then FirstSpace(text, start + l.soft, end) else end;
    assert Boundary(text, s);
    if l.HardBroken(end - start) {
      var h := LastBoundary(text, start + l.hard);
      if TooLong(l, text, start) {
        assert forall j :: start < j <= start + l.hard ==> !Boundary(text, j);
      }
    }
  }

  /** `items` are consecutive fragments of a segment that ends at `end`: together they are the text
      from `from` to `to`, and each ends where `FragmentEnd` says. */
  ghost predicate Fragments<L>(l: Limits, text: Text, from: nat, to: nat, end: nat, items: seq<Item<L>>)
    requires WellFormed(text) && from <= to <= end <= |text|
    decreases |items|
  {
    if items == [] then from == to
    else
      var cut := FragmentEnd(l, text, from, end);
      && from < cut <= to
      && items[0].text == text[from..cut]
      && Fragments(l, text, cut, to, end, items[1..])
  }

  lemma {:induction false} FragmentsAppend<L>(l: Limits, text: Text, from: nat, to: nat, end: nat,
                                             items: seq<Item<L>>, item: Item<L>)
    requires WellFormed(text) && from <= to < end <= |text| && Fragments(l, text, from, to, end, items)
    requires var cut := FragmentEnd(l, text, to, end); to < cut && item.text == text[to..cut]
    ensures Fragments(l, text, from, FragmentEnd(l, text, to, end), end, items + [item])
    decreases |items|
  {
    if items == [] {
      assert items + [item] == [item] && [item][1..] == [];
    } else {
      var cut := FragmentEnd(l, text, from, end);
      FragmentsAppend(l, text, cut, to, end, items[1..], item);
      assert (items + [item])[1..] == items[1..] + [item];
    }
  }

  /** Queued fragments concatenate to the part of the text that they stand for. */
  lemma {:induction false} FragmentsTile<L>(l: Limits, text: Text, from: nat, to: nat, end: nat, items: seq<Item<L>>)
    requires WellFormed(text) && from <= to <= end <= |text| && Fragments(l, text, from, to, end, items)
    ensures Joined(items) == text[from..to]
    decreases |items|
  {
    hide WellFormed, FragmentEnd;
    if items != [] {
      var cut := FragmentEnd(l, text, from, end);
      FragmentsTile(l, text, cut, to, end, items[1..]);
      assert text[from..to] == text[from..cut] + text[cut..to];
    }
  }

  /** The items are fragments, from position `at` on, of some segment of the text. */
  ghost predicate PendingItems<L>(l: Limits, text: Text, at: nat, items: seq<Item<L>>)
    requires WellFormed(text)
  {
    at <= |text| && Boundary(text, at) &&
    exists to: nat, end: nat ::
      at <= to <= end <= |text| && Boundary(text, end) && Fragments(l, text, at, to, end, items)
  }

  lemma NothingPending<L>(l: Limits, text: Text, at: nat, items: seq<Item<L>>)
    requires WellFormed(text) && at <= |text| && Boundary(text, at) && items == []
    ensures PendingItems(l, text, at, items)
  {
    assert Fragments(l, text, at, at, at, items);
  }

  lemma PendingBoundary<L>(l: Limits, text: Text, at: nat, items: seq<Item<L>>)
    requires WellFormed(text) && PendingItems(l, text, at, items)
    ensures at <= |text| && Boundary(text, at)
  {
  }

  /** The fragments of a segment, all of them or those before a symbol that does not fit. */
  lemma AllPending<L>(l: Limits, text: Text, at: nat, to: nat, end: nat, items: seq<Item<L>>)
    requires WellFormed(text) && at <= to <= end <= |text| && Boundary(text, at) && Boundary(text, end)
    requires Fragments(l, text, at, to, end, items)
    ensures PendingItems(l, text, at, items)
  {
  }

  lemma FirstPending<L>(l: Limits, text: Text, at: nat, items: seq<Item<L>>)
    requires WellFormed(text) && PendingItems(l, text, at, items) && items != []
    ensures var position := at + |items[0].text|;
            && at < position <= |text|
            && items[0].text == text[at..position]
            && (l.hard != 0 ==> position - at <= l.hard) && NoSpacePassed(l, text, at, position)
            && PendingItems(l, text, position, items[1..])
  {
    hide WellFormed, Boundary, FragmentEnd, LastBoundary, FirstSpace, TooLong;
    var to: nat, end: nat :|
      at <= to <= end <= |text| && Boundary(text, end) && Fragments(l, text, at, to, end, items);
    FragmentEndProperties(l, text, at, end);
    assert Fragments(l, text, at + |items[0].text|, to, end, items[1..]);
  }

  /** What is left of a fragmented segment after its first fragment. */
  lemma RestTiles<L>(l: Limits, text: Text, at: nat, end: nat, items: seq<Item<L>>)
    requires WellFormed(text) && at < end <= |text| && Fragments(l, text, at, end, end, items)
    ensures items != []
    ensures var cut := FragmentEnd(l, text, at, end);
            items[0].text == text[at..cut] && at < cut && Joined(items[1..]) == text[cut..end]
  {
    FragmentsTile(l, text, FragmentEnd(l, text, at, end), end, end, items[1..]);
  }

  /** Some symbol of the segment does not fit the hard limit. */
  ghost predicate HasLongSymbol(l: Limits, text: Text, from: nat, end: nat) {
    exists i: nat :: from <= i < end && Boundary(text, i) && TooLong(l, text, i)
  }

  lemma LongIsOverThree(l: Limits, text: Text, i: nat)
    ensures TooLong(l, text, i) ==> 0 < l.hard < 4
  {
  }

  /** A stretch between two boundaries that is within the hard limit has only symbols that fit. */
  lemma ShortHasNone(l: Limits, text: Text, from: nat, to: nat)
    requires WellFormed(text) && from <= to <= |text| && Boundary(text, to)
    requires l.hard != 0 ==> to - from <= l.hard
    ensures !HasLongSymbol(l, text, from, to)
  {
    if i: nat :| from <= i < to && Boundary(text, i) && TooLong(l, text, i) {
      NextBoundary(text, i);
    }
  }

  lemma NoneSoFar(l: Limits, text: Text, from: nat, to: nat)
    requires !HasLongSymbol(l, text, 0, from) && !HasLongSymbol(l, text, from, to)
    ensures !HasLongSymbol(l, text, 0, to)
  {
  }

  lemma LongInText(l: Limits, text: Text, from: nat, to: nat)
    requires HasLongSymbol(l, text, from, to) && to <= |text|
    ensures HasLongSymbol(l, text, 0, |text|)
  {
  }

  /** A segment that could be fragmented to its end has only symbols that fit. */
  lemma {:induction false} FragmentedHasNone<L>(l: Limits, text: Text, from: nat, end: nat, items: seq<Item<L>>)
    requires WellFormed(text) && from <= end <= |text| && Boundary(text, from) && Boundary(text, end)
    requires Fragments(l, text, from, end, end, items)
    ensures !HasLongSymbol(l, text, from, end)
    decreases |items|
  {
    hide WellFormed, Boundary, TooLong, FragmentEnd;
    if items != [] {
      var cut := FragmentEnd(l, text, from, end);
      FragmentEndProperties(l, text, from, end);
      ShortHasNone(l, text, from, cut);
      FragmentedHasNone(l, text, cut, end, items[1..]);
    }
  }

  /** What `doCutOff` of a concrete cutter returns: an item and the position after it (`None` for
      `npos`). */
  type Segmenter<!L> = (Text, nat) -> (Item<L>, Option<nat>)

  function Next(text: Text, p: nat): Option<nat> {
    if p == |text| then None else Some(p)
  }

  function Position(text: Text, p: Option<nat>): nat {
    if p.None? then |text| else p.value
  }

  /** A segmenter cuts at symbol boundaries and does not go back. */
  ghost predicate CutsForward<L>(seg: Segmenter<L>, text: Text) {
    forall p: nat :: p <= |text| && Boundary(text, p) ==>
      p <= Position(text, seg(text, p).1) <= |text| && Boundary(text, Position(text, seg(text, p).1))
  }

  /** Before the end of the text a segmenter always cuts something off. */
  ghost predicate CutsSomething<L>(seg: Segmenter<L>, text: Text) {
    forall p: nat :: p < |text| && Boundary(text, p) ==> p < Position(text, seg(text, p).1)
  }

  lemma CutsAt<L>(seg: Segmenter<L>, text: Text, p: nat)
    requires p <= |text| && Boundary(text, p) && CutsForward(seg, text)
    ensures p <= Position(text, seg(text, p).1) <= |text| && Boundary(text, Position(text, seg(text, p).1))
    ensures CutsSomething(seg, text) && p < |text| ==> p < Position(text, seg(text, p).1)
  {
  }

  /** Consecutive cut positions from the start of the text on: every stretch between two of them is
      non-empty, within the hard limit and between symbol boundaries, and passes no space behind the soft
      limit. */
  ghost predicate Tiles(l: Limits, text: Text, ends: seq<nat>) {
    && |ends| > 0 && ends[0] == 0
    && (forall k :: 0 <= k < |ends| ==> ends[k] <= |text| && Boundary(text, ends[k]))
    && (forall k :: 0 < k < |ends| ==> ends[k - 1] < ends[k])
    && (l.hard != 0 ==> forall k :: 0 < k < |ends| ==> ends[k] - ends[k - 1] <= l.hard)
    && (forall k :: 0 < k < |ends| ==> NoSpacePassed(l, text, ends[k - 1], ends[k]))
  }

  lemma FirstTile(l: Limits, text: Text)
    requires Boundary(text, 0)
    ensures Tiles(l, text, [0])
  {
  }

  lemma TilesAppend(l: Limits, text: Text, ends: seq<nat>, next: nat)
    requires Tiles(l, text, ends) && next <= |text| && Boundary(text, next)
    requires ends[|ends| - 1] < next && (l.hard != 0 ==> next - ends[|ends| - 1] <= l.hard)
    requires NoSpacePassed(l, text, ends[|ends| - 1], next)
    ensures Tiles(l, text, ends + [next])
  {
    hide Boundary, NoSpacePassed;
    var longer := ends + [next];
    assert forall k :: 0 <= k < |ends| ==> longer[k] == ends[k];
  }

  class Cutter<L> {
    const limits: Limits
    const segmenter: Segmenter<L>
    var queue: seq<Item<L>>

    constructor (limits: Limits, segmenter: Segmenter<L>)
      ensures this.limits == limits && this.segmenter == segmenter && queue == []
    {
      this.limits, this.segmenter, queue := limits, segmenter, [];
    }

    /** The queue holds fragments of the text from `at` on. */
    ghost predicate Pending(text: Text, at: nat)
      requires WellFormed(text)
      reads this
    {
      PendingItems(limits, text, at, queue)
    }

    /** `reset` */
    method Reset()
      modifies this
      ensures queue == []
    {
      queue := [];
    }

    method FindSoftLimitCutPoint(text: Text, from: nat, maxCutPoint: nat) returns (r: nat)
      requires maxCutPoint <= |text|
      ensures r == FirstSpace(text, from + limits.soft, maxCutPoint)
    {
      var cutPoint := from + limits.soft;
      while cutPoint < maxCutPoint
        invariant FirstSpace(text, cutPoint, maxCutPoint) == FirstSpace(text, from + limits.soft, maxCutPoint)
      {
        if text[cutPoint] == SPACE {
          return cutPoint;
        }
        cutPoint := cutPoint + 1;
      }
      return maxCutPoint;
    }

    /** The search starts four bytes before the limit, which may be inside a symbol. */
    method FindHardLimitCutPoint(text: Text, cutPoint: nat) returns (r: Result<nat>)
      requires WellFormed(text) && cutPoint + limits.hard <= |text|
      ensures var cut := LastBoundary(text, cutPoint + limits.hard);
              r == if cut <= cutPoint then HardLimitTooSmall else Success(cut)
    {
      hide WellFormed, Boundary, SymbolLength, LastBoundary;
      FrontIsBoundary(text);
      var hardLimitPos := cutPoint + limits.hard;
      var candidatePos: nat := if hardLimitPos > 4 then hardLimitPos - 4 else 0;
      ghost var b := candidatePos;
      if candidatePos < hardLimitPos && !Boundary(text, candidatePos) {
        b := BoundaryAhead(text, candidatePos);
      }
      while candidatePos < hardLimitPos
        invariant candidatePos <= hardLimitPos
        invariant Boundary(text, candidatePos) || (candidatePos < b < hardLimitPos && Boundary(text, b))
        invariant forall j :: candidatePos <= j < b ==> !Boundary(text, j)
        decreases hardLimitPos - candidatePos
      {
        if Boundary(text, candidatePos) {
          NextBoundary(text, candidatePos);
        } else {
          var _ := BoundaryAhead(text, candidatePos);
        }
        var symLen := SymbolLength(text[candidatePos]);
        if candidatePos + symLen > hardLimitPos {
          break;
        }
        candidatePos := candidatePos + symLen;
      }
      assert candidatePos == LastBoundary(text, hardLimitPos);
      if candidatePos <= cutPoint {
        return HardLimitTooSmall;
      }
      return Success(candidatePos);
    }

    /** The choice of one cut point, in the loop of `fragmentSegment_`. */
    method NextCutPoint(text: Text, from: nat, end: nat) returns (r: Result<nat>)
      requires WellFormed(text) && from < end <= |text| && Boundary(text, from) && Boundary(text, end)
      ensures var cut := FragmentEnd(limits, text, from, end);
              r == if cut <= from then HardLimitTooSmall else Success(cut)
    {
      hide WellFormed, Boundary, LastBoundary, FirstSpace;
      var currentLength := end - from;
      var softLimitCutPoint := None;
      if limits.SoftBroken(currentLength) {
        var s := FindSoftLimitCutPoint(text, from, end);
        softLimitCutPoint := Some(s);
      }
      var hardLimitCutPoint := None;
      if limits.HardBroken(currentLength) {
        var h := FindHardLimitCutPoint(text, from);
        if h.HardLimitTooSmall? {
          return HardLimitTooSmall;
        }
        hardLimitCutPoint := Some(h.value);
      }
      if softLimitCutPoint.Some? && hardLimitCutPoint.Some? {
        r := Success(if softLimitCutPoint.value <= hardLimitCutPoint.value then softLimitCutPoint.value
                     else hardLimitCutPoint.value);
      } else if softLimitCutPoint.Some? {
        r := Success(softLimitCutPoint.value);
      } else if hardLimitCutPoint.Some? {
        r := Success(hardLimitCutPoint.value);
      } else {
        r := Success(end);
      }
    }

    /** `fragmentSegment_`: queue the fragments of the segment from `from` to `end`. When a symbol
        does not fit the hard limit, the fragments before it stay queued. */
    method FragmentSegment(item: Item<L>, text: Text, from: nat, end: nat)
      returns (stop: Result<nat>, ghost reached: nat)
      requires WellFormed(text) && from < end <= |text| && Boundary(text, from) && Boundary(text, end)
      requires queue == []
      modifies this
      ensures from <= reached <= end && Boundary(text, reached)
      ensures Fragments(limits, text, from, reached, end, queue)
      ensures forall x :: x in queue ==> x.kind == item.kind
      ensures stop == if reached == end then Success(end) else HardLimitTooSmall
      ensures stop.HardLimitTooSmall? <==> HasLongSymbol(limits, text, from, end)
      ensures limits.hard == 0 || limits.hard >= 4 ==> stop.Success?
    {
      hide WellFormed, Boundary, FragmentEnd, SymbolLength, TooLong;
      var cutPoint: nat := from;
      while cutPoint < end
        invariant from <= cutPoint <= end && Boundary(text, cutPoint)
        invariant Fragments(limits, text, from, cutPoint, end, queue)
        invariant forall x :: x in queue ==> x.kind == item.kind
      {
        FragmentEndProperties(limits, text, cutPoint, end);
        var cut := NextCutPoint(text, cutPoint, end);
        if cut.HardLimitTooSmall? {
          LongIsOverThree(limits, text, cutPoint);
          return HardLimitTooSmall, cutPoint;
        }
        var prevCutPoint := cutPoint;
        cutPoint := cut.value;
        var fragment := Item(item.kind, text[prevCutPoint..cutPoint]);
        FragmentsAppend(limits, text, from, prevCutPoint, end, queue, fragment);
        queue := queue + [fragment];
      }
      FragmentedHasNone(limits, text, from, end, queue);
      return Success(end), end;
    }

    method GetFirstItemInFragmentQueue(text: Text, at: nat) returns (item: Item<L>, next: Option<nat>)
      requires WellFormed(text) && Pending(text, at) && queue != []
      modifies this
      ensures [item] + queue == old(queue)
      ensures at < Position(text, next) <= |text| && next == Next(text, Position(text, next))
      ensures item.text == text[at..Position(text, next)]
      ensures limits.hard != 0 ==> |item.text| <= limits.hard
      ensures NoSpacePassed(limits, text, at, Position(text, next))
      ensures Pending(text, Position(text, next))
    {
      hide PendingItems, WellFormed;
      FirstPending(limits, text, at, queue);
      item := queue[0];
      queue := queue[1..];
      var position := at + |item.text|;
      next := if position == |text| then None else Some(position);
    }

    /** One call cuts off the text between the two positions, or a queued part of it. */
    method CutOff(text: Text, at: nat) returns (r: Result<Item<L>>, next: Option<nat>)
      requires WellFormed(text) && Pending(text, at) && CutsForward(segmenter, text)
      modifies this
      ensures limits.hard == 0 || limits.hard >= 4 ==> r.Success?
      ensures r.Success? ==> at <= Position(text, next) <= |text| && Pending(text, Position(text, next))
      ensures r.Success? && limits.hard != 0 ==> Position(text, next) - at <= limits.hard
      ensures r.Success? ==> NoSpacePassed(limits, text, at, Position(text, next))
      ensures old(queue) != [] ==> r == Success(old(queue)[0]) && queue == old(queue)[1..]
      ensures old(queue) != [] ==> r.value.text == text[at..Position(text, next)] && at < Position(text, next)
      ensures old(queue) == [] ==>
                (r.HardLimitTooSmall? <==>
                 HasLongSymbol(limits, text, at, Position(text, segmenter(text, at).1)))
      ensures r.HardLimitTooSmall? ==> next == Some(at) && Pending(text, at)
      ensures old(queue) == [] && r.Success? ==>
                var (item, p) := segmenter(text, at);
                var end := Position(text, p);
                if limits.Broken(end - at) then
                  && at < Position(text, next) && CutPoint(limits, text, at, end, Position(text, next))
                  && r.value == Item(item.kind, text[at..Position(text, next)])
                  && Joined(queue) == text[Position(text, next)..end]
                else r == Success(item) && next == p && queue == []
    {
      hide PendingItems, WellFormed, Boundary, Fragments, FragmentEnd, Joined, TooLong, HasLongSymbol, CutsForward,
           CutPoint;
      if queue != [] {
        var first;
        first, next := GetFirstItemInFragmentQueue(text, at);
        return Success(first), next;
      }
      var cut := segmenter(text, at);
      var item := cut.0;
      next := cut.1;
      var segmentEnd := Position(text, next);
      PendingBoundary(limits, text, at, queue);
      CutsAt(segmenter, text, at);
      if limits.Broken(segmentEnd - at) {
        next := Some(at);
        var stop, reached := FragmentSegment(item, text, at, segmentEnd);
        AllPending(limits, text, at, reached, segmentEnd, queue);
        FragmentEndProperties(limits, text, at, segmentEnd);
        if stop.HardLimitTooSmall? {
          return HardLimitTooSmall, next;
        }
        RestTiles(limits, text, at, segmentEnd, queue);
        var first;
        first, next := GetFirstItemInFragmentQueue(text, at);
        return Success(first), next;
      }
      NothingPending(limits, text, segmentEnd, queue);
      assert NoSpacePassed(limits, text, at, segmentEnd);
      ShortHasNone(limits, text, at, segmentEnd);
      return Success(item), next;
    }

    /** The caller's loop: repeated calls until the end of the text. The cut-off stretches tile it. */
    method CutAll(text: Text) returns (done: bool, ends: seq<nat>)
      requires WellFormed(text) && queue == [] && CutsForward(segmenter, text)
      requires CutsSomething(segmenter, text)
      modifies this
      ensures Tiles(limits, text, ends)
      ensures done ==> ends[|ends| - 1] == |text|
      ensures done <==> !HasLongSymbol(limits, text, 0, |text|)
      ensures limits.hard == 0 || limits.hard >= 4 ==> done
    {
      hide WellFormed, Boundary, PendingItems, FragmentEnd, HasLongSymbol, Joined, Tiles, CutsForward, CutsSomething;
      FrontIsBoundary(text);
      FirstTile(limits, text);
      ShortHasNone(limits, text, 0, 0);
      NothingPending(limits, text, 0, queue);
      var pos: nat := 0;
      ends := [0];
      while pos < |text|
        invariant |ends| > 0 && pos == ends[|ends| - 1] <= |text|
        invariant Pending(text, pos) && Tiles(limits, text, ends)
        invariant !HasLongSymbol(limits, text, 0, pos)
        decreases |text| - pos
      {
        PendingBoundary(limits, text, pos, queue);
        CutsAt(segmenter, text, pos);
        var r, next := CutOff(text, pos);
        if r.HardLimitTooSmall? {
          LongInText(limits, text, pos, Position(text, segmenter(text, pos).1));
          return false, ends;
        }
        PendingBoundary(limits, text, Position(text, next), queue);
        ShortHasNone(limits, text, pos, Position(text, next));
        NoneSoFar(limits, text, pos, Position(text, next));
        pos := Position(text, next);
        TilesAppend(limits, text, ends, pos);
        ends := ends + [pos];
      }
      done := true;
    }
  }
}
