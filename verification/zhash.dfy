/** The open-addressing hash table `zhash`: double hashing, tombstones, growth and same-size rehash. */
module ZHash {
  import opened Common
  import opened Probing

  /** A slot of `block`: the null value, the tombstone left by a removal, or a stored value. */
  datatype Cell<V> = Null | Deleted | Live(value: V)

  /** `size` is a signed 32-bit `int`; this is the largest power of two it can hold. */
  const MAX_SIZE: nat := 0x4000_0000

  /** The live cells, with multiplicity: what the table stores. */
  ghost function LiveCells<V>(cells: seq<Cell<V>>): multiset<Cell<V>> {
    multiset(cells)[Null := 0][Deleted := 0]
  }

  ghost function NonNull<V>(cells: seq<Cell<V>>): nat {
    |cells| - multiset(cells)[Null]
  }

  /** Cell `p` is the `n`-th probe of hash `h`, and no earlier probe meets a null cell. */
  ghost predicate OnChain<V>(cells: seq<Cell<V>>, h: Word, n: nat, p: nat)
    requires |cells| > 0
  {
    n < |cells| && Probe(h, n, |cells|) == p &&
    forall m: nat :: m < n ==> cells[Probe(h, m, |cells|)] != Null
  }

  /** A search for the value in cell `p`, if it is live, cannot stop before that cell. */
  ghost predicate Reachable<V>(cells: seq<Cell<V>>, valHash: V -> Word, p: nat)
    requires p < |cells|
  {
    cells[p].Live? ==> exists n: nat :: OnChain(cells, valHash(cells[p].value), n, p)
  }

  /** The probe-chain invariant. */
  ghost predicate Findable<V>(cells: seq<Cell<V>>, valHash: V -> Word)
    requires |cells| > 0
  {
    forall p: nat {:trigger Reachable(cells, valHash, p)} :: p < |cells| ==> Reachable(cells, valHash, p)
  }

  /** A cell at which a search for `key` stops: null, or a live value that matches. */
  predicate Stops<K, V>(matches: (K, V) -> bool, key: K, c: Cell<V>) {
    c.Null? || (c.Live? && matches(key, c.value))
  }

  /** Storing a value in the first non-live cell of its probe path keeps the chains. */
  lemma StoreKeepsChains<V>(cells: seq<Cell<V>>, valHash: V -> Word, n: nat, ix: nat, val: V)
    requires |cells| > 0 && Findable(cells, valHash)
    requires ix < |cells| && OnChain(cells, valHash(val), n, ix)
    ensures Findable(cells[ix := Live(val)], valHash)
  {
    var after := cells[ix := Live(val)];
    forall p: nat | p < |cells|
      ensures Reachable(after, valHash, p)
    {
      assert Reachable(cells, valHash, p);
      if !after[p].Live? {
      } else if p == ix {
        assert OnChain(after, valHash(val), n, p);
      } else {
        var m: nat :| OnChain(cells, valHash(cells[p].value), m, p);
        assert OnChain(after, valHash(after[p].value), m, p);
      }
    }
  }

  /** Replacing a live value by a tombstone keeps the chains. */
  lemma RemoveKeepsChains<V>(cells: seq<Cell<V>>, valHash: V -> Word, ix: nat)
    requires |cells| > 0 && Findable(cells, valHash) && ix < |cells|
    ensures Findable(cells[ix := Deleted], valHash)
  {
    var after := cells[ix := Deleted];
    forall p: nat | p < |cells|
      ensures Reachable(after, valHash, p)
    {
      assert Reachable(cells, valHash, p);
      if after[p].Live? {
        var m: nat :| OnChain(cells, valHash(cells[p].value), m, p);
        assert OnChain(after, valHash(after[p].value), m, p);
      }
    }
  }

  /** When a search that started at probe 0 stops on a null cell, no stored value matches. */
  lemma NullMeansAbsent<K, V>(cells: seq<Cell<V>>, keyHash: K -> Word, valHash: V -> Word,
                              matches: (K, V) -> bool, key: K, i: nat, v: V)
    requires |cells| > 0 && Findable(cells, valHash)
    requires forall m: nat :: m < i ==> !Stops(matches, key, cells[Probe(keyHash(key), m, |cells|)])
    requires cells[Probe(keyHash(key), i, |cells|)] == Null
    requires matches(key, v) ==> keyHash(key) == valHash(v)
    ensures Live(v) in LiveCells(cells) ==> !matches(key, v)
  {
    if Live(v) in LiveCells(cells) && matches(key, v) {
      assert Live(v) in cells;
      var p: nat :| p < |cells| && cells[p] == Live(v);
      assert Reachable(cells, valHash, p);
      var n: nat :| OnChain(cells, valHash(v), n, p);
      assert Stops(matches, key, cells[Probe(keyHash(key), n, |cells|)]);
    }
  }

  /** As long as one cell is null, every probe sequence meets a null cell: the loops terminate. */
  lemma ProbeMeetsNull<V>(cells: seq<Cell<V>>, h: nat, i: nat) returns (n: nat)
    requires IsPow2(|cells|) && NonNull(cells) < |cells|
    ensures i <= n < i + |cells| && cells[Probe(h, n, |cells|)] == Null
  {
    assert Null in cells;
    var p: nat :| p < |cells| && cells[p] == Null;
    n := ReachesCell(h, i, p, |cells|);
  }

  lemma AllNull<V(!new)>(cells: seq<Cell<V>>, valHash: V -> Word)
    requires forall p | 0 <= p < |cells| :: cells[p] == Null
    ensures LiveCells(cells) == multiset{} && NonNull(cells) == 0 && (cells != [] ==> Findable(cells, valHash))
  {
    CountsAdd(cells);
    forall c | c in multiset(cells)
      ensures c == Null
    {
      assert c in cells;
    }
  }

  /** Null cells, tombstones and live cells make up the block. */
  lemma CountsAdd<V(!new)>(cells: seq<Cell<V>>)
    ensures |LiveCells(cells)| == |cells| - multiset(cells)[Null] - multiset(cells)[Deleted]
    ensures |LiveCells(cells)| == NonNull(cells) - multiset(cells)[Deleted]
  {
    var m := multiset(cells);
    assert |m[Null := 0]| == |m| - m[Null];
  }

  /** What storing into a non-live cell does to the counts. */
  lemma StoreCounts<V(!new)>(cells: seq<Cell<V>>, ix: nat, val: V)
    requires ix < |cells| && !cells[ix].Live?
    ensures LiveCells(cells[ix := Live(val)]) == LiveCells(cells) + multiset{Live(val)}
    ensures NonNull(cells[ix := Live(val)]) == NonNull(cells) + (if cells[ix].Null? then 1 else 0)
  {
    assert multiset(cells[ix := Live(val)]) == multiset(cells) - multiset{cells[ix]} + multiset{Live(val)};
    assert cells[ix] in cells;
  }

  /** What replacing a live cell by a tombstone does to the counts. */
  lemma RemoveCounts<V(!new)>(cells: seq<Cell<V>>, ix: nat)
    requires ix < |cells| && cells[ix].Live?
    ensures LiveCells(cells[ix := Deleted]) == LiveCells(cells) - multiset{cells[ix]}
    ensures cells[ix] in LiveCells(cells)
    ensures NonNull(cells[ix := Deleted]) == NonNull(cells)
  {
    assert cells[ix] in cells;
    assert multiset(cells[ix := Deleted]) == multiset(cells) - multiset{cells[ix]} + multiset{Deleted};
  }

  lemma NoTombstones<V(!new)>(cells: seq<Cell<V>>)
    requires NonNull(cells) == |LiveCells(cells)|
    ensures Deleted !in cells
  {
    CountsAdd(cells);
    assert multiset(cells)[Deleted] == 0;
  }

  /** What a scan of the block gathers when it passes cell `ix`. */
  lemma ScanStep<V(!new)>(cells: seq<Cell<V>>, ix: nat)
    requires ix < |cells|
    ensures LiveCells(cells[..ix + 1]) ==
            LiveCells(cells[..ix]) + (if cells[ix].Live? then multiset{cells[ix]} else multiset{})
    ensures |LiveCells(cells[..ix])| + (if cells[ix].Live? then 1 else 0) <= |LiveCells(cells)|
  {
    assert cells[..ix + 1] == cells[..ix] + [cells[ix]];
    assert cells == cells[..ix + 1] + cells[ix + 1..];
    assert LiveCells(cells) == LiveCells(cells[..ix + 1]) + LiveCells(cells[ix + 1..]);
  }

  /** The counter invariants, with room for `spare` more values that `occupied` already counts.
      `occupiedAndDeleted` may exceed the number of non-null cells, so it is only a bound. */
  ghost predicate Counted<V>(cells: seq<Cell<V>>, spare: nat, occupied: nat, occupiedAndDeleted: nat) {
    && occupied == |LiveCells(cells)| + spare
    && occupied <= |cells| / 2
    && NonNull(cells) <= occupiedAndDeleted
    && NonNull(cells) + spare < |cells|
    && (|cells| >= 4 ==> occupiedAndDeleted + spare < |cells|)
  }

  lemma StoreCounted<V(!new)>(cells: seq<Cell<V>>, ix: nat, val: V, occupied: nat, bound: nat)
    requires ix < |cells| && !cells[ix].Live? && Counted(cells, 1, occupied, bound)
    ensures Counted(cells[ix := Live(val)], 0, occupied, bound + (if cells[ix].Null? then 1 else 0))
  {
    StoreCounts(cells, ix, val);
  }

  lemma RemoveCounted<V(!new)>(cells: seq<Cell<V>>, ix: nat, occupied: nat, bound: nat)
    requires ix < |cells| && cells[ix].Live? && Counted(cells, 0, occupied, bound)
    ensures occupied > 0 && Counted(cells[ix := Deleted], 0, occupied - 1, bound)
  {
    RemoveCounts(cells, ix);
  }

  lemma HalfOf(size: nat)
    requires IsPow2(size)
    ensures size == 1 || size == 2 * (size / 2)
  {
  }

  lemma MaxIsPow2()
    ensures IsPow2(MAX_SIZE)
  {
    PowersOfSixteen();
    Double(0x1000_0000);
  }

  lemma DoubleBelowMax(size: nat)
    requires IsPow2(size) && size < MAX_SIZE
    ensures IsPow2(2 * size) && 2 * size <= MAX_SIZE
  {
    MaxIsPow2();
    Pow2Divides(size, MAX_SIZE);
    if 2 * size > MAX_SIZE {
      ModOf(MAX_SIZE, MAX_SIZE - size, 1, size);
    }
  }

  class Table<K(!new), V(!new, ==)> {
    const keyHash: K -> Word
    const valHash: V -> Word
    const matches: (K, V) -> bool

    var size: nat
    var occupied: nat
    var occupiedAndDeleted: nat
    var block: array<Cell<V>>

    ghost function Stored(): multiset<Cell<V>>
      reads this, block
    {
      LiveCells(block[..])
    }

    /** What holds of the block alone, also in the middle of an operation. */
    ghost predicate Chained()
      reads this, block
    {
      block.Length == size && IsPow2(size) && size <= MAX_SIZE && Findable(block[..], valHash)
    }

    ghost predicate Valid()
      reads this, block
    {
      Chained() && Counted(block[..], 0, occupied, occupiedAndDeleted)
    }

    /** What the table asks of its three functions. */
    ghost predicate HashesAgree() {
      forall k: K, v: V :: matches(k, v) ==> keyHash(k) == valHash(v)
    }

    constructor (initSize: nat, keyHash: K -> Word, valHash: V -> Word, matches: (K, V) -> bool)
      requires IsPow2(initSize) && initSize <= MAX_SIZE
      ensures Valid() && fresh(block) && size == initSize
      ensures Stored() == multiset{}
      ensures this.keyHash == keyHash && this.valHash == valHash && this.matches == matches
    {
      this.keyHash, this.valHash, this.matches := keyHash, valHash, matches;
      size, occupied, occupiedAndDeleted := initSize, 0, 0;
      block := new Cell<V>[initSize](_ => Null);
      new;
      AllNull(block[..], valHash);
    }

    /** `put_`: store `val` in the first cell of its probe path that is not live. */
    method PutCell(val: V) returns (ix: nat)
      requires Chained() && NonNull(block[..]) < size
      modifies block, `occupiedAndDeleted
      ensures ix < size && !old(block[ix]).Live?
      ensures block[..] == old(block[..])[ix := Live(val)]
      ensures occupiedAndDeleted == old(occupiedAndDeleted) + (if old(block[ix]).Null? then 1 else 0)
      ensures Chained()
      ensures Stored() == old(Stored()) + multiset{Live(val)}
      ensures NonNull(block[..]) == old(NonNull(block[..])) + (if old(block[ix]).Null? then 1 else 0)
    {
      var h1 := valHash(val);
      var h2 := OddStep(h1);
      ix := h1 % size;
      ghost var cells := block[..];
      ghost var n: nat := 0;
      ghost var stop := ProbeMeetsNull(cells, h1, 0);
      FirstProbe(h1, size);
      while !block[ix].Null? && !block[ix].Deleted?
        invariant block[..] == cells && occupiedAndDeleted == old(occupiedAndDeleted)
        invariant n <= stop && ix == Probe(h1, n, size)
        invariant forall m: nat :: m < n ==> cells[Probe(h1, m, size)].Live?
        decreases stop - n
      {
        ProbeAdvance(h1, n, size);
        ix := ((ix + h2) % WORD) % size;
        n := n + 1;
      }
      if block[ix].Null? {
        occupiedAndDeleted := occupiedAndDeleted + 1;
      }
      StoreKeepsChains(cells, valHash, n, ix, val);
      StoreCounts(cells, ix, val);
      block[ix] := Live(val);
      assert block[..] == cells[ix := Live(val)];
    }

    /** `get_`: from probe `i0` on, the first cell that is null or a live match. */
    method GetCell(key: K, i0: nat) returns (ix: nat, i: nat)
      requires Chained() && NonNull(block[..]) < size
      ensures i0 <= i && ix == Probe(keyHash(key), i, size)
      ensures Stops(matches, key, block[ix])
      ensures forall m: nat :: i0 <= m < i ==> !Stops(matches, key, block[Probe(keyHash(key), m, size)])
    {
      var h1 := keyHash(key);
      var h2 := OddStep(h1);
      i := i0;
      ix := ((h1 + (i * h2) % WORD) % WORD) % size;
      ProbeStart(h1, i, size);
      ghost var cells := block[..];
      ghost var stop := ProbeMeetsNull(cells, h1, i0);
      while !block[ix].Null?
        invariant i0 <= i <= stop && ix == Probe(h1, i, size)
        invariant forall m: nat :: i0 <= m < i ==> !Stops(matches, key, block[Probe(h1, m, size)])
        decreases stop - i
      {
        if !block[ix].Deleted? && matches(key, block[ix].value) {
          return;
        }
        ProbeAdvance(h1, i, size);
        i := i + 1;
        ix := ((ix + h2) % WORD) % size;
      }
    }

    method Get(key: K) returns (r: Option<V>)
      requires Valid() && HashesAgree()
      ensures r.Some? ==> Live(r.value) in Stored() && matches(key, r.value)
      ensures r.None? ==> forall v :: Live(v) in Stored() ==> !matches(key, v)
    {
      var ix, i := GetCell(key, 0);
      if block[ix].Null? {
        r := None;
        forall v {
          NullMeansAbsent(block[..], keyHash, valHash, matches, key, i, v);
        }
      } else {
        r := Some(block[ix].value);
        assert block[ix] in block[..];
      }
    }

    /** A block without tombstones that stores exactly `live`. */
    ghost predicate Compact(live: multiset<Cell<V>>)
      reads this, block
    {
      Chained() && Stored() == live && NonNull(block[..]) == |live|
    }

    /** The body of the loop in `resize`: live values are stored again, the rest is dropped. */
    method Reinsert(c: Cell<V>, ghost live: multiset<Cell<V>>)
      requires Compact(live) && |live| < size
      modifies block, `occupiedAndDeleted
      ensures Compact(live + (if c.Live? then multiset{c} else multiset{}))
    {
      if !c.Null? && !c.Deleted? {
        NoTombstones(block[..]);
        ghost var cells := block[..];
        var ix := PutCell(c.value);
        assert cells[ix] in cells;
      }
    }

    /** `resize`: rebuild the table in a block of another size, dropping the tombstones. */
    method Resize(newSize: nat)
      requires Chained() && |Stored()| < newSize
      requires IsPow2(newSize) && newSize <= MAX_SIZE
      modifies this
      ensures fresh(block) && size == newSize
      ensures Compact(old(Stored()))
      ensures occupied == old(occupied) && occupiedAndDeleted == occupied
    {
      hide Findable, IsPow2, LiveCells, NonNull;
      var oldBlock, oldSize := block, size;
      ghost var cells := oldBlock[..];
      block := new Cell<V>[newSize](_ => Null);
      size := newSize;
      AllNull(block[..], valHash);
      AllNull(cells[..0], valHash);
      for ix := 0 to oldSize
        invariant oldBlock[..] == cells
        invariant Compact(LiveCells(cells[..ix]))
        modifies block, `occupiedAndDeleted
      {
        ScanStep(cells, ix);
        Reinsert(oldBlock[ix], LiveCells(cells[..ix]));
      }
      assert cells[..oldSize] == cells;
      occupiedAndDeleted := occupied;
    }

    /** `getNext`: resume the search for `key` at probe `i0`. */
    method GetNext(key: K, i0: nat) returns (r: Option<V>, i: nat)
      requires Valid()
      ensures i0 <= i
      ensures forall m: nat :: i0 <= m < i ==> !Stops(matches, key, block[Probe(keyHash(key), m, size)])
      ensures r.Some? ==> matches(key, r.value) && block[Probe(keyHash(key), i, size)] == Live(r.value)
      ensures r.None? ==> block[Probe(keyHash(key), i, size)] == Null
    {
      var ix;
      ix, i := GetCell(key, i0);
      r := if block[ix].Null? then None else Some(block[ix].value);
    }

    method Remove(key: K) returns (r: Option<V>)
      requires Valid() && HashesAgree()
      modifies this, block
      ensures Valid() && block == old(block)
      ensures r.Some? ==> matches(key, r.value) && Live(r.value) in old(Stored())
      ensures r.Some? ==> Stored() == old(Stored()) - multiset{Live(r.value)}
      ensures r.None? ==> Stored() == old(Stored()) && forall v :: Live(v) in Stored() ==> !matches(key, v)
    {
      var ix, i := GetCell(key, 0);
      r := None;
      ghost var cells := block[..];
      if !block[ix].Null? {
        RemoveCounts(cells, ix);
        RemoveCounted(cells, ix, occupied, occupiedAndDeleted);
        RemoveKeepsChains(cells, valHash, ix);
        occupied := occupied - 1;
        r := Some(block[ix].value);
        block[ix] := Deleted;
        assert block[..] == cells[ix := Deleted];
      } else {
        forall v {
          NullMeansAbsent(cells, keyHash, valHash, matches, key, i, v);
        }
      }
    }

    /** The doubled size has to stay within `int`. */
    method Put(val: V)
      requires Valid() && (occupied < size / 2 || size < MAX_SIZE)
      modifies this, block
      ensures Valid() && (block == old(block) || fresh(block))
      ensures Stored() == old(Stored()) + multiset{Live(val)}
      ensures size == if old(occupied) >= old(size) / 2 then 2 * old(size) else old(size)
    {
      hide Findable, LiveCells, IsPow2, NonNull;
      var before := occupied;
      HalfOf(size);
      occupied := occupied + 1;
      if before >= size / 2 {
        DoubleBelowMax(size);
        Resize(2 * size);
      } else if occupiedAndDeleted >= size - 1 {
        Resize(size);
      }
      ghost var cells, bound := block[..], occupiedAndDeleted;
      assert Counted(cells, 1, occupied, bound);
      var ix := PutCell(val);
      StoreCounted(cells, ix, val, occupied, bound);
    }
  }
}
