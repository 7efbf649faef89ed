/** The streaming part of `MD5`: buffering, the 64-bit bit counter, padding and the digest bytes.
    The block transformation is a parameter. */
module Md5 {
  import opened Common
  import Probing

  /** 2^64 */
  const DOUBLE_WORD: nat := 0x1_0000_0000_0000_0000

  datatype State = State(a: Word, b: Word, c: Word, d: Word)

  const INITIAL: State := State(0x67452301, 0xefcdab89, 0x98badcfe, 0x10325476)

  type Transform = (State, seq<Byte>) -> State

  // ---------- RFC 1321 ----------

  /** The transformation applied to every complete 64-byte block. */
  function Absorb(f: Transform, st: State, data: seq<Byte>): State
    decreases |data|
  {
    if |data| < 64 then st else Absorb(f, f(st, data[..64]), data[64..])
  }

  function Zeros(n: nat): (r: seq<Byte>)
    ensures |r| == n
  {
    seq(n, _ => 0)
  }

  /** The number of zero bytes that follow the one bit: the fewest that lead to 56 modulo 64. */
  function Fill(n: nat): (z: nat)
    ensures z < 64 && (n + 1 + z) % 64 == 56
  {
    if n % 64 < 56 then 55 - n % 64 else 119 - n % 64
  }

  lemma PadLength(n: nat)
    ensures (n + 1 + Fill(n) + 8) % 64 == 0
  {
    hide Fill;
    var x := n + 1 + Fill(n);
    assert x + 8 == 64 * (x / 64 + 1);
  }

  /** Sections 3.1 and 3.2: a one bit, zero bits, then the bit length modulo 2^64. */
  function Padded(message: seq<Byte>): (r: seq<Byte>)
    ensures |r| % 64 == 0 && message <= r
  {
    PadLength(|message|);
    message + [0x80] + Zeros(Fill(|message|)) + LittleEndian((8 * |message|) % DOUBLE_WORD, 8)
  }

  /** Words as bytes, one after the other, each with its low-order byte first. */
  function Bytes(words: seq<Word>): (r: seq<Byte>)
    ensures |r| == 4 * |words|
  {
    if words == [] then []
    else Bytes(words[..|words| - 1]) + LittleEndian(words[|words| - 1], 4)
  }

  /** Sections 3.3 to 3.5. */
  function Digest(f: Transform, message: seq<Byte>): seq<Byte> {
    var st := Absorb(f, INITIAL, Padded(message));
    Bytes([st.a, st.b, st.c, st.d])
  }

  /** The padded message byte by byte; it is the shortest that is made of whole blocks. */
  lemma PaddedShape(message: seq<Byte>)
    ensures var r, n := Padded(message), |message|;
            && |r| % 64 == 0 && n + 9 <= |r| < n + 9 + 64
            && r[..n] == message && r[n] == 0x80 && (forall k :: n < k < |r| - 8 ==> r[k] == 0)
            && r[|r| - 8..] == LittleEndian((8 * n) % DOUBLE_WORD, 8)
  {
    hide LittleEndian;
    PadLength(|message|);
  }

  /** The digest is that of the final state, its words in order with the low-order byte first, and the initial
      state is that of section 3.3. */
  lemma DigestShape(f: Transform, message: seq<Byte>)
    ensures var st := Absorb(f, State(0x67452301, 0xefcdab89, 0x98badcfe, 0x10325476), Padded(message));
            Digest(f, message)
            == LittleEndian(st.a, 4) + LittleEndian(st.b, 4) + LittleEndian(st.c, 4) + LittleEndian(st.d, 4)
  {
    hide LittleEndian, Padded, Absorb;
    var st := Absorb(f, INITIAL, Padded(message));
    BytesOfFour(st.a, st.b, st.c, st.d);
  }

  lemma BytesOfFour(a: Word, b: Word, c: Word, d: Word)
    ensures Bytes([a, b, c, d]) == LittleEndian(a, 4) + LittleEndian(b, 4) + LittleEndian(c, 4) + LittleEndian(d, 4)
  {
    hide LittleEndian;
    assert [a, b, c, d][..3] == [a, b, c] && [a, b, c][..2] == [a, b] && [a, b][..1] == [a] && [a][..0] == [];
    assert Bytes([a]) == LittleEndian(a, 4) && Bytes([a, b]) == Bytes([a]) + LittleEndian(b, 4);
    assert Bytes([a, b, c]) == Bytes([a, b]) + LittleEndian(c, 4);
  }

  /** A message of less than a block with its length is one block. */
  lemma OneBlockDigest(f: Transform, message: seq<Byte>)
    requires |message| < 56
    ensures |Padded(message)| == 64
    ensures var st := f(State(0x67452301, 0xefcdab89, 0x98badcfe, 0x10325476), Padded(message));
            Digest(f, message)
            == LittleEndian(st.a, 4) + LittleEndian(st.b, 4) + LittleEndian(st.c, 4) + LittleEndian(st.d, 4)
  {
    hide LittleEndian, Padded, Digest;
    PaddedShape(message);
    DigestShape(f, message);
    OneBlock(f, INITIAL, Padded(message));
  }

  /** Absorbing can be resumed at any block boundary. */
  lemma {:induction false} AbsorbAppend(f: Transform, st: State, m: seq<Byte>, more: seq<Byte>)
    requires |m| % 64 == 0
    ensures Absorb(f, st, m + more) == Absorb(f, Absorb(f, st, m), more)
    decreases |m|
  {
    if m == [] {
      assert m + more == more;
    } else {
      assert (m + more)[..64] == m[..64] && (m + more)[64..] == m[64..] + more;
      AbsorbAppend(f, f(st, m[..64]), m[64..], more);
    }
  }

  /** The bytes after the last complete block. */
  function Tail(data: seq<Byte>): (r: seq<Byte>)
    ensures |r| == |data| % 64
  {
    data[|data| - |data| % 64..]
  }

  lemma TailFrom(data: seq<Byte>, k: nat)
    requires k % 64 == 0 && k <= |data| < k + 64
    ensures Tail(data) == data[k..]
  {
  }

  /** What `update` does for a message whose complete blocks are in the state: the incomplete tail
      is absorbed together with the new input. */
  lemma AbsorbMessage(f: Transform, message: seq<Byte>, input: seq<Byte>)
    ensures Absorb(f, INITIAL, message + input) == Absorb(f, Absorb(f, INITIAL, message), Tail(message) + input)
  {
    hide Absorb;
    var n := |message| - |message| % 64;
    AbsorbPrefix(f, INITIAL, message, n);
    AbsorbAppend(f, INITIAL, message[..n], Tail(message) + input);
    assert message + input == message[..n] + (Tail(message) + input);
  }

  lemma Multiples(a: nat, b: nat)
    requires a % 64 == 0 && b % 64 == 0
    ensures (a + b) % 64 == 0
  {
  }

  lemma TailOfRest(blocks: seq<Byte>, data: seq<Byte>)
    requires |blocks| % 64 == 0
    ensures Tail(blocks + data) == Tail(data)
  {
    hide Tail;
    var k := |data| - |data| % 64;
    Multiples(|blocks|, k);
    TailFrom(blocks + data, |blocks| + k);
    TailFrom(data, k);
    assert (blocks + data)[|blocks| + k..] == data[k..];
  }

  lemma TailAppend(message: seq<Byte>, input: seq<Byte>)
    ensures Tail(message + input) == Tail(Tail(message) + input)
  {
    hide Tail;
    var n := |message| - |message| % 64;
    TailFrom(message, n);
    assert message + input == message[..n] + (message[n..] + input);
    TailOfRest(message[..n], message[n..] + input);
  }

  lemma AbsorbNext(f: Transform, st: State, data: seq<Byte>, i: nat)
    requires i % 64 == 0 && i + 64 <= |data|
    ensures Absorb(f, st, data[..i + 64]) == f(Absorb(f, st, data[..i]), data[i..i + 64])
  {
    hide Absorb;
    var block := data[i..i + 64];
    assert data[..i + 64] == data[..i] + block;
    AbsorbAppend(f, st, data[..i], block);
    OneBlock(f, Absorb(f, st, data[..i]), block);
  }

  lemma OnlyTail(f: Transform, st: State)
    ensures Absorb(f, st, []) == st
  {
  }

  lemma OneBlock(f: Transform, st: State, block: seq<Byte>)
    requires |block| == 64
    ensures Absorb(f, st, block) == f(st, block)
  {
    assert block[..64] == block && block[64..] == [];
  }

  lemma AbsorbPrefix(f: Transform, st: State, data: seq<Byte>, i: nat)
    requires i % 64 == 0 && i <= |data| < i + 64
    ensures Absorb(f, st, data) == Absorb(f, st, data[..i])
  {
    assert data == data[..i] + data[i..];
    AbsorbAppend(f, st, data[..i], data[i..]);
  }

  // ---------- encode and decode ----------

  /** The four bytes that `encode` writes. */
  function FourBytes(w: Word): (r: seq<Byte>)
    ensures r == LittleEndian(w, 4)
  {
    FourSteps(w);
    [w % 256, (w / 0x100) % 256, (w / 0x1_0000) % 256, (w / 0x100_0000) % 256]
  }

  lemma FourSteps(w: Word)
    ensures LittleEndian(w, 4) == [w % 256, (w / 0x100) % 256, (w / 0x1_0000) % 256, (w / 0x100_0000) % 256]
  {
    var w1 := w / 256;
    var w2 := w1 / 256;
    var w3 := w2 / 256;
    assert w2 == w / 0x1_0000 && w3 == w / 0x100_0000;
    assert LittleEndian(w3, 1) == [w3 % 256] + LittleEndian(w3 / 256, 0);
    assert LittleEndian(w2, 2) == [w2 % 256] + LittleEndian(w3, 1);
    assert LittleEndian(w1, 3) == [w1 % 256] + LittleEndian(w2, 2);
  }

  /** The word that `decode` puts together. */
  function FourBytesValue(b: seq<Byte>): (w: Word)
    requires |b| == 4
    ensures w == LittleEndianValue(b)
  {
    assert LittleEndianValue(b[3..]) == b[3] + 256 * LittleEndianValue(b[3..][1..]) == b[3];
    assert b[2..][1..] == b[3..] && b[1..][1..] == b[2..];
    assert LittleEndianValue(b[2..]) == b[2] + 256 * LittleEndianValue(b[3..]);
    assert LittleEndianValue(b[1..]) == b[1] + 256 * LittleEndianValue(b[2..]);
    (b[0] as int) + (b[1] as int) * 0x100 + (b[2] as int) * 0x1_0000 + (b[3] as int) * 0x100_0000
  }

  /** The bytes of a double word are those of its low word followed by those of its high word. */
  lemma LittleEndianSplit(lo: Word, hi: Word)
    ensures LittleEndian(lo + WORD * hi, 8) == LittleEndian(lo, 4) + LittleEndian(hi, 4)
  {
    var lo1 := lo / 256;
    var lo2 := lo1 / 256;
    var lo3 := lo2 / 256;
    ThreeBytes(lo);
    SplitSteps(lo, lo1, lo2, lo3, hi);
    assert LittleEndian(lo3 / 256, 0) == [];
    assert LittleEndian(lo, 4) == [lo % 256] + ([lo1 % 256] + ([lo2 % 256] + ([lo3 % 256] + []))) by {
      hide LittleEndian;
      LittleEndianStep(lo, 0, 0, 3, 0);
      LittleEndianStep(lo1, 0, 0, 2, 0);
      LittleEndianStep(lo2, 0, 0, 1, 0);
      LittleEndianStep(lo3, 0, 0, 0, 0);
    }
  }

  lemma ThreeBytes(lo: Word)
    ensures lo / 256 / 256 / 256 / 256 == 0
  {
  }

  lemma SplitSteps(lo: nat, lo1: nat, lo2: nat, lo3: nat, hi: nat)
    requires lo1 == lo / 256 && lo2 == lo1 / 256 && lo3 == lo2 / 256 && lo3 / 256 == 0
    ensures LittleEndian(lo + WORD * hi, 8) ==
            [lo % 256] + ([lo1 % 256] + ([lo2 % 256] + ([lo3 % 256] + LittleEndian(hi, 4))))
  {
    hide LittleEndian;
    LittleEndianStep(lo, 0x100_0000 * hi, 7, 0, 0);
    LittleEndianStep(lo1, 0x1_0000 * hi, 6, 0, 0);
    LittleEndianStep(lo2, 0x100 * hi, 5, 0, 0);
    LittleEndianStep(lo3, hi, 4, 0, 0);
  }

  lemma LittleEndianStep(lo: nat, rest: nat, k: nat, m: nat, hi: nat)
    ensures LittleEndian(lo + 0x100 * rest, k + 1) == [lo % 256] + LittleEndian(lo / 256 + rest, k)
    ensures LittleEndian(lo, m + 1) == [lo % 256] + LittleEndian(lo / 256, m)
  {
    LowByte(lo, rest);
  }

  lemma LowByte(lo: nat, rest: nat)
    ensures (lo + 0x100 * rest) % 256 == lo % 256 && (lo + 0x100 * rest) / 256 == lo / 256 + rest
  {
  }

  /** `encode`: words to bytes, low-order byte first. */
  method Encode(input: seq<Word>) returns (output: seq<Byte>)
    ensures output == Bytes(input)
  {
    output := [];
    for i := 0 to |input|
      invariant output == Bytes(input[..i])
    {
      assert input[..i + 1][..i] == input[..i];
      output := output + FourBytes(input[i]);
    }
    assert input[..|input|] == input;
  }

  /** `decode`: the inverse of `encode`. */
  method Decode(input: seq<Byte>) returns (output: seq<Word>)
    requires |input| % 4 == 0
    ensures 4 * |output| == |input|
    ensures forall i :: 0 <= i < |output| ==> LittleEndian(output[i], 4) == input[4 * i..4 * i + 4]
  {
    output := [];
    for i := 0 to |input| / 4
      invariant |output| == i
      invariant forall k :: 0 <= k < i ==> LittleEndian(output[k], 4) == input[4 * k..4 * k + 4]
    {
      BytesOfValue(input[4 * i..4 * i + 4]);
      output := output + [FourBytesValue(input[4 * i..4 * i + 4])];
    }
  }

  // ---------- The bit counter ----------

  /** `lo` and `hi` hold 8 times the number of bytes, modulo 2^64. */
  ghost predicate CountsBits(lo: Word, hi: Word, bytes: nat) {
    lo + WORD * hi == (8 * bytes) % DOUBLE_WORD
  }

  lemma LowWord(lo: Word, hi: Word, bytes: nat)
    requires CountsBits(lo, hi, bytes)
    ensures lo / 8 % 64 == bytes % 64
  {
    var k := hi + WORD * ((8 * bytes) / DOUBLE_WORD);
    assert 8 * bytes == lo + WORD * k;
    assert lo / 8 == bytes - 64 * (0x80_0000 * k);
    Probing.ModOf(lo / 8, bytes % 64, bytes / 64 - 0x80_0000 * k, 64);
  }

  /** The three additions of `update` with the carry test by comparison. */
  function AddBits(lo: Word, hi: Word, length: Word): (Word, Word) {
    var shifted := (8 * length) % WORD;
    var lo' := (lo + shifted) % WORD;
    var carried := if lo' < shifted then (hi + 1) % WORD else hi;
    (lo', (carried + length / 0x2000_0000) % WORD)
  }

  lemma AddLow(lo: Word, hi: Word, length: Word) returns (carry: nat)
    ensures lo + 8 * length == AddBits(lo, hi, length).0 + WORD * (carry + length / 0x2000_0000)
    ensures AddBits(lo, hi, length).1 == (hi + carry + length / 0x2000_0000) % WORD
  {
    carry := if lo + (8 * length) % WORD >= WORD then 1 else 0;
    EightTimes(length);
  }

  lemma EightTimes(length: Word)
    ensures 8 * length == (8 * length) % WORD + WORD * (length / 0x2000_0000)
  {
    assert (8 * length) / WORD == length / 0x2000_0000;
  }

  lemma AddBitsCounts(lo: Word, hi: Word, bytes: nat, length: Word)
    requires CountsBits(lo, hi, bytes)
    ensures CountsBits(AddBits(lo, hi, length).0, AddBits(lo, hi, length).1, bytes + length)
  {
    hide AddBits;
    var carry := AddLow(lo, hi, length);
    var (lo', hi') := AddBits(lo, hi, length);
    var top := hi + carry + length / 0x2000_0000;
    assert top == hi' + WORD * (top / WORD);
    var k := (8 * bytes) / DOUBLE_WORD + top / WORD;
    assert 8 * (bytes + length) == lo' + WORD * hi' + DOUBLE_WORD * k;
    Probing.ModOf(8 * (bytes + length), lo' + WORD * hi', k, DOUBLE_WORD);
  }

  /** The eight bytes appended by `finalize` are the bit length. */
  lemma CounterBytes(lo: Word, hi: Word, bytes: nat)
    requires CountsBits(lo, hi, bytes)
    ensures Bytes([lo, hi]) == LittleEndian((8 * bytes) % DOUBLE_WORD, 8)
  {
    hide LittleEndian;
    LittleEndianSplit(lo, hi);
    assert [lo, hi][..1] == [lo] && [lo][..0] == [];
    assert Bytes([lo]) == LittleEndian(lo, 4);
  }

  lemma PaddedParts(text: seq<Byte>, zeros: seq<Byte>, bits: seq<Byte>)
    requires zeros == Zeros(Fill(|text|)) && bits == LittleEndian((8 * |text|) % DOUBLE_WORD, 8)
    ensures text + ([0x80] + zeros) + bits == Padded(text)
  {
    hide LittleEndian, Zeros, Fill;
    assert text + ([0x80] + zeros) == text + [0x80] + zeros;
  }

  // ---------- The block loop ----------

  /** Where the block loop of `update` stops when `index` bytes were buffered before. */
  function LoopEnd(index: nat, length: nat): nat
    requires index < 64 && 64 - index <= length
  {
    length - (index + length) % 64
  }

  /** The 32-bit sum `i + blocksize` of the loop test does not wrap around. */
  predicate NoWrap(index: nat, length: nat)
    requires index < 64
  {
    length < WORD && (64 - index <= length ==> LoopEnd(index, length) + 64 < WORD)
  }

  predicate BlockStart(index: nat, length: nat, i: nat) {
    i <= length && (index + i) % 64 == 0
  }

  /** On every block start up to the end of the input the test `i + blocksize <= length`, computed
      modulo 2^32, is right exactly when the sum does not wrap at the last one. */
  lemma WrapDecides(index: nat, length: nat)
    requires index < 64 && 64 - index <= length < WORD
    ensures NoWrap(index, length) <==>
            forall i: nat :: BlockStart(index, length, i) ==>
              ((i + 64) % WORD <= length <==> i + 64 <= length)
  {
    var last := LoopEnd(index, length);
    LastStart(index, length);
    hide BlockStart, LoopEnd;
    if last + 64 < WORD {
      forall i: nat | BlockStart(index, length, i)
        ensures (i + 64) % WORD == i + 64
      {
        Probing.ModOf(i + 64, i + 64, 0, WORD);
      }
    } else {
      Probing.ModOf(last + 64, last + 64 - WORD, 1, WORD);
    }
  }

  lemma LastStart(index: nat, length: nat)
    requires index < 64 && 64 - index <= length
    ensures BlockStart(index, length, LoopEnd(index, length)) && length < LoopEnd(index, length) + 64
    ensures forall i: nat :: BlockStart(index, length, i) ==> i <= LoopEnd(index, length)
  {
    var b := (index + length) / 64;
    assert index + LoopEnd(index, length) == 64 * b;
    forall i: nat | BlockStart(index, length, i)
      ensures i <= LoopEnd(index, length)
    {
      assert index + i == 64 * ((index + i) / 64);
    }
  }

  lemma ShortNoWrap()
    ensures forall index: nat, length: nat :: index < 64 && length <= 128 ==> NoWrap(index, length)
  {
  }

  class Md5 {
    const transform: Transform
    var finalized: bool
    var buffer: array<Byte>
    var countLo: Word
    var countHi: Word
    var state: State
    var digest: seq<Byte>
    /** All bytes passed to `Update` so far. */
    ghost var message: seq<Byte>

    ghost predicate Valid()
      reads this, buffer
    {
      && !finalized && buffer.Length == 64
      && CountsBits(countLo, countHi, |message|)
      && state == Absorb(transform, INITIAL, message)
      && buffer[..|message| % 64] == Tail(message)
    }

    constructor (transform: Transform)
      ensures Valid() && fresh(buffer) && message == [] && this.transform == transform
    {
      this.transform := transform;
      finalized, countLo, countHi, state, digest := false, 0, 0, INITIAL, [];
      message := [];
      buffer := new Byte[64](_ => 0);
    }

    constructor FromText(transform: Transform, text: seq<Byte>)
      requires NoWrap(0, |text|)
      ensures finalized && digest == Digest(transform, text)
    {
      this.transform := transform;
      finalized, countLo, countHi, state, digest := false, 0, 0, INITIAL, [];
      message := [];
      buffer := new Byte[64](_ => 0);
      new;
      Update(text);
      assert message == text;
      Finalize();
    }

    /** `memcpy` into the buffer. */
    method Copy(at: nat, data: seq<Byte>)
      requires at + |data| <= buffer.Length
      modifies buffer
      ensures buffer[..] == old(buffer[..at]) + data + old(buffer[at + |data|..])
    {
      forall k | 0 <= k < |data| {
        buffer[at + k] := data[k];
      }
    }

    method Update(input: seq<Byte>)
      requires Valid() && NoWrap(|message| % 64, |input|)
      modifies this, buffer
      ensures Valid() && buffer == old(buffer) && digest == old(digest)
      ensures message == old(message) + input
    {
      var length: Word := |input|;
      hide Absorb, Tail, AddBits, CountsBits;
      LowWord(countLo, countHi, |message|);
      AddBitsCounts(countLo, countHi, |message|, length);
      var index := countLo / 8 % 64;
      var bits := AddBits(countLo, countHi, length);
      countLo, countHi := bits.0, bits.1;
      AbsorbMessage(transform, message, input);
      TailAppend(message, input);
      Process(index, input);
      message := message + input;
    }

    /** The buffering part of `update`, with `index` bytes in the buffer. */
    method Process(index: nat, input: seq<Byte>)
      requires buffer.Length == 64 && index < 64 && NoWrap(index, |input|)
      modifies `state, buffer
      ensures var data := old(buffer[..index]) + input;
              && state == Absorb(transform, old(state), data)
              && buffer[..|data| % 64] == Tail(data)
    {
      hide Absorb, Tail;
      ghost var data := buffer[..index] + input;
      var length, firstpart := |input|, 64 - index;
      var at, i: nat := index, 0;
      if length >= firstpart {
        Copy(index, input[..firstpart]);
        assert buffer[..] == data[0..64] && data[..0] == [];
        OnlyTail(transform, state);
        AbsorbNext(transform, state, data, 0);
        state := transform(state, buffer[..]);
        i := firstpart;
        while (i + 64) % WORD <= length
          invariant firstpart <= i && BlockStart(index, length, i)
          invariant state == Absorb(transform, old(state), data[..index + i])
          decreases length - i
          modifies `state
        {
          WrapDecides(index, length);
          assert input[i..i + 64] == data[index + i..index + i + 64];
          AbsorbNext(transform, old(state), data, index + i);
          state := transform(state, input[i..i + 64]);
          i := i + 64;
        }
        WrapDecides(index, length);
        AbsorbPrefix(transform, old(state), data, index + i);
        TailFrom(data, index + i);
        at := 0;
      } else {
        AbsorbPrefix(transform, old(state), data, 0);
        TailFrom(data, 0);
        OnlyTail(transform, state);
      }
      Copy(at, input[i..]);
      assert buffer[..at + (length - i)] == data[index + i - at..];
    }

    method Finalize()
      requires finalized || Valid()
      modifies this, buffer
      ensures finalized && buffer == old(buffer)
      ensures old(finalized) ==> digest == old(digest)
      ensures !old(finalized) ==> digest == Digest(transform, old(message))
      ensures !old(finalized) ==> countLo == countHi == 0 && forall k :: 0 <= k < 64 ==> buffer[k] == 0
    {
      if finalized {
        return;
      }
      hide Absorb, Tail, Padded, LittleEndian, Bytes, CountsBits, NoWrap;
      ghost var text := message;
      LowWord(countLo, countHi, |text|);
      ShortNoWrap();
      var bits := Encode([countLo, countHi]);
      CounterBytes(countLo, countHi, |text|);
      var index := countLo / 8 % 64;
      var padLen := if index < 56 then 56 - index else 120 - index;
      Update([0x80] + Zeros(padLen - 1));
      Update(bits);
      PaddedParts(text, Zeros(padLen - 1), bits);
      assert message == Padded(text);
      digest := Encode([state.a, state.b, state.c, state.d]);
      forall k | 0 <= k < 64 {
        buffer[k] := 0;
      }
      countLo, countHi := 0, 0;
      finalized := true;
    }
  }
}
