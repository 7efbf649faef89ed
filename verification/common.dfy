/** What several components share. */
module Common {
  datatype Option<+T> = None | Some(value: T)

  type Byte = b: int | 0 <= b < 256

  /** Unsigned 32-bit numbers; their arithmetic is modulo 2^32. */
  const WORD: nat := 0x1_0000_0000

  type Word = x: nat | x < WORD

  function Min(a: nat, b: nat): nat {
    if a <= b then a else b
  }

  predicate Ascending(ids: seq<nat>) {
    forall i, j :: 0 <= i < j < |ids| ==> ids[i] < ids[j]
  }

  /** The `k` low bytes of `n`, low-order byte first. */
  function LittleEndian(n: nat, k: nat): (r: seq<Byte>)
    ensures |r| == k
  {
    if k == 0 then [] else [n % 256] + LittleEndian(n / 256, k - 1)
  }

  /** The number that these bytes stand for, low-order byte first. */
  function LittleEndianValue(bytes: seq<Byte>): nat {
    if bytes == [] then 0 else bytes[0] + 256 * LittleEndianValue(bytes[1..])
  }

  /** 256 to the power of `k`. */
  function Values(k: nat): (r: nat)
    ensures r >= 1
  {
    if k == 0 then 1 else 256 * Values(k - 1)
  }

  lemma {:induction false} ValueOfBytes(n: nat, k: nat)
    requires n < Values(k)
    ensures LittleEndianValue(LittleEndian(n, k)) == n
  {
    if k > 0 {
      ValueOfBytes(n / 256, k - 1);
      assert LittleEndian(n, k)[1..] == LittleEndian(n / 256, k - 1);
    }
  }

  lemma {:induction false} BytesOfValue(bytes: seq<Byte>)
    ensures LittleEndianValue(bytes) < Values(|bytes|)
    ensures LittleEndian(LittleEndianValue(bytes), |bytes|) == bytes
  {
    if bytes != [] {
      BytesOfValue(bytes[1..]);
      var rest := LittleEndianValue(bytes[1..]);
      assert (bytes[0] + 256 * rest) / 256 == rest && (bytes[0] + 256 * rest) % 256 == bytes[0];
      assert bytes == [bytes[0]] + bytes[1..];
    }
  }

  /** A list without repetitions is not longer than the set that its elements come from. */
  lemma {:induction false} Pigeonhole<T>(xs: seq<T>, all: set<T>)
    requires forall i, j :: 0 <= i < j < |xs| ==> xs[i] != xs[j]
    requires forall i :: 0 <= i < |xs| ==> xs[i] in all
    ensures |xs| <= |all|
    decreases |xs|
  {
    if xs != [] {
      Pigeonhole(xs[1..], all - {xs[0]});
    }
  }
}
