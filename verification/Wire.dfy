/** Numbers and strings as they travel: little-endian words, strings padded to a multiple of eight bytes. */
module Wire {
  import opened Wrappers

  type Byte = x: int | 0 <= x < 256

  const TWO32: nat := 0x1_0000_0000
  const TWO64: nat := 0x1_0000_0000_0000_0000

  function Pow256(k: nat): nat {
    if k == 0 then 1 else 256 * Pow256(k - 1)
  }

  /** `n` in `k` bytes, the least significant first. */
  function LE(n: nat, k: nat): (bs: seq<Byte>)
    ensures |bs| == k
  {
    if k == 0 then [] else [n % 256] + LE(n / 256, k - 1)
  }

  function UnLE(bs: seq<Byte>): nat {
    if bs == [] then 0 else bs[0] + 256 * UnLE(bs[1..])
  }

  /** The first byte weighs one, and each further byte 256 times the one before it. */
  lemma {:induction false} LastWeighsMost(bs: seq<Byte>, b: Byte)
    ensures UnLE(bs + [b]) == UnLE(bs) + Pow256(|bs|) * b
  {
    if bs == [] {
      assert [b][1..] == [];
    } else {
      LastWeighsMost(bs[1..], b);
      assert (bs + [b])[1..] == bs[1..] + [b];
      Weigh(bs[0], UnLE(bs[1..]), Pow256(|bs| - 1), b);
    }
  }

  lemma Weigh(a: int, u: int, p: int, b: int)
    ensures a + 256 * (u + p * b) == a + 256 * u + 256 * p * b
  {}

  lemma {:induction false} UnLEofLE(n: nat, k: nat)
    requires n < Pow256(k)
    ensures UnLE(LE(n, k)) == n
  {
    if k != 0 {
      UnLEofLE(n / 256, k - 1);
      assert LE(n, k)[1..] == LE(n / 256, k - 1);
    }
  }

  lemma Widths()
    ensures Pow256(4) == TWO32 && Pow256(8) == TWO64
  {
    assert Pow256(1) == 256 && Pow256(2) == 0x1_0000 && Pow256(3) == 0x100_0000 && Pow256(4) == TWO32;
    assert Pow256(5) == 0x100_0000_0000 && Pow256(6) == 0x1_0000_0000_0000 && Pow256(7) == 0x100_0000_0000_0000;
  }

  /** Length of a string of `n` bytes once padded. */
  function Aligned(n: nat): (a: nat)
    ensures n <= a < n + 8 && a % 8 == 0
  {
    (n + 7) / 8 * 8
  }

  function Word(n: nat): (bs: seq<Byte>)
    ensures |bs| == 8
  {
    LE(n, 8)
  }

  function Half(n: nat): (bs: seq<Byte>)
    ensures |bs| == 4
  {
    LE(n, 4)
  }

  /** A string: its length, its bytes, and zeros up to the next multiple of eight. */
  function Text(s: seq<Byte>): (bs: seq<Byte>)
    ensures |bs| == 8 + Aligned(|s|)
  {
    Word(|s|) + s + seq(Aligned(|s|) - |s|, _ => 0)
  }

  /** A number of `k` bytes from the front, and what follows it. */
  function TakeLE(bs: seq<Byte>, k: nat): Option<(nat, seq<Byte>)> {
    if |bs| < k then None else Some((UnLE(bs[..k]), bs[k..]))
  }

  /** A string from the front; its length is cut to 32 bits. */
  function TakeText(bs: seq<Byte>): Option<(seq<Byte>, seq<Byte>)> {
    match TakeLE(bs, 8)
    case None => None
    case Some((n, rest)) =>
      var len := n % TWO32;
      if |rest| < Aligned(len) then None else Some((rest[..len], rest[Aligned(len)..]))
  }

  lemma TakeWord(n: nat, rest: seq<Byte>)
    requires n < TWO64
    ensures TakeLE(Word(n) + rest, 8) == Some((n, rest))
  {
    Widths();
    UnLEofLE(n, 8);
    assert (Word(n) + rest)[..8] == Word(n) && (Word(n) + rest)[8..] == rest;
  }

  lemma TakeHalf(n: nat, rest: seq<Byte>)
    requires n < TWO32
    ensures TakeLE(Half(n) + rest, 4) == Some((n, rest))
  {
    Widths();
    UnLEofLE(n, 4);
    assert (Half(n) + rest)[..4] == Half(n) && (Half(n) + rest)[4..] == rest;
  }

  lemma TakeTextBack(s: seq<Byte>, rest: seq<Byte>)
    requires |s| < TWO32
    ensures TakeText(Text(s) + rest) == Some((s, rest))
  {
    hide Word, TakeLE;
    var pad: seq<Byte> := seq(Aligned(|s|) - |s|, _ => 0);
    var body := s + pad + rest;
    assert Text(s) + rest == Word(|s|) + body;
    TakeWord(|s|, body);
    assert body[..|s|] == s && body[Aligned(|s|)..] == rest;
  }

  /** The reader cuts the length to 32 bits: a string comes back exactly when its length fits them. */
  lemma TextBackExactly(s: seq<Byte>, rest: seq<Byte>)
    requires |s| < TWO64
    ensures TakeText(Text(s) + rest) == Some((s, rest)) <==> |s| < TWO32
    ensures |s| >= TWO32 ==> TakeText(Text(s) + rest).Some? && TakeText(Text(s) + rest).value.0 == s[..|s| % TWO32]
  {
    if |s| < TWO32 {
      TakeTextBack(s, rest);
    } else {
      hide Word, TakeLE;
      var pad: seq<Byte> := seq(Aligned(|s|) - |s|, _ => 0);
      var body := s + pad + rest;
      assert Text(s) + rest == Word(|s|) + body;
      TakeWord(|s|, body);
      var n := |s| % TWO32;
      assert Aligned(n) <= |body| && body[..n] == s[..n];
    }
  }
}
