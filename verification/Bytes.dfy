/** Bytes, and little-endian words of a fixed width. */
module Bytes {

  datatype Option<+T> = None | Some(value: T)

  type byte = b: int | 0 <= b < 256

  /** The `k` low bytes of `n`, lowest first.  Division and remainder are Euclidean, so a negative `n`
      is stored in two's complement: exactly what an unsigned C word holds after it wraps. */
  function Le(n: int, k: nat): (s: seq<byte>)
    ensures |s| == k
    decreases k
  {
    if k == 0 then [] else [n % 256] + Le(n / 256, k - 1)
  }

  /** The number stored in the `k` bytes from `at` on. */
  function Word(b: seq<byte>, at: nat, k: nat): (n: nat)
    requires at + k <= |b|
    decreases k
  {
    if k == 0 then 0 else b[at] + 256 * Word(b, at + 1, k - 1)
  }

  function Pow256(k: nat): (p: nat)
    ensures p > 0
  {
    if k == 0 then 1 else 256 * Pow256(k - 1)
  }

  /** A word depends on its own bytes only. */
  lemma {:induction false} SameWord(a: seq<byte>, i: nat, b: seq<byte>, j: nat, k: nat)
    requires i + k <= |a| && j + k <= |b|
    requires a[i..i + k] == b[j..j + k]
    ensures Word(a, i, k) == Word(b, j, k)
    decreases k
  {
    if k > 0 {
      assert a[i] == a[i..i + k][0] && b[j] == b[j..j + k][0];
      assert a[i + 1..i + k] == a[i..i + k][1..] && b[j + 1..j + k] == b[j..j + k][1..];
      SameWord(a, i + 1, b, j + 1, k - 1);
    }
  }

  lemma {:induction false} DecodeEncode(n: nat, k: nat)
    requires n < Pow256(k)
    ensures Word(Le(n, k), 0, k) == n
    decreases k
  {
    if k > 0 {
      DecodeEncode(n / 256, k - 1);
      var s, t := Le(n, k), Le(n / 256, k - 1);
      assert s[1..1 + (k - 1)] == t == t[0..k - 1];
      SameWord(s, 1, t, 0, k - 1);
    }
  }

  lemma {:induction false} EncodeDecode(s: seq<byte>, at: nat, k: nat)
    requires at + k <= |s|
    ensures Word(s, at, k) < Pow256(k)
    ensures Le(Word(s, at, k), k) == s[at..at + k]
    decreases k
  {
    if k > 0 {
      EncodeDecode(s, at + 1, k - 1);
      LowByte(s[at], Word(s, at + 1, k - 1));
      FirstByte(s, at, k);
    }
  }

  lemma LowByte(b: byte, n: nat)
    ensures (b + 256 * n) % 256 == b && (b + 256 * n) / 256 == n
  {
  }

  lemma FirstByte(s: seq<byte>, at: nat, k: nat)
    requires k >= 1 && at + k <= |s|
    ensures s[at..at + k] == [s[at]] + s[at + 1..at + k]
  {
  }

  const U32: nat := 0x1_0000_0000
  const U64: nat := 0x1_0000_0000_0000_0000

  lemma WordBounds()
    ensures Pow256(4) == U32 && Pow256(8) == U64
  {
    assert Pow256(2) == 65536;
    assert Pow256(4) == 65536 * Pow256(2);
    assert Pow256(6) == 65536 * Pow256(4);
    assert Pow256(8) == 65536 * Pow256(6);
  }

  /** A lossless coding of 64-bit words in eight bytes.  The library that lays attribute headers out is
      not part of this model, so the coding is left open: the results hold for each one that loses
      nothing.  What is written for a number that does not fit is unspecified too. */
  datatype Coding = Coding(write: int -> seq<byte>, read: seq<byte> -> nat)

  ghost predicate Lossless(c: Coding) {
    && (forall n {:trigger Noted(n)} :: Noted(n) ==> |c.write(n)| == 8)
    && (forall n {:trigger Noted(n)} :: Noted(n) && 0 <= n < U64 ==> c.read(c.write(n)) == n)
    && (forall s: seq<byte> {:trigger Noted(s)} ::
          Noted(s) && |s| == 8 ==> c.read(s) < U64 && c.write(c.read(s)) == s)
  }

  /** Holds of everything.  It names the values at which losslessness is to be used, so that the verifier
      does not use it at every word in sight. */
  ghost predicate Noted<T>(x: T) { true }

  type coding = c: Coding | Lossless(c) witness LittleEndian()

  /** There is such a coding: the byte order of the machines the program runs on. */
  function LittleEndian(): (c: Coding)
    ensures Lossless(c)
  {
    LittleEndianWords();
    Coding(n => Le(n, 8), s => if |s| == 8 then Word(s, 0, 8) else 0)
  }

  lemma LittleEndianWords()
    ensures forall n | 0 <= n < U64 :: Word(Le(n, 8), 0, 8) == n
    ensures forall s: seq<byte> | |s| == 8 :: Word(s, 0, 8) < U64 && Le(Word(s, 0, 8), 8) == s
  {
    WordBounds();
    forall n | 0 <= n < U64 ensures Word(Le(n, 8), 0, 8) == n { DecodeEncode(n, 8); }
    forall s: seq<byte> | |s| == 8
      ensures Word(s, 0, 8) < U64 && Le(Word(s, 0, 8), 8) == s
    {
      EncodeDecode(s, 0, 8);
      assert s[0..0 + 8] == s;
    }
  }

  const WORDS: coding
}
