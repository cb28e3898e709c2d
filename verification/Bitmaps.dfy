/** Packed bitmaps of 32-bit words, as the file server, the image builder and the ASID
    allocator keep them (fs/fs.c, tools/fsformat.c, kern/env.c). */
module Bitmaps {

  const BITS: nat := 32

  /** A 32-bit word as its bits, the lowest first: w | (1 << i) sets element i, w & ~(1 << i)
      clears it, and w & (1 << i) tests it. */
  type BitWord = s: seq<bool> | |s| == BITS witness seq(BITS, _ => false)

  function Zeros(): BitWord { seq(BITS, _ => false) }

  /** The bit of number n: bit n % 32 of word n / 32. */
  predicate Has(words: seq<BitWord>, n: nat)
    requires n / BITS < |words|
  {
    words[n / BITS][n % BITS]
  }

  function SetBit(words: seq<BitWord>, n: nat): seq<BitWord>
    requires n / BITS < |words|
  {
    words[n / BITS := words[n / BITS][n % BITS := true]]
  }

  function ClearBit(words: seq<BitWord>, n: nat): seq<BitWord>
    requires n / BITS < |words|
  {
    words[n / BITS := words[n / BITS][n % BITS := false]]
  }

  /** Distinct numbers have distinct bits. */
  lemma SameNumber(n: nat, k: nat)
    requires n / BITS == k / BITS && n % BITS == k % BITS
    ensures n == k
  {
    assert n == n / BITS * BITS + n % BITS && k == k / BITS * BITS + k % BITS;
  }

  /** Setting a bit adds its number to the set, whatever else shares its word. */
  lemma SetBitMembers(words: seq<BitWord>, n: nat, k: nat)
    requires n / BITS < |words| && k / BITS < |words|
    ensures Has(SetBit(words, n), k) <==> k == n || Has(words, k)
  {
    if n / BITS == k / BITS && n % BITS == k % BITS {
      SameNumber(n, k);
    }
  }

  lemma ClearBitMembers(words: seq<BitWord>, n: nat, k: nat)
    requires n / BITS < |words| && k / BITS < |words|
    ensures Has(ClearBit(words, n), k) <==> k != n && Has(words, k)
  {
    if n / BITS == k / BITS && n % BITS == k % BITS {
      SameNumber(n, k);
    }
  }

  /** Clearing a set bit and setting it again restores the words. */
  lemma ClearThenSet(words: seq<BitWord>, n: nat)
    requires n / BITS < |words| && Has(words, n)
    ensures SetBit(ClearBit(words, n), n) == words
  {
    assert words[n / BITS][n % BITS := false][n % BITS := true] == words[n / BITS];
  }
}
