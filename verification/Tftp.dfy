/** Blocks, packets and wire numbers shared by both TFTP programs. */
module Tftp {
  import opened Basics

  type File = seq<bv8>

  /** DATA_MAX and BUFFER_SIZE. */
  const BLOCK: nat := 512

  /** Block numbers travel as 16-bit numbers. */
  const WIRE: nat := 0x1_0000

  /** What fread gets from a file at `pos`: at most one block. */
  function ReadAt(file: File, pos: nat): (bytes: File)
    ensures |bytes| <= BLOCK
  {
    if pos >= |file| then [] else file[pos..Min(pos + BLOCK, |file|)]
  }

  /** The n-th block of a file; blocks are counted from 1. */
  function Chunk(file: File, n: nat): File
    requires n > 0
  {
    ReadAt(file, (n - 1) * BLOCK)
  }

  /** The first n blocks of a file. */
  function Prefix(file: File, n: nat): File {
    file[..Min(n * BLOCK, |file|)]
  }

  /** The number of the first block that is shorter than 512 bytes. */
  function LastBlock(file: File): nat {
    |file| / BLOCK + 1
  }

  lemma PrefixGrows(file: File, n: nat)
    ensures Prefix(file, n) + Chunk(file, n + 1) == Prefix(file, n + 1)
  {
  }

  /** A block is short exactly when it reaches the end of the file. */
  lemma ShortEndsFile(file: File, n: nat)
    requires n > 0
    ensures |Chunk(file, n)| < BLOCK <==> n >= LastBlock(file)
    ensures n >= LastBlock(file) ==> Prefix(file, n) == file
    ensures n < LastBlock(file) ==> |Prefix(file, n)| == n * BLOCK
    ensures n > LastBlock(file) ==> Chunk(file, n) == []
  {
  }

  // -------------------------------------------------------------- int_pow

  function Pow(base: int, exp: nat): int {
    if exp == 0 then 1 else base * Pow(base, exp - 1)
  }

  lemma {:induction false} PowSquare(base: int, half: nat)
    ensures Pow(base * base, half) == Pow(base, 2 * half)
  {
    if half > 0 {
      PowSquare(base, half - 1);
      calc {
        Pow(base, 2 * half);
        base * Pow(base, 2 * half - 1);
        base * (base * Pow(base, 2 * half - 2));
        base * base * Pow(base, 2 * (half - 1));
      }
    }
  }

  /** C's remainder by 2 is 1, 0 or -1, and its quotient rounds towards zero. */
  function Odd(exp: int): bool {
    exp % 2 != 0
  }

  function Half(exp: int): int {
    if exp >= 0 then exp / 2 else -((-exp) / 2)
  }

  function Abs(exp: int): nat {
    if exp < 0 then -exp else exp
  }

  /** int_pow of both programs, for results and intermediate squares that an int
      can hold: a power by repeated squaring. A negative exponent counts as its
      absolute value. */
  method IntPow(base: int, exp: int) returns (result: int)
    ensures result == Pow(base, Abs(exp))
  {
    var b, e := base, exp;
    result := 1;
    while e != 0
      invariant result * Pow(b, Abs(e)) == Pow(base, Abs(exp))
      decreases Abs(e)
    {
      PowSquare(b, Abs(Half(e)));
      assert Abs(e) == 2 * Abs(Half(e)) + (if Odd(e) then 1 else 0);
      if Odd(e) {
        assert Pow(b, Abs(e)) == b * Pow(b, Abs(e) - 1);
        Reassociate(result, b, Pow(b, Abs(e) - 1));
        result := result * b;
      }
      e := Half(e);
      b := b * b;
    }
  }

  lemma Reassociate(x: int, y: int, z: int)
    ensures x * (y * z) == (x * y) * z
  {
  }
}
