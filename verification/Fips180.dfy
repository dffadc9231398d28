/**
 SHA-256 as the Secure Hash Standard (FIPS 180-4) defines it: a function of the whole
 message, with no buffering and no state. This is the reference that the streaming
 implementation in `Sha256` is proved to refine.
 */
module Fips180 {

  type Byte = bv8
  type Word = bv32

  const TWO_32: nat := 0x1_0000_0000
  const BLOCK_SIZE: nat := 64

  // Section 3.2: addition modulo 2^32
  function Plus(x: Word, y: Word): Word {
    x + y
  }

  // ---------- Section 4.1.2: functions, section 4.2.2: constants ----------

  function Ch(x: Word, y: Word, z: Word): Word {
    (x & y) ^ (!x & z)
  }

  function Maj(x: Word, y: Word, z: Word): Word {
    (x & y) ^ (x & z) ^ (y & z)
  }

  function BigSigma0(x: Word): Word {
    x.RotateRight(2) ^ x.RotateRight(13) ^ x.RotateRight(22)
  }

  function BigSigma1(x: Word): Word {
    x.RotateRight(6) ^ x.RotateRight(11) ^ x.RotateRight(25)
  }

  function SmallSigma0(x: Word): Word {
    x.RotateRight(7) ^ x.RotateRight(18) ^ (x >> 3)
  }

  function SmallSigma1(x: Word): Word {
    x.RotateRight(17) ^ x.RotateRight(19) ^ (x >> 10)
  }

  const K_0: seq<Word> := [0x428a2f98, 0x71374491, 0xb5c0fbcf, 0xe9b5dba5, 0x3956c25b, 0x59f111f1, 0x923f82a4, 0xab1c5ed5]
  const K_1: seq<Word> := [0xd807aa98, 0x12835b01, 0x243185be, 0x550c7dc3, 0x72be5d74, 0x80deb1fe, 0x9bdc06a7, 0xc19bf174]
  const K_2: seq<Word> := [0xe49b69c1, 0xefbe4786, 0x0fc19dc6, 0x240ca1cc, 0x2de92c6f, 0x4a7484aa, 0x5cb0a9dc, 0x76f988da]
  const K_3: seq<Word> := [0x983e5152, 0xa831c66d, 0xb00327c8, 0xbf597fc7, 0xc6e00bf3, 0xd5a79147, 0x06ca6351, 0x14292967]
  const K_4: seq<Word> := [0x27b70a85, 0x2e1b2138, 0x4d2c6dfc, 0x53380d13, 0x650a7354, 0x766a0abb, 0x81c2c92e, 0x92722c85]
  const K_5: seq<Word> := [0xa2bfe8a1, 0xa81a664b, 0xc24b8b70, 0xc76c51a3, 0xd192e819, 0xd6990624, 0xf40e3585, 0x106aa070]
  const K_6: seq<Word> := [0x19a4c116, 0x1e376c08, 0x2748774c, 0x34b0bcb5, 0x391c0cb3, 0x4ed8aa4a, 0x5b9cca4f, 0x682e6ff3]
  const K_7: seq<Word> := [0x748f82ee, 0x78a5636f, 0x84c87814, 0x8cc70208, 0x90befffa, 0xa4506ceb, 0xbef9a3f7, 0xc67178f2]

  const K: seq<Word> := K_0 + K_1 + K_2 + K_3 + K_4 + K_5 + K_6 + K_7

  // ---------- Section 3.1: words and bytes, big-endian ----------

  function WordOf(b0: Byte, b1: Byte, b2: Byte, b3: Byte): Word {
    ((b0 as Word) << 24) | ((b1 as Word) << 16) | ((b2 as Word) << 8) | (b3 as Word)
  }

  function BytesOf(x: Word): (r: seq<Byte>)
    ensures |r| == 4
  {
    [((x >> 24) & 0xff) as Byte, ((x >> 16) & 0xff) as Byte, ((x >> 8) & 0xff) as Byte, (x & 0xff) as Byte]
  }

  // An integer below 2^64 is the pair of words (z div 2^32, z mod 2^32).
  function HighWord(z: nat): Word
    requires z < TWO_32 * TWO_32
  {
    (z / TWO_32) as Word
  }

  function LowWord(z: nat): Word {
    (z % TWO_32) as Word
  }

  function LengthField(z: nat): seq<Byte>
    requires z < TWO_32 * TWO_32
  {
    BytesOf(HighWord(z)) + BytesOf(LowWord(z))
  }

  // ---------- Section 5.1.1: padding ----------

  // The number of zero bits: the smallest k >= 0 with l + 1 + k = 448 (mod 512); see `ZeroBitsIsSmallest`.
  function ZeroBits(l: nat): nat {
    (448 - (l + 1)) % 512
  }

  lemma ZeroBitsIsSmallest(l: nat, k: nat)
    requires (l + 1 + k) % 512 == 448
    ensures ZeroBits(l) <= k
    ensures (l + 1 + ZeroBits(l)) % 512 == 448
  {
  }

  lemma ZeroBytes(n: nat)
    ensures ZeroBits(8 * n) == 8 * ((55 - n) % 64) + 7
    ensures (n + 1 + ZeroBits(8 * n) / 8 + 8) % 64 == 0
  {
    var q, r := (55 - n) / 64, (55 - n) % 64;
    assert 448 - (8 * n + 1) == 512 * q + (8 * r + 7);
  }

  function Zeros(n: nat): seq<Byte> {
    seq(n, _ => 0)
  }

  // For a message of whole bytes the 1 bit and the first seven of the zero bits are the byte 0x80.
  function Pad(message: seq<Byte>): (r: seq<Byte>)
    requires 8 * |message| < TWO_32 * TWO_32
    ensures |r| % BLOCK_SIZE == 0 && message <= r
  {
    ZeroBytes(|message|);
    message + [0x80] + Zeros(ZeroBits(8 * |message|) / 8) + LengthField(8 * |message|)
  }

  // ---------- Section 6.2: the hash computation ----------

  datatype Work = Work(a: Word, b: Word, c: Word, d: Word, e: Word, f: Word, g: Word, h: Word)

  // Section 5.3.3
  const INITIAL_HASH: Work :=
    Work(0x6a09e667, 0xbb67ae85, 0x3c6ef372, 0xa54ff53a, 0x510e527f, 0x9b05688c, 0x1f83d9ab, 0x5be0cd19)

  function Parse(block: seq<Byte>): (r: seq<Word>)
    requires |block| == BLOCK_SIZE
    ensures |r| == 16
  {
    seq(16, t requires 0 <= t < 16 => WordOf(block[4*t], block[4*t+1], block[4*t+2], block[4*t+3]))
  }

  // The message schedule
  function Expand(w2: Word, w7: Word, w15: Word, w16: Word): Word {
    Plus(Plus(Plus(SmallSigma1(w2), w7), SmallSigma0(w15)), w16)
  }

  function W(m: seq<Word>, t: nat): Word
    requires |m| == 16 && t < 64
  {
    if t < 16 then m[t]
    else Expand(W(m, t - 2), W(m, t - 7), W(m, t - 15), W(m, t - 16))
  }

  function T1(v: Work, k: Word, w: Word): Word {
    Plus(Plus(Plus(Plus(v.h, BigSigma1(v.e)), Ch(v.e, v.f, v.g)), k), w)
  }

  function T2(v: Work): Word {
    Plus(BigSigma0(v.a), Maj(v.a, v.b, v.c))
  }

  function Round(v: Work, k: Word, w: Word): Work {
    Work(Plus(T1(v, k, w), T2(v)), v.a, v.b, v.c, Plus(v.d, T1(v, k, w)), v.e, v.f, v.g)
  }

  function Rounds(v: Work, m: seq<Word>, t: nat): Work
    requires |m| == 16 && t <= 64
  {
    if t == 0 then v else Round(Rounds(v, m, t - 1), K[t - 1], W(m, t - 1))
  }

  lemma RoundsStep(v: Work, m: seq<Word>, t: nat)
    requires |m| == 16 && t < 64
    ensures Rounds(v, m, t + 1) == Round(Rounds(v, m, t), K[t], W(m, t))
  {
  }

  lemma WStep(m: seq<Word>, t: nat)
    requires |m| == 16 && t < 64
    ensures W(m, t) == if t < 16 then m[t] else Expand(W(m, t - 2), W(m, t - 7), W(m, t - 15), W(m, t - 16))
  {
  }

  function Add(x: Work, y: Work): Work {
    Work(Plus(x.a, y.a), Plus(x.b, y.b), Plus(x.c, y.c), Plus(x.d, y.d),
         Plus(x.e, y.e), Plus(x.f, y.f), Plus(x.g, y.g), Plus(x.h, y.h))
  }

  function Compress(h: Work, block: seq<Byte>): Work
    requires |block| == BLOCK_SIZE
  {
    Add(h, Rounds(h, Parse(block), 64))
  }

  function HashBlocks(h: Work, data: seq<Byte>): Work
    requires |data| % BLOCK_SIZE == 0
  {
    if |data| == 0 then h
    else Compress(HashBlocks(h, data[..|data| - BLOCK_SIZE]), data[|data| - BLOCK_SIZE..])
  }

  function WordsToBytes(ws: seq<Word>): (r: seq<Byte>)
    ensures |r| == 4 * |ws|
  {
    if |ws| == 0 then [] else WordsToBytes(ws[..|ws| - 1]) + BytesOf(ws[|ws| - 1])
  }

  function DigestOf(h: Work): (r: seq<Byte>)
    ensures |r| == 32
  {
    WordsToBytes([h.a, h.b, h.c, h.d, h.e, h.f, h.g, h.h])
  }

  function Hash(message: seq<Byte>): (r: seq<Byte>)
    requires 8 * |message| < TWO_32 * TWO_32
    ensures |r| == 32
  {
    DigestOf(HashBlocks(INITIAL_HASH, Pad(message)))
  }

  lemma HashBlocksStep(h: Work, data: seq<Byte>)
    requires |data| % BLOCK_SIZE == 0
    ensures HashBlocks(h, data) ==
            if |data| == 0 then h
            else Compress(HashBlocks(h, data[..|data| - BLOCK_SIZE]), data[|data| - BLOCK_SIZE..])
  {
    hide Compress;
  }

  lemma WholeBlocks(m: nat, n: nat)
    requires m % BLOCK_SIZE == 0 && n % BLOCK_SIZE == 0
    ensures (m + n) % BLOCK_SIZE == 0
    ensures n > 0 ==> n >= BLOCK_SIZE && (n - BLOCK_SIZE) % BLOCK_SIZE == 0
  {
  }

  // Hashing is a fold: blocks may be fed in any grouping.
  lemma {:induction false} HashBlocksAppend(h: Work, x: seq<Byte>, y: seq<Byte>)
    requires |x| % BLOCK_SIZE == 0 && |y| % BLOCK_SIZE == 0
    ensures |x + y| % BLOCK_SIZE == 0
    ensures HashBlocks(h, x + y) == HashBlocks(HashBlocks(h, x), y)
    decreases |y|
  {
    hide HashBlocks;
    WholeBlocks(|x|, |y|);
    HashBlocksStep(HashBlocks(h, x), y);
    if |y| == 0 {
      assert x + y == x;
    } else {
      var n := |y| - BLOCK_SIZE;
      HashBlocksAppend(h, x, y[..n]);
      HashBlocksStep(h, x + y);
      assert (x + y)[..|x + y| - BLOCK_SIZE] == x + y[..n];
      assert (x + y)[|x + y| - BLOCK_SIZE..] == y[n..];
    }
  }
}
