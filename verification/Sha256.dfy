/**
 The streaming SHA-256 context of src/Common/SHA256.cc. The context buffers a partial
 block, compresses whole blocks as they arrive, and pads in its own buffer at the end.
 `absorbed` is the abstract value: the bytes the context stands for.
 */
module Sha256 {
  import opened Fips180

  // ---------- The macros of SHA256.h ----------

  // SHA2_ROTR(x, n) is (x >> n) | (x << 32 - n), for a literal n
  function F1(x: Word): Word { ((x >> 2) | (x << 30)) ^ ((x >> 13) | (x << 19)) ^ ((x >> 22) | (x << 10)) }
  function F2(x: Word): Word { ((x >> 6) | (x << 26)) ^ ((x >> 11) | (x << 21)) ^ ((x >> 25) | (x << 7)) }
  function F3(x: Word): Word { ((x >> 7) | (x << 25)) ^ ((x >> 18) | (x << 14)) ^ (x >> 3) }
  function F4(x: Word): Word { ((x >> 17) | (x << 15)) ^ ((x >> 19) | (x << 13)) ^ (x >> 10) }

  // The shift-and-or macros are the rotations the standard asks for.
  lemma MacrosAreFips(x: Word)
    ensures F1(x) == BigSigma0(x) && F2(x) == BigSigma1(x)
    ensures F3(x) == SmallSigma0(x) && F4(x) == SmallSigma1(x)
  {
  }

  // Packing four bytes and unpacking a word undo each other.
  lemma PackUnpack(x: Word, b0: Byte, b1: Byte, b2: Byte, b3: Byte)
    ensures var s := BytesOf(x); WordOf(s[0], s[1], s[2], s[3]) == x
    ensures BytesOf(WordOf(b0, b1, b2, b3)) == [b0, b1, b2, b3]
  {
  }

  // ---------- Compression of one block ----------

  ghost function WorkOf(a: array<Word>): Work
    requires a.Length == 8
    reads a
  {
    Work(a[0], a[1], a[2], a[3], a[4], a[5], a[6], a[7])
  }

  // The 64-word schedule, filled in place
  method FillSchedule(sub_block: seq<Byte>, w: array<Word>)
    requires |sub_block| == BLOCK_SIZE && w.Length == 64
    modifies w
    ensures forall t :: 0 <= t < 64 ==> w[t] == W(Parse(sub_block), t)
  {
    hide F1, F2, F3, F4, SmallSigma0, SmallSigma1, Plus, WordOf, W;
    ghost var m := Parse(sub_block);
    for j := 0 to 16
      invariant forall t :: 0 <= t < j ==> w[t] == W(m, t)
    {
      WStep(m, j);
      w[j] := WordOf(sub_block[4*j], sub_block[4*j+1], sub_block[4*j+2], sub_block[4*j+3]);
    }
    for j := 16 to 64
      invariant forall t :: 0 <= t < j ==> w[t] == W(m, t)
    {
      MacrosAreFips(w[j - 2]);
      MacrosAreFips(w[j - 15]);
      WStep(m, j);
      w[j] := Plus(Plus(Plus(F4(w[j - 2]), w[j - 7]), F3(w[j - 15])), w[j - 16]);
    }
  }

  // The 64 rounds over the rotating working variables
  method RunRounds(ghost m: seq<Word>, w: array<Word>, wv: array<Word>)
    requires |m| == 16 && w.Length == 64 && wv.Length == 8 && w != wv
    requires forall t :: 0 <= t < 64 ==> w[t] == W(m, t)
    modifies wv
    ensures WorkOf(wv) == Rounds(old(WorkOf(wv)), m, 64)
  {
    hide F1, F2, F3, F4, BigSigma0, BigSigma1, Plus, Ch, Maj, W;
    ghost var v0 := WorkOf(wv);
    assert Rounds(v0, m, 0) == v0;
    hide Rounds;
    for j := 0 to 64
      invariant forall t :: 0 <= t < 64 ==> w[t] == W(m, t)
      invariant WorkOf(wv) == Rounds(v0, m, j)
    {
      ghost var v := WorkOf(wv);
      MacrosAreFips(v.e);
      MacrosAreFips(v.a);
      RoundsStep(v0, m, j);
      var t1 := Plus(Plus(Plus(Plus(wv[7], F2(wv[4])), Ch(wv[4], wv[5], wv[6])), K[j]), w[j]);
      var t2 := Plus(F1(wv[0]), Maj(wv[0], wv[1], wv[2]));
      wv[7] := wv[6];
      wv[6] := wv[5];
      wv[5] := wv[4];
      wv[4] := Plus(wv[3], t1);
      wv[3] := wv[2];
      wv[2] := wv[1];
      wv[1] := wv[0];
      wv[0] := Plus(t1, t2);
    }
  }

  // memcpy
  method CopyInto(dst: array<Byte>, at: nat, src: seq<Byte>)
    requires at + |src| <= dst.Length
    modifies dst
    ensures dst[..] == old(dst[..at]) + src + old(dst[at + |src|..])
    ensures dst[..at + |src|] == old(dst[..at]) + src
  {
    forall i | 0 <= i < |src| {
      dst[at + i] := src[i];
    }
  }

  // What one call of update does to the bytes the context stands for. The sum
  // `m_len + len` is computed in 32 bits: when it wraps, nothing is taken from the
  // message and the context falls back to a shorter prefix of what it already had.
  function Absorb(a: seq<Byte>, message: seq<Byte>): seq<Byte>
    requires |message| < TWO_32
  {
    if |a| % BLOCK_SIZE + |message| < TWO_32 then a + message
    else a[..|a| - (TWO_32 - |message|)]
  }

  // The padded message that final hashes: only a 32-bit bit count is written.
  function CodePad(a: seq<Byte>): (r: seq<Byte>)
    ensures |r| % BLOCK_SIZE == 0 && a <= r
  {
    ZeroBytes(|a|);
    a + [0x80] + Zeros(ZeroBits(8 * |a|) / 8 + 4) + BytesOf(LowWord(8 * |a|))
  }

  // The padding is the standard's exactly when the message is shorter than 2^29 bytes.
  lemma PaddingIsFipsIff(a: seq<Byte>)
    requires 8 * |a| < TWO_32 * TWO_32
    ensures CodePad(a) == Pad(a) <==> |a| < 0x2000_0000
  {
    hide BytesOf, ZeroBits, LowWord, HighWord, Zeros;
    var z := ZeroBits(8 * |a|) / 8;
    var hi, lo := BytesOf(HighWord(8 * |a|)), BytesOf(LowWord(8 * |a|));
    var front := a + [0x80] + Zeros(z);
    HighWordZero(8 * |a|);
    ZerosAppend(z, 4);
    assert CodePad(a) == front + Zeros(4) + lo;
    assert Pad(a) == front + hi + lo;
    MiddleDecides(front, Zeros(4), hi, lo);
  }

  // 2^29 bytes are 2^32 bits, whose count no longer fits the field.
  lemma LongMessageExample()
    ensures var a := Zeros(0x2000_0000); 8 * |a| == TWO_32 && CodePad(a) != Pad(a)
  {
    hide CodePad, Pad;
    PaddingIsFipsIff(Zeros(0x2000_0000));
  }

  lemma ZerosAppend(m: nat, n: nat)
    ensures Zeros(m + n) == Zeros(m) + Zeros(n)
  {
  }

  lemma MiddleDecides(front: seq<Byte>, x: seq<Byte>, y: seq<Byte>, back: seq<Byte>)
    requires |x| == |y|
    ensures front + x + back == front + y + back <==> x == y
  {
    assert (front + x + back)[|front|..|front| + |x|] == x;
    assert (front + y + back)[|front|..|front| + |x|] == y;
  }

  lemma HighWordZero(z: nat)
    requires z < TWO_32 * TWO_32
    ensures |BytesOf(HighWord(z))| == |Zeros(4)|
    ensures Zeros(4) == BytesOf(HighWord(z)) <==> z < TWO_32
  {
    var w := HighWord(z);
    PackUnpack(w, 0, 0, 0, 0);
    assert w == 0 <==> z / TWO_32 == 0;
  }

  // The buffered prefix of a byte string, and what it leaves as its partial block
  function Whole(a: seq<Byte>): (r: seq<Byte>)
    ensures |r| % BLOCK_SIZE == 0 && r + Partial(a) == a
  {
    a[..|a| - |a| % BLOCK_SIZE]
  }

  function Partial(a: seq<Byte>): (r: seq<Byte>)
    ensures |r| == |a| % BLOCK_SIZE
  {
    a[|a| - |a| % BLOCK_SIZE..]
  }

  lemma PartialIs(a: seq<Byte>, x: seq<Byte>, y: seq<Byte>)
    requires a == x + y && |x| % BLOCK_SIZE == 0 && |y| < BLOCK_SIZE
    ensures Whole(a) == x && Partial(a) == y
  {
    assert |a| % BLOCK_SIZE == |y|;
  }

  // An update that completes no block
  lemma ShortAbsorb(a: seq<Byte>, message: seq<Byte>)
    requires |message| < TWO_32 && (|a| % BLOCK_SIZE + |message|) % TWO_32 < BLOCK_SIZE
    ensures
      var n := (|a| % BLOCK_SIZE + |message|) % TWO_32;
      var taken := if |message| < BLOCK_SIZE - |a| % BLOCK_SIZE then |message| else BLOCK_SIZE - |a| % BLOCK_SIZE;
      && Whole(Absorb(a, message)) == Whole(a)
      && n <= |a| % BLOCK_SIZE + taken
      && Partial(Absorb(a, message)) == (Partial(a) + message[..taken])[..n]
  {
    var n := (|a| % BLOCK_SIZE + |message|) % TWO_32;
    if |a| % BLOCK_SIZE + |message| < TWO_32 {
      PartialIs(Absorb(a, message), Whole(a), Partial(a) + message);
    } else {
      PartialIs(Absorb(a, message), Whole(a), Partial(a)[..n]);
    }
  }

  // An update that completes at least one block: the buffer's block, then `nb` blocks of the rest
  lemma LongAbsorb(a: seq<Byte>, message: seq<Byte>, nb: nat, rest: nat)
    requires BLOCK_SIZE <= |a| % BLOCK_SIZE + |message| < TWO_32
    requires rest < BLOCK_SIZE && |a| % BLOCK_SIZE + |message| == BLOCK_SIZE * (nb + 1) + rest
    ensures
      var taken := BLOCK_SIZE - |a| % BLOCK_SIZE;
      var shifted := message[taken..];
      && Partial(Absorb(a, message)) == shifted[BLOCK_SIZE * nb..]
      && |Whole(Absorb(a, message))| == |Whole(a)| + BLOCK_SIZE * (nb + 1)
      && HashBlocks(INITIAL_HASH, Whole(Absorb(a, message)))
         == HashBlocks(HashBlocks(HashBlocks(INITIAL_HASH, Whole(a)), Partial(a) + message[..taken]),
                       shifted[..BLOCK_SIZE * nb])
  {
    hide HashBlocks;
    var taken := BLOCK_SIZE - |a| % BLOCK_SIZE;
    var shifted := message[taken..];
    var first := Partial(a) + message[..taken];
    assert message == message[..taken] + (shifted[..BLOCK_SIZE * nb] + shifted[BLOCK_SIZE * nb..]);
    HashBlocksAppend(INITIAL_HASH, Whole(a), first);
    HashBlocksAppend(INITIAL_HASH, Whole(a) + first, shifted[..BLOCK_SIZE * nb]);
    PartialIs(Absorb(a, message), Whole(a) + first + shifted[..BLOCK_SIZE * nb], shifted[BLOCK_SIZE * nb..]);
  }

  // What final leaves in the buffer: the partial block and the padding
  function PadTail(a: seq<Byte>): (r: seq<Byte>) {
    Partial(a) + [0x80] + Zeros(ZeroBits(8 * |a|) / 8 + 4) + BytesOf(LowWord(8 * |a|))
  }

  lemma PadsToBlocks(a: seq<Byte>, block_nb: nat)
    requires block_nb == 1 + if BLOCK_SIZE - 9 < |a| % BLOCK_SIZE then 1 else 0
    ensures |PadTail(a)| == BLOCK_SIZE * block_nb
    ensures ZeroBits(8 * |a|) / 8 + 4 == BLOCK_SIZE * block_nb - |Partial(a)| - 5
    ensures HashBlocks(INITIAL_HASH, CodePad(a)) == HashBlocks(HashBlocks(INITIAL_HASH, Whole(a)), PadTail(a))
  {
    hide HashBlocks, ZeroBits, BytesOf, LowWord;
    ZeroBytes(|a|);
    assert |PadTail(a)| == BLOCK_SIZE * block_nb;
    HashBlocksAppend(INITIAL_HASH, Whole(a), PadTail(a));
    assert Whole(a) + PadTail(a) == CodePad(a);
  }

  lemma BitCount(a: seq<Byte>)
    ensures var n := |Partial(a)|; LowWord((|Whole(a)| % TWO_32 + n) % TWO_32 * 8 % TWO_32) == LowWord(8 * |a|)
  {
    hide LowWord;
    ModAdd(|Whole(a)|, |Partial(a)|);
    LowWordMod(|a|);
  }

  lemma LowWordMod(n: nat)
    ensures LowWord(n % TWO_32 * 8 % TWO_32) == LowWord(8 * n)
  {
    hide LowWord;
    var q, r := n / TWO_32, n % TWO_32;
    assert 8 * n == TWO_32 * (8 * q) + 8 * r;
    ModMultiple(8 * q, 8 * r);
    SameLowWord(8 * r % TWO_32, 8 * n);
  }

  lemma ModMultiple(k: nat, r: nat)
    ensures (TWO_32 * k + r) % TWO_32 == r % TWO_32
  {
  }

  lemma SameLowWord(x: nat, y: nat)
    requires x % TWO_32 == y % TWO_32
    ensures LowWord(x) == LowWord(y)
  {
  }

  lemma ModAdd(x: nat, y: nat)
    ensures (x % TWO_32 + y) % TWO_32 == (x + y) % TWO_32
  {
  }

  class Context {
    ghost var absorbed: seq<Byte>
    var m_tot_len: nat
    var m_len: nat
    const m_block: array<Byte>
    const m_h: array<Word>

    // The storage is as declared; nothing is said about its contents yet.
    ghost predicate Shape()
      reads this
    {
      m_block.Length == 2 * BLOCK_SIZE && m_h.Length == 8
    }

    ghost predicate Valid()
      reads this, m_block, m_h
    {
      && Shape()
      && m_len == |Partial(absorbed)|
      && m_tot_len == |Whole(absorbed)| % TWO_32
      && m_block[..m_len] == Partial(absorbed)
      && WorkOf(m_h) == HashBlocks(INITIAL_HASH, Whole(absorbed))
    }

    constructor ()
      ensures Shape() && fresh(m_block) && fresh(m_h)
    {
      m_block := new Byte[2 * BLOCK_SIZE];
      m_h := new Word[8];
      m_tot_len, m_len := 0, 0;
      absorbed := [];
    }

    method Init()
      requires Shape()
      modifies this, m_h
      ensures Valid() && absorbed == []
    {
      m_h[0] := 0x6a09e667;
      m_h[1] := 0xbb67ae85;
      m_h[2] := 0x3c6ef372;
      m_h[3] := 0xa54ff53a;
      m_h[4] := 0x510e527f;
      m_h[5] := 0x9b05688c;
      m_h[6] := 0x1f83d9ab;
      m_h[7] := 0x5be0cd19;
      m_len := 0;
      m_tot_len := 0;
      absorbed := [];
    }

    // One pass of the outer loop of transform
    method CompressBlock(sub_block: seq<Byte>, w: array<Word>, wv: array<Word>)
      requires Shape() && |sub_block| == BLOCK_SIZE && w.Length == 64 && wv.Length == 8
      requires w != wv && w != m_h && wv != m_h
      modifies m_h, w, wv
      ensures WorkOf(m_h) == Compress(old(WorkOf(m_h)), sub_block)
    {
      hide Plus, Rounds, W, WordOf, Parse;
      FillSchedule(sub_block, w);
      for j := 0 to 8
        invariant forall t :: 0 <= t < j ==> wv[t] == m_h[t]
        invariant forall t :: 0 <= t < 64 ==> w[t] == W(Parse(sub_block), t)
        invariant m_h[..] == old(m_h[..])
      {
        wv[j] := m_h[j];
      }
      RunRounds(Parse(sub_block), w, wv);
      AddBack(wv);
    }

    method AddBack(wv: array<Word>)
      requires Shape() && wv.Length == 8 && wv != m_h
      modifies m_h
      ensures WorkOf(m_h) == Add(old(WorkOf(m_h)), WorkOf(wv))
    {
      hide Plus;
      ghost var h0 := m_h[..];
      for j := 0 to 8
        invariant forall t :: 0 <= t < j ==> m_h[t] == Plus(h0[t], wv[t])
        invariant forall t :: j <= t < 8 ==> m_h[t] == h0[t]
      {
        m_h[j] := Plus(m_h[j], wv[j]);
      }
    }

    method Transform(message: seq<Byte>, block_nb: nat)
      requires Shape() && BLOCK_SIZE * block_nb <= |message|
      modifies m_h
      ensures WorkOf(m_h) == HashBlocks(old(WorkOf(m_h)), message[..BLOCK_SIZE * block_nb])
    {
      var w := new Word[64];
      var wv := new Word[8];
      for i := 0 to block_nb
        invariant WorkOf(m_h) == HashBlocks(old(WorkOf(m_h)), message[..BLOCK_SIZE * i])
      {
        ghost var upto := message[..BLOCK_SIZE * (i + 1)];
        assert upto[..|upto| - BLOCK_SIZE] == message[..BLOCK_SIZE * i];
        assert upto[|upto| - BLOCK_SIZE..] == message[BLOCK_SIZE * i..BLOCK_SIZE * (i + 1)];
        CompressBlock(message[BLOCK_SIZE * i..BLOCK_SIZE * (i + 1)], w, wv);
      }
    }

    // All unsigned arithmetic is 32 bits wide.
    method Update(message: seq<Byte>)
      requires Valid() && |message| < TWO_32
      modifies this, m_block, m_h
      ensures Valid() && absorbed == Absorb(old(absorbed), message)
    {
      hide HashBlocks, Whole, Partial, Absorb, WorkOf;
      ghost var a := absorbed;
      var len := |message|;
      var tmp_len := BLOCK_SIZE - m_len;
      var rem_len := if len < tmp_len then len else tmp_len;
      CopyInto(m_block, m_len, message[..rem_len]);
      assert m_block[..m_len + rem_len] == Partial(a) + message[..rem_len];
      if (m_len + len) % TWO_32 < BLOCK_SIZE {
        ShortAbsorb(a, message);
        m_len := (m_len + len) % TWO_32;
        absorbed := Absorb(absorbed, message);
        assert m_block[..m_len] == (Partial(a) + message[..rem_len])[..m_len];
        return;
      }
      FlushBlocks(message, rem_len);
    }

    // The rest of update, once the buffer holds a whole block
    method FlushBlocks(message: seq<Byte>, taken: nat)
      requires Shape() && m_len == |Partial(absorbed)| && m_tot_len == |Whole(absorbed)| % TWO_32
      requires WorkOf(m_h) == HashBlocks(INITIAL_HASH, Whole(absorbed))
      requires m_len + taken == BLOCK_SIZE && taken <= |message| && m_len + |message| < TWO_32
      requires m_block[..BLOCK_SIZE] == Partial(absorbed) + message[..taken]
      modifies this, m_block, m_h
      ensures Valid() && absorbed == Absorb(old(absorbed), message)
    {
      hide HashBlocks, Whole, Partial, Absorb, WorkOf;
      var new_len := |message| - taken;
      var block_nb := new_len / BLOCK_SIZE;
      var shifted_message := message[taken..];
      var rem_len := new_len % BLOCK_SIZE;
      LongAbsorb(absorbed, message, block_nb, rem_len);
      ModAdd(|Whole(absorbed)|, (block_nb + 1) * BLOCK_SIZE);
      assert m_block[..][..BLOCK_SIZE] == m_block[..BLOCK_SIZE];
      Transform(m_block[..], 1);
      Transform(shifted_message, block_nb);
      assert |shifted_message| == block_nb * BLOCK_SIZE + rem_len;
      CopyInto(m_block, 0, shifted_message[block_nb * BLOCK_SIZE..]);
      m_len := rem_len;
      m_tot_len := (m_tot_len + (block_nb + 1) * BLOCK_SIZE) % TWO_32;
      absorbed := Absorb(absorbed, message);
    }

    // The loop at the end of final
    method WriteDigest(digest: array<Byte>)
      requires Shape() && digest.Length == 32
      modifies digest
      ensures digest[..] == DigestOf(WorkOf(m_h))
    {
      hide BytesOf;
      for i := 0 to 8
        invariant digest[..4 * i] == WordsToBytes(m_h[..i])
      {
        assert m_h[..i + 1][..i] == m_h[..i];
        CopyInto(digest, 4 * i, BytesOf(m_h[i]));
      }
      assert digest[..] == digest[..32];
      assert m_h[..8] == [m_h[0], m_h[1], m_h[2], m_h[3], m_h[4], m_h[5], m_h[6], m_h[7]];
    }

    // Zeros, the byte 0x80 and the 32-bit bit count, written over the buffer
    method PadBuffer(block_nb: nat, len_b: nat)
      requires Shape() && m_len == |Partial(absorbed)| && m_block[..m_len] == Partial(absorbed)
      requires block_nb in {1, 2} && m_len + 9 <= BLOCK_SIZE * block_nb
      modifies m_block
      ensures m_block[..BLOCK_SIZE * block_nb] == Partial(absorbed) + [0x80]
              + Zeros(BLOCK_SIZE * block_nb - m_len - 5) + BytesOf(LowWord(len_b))
    {
      hide BytesOf, LowWord, Partial, Whole;
      var pm_len := BLOCK_SIZE * block_nb;
      CopyInto(m_block, m_len, Zeros(pm_len - m_len));
      m_block[m_len] := 0x80;
      assert m_block[..pm_len - 4] == Partial(absorbed) + [0x80] + Zeros(pm_len - m_len - 5);
      CopyInto(m_block, pm_len - 4, BytesOf(LowWord(len_b)));
    }

    method Final(digest: array<Byte>)
      requires Valid() && digest.Length == 32 && digest != m_block
      modifies m_block, m_h, digest
      ensures WorkOf(m_h) == HashBlocks(INITIAL_HASH, CodePad(absorbed))
      ensures digest[..] == DigestOf(WorkOf(m_h))
    {
      hide HashBlocks, Whole, Partial, BytesOf, CodePad, ZeroBits, LowWord, DigestOf, WorkOf, Zeros;
      var block_nb := 1 + if BLOCK_SIZE - 9 < m_len % BLOCK_SIZE then 1 else 0;
      var len_b := (m_tot_len + m_len) % TWO_32 * 8 % TWO_32;
      PadsToBlocks(absorbed, block_nb);
      BitCount(absorbed);
      PadBuffer(block_nb, len_b);
      assert m_block[..][..BLOCK_SIZE * block_nb] == PadTail(absorbed);
      Transform(m_block[..], block_nb);
      WriteDigest(digest);
    }
  }

  // ---------- Whole inputs ----------

  function Concat(chunks: seq<seq<Byte>>): seq<Byte> {
    if |chunks| == 0 then [] else Concat(chunks[..|chunks| - 1]) + chunks[|chunks| - 1]
  }

  function AbsorbAll(chunks: seq<seq<Byte>>): seq<Byte>
    requires forall c :: c in chunks ==> |c| < TWO_32
  {
    if |chunks| == 0 then []
    else Absorb(AbsorbAll(chunks[..|chunks| - 1]), chunks[|chunks| - 1])
  }

  // No call of update makes its 32-bit sum wrap.
  predicate NoWrap(chunks: seq<seq<Byte>>) {
    |chunks| == 0 ||
    (&& NoWrap(chunks[..|chunks| - 1])
     && |Concat(chunks[..|chunks| - 1])| % BLOCK_SIZE + |chunks[|chunks| - 1]| < TWO_32)
  }

  // The chunking is invisible exactly when no sum wraps.
  lemma {:induction false} ChunkingIsInvisibleIff(chunks: seq<seq<Byte>>)
    requires forall c :: c in chunks ==> |c| < TWO_32
    ensures AbsorbAll(chunks) == Concat(chunks) <==> NoWrap(chunks)
    ensures !NoWrap(chunks) ==> |AbsorbAll(chunks)| < |Concat(chunks)|
  {
    if |chunks| > 0 {
      ChunkingIsInvisibleIff(chunks[..|chunks| - 1]);
    }
  }

  // One byte and then 2^32 - 1 more: the sum wraps to zero and even the first byte is dropped.
  lemma WrappingChunksExample()
    ensures var chunks := [Zeros(1), Zeros(TWO_32 - 1)];
      && (forall c :: c in chunks ==> |c| < TWO_32)
      && AbsorbAll(chunks) == [] && |Concat(chunks)| == TWO_32
  {
    var x, y := Zeros(1), Zeros(TWO_32 - 1);
    assert [x, y][..1] == [x] && [x][..0] == [];
    assert AbsorbAll([x][..0]) == [] && Concat([x][..0]) == [];
    assert AbsorbAll([x]) == [] + x && Concat([x]) == [] + x;
    assert AbsorbAll([x, y]) == Absorb(AbsorbAll([x]), y);
  }

  // Feeding a message to the context in any number of pieces gives the standard's hash of
  // the whole message.
  method HashChunks(chunks: seq<seq<Byte>>) returns (digest: seq<Byte>)
    requires forall c :: c in chunks ==> |c| < TWO_32
    ensures digest == DigestOf(HashBlocks(INITIAL_HASH, CodePad(AbsorbAll(chunks))))
    ensures |Concat(chunks)| < 0x2000_0000 ==> digest == Hash(Concat(chunks))
  {
    hide HashBlocks, CodePad, DigestOf, Absorb, Pad, Whole, Partial, WorkOf, Context.Valid;
    var ctx := new Context();
    ctx.Init();
    for i := 0 to |chunks|
      invariant ctx.Valid() && fresh(ctx) && fresh(ctx.m_block) && fresh(ctx.m_h)
      invariant ctx.absorbed == AbsorbAll(chunks[..i])
    {
      assert chunks[..i + 1][..i] == chunks[..i];
      ctx.Update(chunks[i]);
    }
    assert chunks[..|chunks|] == chunks;
    var out := new Byte[32];
    ctx.Final(out);
    digest := out[..];
    if |Concat(chunks)| < 0x2000_0000 {
      ShortNeverWraps(chunks);
      ChunkingIsInvisibleIff(chunks);
      PaddingIsFipsIff(Concat(chunks));
    }
  }

  lemma {:induction false} ShortNeverWraps(chunks: seq<seq<Byte>>)
    requires |Concat(chunks)| < TWO_32
    ensures NoWrap(chunks)
  {
    if |chunks| > 0 {
      ShortNeverWraps(chunks[..|chunks| - 1]);
    }
  }

  // ---------- sha256(std::string): the digest printed with "%02x" ----------

  const HEX: string := "0123456789abcdef"

  function Hex(d: seq<Byte>): (r: string)
    ensures |r| == 2 * |d|
  {
    if |d| == 0 then []
    else Hex(d[..|d| - 1]) + [HEX[d[|d| - 1] as int / 16], HEX[d[|d| - 1] as int % 16]]
  }

  function HexValue(c: char): int {
    if '0' <= c <= '9' then c as int - '0' as int else c as int - 'a' as int + 10
  }

  // The printed form determines the digest.
  lemma {:induction false} HexReadsBack(d: seq<Byte>, i: nat)
    requires i < |d|
    ensures 16 * HexValue(Hex(d)[2 * i]) + HexValue(Hex(d)[2 * i + 1]) == d[i] as int
  {
    if i < |d| - 1 {
      HexReadsBack(d[..|d| - 1], i);
    } else {
      DigitValue(d[i] as int / 16);
      DigitValue(d[i] as int % 16);
    }
  }

  lemma DigitValue(n: nat)
    requires n < 16
    ensures HexValue(HEX[n]) == n
  {
  }

  lemma OneChunk(input: seq<Byte>)
    requires |input| < TWO_32
    ensures Concat([input]) == input && AbsorbAll([input]) == input
  {
    assert [input][..0] == [];
    assert AbsorbAll([input][..0]) == [];
    assert [] + input == input;
  }

  // The length is passed as an unsigned int, so a longer input is cut to its length modulo 2^32.
  method HashToHex(input: seq<Byte>) returns (hex: string)
    ensures hex == Hex(DigestOf(HashBlocks(INITIAL_HASH, CodePad(input[..|input| % TWO_32]))))
    ensures |input| < 0x2000_0000 ==> hex == Hex(Hash(input))
  {
    hide Hash, HashBlocks, CodePad, DigestOf;
    var taken := input[..|input| % TWO_32];
    OneChunk(taken);
    assert |input| < TWO_32 ==> taken == input;
    var digest := HashChunks([taken]);
    hex := "";
    for i := 0 to 32
      invariant hex == Hex(digest[..i])
    {
      assert digest[..i + 1][..i] == digest[..i];
      hex := hex + [HEX[digest[i] as int / 16], HEX[digest[i] as int % 16]];
    }
    assert digest[..32] == digest;
  }
}
