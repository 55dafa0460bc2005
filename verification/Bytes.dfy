/**
 Byte buffers: little-endian words, in-place overwrites, and records laid out at absolute
 positions on a ring of bytes.
 */
module Bytes {
  import opened Arith

  type Byte = b: int | 0 <= b < 256

  function EncodeI32(x: int): (r: seq<Byte>)
    ensures |r| == 4
  {
    var b0 := AsU32(x);
    var b1 := b0 / 256;
    var b2 := b1 / 256;
    [b0 % 256, b1 % 256, b2 % 256, b2 / 256]
  }

  function Word32(b0: int, b1: int, b2: int, b3: int): int {
    b0 + 0x100 * b1 + 0x1_0000 * b2 + 0x100_0000 * b3
  }

  /** The little-endian `i32` at offset `at`. */
  function DecodeI32(buf: seq<Byte>, at: nat): (r: int)
    requires at + 4 <= |buf|
    ensures IsI32(r)
  {
    Wrap32(Word32(buf[at], buf[at + 1], buf[at + 2], buf[at + 3]))
  }

  function EncodeU16(x: nat): (r: seq<Byte>)
    requires x < 0x1_0000
    ensures |r| == 2
  {
    [x % 256, x / 256]
  }

  /** The little-endian `u16` at offset `at`. */
  function DecodeU16(buf: seq<Byte>, at: nat): int
    requires at + 2 <= |buf|
  {
    Word32(buf[at], buf[at + 1], 0, 0)
  }

  lemma DecodeEncodeI32(x: int)
    requires IsI32(x)
    ensures DecodeI32(EncodeI32(x), 0) == x
  {
    var b0 := AsU32(x);
    var b1 := b0 / 256;
    var b2 := b1 / 256;
    assert Word32(b0 % 256, b1 % 256, b2 % 256, b2 / 256) == b0;
    assert Wrap32(b0) == x;
  }

  lemma LowByte(low: Byte, rest: int)
    ensures (low + 256 * rest) % 256 == low && (low + 256 * rest) / 256 == rest
  {
  }

  lemma SplitWord(b0: Byte, b1: Byte, b2: Byte, b3: Byte)
    ensures var w := Word32(b0, b1, b2, b3);
            && 0 <= w < TWO32 && AsU32(Wrap32(w)) == w
            && w % 256 == b0 && w / 256 % 256 == b1 && w / 256 / 256 % 256 == b2 && w / 256 / 256 / 256 == b3
  {
    var w2 := b2 + 256 * b3;
    var w1 := b1 + 256 * w2;
    var w := b0 + 256 * w1;
    LowByte(b0, w1);
    LowByte(b1, w2);
    LowByte(b2, b3);
    assert w == Word32(b0, b1, b2, b3);
    assert w1 == w / 256 && w2 == w1 / 256;
  }

  lemma EncodeDecodeI32(b: seq<Byte>)
    requires |b| >= 4
    ensures EncodeI32(DecodeI32(b, 0)) == b[..4]
  {
    hide Wrap32, AsU32, Word32;
    SplitWord(b[0], b[1], b[2], b[3]);
  }

  lemma ZeroWord(buf: seq<Byte>, at: nat)
    requires at + 4 <= |buf| && buf[at] == 0 && buf[at + 1] == 0 && buf[at + 2] == 0 && buf[at + 3] == 0
    ensures DecodeI32(buf, at) == 0
  {
    var w := Word32(buf[at], buf[at + 1], buf[at + 2], buf[at + 3]);
    assert w == 0;
    WrapZero(w);
  }

  lemma WrapZero(w: int)
    requires w == 0
    ensures Wrap32(w) == 0
  {
  }

  lemma NonzeroWord(bytes: seq<Byte>) returns (j: nat)
    requires |bytes| >= 4 && DecodeI32(bytes, 0) != 0
    ensures j < 4 && bytes[j] != 0
  {
    hide Wrap32;
    assert Wrap32(0) == 0;
    j := if bytes[0] != 0 then 0 else if bytes[1] != 0 then 1 else if bytes[2] != 0 then 2 else 3;
  }

  function Zeros(n: nat): (r: seq<Byte>)
    ensures |r| == n && forall i :: 0 <= i < n ==> r[i] == 0
  {
    seq(n, _ => 0)
  }

  /** `buf` with `bytes` copied over it from offset `at`. */
  function Splice(buf: seq<Byte>, at: nat, bytes: seq<Byte>): (r: seq<Byte>)
    requires at + |bytes| <= |buf|
    ensures |r| == |buf|
    ensures r[at..at + |bytes|] == bytes
    ensures forall i :: 0 <= i < |buf| && !(at <= i < at + |bytes|) ==> r[i] == buf[i]
  {
    buf[..at] + bytes + buf[at + |bytes|..]
  }

  /** A record starting at absolute position `pos` lies in one piece on a ring of `n` bytes. */
  ghost predicate InOnePiece(pos: nat, len: nat, n: nat) {
    n > 0 && pos % n + len <= n
  }

  /** The ring `buf` shows `bytes` at absolute position `pos`. */
  ghost predicate Shows(buf: seq<Byte>, pos: nat, bytes: seq<Byte>) {
    && InOnePiece(pos, |bytes|, |buf|)
    && buf[pos % |buf|..pos % |buf| + |bytes|] == bytes
  }

  /**
   Two pieces at most one lap apart do not share a byte of the ring, whichever of them lies
   across the wrap point.
   */
  lemma PiecesDisjoint(p: nat, pLen: nat, q: nat, qLen: nat, n: nat)
    requires InOnePiece(p, pLen, n) && InOnePiece(q, qLen, n)
    requires p + pLen <= q && q + qLen <= p + n
    ensures p % n + pLen <= q % n || q % n + qLen <= p % n
  {
    var a, b := p / n, q / n;
    MulStep(a + 1, b, n);
    MulStep(b, a, n);
    MulStep(a, b, n);
    assert (a + 1) * n == a * n + n;
  }

  /** Overwriting one piece leaves every other piece of the same lap intact. */
  lemma SpliceKeeps(buf: seq<Byte>, p: nat, bytes: seq<Byte>, q: nat, other: seq<Byte>)
    requires Shows(buf, p, bytes) && InOnePiece(q, |other|, |buf|)
    requires p + |bytes| <= q && q + |other| <= p + |buf|
    ensures Shows(Splice(buf, q % |buf|, other), p, bytes)
  {
    var n := |buf|;
    PiecesDisjoint(p, |bytes|, q, |other|, n);
    var s, buf' := p % n, Splice(buf, q % n, other);
    forall i | 0 <= i < |bytes| ensures buf'[s + i] == bytes[i] {
      assert buf[s..s + |bytes|][i] == buf[s + i];
    }
  }

  /** The same for a piece that lies behind the overwritten one. */
  lemma SpliceKeepsLater(buf: seq<Byte>, p: nat, bytes: seq<Byte>, q: nat, other: seq<Byte>)
    requires Shows(buf, p, bytes) && InOnePiece(q, |other|, |buf|)
    requires q + |other| <= p && p + |bytes| <= q + |buf|
    ensures Shows(Splice(buf, q % |buf|, other), p, bytes)
  {
    var n := |buf|;
    PiecesDisjoint(q, |other|, p, |bytes|, n);
    var s, buf' := p % n, Splice(buf, q % n, other);
    forall i | 0 <= i < |bytes| ensures buf'[s + i] == bytes[i] {
      assert buf[s..s + |bytes|][i] == buf[s + i];
    }
  }

  lemma SpliceShows(buf: seq<Byte>, q: nat, bytes: seq<Byte>)
    requires InOnePiece(q, |bytes|, |buf|)
    ensures Shows(Splice(buf, q % |buf|, bytes), q, bytes)
  {
  }

  /** The ring slot of a position given as lap-aligned block and offset. */
  lemma SlotOfBlock(k: nat, off: nat, block: nat, blocks: nat)
    requires off < block && blocks > 0
    ensures block * blocks > 0
    ensures (k * block + off) % (block * blocks) == k % blocks * block + off
  {
    var n := block * blocks;
    MulStep(0, blocks, block);
    MulStep(k % blocks, blocks, block);
    assert k == k / blocks * blocks + k % blocks;
    assert k * block == k / blocks * n + k % blocks * block by {
      assert (k / blocks * blocks + k % blocks) * block == k / blocks * blocks * block + k % blocks * block;
      assert k / blocks * blocks * block == k / blocks * n;
    }
    DivModUnique(k * block + off, k / blocks, k % blocks * block + off, n);
  }

  /** The ring slot of a position one lap before `at + d`. */
  lemma OneLapEarlier(at: nat, d: nat, n: nat)
    requires n > 0 && n <= at && at % n + d < n
    ensures (at - n + d) % n == at % n + d
  {
    var q, r := at / n, at % n;
    assert (q - 1) * n == q * n - n;
    DivModUnique(at - n + d, q - 1, r + d, n);
  }

  /** Two neighbouring overwrites are one, whichever comes first. */
  lemma SpliceAdjacent(buf: seq<Byte>, at: nat, a: seq<Byte>, b: seq<Byte>)
    requires at + |a| + |b| <= |buf|
    ensures Splice(Splice(buf, at, a), at + |a|, b) == Splice(buf, at, a + b)
    ensures Splice(Splice(buf, at + |a|, b), at, a) == Splice(buf, at, a + b)
  {
    var whole := Splice(buf, at, a + b);
    var first, second := Splice(Splice(buf, at, a), at + |a|, b), Splice(Splice(buf, at + |a|, b), at, a);
    forall i | 0 <= i < |buf| ensures first[i] == whole[i] && second[i] == whole[i] {
    }
  }

  lemma SpliceNothing(buf: seq<Byte>, at: nat)
    requires at <= |buf|
    ensures Splice(buf, at, []) == buf
  {
    assert buf[..at] + [] + buf[at..] == buf;
  }

  // ---- One access at a time ----

  /** A store outside the buffer is a no-op here; the invariants of the step systems show there are none. */
  function Store(buf: seq<Byte>, at: nat, bytes: seq<Byte>): (r: seq<Byte>)
    ensures |r| == |buf|
  {
    if at + |bytes| <= |buf| then Splice(buf, at, bytes) else buf
  }

  lemma StoreNothing(buf: seq<Byte>, at: nat)
    ensures Store(buf, at, []) == buf
  {
    if at <= |buf| {
      SpliceNothing(buf, at);
    }
  }

  /** Copying the next byte of a piece extends what the log shows of it. */
  lemma ShowsMore(buf: seq<Byte>, pos: nat, shown: seq<Byte>, b: Byte)
    requires Shows(buf, pos, shown) && InOnePiece(pos, |shown| + 1, |buf|)
    ensures Shows(Splice(buf, pos % |buf| + |shown|, [b]), pos, shown + [b])
  {
    var at := pos % |buf|;
    var buf' := Splice(buf, at + |shown|, [b]);
    assert buf'[at + |shown|] == buf'[at + |shown|..at + |shown| + 1][0] == b;
    forall i | 0 <= i < |shown| ensures buf'[at + i] == shown[i] {
      assert buf[at..at + |shown|][i] == buf[at + i];
    }
  }

  lemma SlotPlus(pos: nat, d: nat, n: nat)
    requires n > 0 && pos % n + d < n
    ensures (pos + d) % n == pos % n + d
  {
    DivModUnique(pos + d, pos / n, pos % n + d, n);
  }

  // ---- In place ----

  /** Copies `bytes` over the buffer from offset `at`. */
  method CopyInto(buffer: array<Byte>, at: nat, bytes: seq<Byte>)
    requires at + |bytes| <= buffer.Length
    modifies buffer
    ensures buffer[..] == Splice(old(buffer[..]), at, bytes)
  {
    var i := 0;
    while i < |bytes|
      invariant 0 <= i <= |bytes|
      invariant buffer[at..at + i] == bytes[..i]
      invariant buffer[..at] == old(buffer[..at])
      invariant buffer[at + i..] == old(buffer[at + i..])
    {
      buffer[at + i] := bytes[i];
      i := i + 1;
    }
    assert buffer[..] == buffer[..at] + buffer[at..at + i] + buffer[at + i..];
  }
}
