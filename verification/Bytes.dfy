/** Blocks as bytes: the little-endian words of an indirect block, the bits of the free map. */
module Bytes {
  import opened Params

  /** Bitmap bits per block. */
  const BPB: nat := 8192

  type Block = seq<int>

  function Zero(): (z: Block)
    ensures |z| == BSIZE && forall i | 0 <= i < BSIZE :: z[i] == 0
  {
    seq(BSIZE, _ => 0)
  }

  /** b with m elements of src, from t on, put in at o. */
  function Patch(b: seq<int>, o: nat, src: seq<int>, t: nat, m: nat): (r: seq<int>)
    requires o + m <= |b| && t + m <= |src|
    ensures |r| == |b|
    ensures forall y {:trigger r[y]} | 0 <= y < |b| :: r[y] == if o <= y < o + m then src[t + (y - o)] else b[y]
  {
    b[..o] + src[t..t + m] + b[o + m..]
  }

  // ---- Words

  function WordAt(b: Block, j: nat): int
    requires |b| == BSIZE && j < 256
  {
    b[4 * j] + 256 * b[4 * j + 1] + 65536 * b[4 * j + 2] + 16777216 * b[4 * j + 3]
  }

  function PutWord(b: Block, j: nat, w: nat): (r: Block)
    requires |b| == BSIZE && j < 256
    ensures |r| == BSIZE
  {
    b[4 * j := w % 256][4 * j + 1 := w / 256 % 256][4 * j + 2 := w / 65536 % 256][4 * j + 3 := w / 16777216]
  }

  lemma Bytewise(w: nat)
    ensures w % 256 + 256 * (w / 256 % 256) + 65536 * (w / 65536 % 256) + 16777216 * (w / 16777216) == w
  {
    var q := w / 256;
    var r := q / 256;
    assert w == 256 * q + w % 256 && q == 256 * r + q % 256 && r == 256 * (r / 256) + r % 256;
    assert w / 65536 == r && w / 16777216 == r / 256;
  }

  lemma PutGetWord(b: Block, j: nat, w: nat, k: nat)
    requires |b| == BSIZE && j < 256 && k < 256
    ensures WordAt(PutWord(b, j, w), k) == if k == j then w else WordAt(b, k)
  {
    if k == j {
      Bytewise(w);
    }
  }

  lemma ZeroWord(j: nat)
    requires j < 256
    ensures WordAt(Zero(), j) == 0
  {
  }

  // ---- Bits

  /** x & (1 << i) != 0. */
  predicate Bit(x: int, i: nat)
    decreases i
  {
    if i == 0 then x % 2 == 1 else Bit(x / 2, i - 1)
  }

  /** x | (1 << i). */
  function SetBit(x: int, i: nat): int
    decreases i
  {
    if i == 0 then x - x % 2 + 1 else 2 * SetBit(x / 2, i - 1) + x % 2
  }

  /** x & ~(1 << i). */
  function ClearBit(x: int, i: nat): int
    decreases i
  {
    if i == 0 then x - x % 2 else 2 * ClearBit(x / 2, i - 1) + x % 2
  }

  lemma Halves(s: int, b: int)
    requires 0 <= b <= 1
    ensures (2 * s + b) / 2 == s && (2 * s + b) % 2 == b
  {
  }

  lemma {:induction false} SetBitOk(x: int, i: nat, j: nat)
    ensures Bit(SetBit(x, i), j) <==> j == i || Bit(x, j)
    decreases i
  {
    Halves(x / 2, 1);
    if i > 0 {
      Halves(SetBit(x / 2, i - 1), x % 2);
      if j > 0 {
        SetBitOk(x / 2, i - 1, j - 1);
      }
    } else {
      assert SetBit(x, 0) == 2 * (x / 2) + 1;
    }
  }

  lemma {:induction false} ClearBitOk(x: int, i: nat, j: nat)
    ensures Bit(ClearBit(x, i), j) <==> j != i && Bit(x, j)
    decreases i
  {
    Halves(x / 2, 0);
    if i > 0 {
      Halves(ClearBit(x / 2, i - 1), x % 2);
      if j > 0 {
        ClearBitOk(x / 2, i - 1, j - 1);
      }
    } else {
      assert ClearBit(x, 0) == 2 * (x / 2) + 0;
    }
  }

  // ---- The free map: bit b is bit b % 8 of byte b % BPB / 8 of block start + b / BPB

  predicate MapFits(blocks: seq<Block>, start: nat, b: nat) {
    start + b / BPB < |blocks| && |blocks[start + b / BPB]| == BSIZE
  }

  predicate BitAt(blocks: seq<Block>, start: nat, b: nat) {
    MapFits(blocks, start, b) && Bit(blocks[start + b / BPB][b % BPB / 8], b % 8)
  }

  /** A block of the map with one bit set or cleared. */
  function Marked(bp: Block, y: nat, t: nat, on: bool): (r: Block)
    requires |bp| == BSIZE && y < BSIZE
    ensures |r| == BSIZE
  {
    bp[y := if on then SetBit(bp[y], t) else ClearBit(bp[y], t)]
  }

  function MarkAt(blocks: seq<Block>, start: nat, b: nat, on: bool): (r: seq<Block>)
    requires MapFits(blocks, start, b)
    ensures |r| == |blocks|
    ensures forall c | 0 <= c < |blocks| && c != start + b / BPB :: r[c] == blocks[c]
    ensures |r[start + b / BPB]| == BSIZE
  {
    blocks[start + b / BPB := Marked(blocks[start + b / BPB], b % BPB / 8, b % 8, on)]
  }

  lemma MarkedBit(bp: Block, y: nat, t: nat, on: bool, y': nat, t': nat)
    requires |bp| == BSIZE && y < BSIZE && y' < BSIZE
    ensures Bit(Marked(bp, y, t, on)[y'], t') <==> if y' == y && t' == t then on else Bit(bp[y'], t')
  {
    SetBitOk(bp[y], t, t');
    ClearBitOk(bp[y], t, t');
  }

  lemma SameBit(b: nat, c: nat)
    requires c / BPB == b / BPB && c % BPB / 8 == b % BPB / 8 && c % 8 == b % 8
    ensures c == b
  {
    assert b % BPB % 8 == b % 8 && c % BPB % 8 == c % 8;
  }

  lemma MarkDigits(blocks: seq<Block>, start: nat, q: nat, y: nat, t: nat, on: bool, q': nat, y': nat, t': nat)
    requires start + q < |blocks| && |blocks[start + q]| == BSIZE && y < BSIZE && y' < BSIZE
    ensures var blocks' := blocks[start + q := Marked(blocks[start + q], y, t, on)];
            (start + q' < |blocks| && |blocks'[start + q']| == BSIZE && Bit(blocks'[start + q'][y'], t'))
            <==> if q' == q && y' == y && t' == t then on
                 else start + q' < |blocks| && |blocks[start + q']| == BSIZE && Bit(blocks[start + q'][y'], t')
  {
    MarkedBit(blocks[start + q], y, t, on, y', t');
  }

  lemma MarkBit(blocks: seq<Block>, start: nat, b: nat, on: bool, c: nat)
    requires MapFits(blocks, start, b)
    ensures BitAt(MarkAt(blocks, start, b, on), start, c) <==> if c == b then on else BitAt(blocks, start, c)
  {
    var q, q', y, y', t, t' := b / BPB, c / BPB, b % BPB / 8, c % BPB / 8, b % 8, c % 8;
    MarkDigits(blocks, start, q, y, t, on, q', y', t');
    if q == q' && y == y' && t == t' {
      SameBit(b, c);
    }
  }
}
