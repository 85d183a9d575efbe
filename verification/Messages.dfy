/** Messages with self-relative references: how the builder lays out a message and what
    a reader finds at each reference. */
module Messages {

  type byte = x: int | 0 <= x < 256

  const UINT32 := 0x1_0000_0000
  const UINT64 := 0x1_0000_0000_0000_0000
  // The size of a header: its own size field and the channel, four bytes each.
  const HEADER := 8
  // The size of a reference.
  const FIELD := 8
  const MAX_BLOCKS := 16

  // ----- Numbers in memory, least significant byte first

  function Pow256(n: nat): (p: nat)
    ensures p > 0
  {
    if n == 0 then 1 else 256 * Pow256(n - 1)
  }

  function Bytes(w: nat, n: nat): (bs: seq<byte>)
    ensures |bs| == n
  {
    if n == 0 then [] else [w % 256] + Bytes(w / 256, n - 1)
  }

  function Word(bs: seq<byte>): (w: nat) {
    if bs == [] then 0 else bs[0] + 256 * Word(bs[1..])
  }

  lemma {:induction false} WordOfBytes(w: nat, n: nat)
    requires w < Pow256(n)
    ensures Word(Bytes(w, n)) == w
  {
    if n > 0 {
      WordOfBytes(w / 256, n - 1);
      assert Bytes(w, n)[1..] == Bytes(w / 256, n - 1);
    }
  }

  lemma EightBytes()
    ensures Pow256(8) == UINT64
  {
    assert Pow256(2) == 0x1_0000;
    assert Pow256(4) == UINT32;
    assert Pow256(6) == 0x1_0000_0000_0000;
  }

  // ----- References: the length in the upper half, the offset in the lower

  function BitOr(a: nat, b: nat): (r: nat) {
    if a == 0 && b == 0 then 0
    else 2 * BitOr(a / 2, b / 2) + if a % 2 == 1 || b % 2 == 1 then 1 else 0
  }

  function Pow2(k: nat): (p: nat)
    ensures p > 0
  {
    if k == 0 then 1 else 2 * Pow2(k - 1)
  }

  lemma {:induction false} OrZero(a: nat)
    ensures BitOr(a, 0) == a
  {
    if a > 0 {
      OrZero(a / 2);
    }
  }

  lemma {:induction false} OrDisjoint(x: nat, d: nat, k: nat)
    requires d < Pow2(k)
    ensures BitOr(x * Pow2(k), d) == x * Pow2(k) + d
    decreases k
  {
    if k == 0 {
      OrZero(x);
    } else {
      var p := Pow2(k - 1);
      assert x * Pow2(k) == 2 * (x * p);
      OrDisjoint(x, d / 2, k - 1);
    }
  }

  lemma TwoTo32()
    ensures Pow2(32) == UINT32
  {
    assert Pow2(8) == 256;
    assert Pow2(16) == 0x1_0000;
    assert Pow2(24) == 0x100_0000;
  }

  // What is stored for a block of this size at this distance: 64-bit arithmetic.
  function Reference(size: nat, distance: nat): (w: nat) {
    BitOr(size * UINT32 % UINT64, distance)
  }

  function Offset(w: nat): nat {
    w % UINT32
  }

  function Len(w: nat): nat {
    w / UINT32
  }

  lemma ShiftedSize(size: nat)
    ensures size * UINT32 % UINT64 == size % UINT32 * UINT32
  {
    var q, r := size / UINT32, size % UINT32;
    assert size * UINT32 == q * UINT64 + r * UINT32;
  }

  lemma ReferenceSplits(size: nat, distance: nat)
    requires distance < UINT32
    ensures Reference(size, distance) == size % UINT32 * UINT32 + distance < UINT64
  {
    ShiftedSize(size);
    TwoTo32();
    OrDisjoint(size % UINT32, distance, 32);
  }

  lemma Halves(upper: nat, lower: nat)
    requires upper < UINT32 && lower < UINT32
    ensures Offset(upper * UINT32 + lower) == lower && Len(upper * UINT32 + lower) == upper
  {
  }

  /** A reference can be read back exactly when both numbers fit in 32 bits. */
  lemma ReferenceExact(size: nat, distance: nat)
    ensures Offset(Reference(size, distance)) == distance && Len(Reference(size, distance)) == size
      <==> size < 0x1_0000_0000 && distance < 0x1_0000_0000
  {
    var w := Reference(size, distance);
    if distance < UINT32 {
      ReferenceSplits(size, distance);
      Halves(size % UINT32, distance);
      SmallRemainder(size);
    } else {
      assert Offset(w) < UINT32;
    }
  }

  lemma SmallRemainder(size: nat)
    ensures size % UINT32 == size <==> size < UINT32
  {
  }

  // ----- The layout of a message

  // A reference written at a position of the message's content, and the block it refers to.
  datatype Write = Write(at: nat, block: seq<byte>)

  function Overwrite(bs: seq<byte>, at: nat, part: seq<byte>): (r: seq<byte>)
    requires at + |part| <= |bs|
    ensures |r| == |bs|
  {
    bs[..at] + part + bs[at + |part|..]
  }

  function Blocks(ws: seq<Write>): (blocks: seq<byte>) {
    if ws == [] then [] else Blocks(ws[..|ws| - 1]) + ws[|ws| - 1].block
  }

  predicate FieldsInside(ws: seq<Write>, size: nat) {
    forall k :: 0 <= k < |ws| ==> ws[k].at + FIELD <= size
  }

  predicate FieldsApart(ws: seq<Write>) {
    forall j, k :: 0 <= j < k < |ws| ==> ws[j].at + FIELD <= ws[k].at || ws[k].at + FIELD <= ws[j].at
  }

  // Where the k-th block starts, counted from the start of the content.
  function BlockStart(size: nat, ws: seq<Write>, k: nat): nat
    requires k <= |ws|
  {
    size + |Blocks(ws[..k])|
  }

  // The bytes of the k-th reference.
  function ReferenceBytes(size: nat, ws: seq<Write>, k: nat): (part: seq<byte>)
    requires k < |ws| && FieldsInside(ws, size)
    ensures |part| == FIELD
  {
    Bytes(Reference(|ws[k].block|, BlockStart(size, ws, k) - ws[k].at), FIELD)
  }

  // The fixed part of the message after the first n references have been written into it.
  function Fixed(msg: seq<byte>, ws: seq<Write>, n: nat): (r: seq<byte>)
    requires n <= |ws| && FieldsInside(ws, |msg|)
    ensures |r| == |msg|
  {
    if n == 0 then msg else Overwrite(Fixed(msg, ws, n - 1), ws[n - 1].at, ReferenceBytes(|msg|, ws, n - 1))
  }

  // The size of the fixed part and the blocks together.
  function ContentSize(size: nat, ws: seq<Write>): nat {
    size + |Blocks(ws)|
  }

  function Header(total: nat): (header: seq<byte>)
    ensures |header| == HEADER
  {
    Bytes(total % UINT32, 4) + Bytes(0, 4)
  }

  // A whole message: its size, channel 0, the fixed part and the blocks.
  function Packed(msg: seq<byte>, ws: seq<Write>): (buffer: seq<byte>)
    requires FieldsInside(ws, |msg|)
    ensures |buffer| == HEADER + ContentSize(|msg|, ws)
  {
    Header(HEADER + ContentSize(|msg|, ws)) + Fixed(msg, ws, |ws|) + Blocks(ws)
  }

  // ----- The reader's side

  datatype Result<T> = Ok(value: T) | OutOfBounds

  // The start and the length of the block that the reference at a position refers to.
  function AccessBlob(buffer: seq<byte>, at: nat): (blob: Result<(nat, nat)>) {
    var base := HEADER + at;
    if base + FIELD <= |buffer| then
      var w := Word(buffer[base..base + FIELD]);
      Ok((base + Offset(w), Len(w)))
    else OutOfBounds
  }

  function ReadBlob(buffer: seq<byte>, at: nat): (block: Result<seq<byte>>) {
    match AccessBlob(buffer, at)
    case Ok((start, len)) => if start + len <= |buffer| then Ok(buffer[start..start + len]) else OutOfBounds
    case OutOfBounds => OutOfBounds
  }

  // A string is read without its terminator; a length of zero has none to leave out.
  function ReadString(buffer: seq<byte>, at: nat): (str: Result<seq<byte>>) {
    match AccessBlob(buffer, at)
    case Ok((start, len)) => if 0 < len && start + len - 1 <= |buffer| then Ok(buffer[start..start + len - 1]) else OutOfBounds
    case OutOfBounds => OutOfBounds
  }

  // ----- Round trip

  lemma OverwriteReads(bs: seq<byte>, at: nat, part: seq<byte>)
    requires at + |part| <= |bs|
    ensures Overwrite(bs, at, part)[at..at + |part|] == part
  {
  }

  lemma OverwriteKeeps(bs: seq<byte>, at: nat, part: seq<byte>, from: nat, to: nat)
    requires at + |part| <= |bs| && from <= to <= |bs|
    requires to <= at || at + |part| <= from
    ensures Overwrite(bs, at, part)[from..to] == bs[from..to]
  {
  }

  lemma SliceRight(left: seq<byte>, right: seq<byte>, from: nat, to: nat)
    requires from <= to <= |right|
    ensures (left + right)[|left| + from..|left| + to] == right[from..to]
  {
  }

  lemma SliceLeft(left: seq<byte>, right: seq<byte>, from: nat, to: nat)
    requires from <= to <= |left|
    ensures (left + right)[from..to] == left[from..to]
  {
  }

  lemma PackedFixed(msg: seq<byte>, ws: seq<Write>, from: nat, to: nat)
    requires FieldsInside(ws, |msg|) && from <= to <= |msg|
    ensures Packed(msg, ws)[HEADER + from..HEADER + to] == Fixed(msg, ws, |ws|)[from..to]
  {
    var header := Header(HEADER + ContentSize(|msg|, ws));
    SliceRight(header, Fixed(msg, ws, |ws|), from, to);
    SliceLeft(header + Fixed(msg, ws, |ws|), Blocks(ws), HEADER + from, HEADER + to);
  }

  lemma PackedBlocks(msg: seq<byte>, ws: seq<Write>, from: nat, to: nat)
    requires FieldsInside(ws, |msg|) && from <= to <= |Blocks(ws)|
    ensures Packed(msg, ws)[HEADER + |msg| + from..HEADER + |msg| + to] == Blocks(ws)[from..to]
  {
    SliceRight(Header(HEADER + ContentSize(|msg|, ws)) + Fixed(msg, ws, |ws|), Blocks(ws), from, to);
  }

  lemma {:induction false} BlockInside(ws: seq<Write>, k: nat)
    requires k < |ws|
    ensures var start := |Blocks(ws[..k])|;
            start + |ws[k].block| <= |Blocks(ws)| && Blocks(ws)[start..start + |ws[k].block|] == ws[k].block
  {
    var n := |ws| - 1;
    var start := |Blocks(ws[..k])|;
    if k < n {
      BlockInside(ws[..n], k);
      assert ws[..n][..k] == ws[..k];
      SliceLeft(Blocks(ws[..n]), ws[n].block, start, start + |ws[k].block|);
    } else {
      SliceRight(Blocks(ws[..n]), ws[n].block, 0, |ws[n].block|);
    }
  }

  // Later references leave earlier ones alone.
  lemma {:induction false} ReferenceKept(msg: seq<byte>, ws: seq<Write>, k: nat, n: nat)
    requires FieldsInside(ws, |msg|) && FieldsApart(ws) && k < n <= |ws|
    ensures Fixed(msg, ws, n)[ws[k].at..ws[k].at + FIELD] == ReferenceBytes(|msg|, ws, k)
    decreases n
  {
    var before, last, part := Fixed(msg, ws, n - 1), ws[n - 1], ReferenceBytes(|msg|, ws, n - 1);
    if k < n - 1 {
      ReferenceKept(msg, ws, k, n - 1);
      OverwriteKeeps(before, last.at, part, ws[k].at, ws[k].at + FIELD);
    } else {
      OverwriteReads(before, last.at, part);
    }
  }

  // Bytes outside every reference are as they were.
  lemma {:induction false} OthersKept(msg: seq<byte>, ws: seq<Write>, p: nat, n: nat)
    requires FieldsInside(ws, |msg|) && p < |msg| && n <= |ws|
    requires forall k :: 0 <= k < n ==> p < ws[k].at || ws[k].at + FIELD <= p
    ensures Fixed(msg, ws, n)[p] == msg[p]
  {
    if n > 0 {
      OthersKept(msg, ws, p, n - 1);
    }
  }

  lemma ReferenceWord(size: nat, distance: nat)
    requires distance < UINT32
    ensures Word(Bytes(Reference(size, distance), FIELD)) == Reference(size, distance)
  {
    ReferenceSplits(size, distance);
    EightBytes();
    WordOfBytes(Reference(size, distance), FIELD);
  }

  lemma ReferenceReads(buffer: seq<byte>, at: nat, size: nat, distance: nat)
    requires HEADER + at + FIELD <= |buffer|
    requires buffer[HEADER + at..HEADER + at + FIELD] == Bytes(Reference(size, distance), FIELD)
    ensures AccessBlob(buffer, at) == Ok((HEADER + at + distance, size)) <==> size < UINT32 && distance < UINT32
  {
    if distance < UINT32 {
      ReferenceWord(size, distance);
      ReferenceExact(size, distance);
    } else {
      SmallOffset(Word(Bytes(Reference(size, distance), FIELD)));
    }
  }

  lemma SmallOffset(w: nat)
    ensures Offset(w) < UINT32
  {
  }

  lemma BlockFits(msg: seq<byte>, ws: seq<Write>, k: nat)
    requires FieldsInside(ws, |msg|) && k < |ws|
    ensures BlockStart(|msg|, ws, k) + |ws[k].block| <= ContentSize(|msg|, ws)
  {
    BlockInside(ws, k);
  }

  lemma ReferenceStored(msg: seq<byte>, ws: seq<Write>, k: nat)
    requires FieldsInside(ws, |msg|) && FieldsApart(ws) && k < |ws|
    ensures Packed(msg, ws)[HEADER + ws[k].at..HEADER + ws[k].at + FIELD] == ReferenceBytes(|msg|, ws, k)
  {
    ReferenceKept(msg, ws, k, |ws|);
    PackedFixed(msg, ws, ws[k].at, ws[k].at + FIELD);
  }

  lemma ReferenceRead(buffer: seq<byte>, size: nat, ws: seq<Write>, k: nat)
    requires FieldsInside(ws, size) && k < |ws| && HEADER + size <= |buffer|
    requires buffer[HEADER + ws[k].at..HEADER + ws[k].at + FIELD] == ReferenceBytes(size, ws, k)
    ensures AccessBlob(buffer, ws[k].at) == Ok((HEADER + BlockStart(size, ws, k), |ws[k].block|))
      <==> |ws[k].block| < UINT32 && BlockStart(size, ws, k) - ws[k].at < UINT32
  {
    ReferenceReads(buffer, ws[k].at, |ws[k].block|, BlockStart(size, ws, k) - ws[k].at);
  }

  /** A reference is read back as the start and the length of its block exactly when the
      block is shorter than 2^32 bytes and starts less than 2^32 bytes behind the reference. */
  lemma ReferenceFound(msg: seq<byte>, ws: seq<Write>, k: nat)
    requires FieldsInside(ws, |msg|) && FieldsApart(ws) && k < |ws|
    ensures AccessBlob(Packed(msg, ws), ws[k].at) == Ok((HEADER + BlockStart(|msg|, ws, k), |ws[k].block|))
      <==> |ws[k].block| < 0x1_0000_0000 && BlockStart(|msg|, ws, k) - ws[k].at < 0x1_0000_0000
  {
    ReferenceStored(msg, ws, k);
    ReferenceRead(Packed(msg, ws), |msg|, ws, k);
  }

  lemma BlockFound(msg: seq<byte>, ws: seq<Write>, k: nat)
    requires FieldsInside(ws, |msg|) && k < |ws|
    ensures var start := HEADER + BlockStart(|msg|, ws, k);
            start + |ws[k].block| <= |Packed(msg, ws)| && Packed(msg, ws)[start..start + |ws[k].block|] == ws[k].block
  {
    BlockInside(ws, k);
    var from := |Blocks(ws[..k])|;
    PackedBlocks(msg, ws, from, from + |ws[k].block|);
  }

  /** Every reference of a message reads back its own block, and the blocks lie one after
      the other behind the fixed part. */
  lemma RoundTrip(msg: seq<byte>, ws: seq<Write>, k: nat)
    requires FieldsInside(ws, |msg|) && FieldsApart(ws) && k < |ws|
    requires ContentSize(|msg|, ws) < UINT32
    ensures AccessBlob(Packed(msg, ws), ws[k].at) == Ok((HEADER + BlockStart(|msg|, ws, k), |ws[k].block|))
    ensures ReadBlob(Packed(msg, ws), ws[k].at) == Ok(ws[k].block)
  {
    BlockFits(msg, ws, k);
    ReferenceFound(msg, ws, k);
    BlockFound(msg, ws, k);
  }

  lemma WithoutLast(bs: seq<byte>, start: nat, str: seq<byte>, last: byte)
    requires start + |str| + 1 <= |bs| && bs[start..start + |str| + 1] == str + [last]
    ensures bs[start..start + |str|] == str
  {
    assert bs[start..start + |str|] == bs[start..start + |str| + 1][..|str|];
  }

  /** In particular a string, which is stored with a terminator. */
  lemma StringRoundTrip(msg: seq<byte>, ws: seq<Write>, k: nat, str: seq<byte>)
    requires FieldsInside(ws, |msg|) && FieldsApart(ws) && k < |ws|
    requires ContentSize(|msg|, ws) < UINT32 && ws[k].block == str + [0]
    ensures ReadString(Packed(msg, ws), ws[k].at) == Ok(str)
  {
    BlockFits(msg, ws, k);
    ReferenceFound(msg, ws, k);
    BlockFound(msg, ws, k);
    var start := HEADER + BlockStart(|msg|, ws, k);
    WithoutLast(Packed(msg, ws), start, str, 0);
  }

  /** The header holds the size of the whole message exactly when that fits in 32 bits. */
  lemma HeaderSize(msg: seq<byte>, ws: seq<Write>)
    requires FieldsInside(ws, |msg|)
    ensures Word(Packed(msg, ws)[..4]) == |Packed(msg, ws)| <==> HEADER + ContentSize(|msg|, ws) < 0x1_0000_0000
  {
    var total := HEADER + ContentSize(|msg|, ws);
    assert Pow256(4) == UINT32;
    WordOfBytes(total % UINT32, 4);
    SliceLeft(Header(total) + Fixed(msg, ws, |ws|), Blocks(ws), 0, 4);
    SliceLeft(Header(total), Fixed(msg, ws, |ws|), 0, 4);
    SliceLeft(Bytes(total % UINT32, 4), Bytes(0, 4), 0, 4);
    assert Packed(msg, ws)[..4] == Packed(msg, ws)[0..4] && Bytes(total % UINT32, 4)[0..4] == Bytes(total % UINT32, 4);
    SmallRemainder(total);
  }

  // ----- The bytes themselves

  // Four bytes, the least significant first.
  function LowFirst(w: nat): (bs: seq<byte>) {
    [w % 256, w / 0x100 % 256, w / 0x1_0000 % 256, w / 0x100_0000 % 256]
  }

  lemma FourBytes(w: nat)
    ensures Bytes(w, 4) == LowFirst(w)
  {
    var x, y, z := w / 256, w / 256 / 256, w / 256 / 256 / 256;
    assert y == w / 0x1_0000 && z == w / 0x100_0000;
    assert Bytes(z, 1) == [z % 256] + Bytes(z / 256, 0);
    assert Bytes(y, 2) == [y % 256] + Bytes(z, 1);
    assert Bytes(x, 3) == [x % 256] + Bytes(y, 2);
    assert Bytes(w, 4) == [w % 256] + Bytes(x, 3);
  }

  lemma {:induction false} BytesSplit(upper: nat, lower: nat, m: nat, n: nat)
    requires lower < Pow256(m)
    ensures Bytes(upper * Pow256(m) + lower, m + n) == Bytes(lower, m) + Bytes(upper, n)
    decreases m
  {
    if m > 0 {
      var w, p := upper * Pow256(m) + lower, Pow256(m - 1);
      assert upper * Pow256(m) == 256 * (upper * p);
      assert w % 256 == lower % 256 && w / 256 == upper * p + lower / 256;
      BytesSplit(upper, lower / 256, m - 1, n);
    }
  }

  lemma ReferenceHalves(size: nat, distance: nat)
    requires size < UINT32 && distance < UINT32
    ensures Bytes(Reference(size, distance), FIELD) == Bytes(distance, 4) + Bytes(size, 4)
  {
    ReferenceSplits(size, distance);
    SmallRemainder(size);
    assert Pow256(4) == UINT32;
    BytesSplit(size, distance, 4, 4);
  }

  lemma HalvesLayout(size: nat, distance: nat)
    requires size < UINT32 && distance < UINT32
    ensures Bytes(Reference(size, distance), FIELD) == LowFirst(distance) + LowFirst(size)
  {
    ReferenceHalves(size, distance);
    FourBytes(distance);
    FourBytes(size);
  }

  lemma ReferenceBytesLayout(size: nat, ws: seq<Write>, k: nat)
    requires FieldsInside(ws, size) && k < |ws|
    requires |ws[k].block| < UINT32 && BlockStart(size, ws, k) - ws[k].at < UINT32
    ensures ReferenceBytes(size, ws, k) == LowFirst(BlockStart(size, ws, k) - ws[k].at) + LowFirst(|ws[k].block|)
  {
    HalvesLayout(|ws[k].block|, BlockStart(size, ws, k) - ws[k].at);
  }

  /** A reference is stored as the distance in its first four bytes and the length in the
      last four, each with the least significant byte first. */
  lemma ReferenceLayout(msg: seq<byte>, ws: seq<Write>, k: nat)
    requires FieldsInside(ws, |msg|) && FieldsApart(ws) && k < |ws|
    requires |ws[k].block| < UINT32 && BlockStart(|msg|, ws, k) - ws[k].at < UINT32
    ensures Packed(msg, ws)[HEADER + ws[k].at..HEADER + ws[k].at + FIELD]
         == LowFirst(BlockStart(|msg|, ws, k) - ws[k].at) + LowFirst(|ws[k].block|)
  {
    ReferenceStored(msg, ws, k);
    ReferenceBytesLayout(|msg|, ws, k);
  }

  lemma HeaderKept(msg: seq<byte>, ws: seq<Write>)
    requires FieldsInside(ws, |msg|)
    ensures Packed(msg, ws)[..HEADER] == Header(HEADER + ContentSize(|msg|, ws))
  {
  }

  /** The header is the size of the message, cut to 32 bits, with the least significant byte
      first, and a channel of zero. */
  lemma HeaderLayout(msg: seq<byte>, ws: seq<Write>)
    requires FieldsInside(ws, |msg|)
    ensures Packed(msg, ws)[..HEADER] == LowFirst(|Packed(msg, ws)| % UINT32) + [0, 0, 0, 0]
  {
    HeaderKept(msg, ws);
    FourBytes(|Packed(msg, ws)| % UINT32);
    FourBytes(0);
  }
}
