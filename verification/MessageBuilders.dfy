/** The builder that collects the blocks of a message and packs it. */
module MessageBuilders {
  import opened Messages

  method Memcpy(target: array<byte>, at: nat, source: seq<byte>)
    requires at + |source| <= target.Length
    modifies target
    ensures target[..] == Overwrite(old(target[..]), at, source)
  {
    for i := 0 to |source|
      invariant target[..at] == old(target[..at])
      invariant target[at..at + i] == source[..i]
      invariant target[at + i..] == old(target[at + i..])
    {
      target[at + i] := source[i];
    }
  }

  // The references written so far do not depend on later ones.
  lemma {:induction false} FixedPrefix(msg: seq<byte>, ws: seq<Write>, w: Write, n: nat)
    requires FieldsInside(ws, |msg|) && FieldsInside(ws + [w], |msg|) && n <= |ws|
    ensures Fixed(msg, ws + [w], n) == Fixed(msg, ws, n)
  {
    if n > 0 {
      FixedPrefix(msg, ws, w, n - 1);
      assert (ws + [w])[..n - 1] == ws[..n - 1];
    }
  }

  lemma ReferenceSnoc(size: nat, ws: seq<Write>, w: Write)
    requires FieldsInside(ws, size) && w.at + FIELD <= size
    ensures FieldsInside(ws + [w], size)
    ensures ReferenceBytes(size, ws + [w], |ws|) == Bytes(Reference(|w.block|, BlockStart(size, ws, |ws|) - w.at), FIELD)
  {
    assert (ws + [w])[..|ws|] == ws[..|ws|];
  }

  lemma FixedSnoc(msg: seq<byte>, ws: seq<Write>, w: Write)
    requires FieldsInside(ws, |msg|) && w.at + FIELD <= |msg|
    ensures FieldsInside(ws + [w], |msg|)
    ensures Fixed(msg, ws + [w], |ws| + 1) == Overwrite(Fixed(msg, ws, |ws|), w.at, ReferenceBytes(|msg|, ws + [w], |ws|))
  {
    FixedPrefix(msg, ws, w, |ws|);
  }

  lemma StartSnoc(size: nat, ws: seq<Write>, w: Write)
    ensures BlockStart(size, ws + [w], |ws| + 1) == BlockStart(size, ws, |ws|) + |w.block|
  {
    assert (ws + [w])[..|ws| + 1] == ws + [w];
    assert (ws + [w])[..|ws|] == ws == ws[..|ws|];
  }

  lemma OverwritesCommute(bs: seq<byte>, at: nat, part: seq<byte>, at': nat, part': seq<byte>)
    requires at + |part| <= |bs| && at' + |part'| <= |bs|
    requires at + |part| <= at' || at' + |part'| <= at
    ensures Overwrite(Overwrite(bs, at, part), at', part') == Overwrite(Overwrite(bs, at', part'), at, part)
  {
  }

  // The blocks to be copied are those of the references.
  ghost predicate Holds(blocks: seq<seq<byte>>, sizes: seq<nat>, ws: seq<Write>) {
    && |ws| <= |blocks| == |sizes|
    && forall i :: 0 <= i < |ws| ==> sizes[i] <= |blocks[i]| && blocks[i][..sizes[i]] == ws[i].block
  }

  lemma HoldsSnoc(blocks: seq<seq<byte>>, sizes: seq<nat>, ws: seq<Write>, block: seq<byte>, size: nat, at: nat)
    requires Holds(blocks, sizes, ws) && |ws| < |blocks| && size <= |block|
    ensures Holds(blocks[|ws| := block], sizes[|ws| := size], ws + [Write(at, block[..size])])
  {
  }

  lemma OverwriteExtends(bs: seq<byte>, at: nat, part: seq<byte>)
    requires at + |part| <= |bs|
    ensures Overwrite(bs, at, part)[..at + |part|] == bs[..at] + part
  {
  }

  predicate ClearOf(ws: seq<Write>, at: nat, size: nat) {
    forall k :: 0 <= k < |ws| ==> at + size <= ws[k].at || ws[k].at + FIELD <= at
  }

  // Writing elsewhere in the fixed part commutes with the references.
  lemma {:induction false} FixedOverwrite(msg: seq<byte>, ws: seq<Write>, at: nat, part: seq<byte>, n: nat)
    requires FieldsInside(ws, |msg|) && at + |part| <= |msg| && ClearOf(ws, at, |part|) && n <= |ws|
    ensures Fixed(Overwrite(msg, at, part), ws, n) == Overwrite(Fixed(msg, ws, n), at, part)
  {
    if n > 0 {
      FixedOverwrite(msg, ws, at, part, n - 1);
      OverwritesCommute(Fixed(msg, ws, n - 1), at, part, ws[n - 1].at, ReferenceBytes(|msg|, ws, n - 1));
    }
  }

  class MessageBuilder {
    const msg: array<byte>
    const blocks: array<seq<byte>>
    const blockSizes: array<nat>
    var nextBlock: nat
    var offset: nat
    // The fixed part without its references, and the references in the order of writing.
    ghost var plain: seq<byte>
    ghost var writes: seq<Write>

    ghost predicate Valid()
      reads this, msg, blocks, blockSizes
    {
      && blocks.Length == blockSizes.Length == MAX_BLOCKS
      && (msg as object) != blockSizes
      && nextBlock == |writes| <= MAX_BLOCKS
      && |plain| == msg.Length && FieldsInside(writes, |plain|)
      && msg[..] == Fixed(plain, writes, |writes|)
      && offset == BlockStart(|plain|, writes, |writes|)
      && Holds(blocks[..], blockSizes[..], writes)
    }

    constructor (size: nat)
      ensures Valid() && fresh(msg) && fresh(blocks) && fresh(blockSizes)
      ensures writes == [] && plain == seq(size, _ => 0)
    {
      msg := new byte[size](_ => 0);
      blocks := new seq<byte>[MAX_BLOCKS](_ => []);
      blockSizes := new nat[MAX_BLOCKS](_ => 0);
      nextBlock, offset := 0, size;
      plain, writes := seq(size, _ => 0), [];
      new;
      assert msg[..] == plain;
    }

    // An ordinary field of the message.
    method Assign(at: nat, bytes: seq<byte>)
      requires Valid() && at + |bytes| <= msg.Length && ClearOf(writes, at, |bytes|)
      modifies this`plain, msg
      ensures Valid() && writes == old(writes) && plain == Overwrite(old(plain), at, bytes)
    {
      FixedOverwrite(plain, writes, at, bytes, |writes|);
      Memcpy(msg, at, bytes);
      plain := Overwrite(plain, at, bytes);
    }

    method WriteString(at: nat, str: seq<byte>) returns (ok: bool)
      requires Valid() && at + FIELD <= msg.Length
      modifies this, msg, blocks, blockSizes
      ensures Valid() && plain == old(plain)
      ensures ok <==> |old(writes)| < 16
      ensures writes == old(writes) + if ok then [Write(at, str + [0])] else []
    {
      assert (str + [0])[..|str| + 1] == str + [0];
      ok := AddBlock(at, str + [0], |str| + 1);
    }

    method WriteBlob(at: nat, blob: seq<byte>, blobSize: nat) returns (ok: bool)
      requires Valid() && at + FIELD <= msg.Length && blobSize <= |blob|
      modifies this, msg, blocks, blockSizes
      ensures Valid() && plain == old(plain)
      ensures ok <==> |old(writes)| < 16
      ensures writes == old(writes) + if ok then [Write(at, blob[..blobSize])] else []
    {
      ok := AddBlock(at, blob, blobSize);
    }

    // At most 16 blocks; the block is only referred to until the message is packed.
    method AddBlock(at: nat, block: seq<byte>, size: nat) returns (ok: bool)
      requires Valid() && at + FIELD <= msg.Length && size <= |block|
      modifies this, msg, blocks, blockSizes
      ensures Valid() && plain == old(plain)
      ensures ok <==> |old(writes)| < 16
      ensures writes == old(writes) + if ok then [Write(at, block[..size])] else []
    {
      if nextBlock >= MAX_BLOCKS {
        return false;
      }
      ghost var w := Write(at, block[..size]);
      StoreReference(at, size, w);
      RememberBlock(block, size, w);
      return true;
    }

    // The block itself, to be copied when the message is packed.
    method RememberBlock(block: seq<byte>, size: nat, ghost w: Write)
      requires Holds(blocks[..], blockSizes[..], writes) && nextBlock == |writes| < blocks.Length && size <= |block|
      requires w.block == block[..size] && offset == BlockStart(|plain|, writes, |writes|)
      modifies this`nextBlock, this`offset, this`writes, blocks, blockSizes
      ensures Holds(blocks[..], blockSizes[..], writes) && nextBlock == |writes|
      ensures writes == old(writes) + [w] && offset == BlockStart(|plain|, writes, |writes|)
    {
      HoldsSnoc(blocks[..], blockSizes[..], writes, block, size, w.at);
      StartSnoc(|plain|, writes, w);
      blocks[nextBlock] := block;
      blockSizes[nextBlock] := size;
      nextBlock := nextBlock + 1;
      offset := offset + size;
      writes := writes + [w];
    }

    // The reference to a block that will start where the message ends so far.
    method StoreReference(at: nat, size: nat, ghost w: Write)
      requires Valid() && at + FIELD <= msg.Length && w.at == at && |w.block| == size
      modifies msg
      ensures FieldsInside(writes + [w], |plain|) && msg[..] == Fixed(plain, writes + [w], |writes| + 1)
    {
      var distance := offset - at;
      FixedSnoc(plain, writes, w);
      ReferenceSnoc(|plain|, writes, w);
      Memcpy(msg, at, Bytes(Reference(size, distance), FIELD));
    }

    /** The packed message, which the reader's lemmas are about. */
    method Pack() returns (buffer: array<byte>)
      requires Valid() && offset < UINT32
      ensures fresh(buffer) && buffer[..] == Packed(plain, writes)
    {
      OffsetIsSize(|plain|, writes);
      ghost var front := Header(HEADER + offset) + Fixed(plain, writes, |writes|);
      buffer := PackBehind(front);
    }

    // A new buffer: the front, and the blocks behind it.
    method PackBehind(ghost front: seq<byte>) returns (buffer: array<byte>)
      requires Holds(blocks[..], blockSizes[..], writes) && nextBlock == |writes|
      requires front == Header(HEADER + offset) + msg[..] && offset == msg.Length + |Blocks(writes)|
      ensures fresh(buffer) && buffer[..] == front + Blocks(writes)
    {
      buffer := StartBuffer(front);
      CopyBlocks(buffer, front, HEADER + msg.Length);
      LaidOutWhole(buffer[..], front, writes);
    }

    // The blocks, one after the other behind what is there.
    method CopyBlocks(buffer: array<byte>, ghost front: seq<byte>, start: nat)
      requires Holds(blocks[..], blockSizes[..], writes) && nextBlock == |writes|
      requires start == |front| && buffer.Length == start + |Blocks(writes)| && LaidOut(buffer[..], front, writes, 0)
      modifies buffer
      ensures LaidOut(buffer[..], front, writes, |writes|)
    {
      ghost var held, sizes := blocks[..], blockSizes[..];
      var counter := start;
      for i := 0 to nextBlock
        invariant held == blocks[..] && sizes == blockSizes[..]
        invariant counter == start + |Blocks(writes[..i])| && LaidOut(buffer[..], front, writes, i)
      {
        var size := blockSizes[i];
        assert sizes[i] == size && held[i] == blocks[i];
        LaidOutNext(buffer[..], front, writes, i);
        Memcpy(buffer, counter, blocks[i][..size]);
        counter := counter + size;
      }
    }

    // A new buffer with the header, which has channel 0, and the fixed part.
    method StartBuffer(ghost front: seq<byte>) returns (buffer: array<byte>)
      requires HEADER + msg.Length <= HEADER + offset && front == Header(HEADER + offset) + msg[..]
      ensures fresh(buffer) && buffer.Length == HEADER + offset && LaidOut(buffer[..], front, writes, 0)
    {
      buffer := new byte[HEADER + offset];
      var total := (HEADER + offset) % UINT32;
      OverwriteExtends(buffer[..], 0, Bytes(total, 4));
      Memcpy(buffer, 0, Bytes(total, 4));
      OverwriteExtends(buffer[..], 4, Bytes(0, 4));
      Memcpy(buffer, 4, Bytes(0, 4));
      OverwriteExtends(buffer[..], HEADER, msg[..]);
      Memcpy(buffer, HEADER, msg[..]);
      LaidOutFront(buffer[..], front, writes);
    }
  }

  lemma OffsetIsSize(size: nat, ws: seq<Write>)
    ensures BlockStart(size, ws, |ws|) == ContentSize(size, ws)
  {
    assert ws[..|ws|] == ws;
  }

  // The front and the first i blocks are in place.
  ghost predicate LaidOut(buffer: seq<byte>, front: seq<byte>, ws: seq<Write>, i: nat) {
    && i <= |ws| && |front| + |Blocks(ws[..i])| <= |buffer|
    && buffer[..|front| + |Blocks(ws[..i])|] == front + Blocks(ws[..i])
  }

  lemma LaidOutFront(buffer: seq<byte>, front: seq<byte>, ws: seq<Write>)
    requires |front| <= |buffer| && buffer[..|front|] == front
    ensures LaidOut(buffer, front, ws, 0)
  {
  }

  lemma LaidOutNext(buffer: seq<byte>, front: seq<byte>, ws: seq<Write>, i: nat)
    requires LaidOut(buffer, front, ws, i) && i < |ws| && |buffer| == |front| + |Blocks(ws)|
    ensures var at := |front| + |Blocks(ws[..i])|;
            && at + |ws[i].block| <= |buffer|
            && |Blocks(ws[..i + 1])| == |Blocks(ws[..i])| + |ws[i].block|
            && LaidOut(Overwrite(buffer, at, ws[i].block), front, ws, i + 1)
  {
    BlocksSnoc(ws, i);
    BlockInside(ws, i);
    OverwriteExtends(buffer, |front| + |Blocks(ws[..i])|, ws[i].block);
  }

  lemma LaidOutWhole(buffer: seq<byte>, front: seq<byte>, ws: seq<Write>)
    requires LaidOut(buffer, front, ws, |ws|) && |buffer| == |front| + |Blocks(ws)|
    ensures buffer == front + Blocks(ws)
  {
    assert ws[..|ws|] == ws;
  }

  lemma BlocksSnoc(ws: seq<Write>, i: nat)
    requires i < |ws|
    ensures Blocks(ws[..i + 1]) == Blocks(ws[..i]) + ws[i].block
  {
    assert ws[..i + 1][..i] == ws[..i];
  }
}
