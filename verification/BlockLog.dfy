/** The block log: an append-only file with an offset index that is checked and rebuilt on open (block_log.cpp). */
module BlockLogs {
  import opened Common
  import opened BlockLogState

  /** Thrown stands for a failed stream operation or a failed assertion. */
  datatype Result<T> = Ok(value: T) | Thrown

  const NPOS: nat := B64 - 1

  /** Where the index entry of a block number belongs; block numbers have 32 bits. */
  function Slot(num: nat): nat { 8 * ((num - 1) % B32) }

  lemma SlotOnly(num: nat, blocks: nat)
    requires num < B32 && blocks < B32 - 1
    ensures Slot(num) == 8 * blocks <==> num == blocks + 1
  {
  }

  class BlockLog<B(!new)> {
    const codec: Codec<B>
    var blockFile: seq<Byte>
    var indexFile: seq<Byte>
    var head: Option<B>

    constructor (codec: Codec<B>, blockFile: seq<Byte>, indexFile: seq<Byte>)
      ensures this.codec == codec && this.blockFile == blockFile && this.indexFile == indexFile && head.None?
    {
      this.codec, this.blockFile, this.indexFile, this.head := codec, blockFile, indexFile, None;
    }

    /** An append history: blocks numbered from one, in a file of fewer than 2^64 - 1 bytes. */
    ghost predicate History(bs: seq<B>)
    {
      && SelfDelimiting(codec) && |LogOf(codec, bs)| < NPOS && |bs| < B32 - 1
      && forall i :: 0 <= i < |bs| ==> codec.num(bs[i]) == i + 1
    }

    /** The log holds the blocks, the head is the last one. */
    ghost predicate Holds(bs: seq<B>)
      reads this
    {
      History(bs) && blockFile == LogOf(codec, bs) && head == if bs == [] then None else Some(bs[|bs| - 1])
    }

    /** And the index is complete. */
    ghost predicate Complete(bs: seq<B>)
      reads this
    {
      Holds(bs) && indexFile == IndexOf(codec, bs)
    }

    method ReadWord(file: seq<Byte>, at: int) returns (r: Result<nat>)
      ensures r == if 0 <= at && at + 8 <= |file| then Ok(Decode(file[at..at + 8])) else Thrown
    {
      if at < 0 || at + 8 > |file| { return Thrown; }
      return Ok(Decode(file[at..at + 8]));
    }

    /** read_block_helper: the block at a position, and the position behind its record. */
    method ReadBlock(pos: nat, ghost bs: seq<B>, ghost i: nat) returns (r: Result<(B, nat)>)
      requires Holds(bs) && i < |bs| && pos == Offset(codec, bs, i)
      ensures r == Ok((bs[i], Offset(codec, bs, i + 1)))
    {
      ReadAt(codec, bs, i);
      if pos > |blockFile| { return Thrown; }
      var unpacked := codec.unpack(blockFile[pos..]);
      if unpacked.None? { return Thrown; }
      return Ok((unpacked.value.0, pos + unpacked.value.1 + 8));
    }

    method ReadHead(ghost bs: seq<B>) returns (r: Result<B>)
      requires History(bs) && bs != [] && blockFile == LogOf(codec, bs)
      ensures r == Ok(bs[|bs| - 1])
    {
      LastWord(codec, bs);
      ReadAt(codec, bs, |bs| - 1);
      var pos := ReadWord(blockFile, |blockFile| - 8);
      if pos.Thrown? || pos.value > |blockFile| { return Thrown; }
      var unpacked := codec.unpack(blockFile[pos.value..]);
      if unpacked.None? { return Thrown; }
      return Ok(unpacked.value.0);
    }

    /** One block and the word behind it: the word and the new stream position. */
    method ReadRecord(at: nat, ghost bs: seq<B>, ghost i: nat) returns (r: Result<(nat, nat)>)
      requires Holds(bs) && i < |bs| && at == Offset(codec, bs, i)
      ensures r == Ok((Offset(codec, bs, i), Offset(codec, bs, i + 1)))
    {
      ReadAt(codec, bs, i);
      var unpacked := codec.unpack(blockFile[at..]);
      if unpacked.None? { return Thrown; }
      var word := ReadWord(blockFile, at + unpacked.value.1);
      if word.Thrown? { return Thrown; }
      return Ok((word.value, at + unpacked.value.1 + 8));
    }

    /** Rebuilds the index by reading the log from the start. With a single block the loop does not run. */
    method ConstructIndex(ghost bs: seq<B>) returns (ok: bool)
      requires Holds(bs) && bs != []
      modifies this`indexFile
      ensures ok && indexFile == if |bs| == 1 then [] else IndexOf(codec, bs)
    {
      indexFile := [];
      LastWord(codec, bs);
      var last := ReadWord(blockFile, |blockFile| - 8);
      if last.Thrown? { return false; }
      var pos, at := 0, 0;
      ghost var i := 0;
      assert bs[..0] == [];
      while pos < last.value
        invariant i <= |bs| && at == Offset(codec, bs, i) && indexFile == IndexOf(codec, bs[..i])
        invariant pos == if i == 0 then 0 else Offset(codec, bs, i - 1)
        invariant last.value == Offset(codec, bs, |bs| - 1) && (|bs| == 1 ==> i == 0)
        decreases |bs| - i
      {
        var record := ReadRecord(at, bs, i);
        if record.Thrown? { return false; }
        pos, at := record.value.0, record.value.1;
        indexFile := indexFile + Word(pos);
        IndexStep(codec, bs, i);
        i := i + 1;
      }
      if i < |bs| && |bs| > 1 { OffsetsIncrease(codec, bs, if i == 0 then 0 else i - 1, |bs| - 1); }
      assert bs[..|bs|] == bs;
      return true;
    }

    /** Recovery: whatever prefixes of one history the two files hold, open leaves the complete index of the log,
        except for a log of one block with an index of any other length, whose index is left empty. */
    method Open(ghost history: seq<B>, ghost k: nat, ghost j: nat) returns (ok: bool)
      requires History(history) && k <= |history| && j <= |history| && head.None?
      requires blockFile == LogOf(codec, history[..k]) && indexFile == IndexOf(codec, history[..j])
      modifies this
      ensures ok && Holds(history[..k])
      ensures indexFile == if k == 1 && j != 1 then [] else IndexOf(codec, history[..k])
    {
      PrefixHistory(history, k);
      IndexSize(codec, history[..j]);
      if |blockFile| != 0 {
        var read := ReadHead(history[..k]);
        if read.Thrown? { return false; }
        head := Some(read.value);
        if |indexFile| != 0 {
          ok := CheckIndex(history, k, j);
        } else {
          ok := ConstructIndex(history[..k]);
        }
      } else {
        if |indexFile| != 0 { indexFile := []; }
        ok := true;
      }
    }

    /** Both files are nonempty: their last positions decide whether the index is rebuilt. */
    method CheckIndex(ghost history: seq<B>, ghost k: nat, ghost j: nat) returns (ok: bool)
      requires History(history) && 0 < k <= |history| && 0 < j <= |history| && Holds(history[..k])
      requires indexFile == IndexOf(codec, history[..j])
      modifies this`indexFile
      ensures ok && indexFile == if k == 1 && j != 1 then [] else IndexOf(codec, history[..k])
    {
      PrefixHistory(history, j);
      SamePositions(codec, history, k, j);
      var blockPos, indexPos := LastPositions(history[..k], history[..j]);
      if blockPos.Thrown? || indexPos.Thrown? { return false; }
      if blockPos.value < indexPos.value {
        ok := ConstructIndex(history[..k]);
      } else if blockPos.value > indexPos.value {
        ok := ConstructIndex(history[..k]);
      } else {
        ok := true;
      }
    }

    method LastPositions(ghost bs: seq<B>, ghost indexed: seq<B>) returns (blockPos: Result<nat>, indexPos: Result<nat>)
      requires Holds(bs) && bs != [] && History(indexed) && indexed != [] && indexFile == IndexOf(codec, indexed)
      ensures blockPos == Ok(Offset(codec, bs, |bs| - 1)) && indexPos == Ok(Offset(codec, indexed, |indexed| - 1))
    {
      LastWord(codec, bs);
      LastIndexWord(codec, indexed);
      blockPos := ReadWord(blockFile, |blockFile| - 8);
      indexPos := ReadWord(indexFile, |indexFile| - 8);
    }

    lemma PrefixHistory(history: seq<B>, k: nat)
      requires History(history) && k <= |history|
      ensures History(history[..k]) && (k > 0 ==> LogOf(codec, history[..k]) != [])
    {
      LogPrefix(codec, history, k);
      if k > 0 { LogStep(codec, history, k - 1); }
    }

    /** Appends the next block, or fails without a change when the number does not follow the index. In the
        exceptional state that open can leave, the next block is refused, and another block numbered one is written
        behind the first. */
    method Append(b: B, ghost bs: seq<B>) returns (r: Result<nat>)
      requires Holds(bs) && (indexFile == IndexOf(codec, bs) || indexFile == [])
      requires codec.num(b) < B32 && |LogOf(codec, bs + [b])| < NPOS && |bs| + 1 < B32 - 1
      modifies this
      ensures old(Complete(bs)) ==> (r.Ok? <==> codec.num(b) == |bs| + 1)
      ensures old(indexFile) == [] && bs != [] ==> (r.Ok? <==> codec.num(b) == 1)
      ensures r.Thrown? ==> blockFile == old(blockFile) && indexFile == old(indexFile) && head == old(head)
      ensures r.Ok? ==> r.value == |old(blockFile)| && head == Some(b)
      ensures r.Ok? ==> blockFile == old(blockFile) + Record(codec, b, r.value)
      ensures r.Ok? ==> indexFile == old(indexFile) + Word(r.value)
      ensures r.Ok? && old(Complete(bs)) ==> Complete(bs + [b])
    {
      NextBlock(bs, b);
      SlotOnly(codec.num(b), |bs|);
      SlotOnly(codec.num(b), 0);
      var pos := |blockFile|;
      if |indexFile| != Slot(codec.num(b)) { return Thrown; }
      blockFile := blockFile + Record(codec, b, pos);
      indexFile := indexFile + Word(pos);
      head := Some(b);
      return Ok(pos);
    }

    lemma NextBlock(bs: seq<B>, b: B)
      requires History(bs) && |LogOf(codec, bs + [b])| < NPOS && |bs| + 1 < B32 - 1
      ensures |IndexOf(codec, bs)| == 8 * |bs|
      ensures codec.num(b) == |bs| + 1 ==> History(bs + [b])
      ensures LogOf(codec, bs + [b]) == LogOf(codec, bs) + Record(codec, b, |LogOf(codec, bs)|)
      ensures IndexOf(codec, bs + [b]) == IndexOf(codec, bs) + Word(|LogOf(codec, bs)|)
    {
      assert (bs + [b])[..|bs|] == bs;
      IndexSize(codec, bs);
    }

    lemma EntryOf(bs: seq<B>, i: nat)
      requires History(bs) && i < |bs|
      ensures var index := IndexOf(codec, bs);
              |index| == 8 * |bs| && Decode(index[8 * i..8 * i + 8]) == Offset(codec, bs, i) < NPOS
    {
      IndexAt(codec, bs, i);
      LogPrefix(codec, bs, i);
    }

    method GetBlockPos(num: nat, ghost bs: seq<B>) returns (r: Result<nat>)
      requires Holds(bs) && (indexFile == IndexOf(codec, bs) || indexFile == [])
      ensures !(1 <= num <= |bs|) ==> r == Ok(NPOS)
      ensures 1 <= num <= |bs| && indexFile == [] ==> r.Thrown?
      ensures 1 <= num <= |bs| && indexFile != [] ==> r == Ok(Offset(codec, bs, num - 1)) && r.value < NPOS
    {
      if !(head.Some? && num <= codec.num(head.value) && num > 0) { return Ok(NPOS); }
      EntryOf(bs, num - 1);
      r := ReadWord(indexFile, 8 * (num - 1));
    }

    /** With a complete index, block n is the n-th appended block, and there is no other. With the empty index of the
        exception above, reading the one block throws. */
    method ReadBlockByNum(num: nat, ghost bs: seq<B>) returns (r: Result<Option<B>>)
      requires Holds(bs) && (indexFile == IndexOf(codec, bs) || indexFile == [])
      ensures !(1 <= num <= |bs|) ==> r == Ok(None)
      ensures 1 <= num <= |bs| ==> r == if indexFile == [] then Thrown else Ok(Some(bs[num - 1]))
    {
      var pos := GetBlockPos(num, bs);
      if pos.Thrown? { return Thrown; }
      if pos.value == NPOS { return Ok(None); }
      var read := ReadBlock(pos.value, bs, num - 1);
      if read.Thrown? || codec.num(read.value.0) != num { return Thrown; }
      return Ok(Some(read.value.0));
    }
  }
}
