/** The contents of the block log and of its offset index for a history of appended blocks (block_log.cpp). */
module BlockLogState {
  import opened Common

  type Byte = x: nat | x < 256

  // ---- 64-bit words in a file

  function Encode(p: nat, n: nat): (s: seq<Byte>)
    ensures |s| == n
  {
    if n == 0 then [] else [p % 256] + Encode(p / 256, n - 1)
  }

  function Decode(s: seq<Byte>): nat {
    if s == [] then 0 else s[0] + 256 * Decode(s[1..])
  }

  function Pow256(n: nat): nat { if n == 0 then 1 else 256 * Pow256(n - 1) }

  lemma {:induction false} DecodeEncode(p: nat, n: nat)
    requires p < Pow256(n)
    ensures Decode(Encode(p, n)) == p
  {
    if n > 0 { DecodeEncode(p / 256, n - 1); }
  }

  function Word(p: nat): (s: seq<Byte>)
    ensures |s| == 8
  {
    Encode(p, 8)
  }

  lemma WordRoundTrip(p: nat)
    requires p < B64
    ensures Decode(Word(p)) == p
  {
    assert Pow256(4) == B32;
    assert Pow256(8) == 256 * 256 * 256 * 256 * Pow256(4);
    DecodeEncode(p, 8);
  }

  // ---- Blocks in a file

  /** How blocks are packed, unpacked and numbered. */
  datatype Codec<!B> = Codec(pack: B -> seq<Byte>, unpack: seq<Byte> -> Option<(B, nat)>, num: B -> nat)

  /** Packing is self-delimiting: unpacking finds the block and its length whatever follows. */
  ghost predicate SelfDelimiting<B(!new)>(c: Codec<B>) {
    forall b: B, rest: seq<Byte> {:trigger c.unpack(c.pack(b) + rest)} ::
      c.unpack(c.pack(b) + rest) == Some((b, |c.pack(b)|))
  }

  function Record<B>(c: Codec<B>, b: B, pos: nat): seq<Byte> { c.pack(b) + Word(pos) }

  /** The log file after appending the blocks in order. */
  function LogOf<B>(c: Codec<B>, bs: seq<B>): seq<Byte> {
    if bs == [] then []
    else
      var log := LogOf(c, bs[..|bs| - 1]);
      log + Record(c, bs[|bs| - 1], |log|)
  }

  function Offset<B>(c: Codec<B>, bs: seq<B>, i: nat): nat
    requires i <= |bs|
  {
    |LogOf(c, bs[..i])|
  }

  /** The index file: the offset of every block. */
  function IndexOf<B>(c: Codec<B>, bs: seq<B>): seq<Byte> {
    if bs == [] then [] else IndexOf(c, bs[..|bs| - 1]) + Word(Offset(c, bs, |bs| - 1))
  }

  lemma PrefixOfPrefix<B>(bs: seq<B>, i: nat)
    requires i < |bs|
    ensures bs[..i + 1][..i] == bs[..i] && bs[..i + 1][i] == bs[i]
  {
  }

  lemma LogStep<B>(c: Codec<B>, bs: seq<B>, i: nat)
    requires i < |bs|
    ensures LogOf(c, bs[..i + 1]) == LogOf(c, bs[..i]) + Record(c, bs[i], Offset(c, bs, i))
    ensures Offset(c, bs, i + 1) == Offset(c, bs, i) + |c.pack(bs[i])| + 8
  {
    PrefixOfPrefix(bs, i);
  }

  lemma {:induction false} LogPrefix<B>(c: Codec<B>, bs: seq<B>, i: nat)
    requires i <= |bs|
    ensures LogOf(c, bs[..i]) <= LogOf(c, bs)
    decreases |bs|
  {
    if i == |bs| {
      assert bs[..i] == bs;
    } else {
      var shorter := bs[..|bs| - 1];
      LogPrefix(c, shorter, i);
      assert shorter[..i] == bs[..i];
    }
  }

  lemma {:induction false} OffsetsIncrease<B>(c: Codec<B>, bs: seq<B>, i: nat, j: nat)
    requires i < j <= |bs|
    ensures Offset(c, bs, i) + 8 <= Offset(c, bs, j)
    decreases j
  {
    LogStep(c, bs, j - 1);
    if i < j - 1 { OffsetsIncrease(c, bs, i, j - 1); }
  }

  lemma Cut(before: seq<Byte>, packed: seq<Byte>, word: seq<Byte>, after: seq<Byte>)
    ensures var log := before + (packed + word) + after;
            var at := |before| + |packed|;
            log[|before|..] == packed + (word + after) && log[at..at + |word|] == word
  {
  }

  /** At its offset a block is unpacked whole, and the word behind it is the offset itself. */
  lemma ReadAt<B(!new)>(c: Codec<B>, bs: seq<B>, i: nat)
    requires SelfDelimiting(c) && i < |bs| && |LogOf(c, bs)| < B64
    ensures var log, at := LogOf(c, bs), Offset(c, bs, i);
            var length := |c.pack(bs[i])|;
            && at + length + 8 == Offset(c, bs, i + 1) <= |log|
            && c.unpack(log[at..]) == Some((bs[i], length))
            && Decode(log[at + length..at + length + 8]) == at
  {
    var after := RecordAt(c, bs, i);
    var before, packed := LogOf(c, bs[..i]), c.pack(bs[i]);
    var word := Word(|before|);
    Cut(before, packed, word, after);
    WordRoundTrip(|before|);
    assert c.unpack(packed + (word + after)) == Some((bs[i], |packed|));
  }

  lemma RecordAt<B>(c: Codec<B>, bs: seq<B>, i: nat) returns (after: seq<Byte>)
    requires i < |bs|
    ensures LogOf(c, bs) == LogOf(c, bs[..i]) + (c.pack(bs[i]) + Word(Offset(c, bs, i))) + after
    ensures Offset(c, bs, i + 1) == Offset(c, bs, i) + |c.pack(bs[i])| + 8
  {
    LogStep(c, bs, i);
    LogPrefix(c, bs, i + 1);
    after := LogOf(c, bs)[Offset(c, bs, i + 1)..];
  }

  lemma {:induction false} IndexSize<B>(c: Codec<B>, bs: seq<B>)
    ensures |IndexOf(c, bs)| == 8 * |bs|
  {
    if bs != [] { IndexSize(c, bs[..|bs| - 1]); }
  }

  /** The i-th word of the index is the offset of block i. */
  lemma {:induction false} IndexAt<B>(c: Codec<B>, bs: seq<B>, i: nat)
    requires i < |bs| && |LogOf(c, bs)| < B64
    ensures |IndexOf(c, bs)| == 8 * |bs| && Decode(IndexOf(c, bs)[8 * i..8 * i + 8]) == Offset(c, bs, i)
    decreases |bs|
  {
    IndexSize(c, bs);
    var shorter := bs[..|bs| - 1];
    IndexSize(c, shorter);
    LogPrefix(c, bs, |bs| - 1);
    if i == |bs| - 1 {
      WordRoundTrip(Offset(c, bs, i));
      assert IndexOf(c, bs)[8 * i..8 * i + 8] == Word(Offset(c, bs, i));
    } else {
      IndexAt(c, shorter, i);
      assert shorter[..i] == bs[..i];
      assert IndexOf(c, bs)[8 * i..8 * i + 8] == IndexOf(c, shorter)[8 * i..8 * i + 8];
    }
  }

  lemma IndexStep<B>(c: Codec<B>, bs: seq<B>, i: nat)
    requires i < |bs|
    ensures IndexOf(c, bs[..i + 1]) == IndexOf(c, bs[..i]) + Word(Offset(c, bs, i))
  {
    PrefixOfPrefix(bs, i);
  }

  /** The last word of the log is the offset of the last block. */
  lemma LastWord<B(!new)>(c: Codec<B>, bs: seq<B>)
    requires SelfDelimiting(c) && bs != [] && |LogOf(c, bs)| < B64
    ensures var log := LogOf(c, bs);
            |log| >= 8 && Decode(log[|log| - 8..|log|]) == Offset(c, bs, |bs| - 1)
  {
    var log, before, packed := LogOf(c, bs), LogOf(c, bs[..|bs| - 1]), c.pack(bs[|bs| - 1]);
    var word := Word(|before|);
    assert log == before + (packed + word);
    assert log[|log| - 8..|log|] == word;
    WordRoundTrip(|before|);
  }

  lemma LastIndexWord<B>(c: Codec<B>, bs: seq<B>)
    requires bs != [] && |LogOf(c, bs)| < B64
    ensures var index := IndexOf(c, bs);
            |index| >= 8 && Decode(index[|index| - 8..|index|]) == Offset(c, bs, |bs| - 1)
  {
    IndexAt(c, bs, |bs| - 1);
  }

  /** The last positions of log and index agree exactly when both hold equally many blocks. */
  lemma SamePositions<B>(c: Codec<B>, history: seq<B>, k: nat, j: nat)
    requires 0 < k <= |history| && 0 < j <= |history|
    ensures Offset(c, history[..k], k - 1) == Offset(c, history[..j], j - 1) <==> k == j
  {
    assert history[..k][..k - 1] == history[..k - 1] && history[..j][..j - 1] == history[..j - 1];
    if k < j { OffsetsIncrease(c, history, k - 1, j - 1); }
    if j < k { OffsetsIncrease(c, history, j - 1, k - 1); }
  }
}
