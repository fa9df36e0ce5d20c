/** The transaction Merkle root: an in-place bottom-up pairing loop (block.cpp). */
module MerkleRoot {
  import opened Common

  function Split(n: nat): (k: nat)
    requires n >= 2
    ensures 1 <= k < n <= 2 * k
  {
    if n == 2 then 1 else 2 * Split((n + 1) / 2)
  }

  /** With its bounds, this makes Split the largest power of two strictly below n. */
  lemma {:induction false} SplitIsPower(n: nat) returns (e: nat)
    requires n >= 2
    ensures Split(n) == Pow2(e)
  {
    if n == 2 { return 0; }
    e := SplitIsPower((n + 1) / 2);
    e := e + 1;
  }

  /** The top-down tree of section 2.1 of RFC 6962, without its prefixes: split at the largest power of two. */
  function Root<D>(pair: (D, D) -> D, s: seq<D>): D
    requires s != []
  {
    if |s| == 1 then s[0]
    else pair(Root(pair, s[..Split(|s|)]), Root(pair, s[Split(|s|)..]))
  }

  /** One round: neighbours are hashed in pairs, an odd last element is promoted. */
  function LevelAt<D>(pair: (D, D) -> D, s: seq<D>, i: nat): D
    requires 2 * i < |s|
  {
    if 2 * i + 1 < |s| then pair(s[2 * i], s[2 * i + 1]) else s[2 * i]
  }

  function Level<D>(pair: (D, D) -> D, s: seq<D>): seq<D> {
    seq((|s| + 1) / 2, i requires 0 <= i < (|s| + 1) / 2 => LevelAt(pair, s, i))
  }

  lemma LevelSplits<D>(pair: (D, D) -> D, s: seq<D>, k: nat)
    requires k <= |s| && k % 2 == 0
    ensures Level(pair, s) == Level(pair, s[..k]) + Level(pair, s[k..])
  {
    var l, r := Level(pair, s[..k]), Level(pair, s[k..]);
    forall i | 0 <= i < |Level(pair, s)| ensures Level(pair, s)[i] == (l + r)[i] {
      if i >= k / 2 { assert s[k..][2 * (i - k / 2)] == s[2 * i]; }
    }
  }

  /** A round of the bottom-up algorithm does not change the top-down root. */
  lemma {:induction false} LevelKeepsRoot<D>(pair: (D, D) -> D, s: seq<D>)
    requires |s| >= 1
    ensures Root(pair, Level(pair, s)) == Root(pair, s)
    decreases |s|
  {
    var t := Level(pair, s);
    if |s| == 1 {
      assert t == [s[0]];
    } else if |s| == 2 {
      assert t == [pair(s[0], s[1])];
      assert Root(pair, s[..1]) == s[0] && Root(pair, s[1..]) == s[1];
    } else {
      var h := Split(|t|);
      assert Split(|s|) == 2 * h;
      LevelSplits(pair, s, 2 * h);
      assert t[..h] == Level(pair, s[..2 * h]) && t[h..] == Level(pair, s[2 * h..]);
      LevelKeepsRoot(pair, s[..2 * h]);
      LevelKeepsRoot(pair, s[2 * h..]);
    }
  }

  /** The pairing loop, in place: the write position never passes the next unread pair. */
  method HashPairs<D>(pair: (D, D) -> D, ids: array<D>, n: nat, iMax: nat) returns (k: nat)
    requires iMax <= n <= ids.Length && iMax == n - n % 2
    modifies ids
    ensures 2 * k == iMax
    ensures forall j :: 0 <= j < k ==> ids[j] == LevelAt(pair, old(ids[..n]), j)
    ensures forall j :: iMax <= j < n ==> ids[j] == old(ids[j])
  {
    k := 0;
    var i := 0;
    while i < iMax
      invariant i == 2 * k <= iMax
      invariant forall j :: i <= j < n ==> ids[j] == old(ids[j])
      invariant forall j :: 0 <= j < k ==> ids[j] == LevelAt(pair, old(ids[..n]), j)
    {
      ids[k] := pair(ids[i], ids[i + 1]);
      k, i := k + 1, i + 2;
    }
  }

  /** One round in place. */
  method HashLevel<D>(pair: (D, D) -> D, ids: array<D>, n: nat) returns (k: nat)
    requires 1 < n <= ids.Length
    modifies ids
    ensures 1 <= k < n && ids[..k] == Level(pair, old(ids[..n]))
  {
    var iMax := n - n % 2;
    k := HashPairs(pair, ids, n, iMax);
    if n % 2 == 1 {
      ids[k] := ids[iMax];
      k := k + 1;
    }
  }

  /** The whole computation: empty gives the default checksum, otherwise the hash of the top-down root. */
  method CalculateMerkleRoot<D(0), T, C>(transactions: seq<T>, digest: T -> D, pair: (D, D) -> D, hash: D -> C, none: C)
    returns (root: C)
    ensures root == MerkleChecksum(transactions, digest, pair, hash, none)
  {
    if |transactions| == 0 { return none; }
    var ids := new D[|transactions|];
    for i := 0 to |transactions|
      invariant forall j :: 0 <= j < i ==> ids[j] == digest(transactions[j])
    {
      ids[i] := digest(transactions[i]);
    }
    var n := ids.Length;
    assert ids[..n] == Digests(transactions, digest);
    while n > 1
      invariant 1 <= n <= ids.Length
      invariant Root(pair, ids[..n]) == Root(pair, Digests(transactions, digest))
    {
      LevelKeepsRoot(pair, ids[..n]);
      n := HashLevel(pair, ids, n);
    }
    return hash(ids[0]);
  }

  function Digests<D, T>(transactions: seq<T>, digest: T -> D): seq<D> {
    seq(|transactions|, i requires 0 <= i < |transactions| => digest(transactions[i]))
  }

  function MerkleChecksum<D, T, C>(transactions: seq<T>, digest: T -> D, pair: (D, D) -> D, hash: D -> C, none: C): C {
    if transactions == [] then none else hash(Root(pair, Digests(transactions, digest)))
  }

  ghost predicate PairInjective<D(!new)>(pair: (D, D) -> D) {
    forall a, b, c, d :: pair(a, b) == pair(c, d) ==> a == c && b == d
  }

  /** Under an injective pair hash the root of a list of known length determines the list. */
  lemma {:induction false} RootDetermines<D(!new)>(pair: (D, D) -> D, s: seq<D>, t: seq<D>)
    requires PairInjective(pair) && |s| == |t| > 0 && Root(pair, s) == Root(pair, t)
    ensures s == t
    decreases |s|
  {
    if |s| > 1 {
      var k := Split(|s|);
      RootDetermines(pair, s[..k], t[..k]);
      RootDetermines(pair, s[k..], t[k..]);
      assert s == s[..k] + s[k..] && t == t[..k] + t[k..];
    }
  }

  /** Blocks with equally many transactions and the same Merkle checksum hold the same transactions, when the
      three hashes are injective. */
  lemma ChecksumDetermines<D(!new), T(!new), C(!new)>(s: seq<T>, t: seq<T>, digest: T -> D, pair: (D, D) -> D,
                                                      hash: D -> C, none: C)
    requires PairInjective(pair)
    requires forall a, b :: digest(a) == digest(b) ==> a == b
    requires forall a, b :: hash(a) == hash(b) ==> a == b
    requires |s| == |t| && MerkleChecksum(s, digest, pair, hash, none) == MerkleChecksum(t, digest, pair, hash, none)
    ensures s == t
  {
    if s != [] {
      RootDetermines(pair, Digests(s, digest), Digests(t, digest));
      forall i | 0 <= i < |s| ensures s[i] == t[i] {
        assert Digests(s, digest)[i] == Digests(t, digest)[i];
      }
    }
  }
}
