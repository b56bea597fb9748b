/**
 * The index of a delta base: fingerprints of its aligned blocks, hashed into
 * buckets, each bucket a chain of entries linked by their numbers.
 */
module DeltaIndex {
  import opened Common
  import opened DeltaFormat
  import opened Buckets
  import opened Filing
  import R = Rabin

  // ----- fingerprints of byte strings -----

  function Bits(s: seq<byte>): seq<bv8> {
    seq(|s|, i requires 0 <= i < |s| => s[i] as bv8)
  }

  function Print(tb: R.Tables, s: seq<byte>): R.Word {
    R.Fingerprint(tb, Bits(s))
  }

  /** A byte enters a fingerprint. */
  function Enter(tb: R.Tables, v: R.Word, b: byte): R.Word {
    R.Enter(tb, v, b as bv8)
  }

  /** The window slides: one byte leaves, one enters. */
  function Slide(tb: R.Tables, v: R.Word, oldest: byte, newest: byte): R.Word {
    R.Roll(tb, v, oldest as bv8, newest as bv8)
  }

  lemma PrintExtend(tb: R.Tables, s: seq<byte>, b: byte)
    ensures Print(tb, s + [b]) == Enter(tb, Print(tb, s), b)
  {
    assert Bits(s + [b])[..|s|] == Bits(s);
  }

  lemma PrintSlide(tb: R.Tables, w: seq<byte>, b: byte)
    requires R.Sound(tb) && |w| == R.WINDOW
    ensures Slide(tb, Print(tb, w), w[0], b) == Print(tb, w[1..] + [b])
  {
    assert R.RollsAt(tb, Bits(w), b as bv8);
    assert Bits(w)[1..] + [b as bv8] == Bits(w[1..] + [b]);
  }

  /** Computes a window's fingerprint byte by byte; no value on the way outgrows the table index. */
  method PrintWindow(tb: R.Tables, s: seq<byte>, start: nat) returns (val: R.Word)
    requires R.Sound(tb) && start + R.WINDOW <= |s|
    ensures val == Print(tb, s[start..start + R.WINDOW]) && R.Fits(val)
  {
    val := R.ZERO;
    var i := 0;
    assert s[start..start] == [];
    while i < R.WINDOW
      invariant i <= R.WINDOW
      invariant val == Print(tb, s[start..start + i]) && R.Fits(val)
    {
      assert s[start..start + i + 1] == s[start..start + i] + [s[start + i]];
      PrintExtend(tb, s[start..start + i], s[start + i]);
      R.EnterFits(tb, val, s[start + i] as bv8);
      val := Enter(tb, val, s[start + i]);
      i := i + 1;
    }
  }

  // ----- the index -----

  /** `width` is the number of fingerprint bits that choose a bucket. */
  datatype Index = Index(src: seq<byte>, width: nat, table: Table<R.Word>)

  function Pow2(k: nat): (p: nat)
    ensures p > 0
  {
    if k == 0 then 1 else 2 * Pow2(k - 1)
  }

  function LowBits(n: nat, k: nat): (r: nat)
    ensures r < Pow2(k)
    decreases k
  {
    if k == 0 then 0 else n % 2 + 2 * LowBits(n / 2, k - 1)
  }

  /** The bucket of a fingerprint: its value under a mask of `width` ones. */
  function Bucket(val: R.Word, width: nat): (i: nat)
    ensures i < Pow2(width)
  {
    LowBits(val.bits as int, width)
  }

  /** `val` is the fingerprint of the sixteen bytes that end at position `ptr`. */
  predicate Stands(tb: R.Tables, src: seq<byte>, ptr: nat, val: R.Word) {
    R.WINDOW <= ptr < |src| && val == Print(tb, src[ptr + 1 - R.WINDOW..ptr + 1])
  }

  function RulesOf(tb: R.Tables, src: seq<byte>, width: nat): Rules<R.Word> {
    Rules(v => Bucket(v, width), (ptr, v) => Stands(tb, src, ptr, v))
  }

  ghost predicate IndexOk(tb: R.Tables, index: Index) {
    |index.table.heads| == Pow2(index.width) && Valid(RulesOf(tb, index.src, index.width), index.table)
  }

  /** The fingerprint of block `b`: the sixteen bytes that follow the first byte of the block. */
  function BlockPrint(tb: R.Tables, src: seq<byte>, b: nat): R.Word
    requires 16 * b + 17 <= |src|
  {
    Print(tb, src[16 * b + 1..16 * b + 1 + R.WINDOW])
  }

  /** Block `b` of the source does not continue a run of blocks with its fingerprint. */
  predicate BeginsRun(tb: R.Tables, src: seq<byte>, b: nat) {
    16 * b + 17 <= |src| && (b == 0 || BlockPrint(tb, src, b - 1) != BlockPrint(tb, src, b))
  }

  /** The index can still lead to position `ptr`: it has an entry for the sixteen bytes that end there. */
  predicate Kept(tb: R.Tables, index: Index, ptr: nat) {
    && R.WINDOW <= ptr < |index.src|
    && var val := Print(tb, index.src[ptr + 1 - R.WINDOW..ptr + 1]);
       FiledAt(RulesOf(tb, index.src, index.width), index.table, ptr, val)
  }

  /** The first block heads its bucket. */
  ghost predicate StartsHead(tb: R.Tables, index: Index) {
    |index.src| > R.WINDOW ==> HeadIs(RulesOf(tb, index.src, index.width), index.table, 16, BlockPrint(tb, index.src, 0))
  }

  // ----- filling the buckets -----

  /** The fingerprints of all blocks. */
  method PrintBlocks(tb: R.Tables, src: seq<byte>, blocks: nat) returns (prints: seq<R.Word>)
    requires R.Sound(tb) && 16 * blocks < |src|
    ensures |prints| == blocks
    ensures forall b: nat :: b < blocks ==> prints[b] == BlockPrint(tb, src, b) && R.Fits(prints[b])
  {
    prints := [];
    while |prints| < blocks
      invariant |prints| <= blocks
      invariant forall b: nat :: b < |prints| ==> prints[b] == BlockPrint(tb, src, b) && R.Fits(prints[b])
    {
      var val := PrintWindow(tb, src, 16 * |prints| + 1);
      prints := prints + [val];
    }
  }

  /**
   * Indexes `blocks` blocks of the source, the last block first. A run of
   * blocks with one fingerprint shares the entry of the lowest of them, and no
   * more entries are used than were allocated.
   */
  method Populate(tb: R.Tables, src: seq<byte>, blocks: nat, r: Rules<R.Word>, slots: nat)
    returns (t: Table<R.Word>, counts: seq<nat>)
    requires R.Sound(tb) && 16 * blocks < |src|
    requires forall v :: r.bucket(v) < slots
    requires forall b: nat :: b < blocks ==> r.good(16 * b + 16, BlockPrint(tb, src, b))
    ensures |t.heads| == slots && Valid(r, t) && |t.entries| <= blocks && Counted(t, counts)
    ensures forall b: nat :: b < blocks ==> Holds(r, t, BlockPrint(tb, src, b))
    ensures forall k :: 0 <= k < |t.entries| ==> LowestBlock(tb, src, t.entries[k])
    ensures forall b: nat :: b < blocks && BeginsRun(tb, src, b) ==> FiledAt(r, t, 16 * b + 16, BlockPrint(tb, src, b))
    ensures blocks > 0 ==> HeadIs(r, t, 16, BlockPrint(tb, src, 0))
  {
    var prints := PrintBlocks(tb, src, blocks);
    t, counts := FileBlocks(prints, R.Word(0xffff_ffff), r, slots);
    forall k | 0 <= k < |t.entries| ensures LowestBlock(tb, src, t.entries[k]) {
      assert LowestOfRun(prints, t.entries[k]);
    }
    forall b: nat | b < blocks ensures Holds(r, t, BlockPrint(tb, src, b)) {
      assert Holds(r, t, prints[b]);
    }
    forall b: nat | b < blocks && BeginsRun(tb, src, b) ensures FiledAt(r, t, 16 * b + 16, BlockPrint(tb, src, b)) {
      assert Starts(prints, 0, b);
    }
  }

  /** What culling leaves alone is found as before. */
  lemma CulledKept(r: Rules<R.Word>, t: Table<R.Word>, u: Table<R.Word>, ptr: nat, val: R.Word)
    requires FiledAt(r, t, ptr, val) && |u.heads| == |t.heads| && SameContent(t.entries, u.entries)
    requires ChainOf(u, r.bucket(val)) == Culled(ChainOf(t, r.bucket(val))) && |ChainOf(t, r.bucket(val))| < HASH_LIMIT
    ensures FiledAt(r, u, ptr, val)
  {}

  lemma CulledHead(r: Rules<R.Word>, t: Table<R.Word>, u: Table<R.Word>, ptr: nat, val: R.Word)
    requires HeadIs(r, t, ptr, val) && u.heads == t.heads && SameContent(t.entries, u.entries)
    ensures HeadIs(r, u, ptr, val) && FiledAt(r, u, ptr, val)
  {
    assert ChainOf(u, r.bucket(val))[0] == u.heads[r.bucket(val)];
  }

  lemma BucketSmall(r: Rules<R.Word>, t: Table<R.Word>, i: nat)
    requires Valid(r, t) && i < |t.heads|
    ensures |ChainOf(t, i)| <= |t.entries|
  {
    assert HeadOk(r, t, i);
    ChainShort(t.entries, t.heads[i]);
  }

  lemma {:induction false} ChainShort(entries: seq<Entry<R.Word>>, head: int)
    ensures |Chain(entries, head)| <= if head < 0 then 0 else head + 1
    decreases head
  {
    if 0 <= head < |entries| && entries[head].next < head {
      ChainShort(entries, entries[head].next);
    }
  }

  /** The index is what culling leaves of the filed blocks. */
  ghost predicate CulledFrom(tb: R.Tables, index: Index, filed: Table<R.Word>, blocks: nat) {
    && 16 * blocks < |index.src| && Valid(RulesOf(tb, index.src, index.width), filed)
    && index.table.heads == filed.heads && |filed.heads| == Pow2(index.width)
    && SameContent(filed.entries, index.table.entries) && |filed.entries| <= blocks
    && (forall i :: 0 <= i < |filed.heads| ==> ChainOf(index.table, i) == Culled(ChainOf(filed, i)))
    && (forall b: nat :: b < blocks && BeginsRun(tb, index.src, b) ==>
         FiledAt(RulesOf(tb, index.src, index.width), filed, 16 * b + 16, BlockPrint(tb, index.src, b)))
    && (blocks > 0 ==> HeadIs(RulesOf(tb, index.src, index.width), filed, 16, BlockPrint(tb, index.src, 0)))
  }

  lemma FiledKept(tb: R.Tables, index: Index, b: nat)
    requires 16 * b + 17 <= |index.src|
    requires FiledAt(RulesOf(tb, index.src, index.width), index.table, 16 * b + 16, BlockPrint(tb, index.src, b))
    ensures Kept(tb, index, 16 * b + 16)
  {}

  lemma KeptFirst(tb: R.Tables, index: Index, filed: Table<R.Word>, blocks: nat)
    requires CulledFrom(tb, index, filed, blocks) && 0 < blocks
    ensures Kept(tb, index, 16)
  {
    CulledHead(RulesOf(tb, index.src, index.width), filed, index.table, 16, BlockPrint(tb, index.src, 0));
    FiledKept(tb, index, 0);
  }

  lemma KeptOther(tb: R.Tables, index: Index, filed: Table<R.Word>, blocks: nat, b: nat)
    requires CulledFrom(tb, index, filed, blocks) && b < blocks && BeginsRun(tb, index.src, b)
    requires |ChainOf(filed, Bucket(BlockPrint(tb, index.src, b), index.width))| < HASH_LIMIT
    ensures Kept(tb, index, 16 * b + 16)
  {
    CulledKept(RulesOf(tb, index.src, index.width), filed, index.table, 16 * b + 16, BlockPrint(tb, index.src, b));
    FiledKept(tb, index, b);
  }

  lemma KeptBlock(tb: R.Tables, index: Index, filed: Table<R.Word>, blocks: nat, b: nat)
    requires CulledFrom(tb, index, filed, blocks) && b < blocks && BeginsRun(tb, index.src, b)
    requires b == 0 || blocks < HASH_LIMIT || |ChainOf(filed, Bucket(BlockPrint(tb, index.src, b), index.width))| < HASH_LIMIT
    ensures Kept(tb, index, 16 * b + 16)
  {
    if b == 0 {
      KeptFirst(tb, index, filed, blocks);
    } else {
      BucketSmall(RulesOf(tb, index.src, index.width), filed, Bucket(BlockPrint(tb, index.src, b), index.width));
      KeptOther(tb, index, filed, blocks, b);
    }
  }

  lemma KeptHead(tb: R.Tables, index: Index, filed: Table<R.Word>, blocks: nat)
    requires CulledFrom(tb, index, filed, blocks) && (blocks > 0 <== |index.src| > R.WINDOW)
    ensures StartsHead(tb, index)
  {
    if |index.src| > R.WINDOW {
      CulledHead(RulesOf(tb, index.src, index.width), filed, index.table, 16, BlockPrint(tb, index.src, 0));
    }
  }

  /** The entry stands for a block, and the block before it, if any, has another fingerprint. */
  ghost predicate LowestBlock(tb: R.Tables, src: seq<byte>, e: Entry<R.Word>) {
    && e.ptr % 16 == 0 && 16 <= e.ptr < |src|
    && (e.ptr >= 32 ==> BlockPrint(tb, src, e.ptr / 16 - 2) != e.val)
  }

  /** The number of bucket bits: at least 4, at most 31, enough for a quarter of the blocks if possible. */
  method ChooseWidth(blocks: nat) returns (width: nat)
    ensures 4 <= width <= 31
    ensures width < 31 ==> blocks / 4 <= Pow2(width)
    ensures width > 4 ==> Pow2(width - 1) < blocks / 4
  {
    width := 4;
    while width < 31 && Pow2(width) < blocks / 4
      invariant 4 <= width <= 31
      invariant width > 4 ==> Pow2(width - 1) < blocks / 4
    {
      width := width + 1;
    }
  }

  predicate Spared(tb: R.Tables, index: Index, filed: Table<R.Word>, b: nat)
    requires |filed.heads| == Pow2(index.width) && BeginsRun(tb, index.src, b)
  {
    b == 0 || |index.src| <= 1024 || |ChainOf(filed, Bucket(BlockPrint(tb, index.src, b), index.width))| < HASH_LIMIT
  }

  /**
   * The block at which a run begins is kept if it is the first of the source,
   * if its bucket was below the limit, and in any case if there are fewer
   * blocks than the limit.
   */
  ghost predicate KeepsRuns(tb: R.Tables, index: Index, filed: Table<R.Word>) {
    && |filed.heads| == Pow2(index.width)
    && forall b: nat :: BeginsRun(tb, index.src, b) && b < 0xfff_ffff && Spared(tb, index, filed, b) ==> Kept(tb, index, 16 * b + 16)
  }

  lemma KeptRuns(tb: R.Tables, index: Index, filed: Table<R.Word>, blocks: nat)
    requires CulledFrom(tb, index, filed, blocks) && (|index.src| <= 1024 ==> blocks < HASH_LIMIT)
    requires blocks == (|index.src| - 1) / 16 || blocks == 0xfff_ffff
    ensures KeepsRuns(tb, index, filed)
  {
    forall b: nat | BeginsRun(tb, index.src, b) && b < 0xfff_ffff && Spared(tb, index, filed, b)
      ensures Kept(tb, index, 16 * b + 16)
    {
      KeptBlock(tb, index, filed, blocks, b);
    }
  }

  /**
   * Builds the index of a base; there is none for an empty base. Every block's
   * fingerprint is filed in `filed`, and each bucket of the result is what
   * culling leaves of that bucket.
   */
  method CreateIndex(tb: R.Tables, src: seq<byte>) returns (index: Option<Index>, ghost filed: Table<R.Word>)
    requires R.Sound(tb)
    ensures index.None? <==> src == []
    ensures index.Some? ==>
      && index.value.src == src && IndexOk(tb, index.value)
      && (forall b: nat :: 16 * (b + 1) < |src| && b < 0xfff_ffff ==>
           Holds(RulesOf(tb, src, index.value.width), filed, BlockPrint(tb, src, b)))
      && |filed.heads| == |index.value.table.heads| && SameContent(filed.entries, index.value.table.entries)
      && (forall i :: 0 <= i < |filed.heads| ==> ChainOf(index.value.table, i) == Culled(ChainOf(filed, i)))
      && (forall k :: 0 <= k < |filed.entries| ==> LowestBlock(tb, src, filed.entries[k]))
    ensures index.Some? ==> StartsHead(tb, index.value) && KeepsRuns(tb, index.value, filed)
  {
    filed := Table([], []);
    if src == [] {
      return None, filed;
    }
    var blocks := (|src| - 1) / 16;
    if |src| >= 0xffff_ffff {
      blocks := 0xffff_fffe / 16;
    }
    var width := ChooseWidth(blocks);
    var r := RulesOf(tb, src, width);
    var t, counts := Populate(tb, src, blocks, r, Pow2(width));
    filed := t;
    var u := CullAll(r, t, counts);
    index := Some(Index(src, width, u));
    KeptHead(tb, index.value, filed, blocks);
    KeptRuns(tb, index.value, filed, blocks);
  }
}
