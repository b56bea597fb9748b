/**
 * Index, encode and apply with the tables in use: every delta the encoder
 * returns is accepted by the decoder and gives the target back, and it copies
 * what the target has in common with the base.
 */
module DeltaRoundTrip {
  import opened Common
  import opened DeltaFormat
  import opened DeltaIndex
  import opened DeltaTurns
  import DeltaEncoder
  import DeltaApply

  /**
   * The target is made of the instructions, and each of its bytes where it
   * repeats the base behind a block that begins a run is copied: for any base
   * behind its first block, for one of up to 1 KB behind every such block.
   */
  ghost predicate Compressed(src: seq<byte>, trg: seq<byte>, ops: seq<Op>, bytes: seq<byte>) {
    && AllEncodable(ops) && Expand(src, ops) == trg && bytes == HeaderBytes(|src|) + HeaderBytes(|trg|) + Stream(ops)
    && forall b: nat, d: nat :: BeginsRun(R.STANDARD, src, b) && (b == 0 || |src| <= 1024) && RepeatsAt(src, 16 * b + 16, trg, d) ==>
         d < |Copied(ops)| && Copied(ops)[d]
  }

  /** The index leads to the first block, and in a small base to each block that begins a run. */
  ghost predicate KeepsBlocks(index: Index) {
    forall b: nat :: BeginsRun(R.STANDARD, index.src, b) && (b == 0 || |index.src| <= 1024) ==> Kept(R.STANDARD, index, 16 * b + 16)
  }

  lemma Compresses(index: Index, trg: seq<byte>, ops: seq<Op>, bytes: seq<byte>)
    requires DeltaEncoder.Encodes(R.STANDARD, index, trg, ops, bytes) && KeepsBlocks(index)
    ensures Compressed(index.src, trg, ops, bytes)
  {}

  method IndexBase(src: seq<byte>) returns (index: Option<Index>)
    requires R.Sound(R.STANDARD) && |src| < 0x8000_0000
    ensures index.None? <==> src == []
    ensures index.Some? ==> index.value.src == src && IndexOk(R.STANDARD, index.value)
    ensures index.Some? ==> StartsHead(R.STANDARD, index.value) && KeepsBlocks(index.value)
  {
    ghost var filed;
    index, filed := CreateIndex(R.STANDARD, src);
  }

  method Encode(src: seq<byte>, trg: seq<byte>, maxSize: nat) returns (made: DeltaEncoder.Created, ghost ops: seq<Op>)
    requires R.Sound(R.STANDARD) && |src| < 0x8000_0000 && |trg| < 0x8000_0000
    ensures made.Delta? ==> Meaning(src, made.bytes) == Some(trg) && Compressed(src, trg, ops, made.bytes)
    ensures src != [] && trg != [] && |trg| <= 715_000_000 && (maxSize == 0 || maxSize >= 2 * |trg| + 11) ==> made.Delta?
    ensures Begins(src, trg) && (maxSize == 0 || maxSize >= DeltaEncoder.CopySize(src, trg)) ==>
              made.Delta? && |made.bytes| <= DeltaEncoder.CopySize(src, trg)
  {
    var index := IndexBase(src);
    if index.None? {
      return DeltaEncoder.NoDelta, [];
    }
    made, ops := DeltaEncoder.Create(R.STANDARD, index.value, trg, maxSize);
    if made.Delta? {
      Compresses(index.value, trg, ops, made.bytes);
    }
  }

  method RoundTrip(src: seq<byte>, trg: seq<byte>, maxSize: nat)
    returns (made: DeltaEncoder.Created, back: Option<seq<byte>>, ghost ops: seq<Op>)
    requires |src| < 0x8000_0000 && |trg| < 0x8000_0000
    ensures made.Delta? ==> back == Some(trg)
    ensures src != [] && trg != [] && |trg| <= 715_000_000 && (maxSize == 0 || maxSize >= 2 * |trg| + 11) ==> made.Delta?
    ensures made.Delta? ==> Compressed(src, trg, ops, made.bytes)
    ensures Begins(src, trg) && (maxSize == 0 || maxSize >= DeltaEncoder.CopySize(src, trg)) ==>
              made.Delta? && |made.bytes| <= DeltaEncoder.CopySize(src, trg)
  {
    R.StandardIsSound();
    made, ops := Encode(src, trg, maxSize);
    back := None;
    if made.Delta? {
      back := DeltaApply.Apply(src, made.bytes);
    }
  }
}
