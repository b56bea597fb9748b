/**
 * The encoder loop turn by turn, apart from its buffer: what a turn finds in
 * the index, what it writes, and what that means for whole deltas. No byte is
 * written as a literal where the index leads to a match, and a target that
 * the base begins with is copied from it.
 */
module DeltaTurns {
  import opened Tokens
  import opened DeltaFormat
  import opened Buckets
  import opened Filing
  import opened DeltaIndex
  import opened DeltaCreate
  import R = Rabin

  /** The encoder's variables at the head of its loop. */
  datatype Loop = Loop(data: nat, inscnt: nat, val: R.Word, moff: nat, msize: nat)

  /** The match in hand after the index has been searched. */
  datatype Find = Find(moff: nat, msize: nat)

  /** The fingerprint of the sixteen target bytes that end at `p`. */
  function PrintAt(tb: R.Tables, trg: seq<byte>, p: nat): R.Word
    requires R.WINDOW <= p + 1 <= |trg|
  {
    Print(tb, trg[p + 1 - R.WINDOW..p + 1])
  }

  /** The entries in the bucket of a fingerprint. */
  function Candidates(index: Index, val: R.Word): (c: seq<nat>)
    requires |index.table.heads| == Pow2(index.width)
    ensures forall k :: 0 <= k < |c| ==> c[k] < |index.table.entries|
  {
    ChainOf(index.table, Bucket(val, index.width))
  }

  ghost predicate Searchable(index: Index) {
    |index.table.heads| == Pow2(index.width) && Inside(index.src, index.table.entries)
  }

  /** The candidates of a bucket have been gone through, as far as need be. */
  ghost predicate Chosen(index: Index, trg: seq<byte>, data: nat, val: R.Word, moff: nat, msize: nat, f: Find)
    requires Searchable(index) && data < |trg|
  {
    var c := Candidates(index, val);
    && (f.msize >= GOOD_ENOUGH || Beats(index.src, index.table.entries, c, trg, data, val, f.msize))
    && Picked(index.src, index.table.entries, c, trg, data, val, moff, msize, f.moff, f.msize)
  }

  /** A match that is not long enough is exchanged for the first of the longest candidates. */
  ghost predicate Looked(tb: R.Tables, index: Index, trg: seq<byte>, s: Loop, f: Find)
    requires Searchable(index)
  {
    if s.msize >= GOOD_ENOUGH then f == Find(s.moff, s.msize)
    else
      R.WINDOW <= s.data < |trg| && Chosen(index, trg, s.data, PrintAt(tb, trg, s.data), s.moff, s.msize, f)
  }

  lemma LookedNow(tb: R.Tables, index: Index, trg: seq<byte>, s: Loop, val: R.Word, f: Find)
    requires Searchable(index) && s.msize < GOOD_ENOUGH && R.WINDOW <= s.data < |trg|
    requires val == PrintAt(tb, trg, s.data) && Chosen(index, trg, s.data, val, s.moff, s.msize, f)
    ensures Looked(tb, index, trg, s, f)
  {
  }

  // ----- what a turn writes -----

  /** At most, pending literals have become an instruction. */
  predicate Closes(ops: seq<Op>, now: seq<Op>) {
    now == ops || (|now| == |ops| + 1 && now[..|ops|] == ops && now[|ops|].Insert?)
  }

  /** One byte more is a literal; `n` and `m` are the lengths of the text before and after. */
  predicate LiteralTurn(ops: seq<Op>, s: Loop, n: nat, nowOps: seq<Op>, now: Loop, m: nat) {
    && now.data == s.data + 1 && now.msize == 0 && now.inscnt == (s.inscnt + 1) % 0x7f
    && Closes(ops, nowOps) && m == n + if s.inscnt == 0 then 2 else 1
  }

  /**
   * A copy of at most 64 KB from `start` on, which lies as far back in the
   * pending literals as the base agrees with them.
   */
  predicate CopyTurn(src: seq<byte>, trg: seq<byte>, ops: seq<Op>, s: Loop, f: Find, start: nat, n: nat,
                     nowOps: seq<Op>, now: Loop, m: nat)
  {
    && s.inscnt <= s.data <= |trg| && s.data - s.inscnt <= start <= s.data && s.data - start <= f.moff <= |src|
    && var from := f.moff - (s.data - start);
       var size := s.data + f.msize - start;
       && (start == s.data - s.inscnt || from == 0 || src[from - 1] != trg[start - 1])
       && now.inscnt == 0 && now.data == start + (if size < 0x1_0000 then size else 0x1_0000)
       && now.data + now.msize == s.data + f.msize && now.moff == from + (now.data - start)
       && m <= n - (s.data - start) - (if 0 < s.inscnt == s.data - start then 1 else 0) + 7
       && nowOps != [] && Closes(ops, nowOps[..|nowOps| - 1]) && nowOps[|nowOps| - 1] == Copy(from, now.data - start)
  }

  /** One copy, of the literals taken back and then of what was found. */
  lemma CopyMade(src: seq<byte>, trg: seq<byte>, ops: seq<Op>, s: Loop, f: Find, start: nat, from: nat, n: nat,
                 front: seq<Op>, now: Loop, m: nat)
    requires s.inscnt <= s.data <= |trg| && s.data - s.inscnt <= start <= s.data && from + (s.data - start) == f.moff <= |src|
    requires start == s.data - s.inscnt || from == 0 || src[from - 1] != trg[start - 1]
    requires var size := s.data + f.msize - start; now.data == start + (if size < 0x1_0000 then size else 0x1_0000)
    requires now.inscnt == 0 && now.data + now.msize == s.data + f.msize && now.moff == from + (now.data - start)
    requires m <= n - (s.data - start) - (if 0 < s.inscnt == s.data - start then 1 else 0) + 7 && Closes(ops, front)
    ensures CopyTurn(src, trg, ops, s, f, start, n, front + [Copy(from, now.data - start)], now, m)
  {
    var nowOps := front + [Copy(from, now.data - start)];
    assert nowOps[..|nowOps| - 1] == front;
  }

  ghost predicate Turned(tb: R.Tables, index: Index, trg: seq<byte>, ops: seq<Op>, s: Loop, f: Find, start: nat, n: nat,
                         nowOps: seq<Op>, now: Loop, m: nat)
  {
    && Searchable(index) && s.msize <= f.msize && Looked(tb, index, trg, s, f)
    && if f.msize < 4 then LiteralTurn(ops, s, n, nowOps, now, m)
       else CopyTurn(index.src, trg, ops, s, f, start, n, nowOps, now, m)
  }

  // ----- what is copied -----

  function SizeOf(op: Op): nat {
    match op
    case Copy(_, len) => len
    case Insert(bytes) => |bytes|
  }

  function MarksOf(op: Op): (r: seq<bool>)
    ensures |r| == SizeOf(op) && forall k :: 0 <= k < |r| ==> r[k] == op.Copy?
  {
    seq(SizeOf(op), _ => op.Copy?)
  }

  /** For each byte that the instructions produce, whether it is copied from the base. */
  function Copied(ops: seq<Op>): seq<bool> { WriteAll(op => MarksOf(op), ops) }

  lemma CopiedBack(ops: seq<Op>, op: Op)
    ensures Copied(ops + [op]) == Copied(ops) + MarksOf(op)
  {
    WriteAllBack(o => MarksOf(o), ops, op);
  }

  lemma {:induction false} CopiedLength(src: seq<byte>, ops: seq<Op>)
    requires All(InRangeOf(src), ops)
    ensures |Copied(ops)| == |Expand(src, ops)|
    decreases |ops|
  {
    if ops != [] {
      CopiedLength(src, ops[..|ops| - 1]);
      CopiedBack(ops[..|ops| - 1], ops[|ops| - 1]);
      assert InRangeOf(src)(ops[|ops| - 1]);
      assert ops == ops[..|ops| - 1] + [ops[|ops| - 1]];
    }
  }

  /** No candidate for the window that ends at `p` agrees with four bytes from there on. */
  ghost predicate Stuck(tb: R.Tables, index: Index, trg: seq<byte>, p: nat) {
    && Searchable(index) && R.WINDOW <= p < |trg|
    && var val := PrintAt(tb, trg, p);
       Beats(index.src, index.table.entries, Candidates(index, val), trg, p, val, 3)
  }

  /** Byte `p` is a literal, written or pending. */
  predicate Literal(ops: seq<Op>, p: nat) { p >= |Copied(ops)| || !Copied(ops)[p] }

  /** Literals stand only where the index is of no help. */
  ghost predicate Thrifty(tb: R.Tables, index: Index, trg: seq<byte>, ops: seq<Op>, data: nat) {
    forall p: nat :: R.WINDOW <= p < data && Literal(ops, p) ==> Stuck(tb, index, trg, p)
  }

  lemma ClosesLiterals(ops: seq<Op>, now: seq<Op>, p: nat)
    requires Closes(ops, now)
    ensures Literal(now, p) <==> Literal(ops, p)
  {
    if now != ops {
      assert now == ops + [now[|ops|]];
      CopiedBack(ops, now[|ops|]);
    }
  }

  lemma ThriftyCloses(tb: R.Tables, index: Index, trg: seq<byte>, ops: seq<Op>, now: seq<Op>, data: nat)
    requires Thrifty(tb, index, trg, ops, data) && Closes(ops, now)
    ensures Thrifty(tb, index, trg, now, data)
  {
    forall p: nat | R.WINDOW <= p < data && Literal(now, p) ensures Stuck(tb, index, trg, p) {
      ClosesLiterals(ops, now, p);
    }
  }

  /** A literal is written only where nothing of four bytes was found. */
  lemma LiteralStuck(tb: R.Tables, index: Index, trg: seq<byte>, s: Loop, f: Find)
    requires Searchable(index) && s.msize <= f.msize < 4 && Looked(tb, index, trg, s, f)
    ensures Stuck(tb, index, trg, s.data)
  {
    var val := PrintAt(tb, trg, s.data);
    var c := Candidates(index, val);
    forall k | 0 <= k < |c| ensures BeatsEntry(index.src, index.table.entries[c[k]], trg, s.data, val, 3) {
      assert BeatsEntry(index.src, index.table.entries[c[k]], trg, s.data, val, f.msize);
    }
  }

  lemma ThriftyCopy(tb: R.Tables, index: Index, trg: seq<byte>, ops: seq<Op>, data: nat, op: Op, upto: nat)
    requires Thrifty(tb, index, trg, ops, data) && op.Copy? && |Copied(ops)| <= data && |Copied(ops)| + op.len == upto
    ensures Thrifty(tb, index, trg, ops + [op], upto)
  {
    CopiedBack(ops, op);
    forall p: nat | R.WINDOW <= p < upto && Literal(ops + [op], p) ensures Stuck(tb, index, trg, p) {
      assert p < |Copied(ops)| && Literal(ops, p);
    }
  }

  lemma ThriftyLiteral(tb: R.Tables, index: Index, trg: seq<byte>, ops: seq<Op>, data: nat, now: seq<Op>)
    requires Thrifty(tb, index, trg, ops, data) && Stuck(tb, index, trg, data) && Closes(ops, now)
    ensures Thrifty(tb, index, trg, now, data + 1)
  {
    ThriftyCloses(tb, index, trg, ops, now, data);
  }

  lemma ThriftyCloseCopy(tb: R.Tables, index: Index, trg: seq<byte>, ops: seq<Op>, data: nat, start: nat, now: seq<Op>, upto: nat)
    requires Thrifty(tb, index, trg, ops, data) && now != [] && Closes(ops, now[..|now| - 1]) && now[|now| - 1].Copy?
    requires |Copied(now)| == upto && now[|now| - 1].len == upto - start && start <= data
    ensures Thrifty(tb, index, trg, now, upto)
  {
    var front, op := now[..|now| - 1], now[|now| - 1];
    assert now == front + [op];
    CopiedBack(front, op);
    ThriftyCloses(tb, index, trg, ops, front, data);
    ThriftyCopy(tb, index, trg, front, data, op, upto);
  }

  lemma ThriftyNext(tb: R.Tables, index: Index, trg: seq<byte>, ops: seq<Op>, s: Loop, f: Find, start: nat, n: nat,
                    nowOps: seq<Op>, now: Loop, m: nat)
    requires Turned(tb, index, trg, ops, s, f, start, n, nowOps, now, m) && Thrifty(tb, index, trg, ops, s.data)
    requires now.inscnt == 0 ==> |Copied(nowOps)| == now.data
    ensures Thrifty(tb, index, trg, nowOps, now.data)
  {
    if f.msize < 4 {
      LiteralStuck(tb, index, trg, s, f);
      ThriftyLiteral(tb, index, trg, ops, s.data, nowOps);
    } else {
      ThriftyCloseCopy(tb, index, trg, ops, s.data, start, nowOps, now.data);
    }
  }

  // ----- nothing is missed -----

  /** The target at `d` repeats the base at `ptr`: the window that ends there, and four bytes from there on. */
  predicate RepeatsAt(src: seq<byte>, ptr: nat, trg: seq<byte>, d: nat) {
    && R.WINDOW <= ptr && R.WINDOW <= d && ptr + 4 <= |src| && d + 4 <= |trg|
    && src[ptr + 1 - R.WINDOW..ptr + 4] == trg[d + 1 - R.WINDOW..d + 4]
  }

  /** Wherever the target repeats the base at a position the index leads to, the byte is copied. */
  ghost predicate NoneMissed(tb: R.Tables, index: Index, trg: seq<byte>, ops: seq<Op>) {
    forall ptr: nat, d: nat :: Kept(tb, index, ptr) && RepeatsAt(index.src, ptr, trg, d) ==> d < |Copied(ops)| && Copied(ops)[d]
  }

  lemma {:induction false} AgreeingAtLeast(src: seq<byte>, p: nat, trg: seq<byte>, q: nat, n: nat)
    requires p + n <= |src| && q + n <= |trg| && src[p..p + n] == trg[q..q + n]
    ensures Agreeing(src, p, trg, q) >= n
    decreases n
  {
    if n > 0 {
      assert src[p] == src[p..p + n][0] == trg[q..q + n][0] == trg[q];
      assert src[p + 1..p + n] == src[p..p + n][1..] == trg[q..q + n][1..] == trg[q + 1..q + n];
      AgreeingAtLeast(src, p + 1, trg, q + 1, n - 1);
    }
  }

  lemma RepeatParts(src: seq<byte>, ptr: nat, trg: seq<byte>, d: nat)
    requires RepeatsAt(src, ptr, trg, d)
    ensures src[ptr + 1 - R.WINDOW..ptr + 1] == trg[d + 1 - R.WINDOW..d + 1] && src[ptr..ptr + 4] == trg[d..d + 4]
  {
    var a, b := src[ptr + 1 - R.WINDOW..ptr + 4], trg[d + 1 - R.WINDOW..d + 4];
    assert src[ptr + 1 - R.WINDOW..ptr + 1] == a[..16] && trg[d + 1 - R.WINDOW..d + 1] == b[..16];
    assert src[ptr..ptr + 4] == a[15..] && trg[d..d + 4] == b[15..];
  }

  lemma StuckMisses(tb: R.Tables, index: Index, trg: seq<byte>, ptr: nat, d: nat)
    requires Searchable(index) && Kept(tb, index, ptr) && RepeatsAt(index.src, ptr, trg, d)
    ensures !Stuck(tb, index, trg, d)
  {
    RepeatParts(index.src, ptr, trg, d);
    var val := PrintAt(tb, trg, d);
    var c := Candidates(index, val);
    var es := index.table.entries;
    var k :| 0 <= k < |c| && es[c[k]].ptr == ptr && es[c[k]].val == val;
    AgreeingAtLeast(index.src, ptr, trg, d, 4);
    assert !BeatsEntry(index.src, es[c[k]], trg, d, val, 3);
  }

  lemma ThriftyMissesNone(tb: R.Tables, index: Index, trg: seq<byte>, ops: seq<Op>)
    requires Searchable(index) && Thrifty(tb, index, trg, ops, |trg|)
    ensures NoneMissed(tb, index, trg, ops)
  {
    forall ptr: nat, d: nat | Kept(tb, index, ptr) && RepeatsAt(index.src, ptr, trg, d)
      ensures d < |Copied(ops)| && Copied(ops)[d]
    {
      StuckMisses(tb, index, trg, ptr, d);
      assert !Literal(ops, d);
    }
  }

  // ----- a target that the base begins with -----

  /** How many copies of 64 KB make up `n` bytes. */
  function Copies(n: nat): nat { (n + 0xffff) / 0x1_0000 }

  /** The target is the base or its beginning, and not too short to be found. */
  predicate Begins(src: seq<byte>, trg: seq<byte>) { 20 <= |trg| <= |src| && src[..|trg|] == trg }

  /**
   * Under way through such a target behind `k` whole copies: either the rest
   * of it is the match in hand, or at most three literals are all that is left.
   */
  predicate SailsAt(header: nat, trg: seq<byte>, s: Loop, n: nat, k: nat) {
    || (s.data == s.moff && s.data + s.msize == |trg| && s.inscnt == 0 && n <= header + 7 * k
        && (s.data == 0x1_0000 * k || (s.data == |trg| && k == Copies(|trg|))))
    || (0 < s.inscnt <= 3 && s.data == 0x1_0000 * k + s.inscnt && s.data <= |trg| <= 0x1_0000 * k + 3 && s.msize == 0
        && n <= header + 7 * k + 1 + s.inscnt)
  }

  ghost predicate Sails(header: nat, trg: seq<byte>, s: Loop, n: nat) { exists k: nat :: SailsAt(header, trg, s, n, k) }

  /** The text stays within one copy instruction for each 64 KB. */
  lemma SailsBound(header: nat, trg: seq<byte>, s: Loop, n: nat)
    requires Sails(header, trg, s, n) && s.data <= |trg|
    ensures n <= header + 7 * Copies(|trg|)
  {
    var k: nat :| SailsAt(header, trg, s, n, k);
    assert k <= Copies(|trg|);
    if s.inscnt > 0 {
      assert k + 1 <= Copies(|trg|);
    }
  }

  lemma {:induction false} AgreeingWhole(src: seq<byte>, trg: seq<byte>, p: nat)
    requires p <= |trg| <= |src| && src[..|trg|] == trg
    ensures Agreeing(src, p, trg, p) == |trg| - p
    decreases |trg| - p
  {
    if p < |trg| {
      assert src[p] == src[..|trg|][p];
      AgreeingWhole(src, trg, p + 1);
    }
  }

  /** At the end of the window the first block of the base is found, and the rest of the target with it. */
  lemma FindsStart(tb: R.Tables, index: Index, trg: seq<byte>, s: Loop, f: Find)
    requires Searchable(index) && StartsHead(tb, index) && Begins(index.src, trg)
    requires s.data == 16 && s.msize == 0 && Looked(tb, index, trg, s, f) && f.msize <= |trg| - 16
    ensures f == Find(16, |trg| - 16)
  {
    var val := PrintAt(tb, trg, 16);
    var c := Candidates(index, val);
    var es := index.table.entries;
    assert trg[1..17] == index.src[..|trg|][1..17] == index.src[1..17];
    assert c[0] == index.table.heads[Bucket(val, index.width)];
    AgreeingWhole(index.src, trg, 16);
    assert !BeatsEntry(index.src, es[c[0]], trg, 16, val, 0);
    var k: nat :| FirstBest(index.src, es, c, trg, 16, val, k, f.msize) && f.moff == es[c[k]].ptr;
    assert k == 0;
  }

  lemma SailsFirst(tb: R.Tables, index: Index, trg: seq<byte>, ops: seq<Op>, s: Loop, f: Find, start: nat, n: nat,
                   nowOps: seq<Op>, now: Loop, m: nat, header: nat)
    requires Turned(tb, index, trg, ops, s, f, start, n, nowOps, now, m)
    requires StartsHead(tb, index) && Begins(index.src, trg) && f.msize <= |trg| - 16
    requires s.data == 16 && s.inscnt == 16 && s.msize == 0 && n == header + 17
    ensures Sails(header, trg, now, m)
  {
    FindsStart(tb, index, trg, s, f);
    assert start == 0 && SailsAt(header, trg, now, m, 1);
  }

  lemma SailsNext(tb: R.Tables, index: Index, trg: seq<byte>, ops: seq<Op>, s: Loop, f: Find, start: nat, n: nat,
                  nowOps: seq<Op>, now: Loop, m: nat, header: nat)
    requires Turned(tb, index, trg, ops, s, f, start, n, nowOps, now, m) && f.msize <= |trg| - s.data && s.data < |trg|
    requires Sails(header, trg, s, n)
    ensures Sails(header, trg, now, m)
  {
    var k: nat :| SailsAt(header, trg, s, n, k);
    if s.inscnt == 0 {
      assert f == Find(s.moff, s.msize);
      assert SailsAt(header, trg, now, m, if f.msize < 4 then k else k + 1);
    } else {
      assert SailsAt(header, trg, now, m, k);
    }
  }
}
