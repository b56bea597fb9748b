/**
 * Filing the fingerprints of blocks, the last block first. Each entry notes
 * where its block ends.
 */
module Filing {
  import opened Buckets

  datatype State<+W> = State(t: Table<W>, counts: seq<nat>, prev: W)

  /** A block with the fingerprint of the one after it takes over its entry; any other gets one of its own. */
  function FileBlock<W(==)>(r: Rules<W>, s: State<W>, val: W, data: nat): (n: State<W>)
    requires r.bucket(val) < |s.t.heads| == |s.counts|
    ensures |n.t.heads| == |s.t.heads| == |n.counts|
  {
    var i := r.bucket(val);
    if val == s.prev && s.t.entries != [] then s.(t := Lower(s.t, 16 * data))
    else State(Push(r, s.t, 16 * data, val), s.counts[i := s.counts[i] + 1], val)
  }

  /** The blocks from `data` on filed, the last one first. */
  function Filed<W(==)>(prints: seq<W>, none: W, r: Rules<W>, slots: nat, data: nat): (s: State<W>)
    requires forall b: nat :: b < |prints| ==> r.bucket(prints[b]) < slots
    ensures |s.t.heads| == |s.counts| == slots
    decreases |prints| - data
  {
    if data >= |prints| then State(Table(seq(slots, _ => -1), []), seq(slots, _ => 0), none)
    else FileBlock(r, Filed(prints, none, r, slots, data + 1), prints[data], data + 1)
  }

  /** What may be filed. */
  ghost predicate Fileable<W>(prints: seq<W>, none: W, r: Rules<W>, slots: nat) {
    && (forall b: nat :: b < |prints| ==> r.bucket(prints[b]) < slots)
    && (forall b: nat :: b < |prints| ==> r.good(16 * b + 16, prints[b]) && prints[b] != none)
  }

  // ----- the table is in order -----

  /** The table is valid, its counts are right, and the newest entry has the last fingerprint. */
  ghost predicate Shaped<W>(none: W, r: Rules<W>, s: State<W>, data: nat) {
    && Valid(r, s.t) && Counted(s.t, s.counts)
    && (if s.t.entries == [] then s.prev == none else s.t.entries[|s.t.entries| - 1].val == s.prev)
    && (forall k :: 0 <= k < |s.t.entries| ==> 16 * data < s.t.entries[k].ptr)
  }

  lemma ShapedStep<W>(none: W, r: Rules<W>, s: State<W>, val: W, data: nat)
    requires Shaped(none, r, s, data) && data > 0 && r.bucket(val) < |s.t.heads| && r.good(16 * data, val) && val != none
    ensures Shaped(none, r, FileBlock(r, s, val, data), data - 1)
  {
    if val == s.prev && s.t.entries != [] {
      LowerValid(r, s.t, 16 * data);
      LowerCounted(r, s.t, s.counts, 16 * data);
    } else {
      PushValid(r, s.t, 16 * data, val);
      PushCounted(r, s.t, s.counts, 16 * data, val);
    }
  }

  lemma ShapedStart<W>(none: W, r: Rules<W>, s: State<W>, data: nat)
    requires s.t.entries == [] && |s.t.heads| == |s.counts| && s.prev == none
    requires forall i :: 0 <= i < |s.counts| ==> s.t.heads[i] == -1 && s.counts[i] == 0
    ensures Shaped(none, r, s, data)
  {}

  lemma {:induction false} FiledShaped<W>(prints: seq<W>, none: W, r: Rules<W>, slots: nat, data: nat)
    requires Fileable(prints, none, r, slots) && data <= |prints|
    ensures Shaped(none, r, Filed(prints, none, r, slots, data), data)
    decreases |prints| - data
  {
    if data == |prints| {
      ShapedStart(none, r, Filed(prints, none, r, slots, data), data);
    } else {
      FiledShaped(prints, none, r, slots, data + 1);
      assert r.good(16 * data + 16, prints[data]);
      ShapedStep(none, r, Filed(prints, none, r, slots, data + 1), prints[data], data + 1);
    }
  }

  lemma {:induction false} FiledFew<W>(prints: seq<W>, none: W, r: Rules<W>, slots: nat, data: nat)
    requires Fileable(prints, none, r, slots) && data <= |prints|
    ensures |Filed(prints, none, r, slots, data).t.entries| <= |prints| - data
    decreases |prints| - data
  {
    if data < |prints| {
      FiledFew(prints, none, r, slots, data + 1);
    }
  }

  // ----- every block can be found -----

  /** Every block from `data` on is found in its bucket. */
  ghost predicate Held<W>(prints: seq<W>, r: Rules<W>, s: State<W>, data: nat)
    decreases |prints| - data
  {
    data < |prints| ==>
      && Holds(r, s.t, prints[data])
      && Held(prints, r, s, data + 1)
  }

  lemma {:induction false} HeldAt<W>(prints: seq<W>, r: Rules<W>, s: State<W>, data: nat, b: nat)
    requires Held(prints, r, s, data) && data <= b < |prints|
    ensures Holds(r, s.t, prints[b])
    decreases b - data
  {
    if data < b {
      HeldAt(prints, r, s, data + 1, b);
    }
  }

  lemma HoldsStep<W>(none: W, r: Rules<W>, s: State<W>, val: W, data: nat, x: W)
    requires Shaped(none, r, s, data) && r.bucket(val) < |s.t.heads| && Holds(r, s.t, x)
    ensures Holds(r, FileBlock(r, s, val, data).t, x)
  {
    if val == s.prev && s.t.entries != [] {
      LowerHolds(r, s.t, 16 * data, x);
    } else {
      PushHolds(r, s.t, 16 * data, val, x);
    }
  }

  lemma {:induction false} HeldStep<W>(prints: seq<W>, none: W, r: Rules<W>, s: State<W>, val: W, data: nat, from: nat)
    requires Shaped(none, r, s, data) && r.bucket(val) < |s.t.heads| && Held(prints, r, s, from)
    ensures Held(prints, r, FileBlock(r, s, val, data), from)
    decreases |prints| - from
  {
    if from < |prints| {
      HoldsStep(none, r, s, val, data, prints[from]);
      HeldStep(prints, none, r, s, val, data, from + 1);
    }
  }

  lemma HoldsNewest<W>(none: W, r: Rules<W>, s: State<W>, val: W, data: nat)
    requires Shaped(none, r, s, data) && r.bucket(val) < |s.t.heads|
    requires s.t.entries != [] ==> Holds(r, s.t, s.prev)
    ensures Holds(r, FileBlock(r, s, val, data).t, val)
  {
    if val == s.prev && s.t.entries != [] {
      LowerHolds(r, s.t, 16 * data, val);
    } else {
      PushHolds(r, s.t, 16 * data, val, val);
    }
  }

  lemma HeldNext<W>(prints: seq<W>, none: W, r: Rules<W>, s: State<W>, data: nat)
    requires data < |prints| && r.bucket(prints[data]) < |s.t.heads| && Shaped(none, r, s, data + 1)
    requires Held(prints, r, s, data + 1)
    requires if data + 1 < |prints| then s.prev == prints[data + 1] else s.t.entries == []
    ensures Held(prints, r, FileBlock(r, s, prints[data], data + 1), data)
  {
    HeldStep(prints, none, r, s, prints[data], data + 1, data + 1);
    HoldsNewest(none, r, s, prints[data], data + 1);
  }

  lemma FiledLast<W>(prints: seq<W>, none: W, r: Rules<W>, slots: nat, data: nat)
    requires Fileable(prints, none, r, slots) && data <= |prints|
    ensures var s := Filed(prints, none, r, slots, data);
            if data < |prints| then s.prev == prints[data] else s.t.entries == []
  {}

  lemma {:induction false} FiledHeld<W>(prints: seq<W>, none: W, r: Rules<W>, slots: nat, data: nat)
    requires Fileable(prints, none, r, slots) && data <= |prints|
    ensures Held(prints, r, Filed(prints, none, r, slots, data), data)
    decreases |prints| - data
  {
    if data < |prints| {
      FiledHeld(prints, none, r, slots, data + 1);
      FiledShaped(prints, none, r, slots, data + 1);
      FiledLast(prints, none, r, slots, data + 1);
      HeldNext(prints, none, r, Filed(prints, none, r, slots, data + 1), data);
    }
  }

  lemma FiledFound<W>(prints: seq<W>, none: W, r: Rules<W>, slots: nat, s: State<W>)
    requires Fileable(prints, none, r, slots) && s == Filed(prints, none, r, slots, 0)
    ensures Valid(r, s.t) && |s.t.entries| <= |prints| && Counted(s.t, s.counts)
    ensures forall b: nat :: b < |prints| ==> Holds(r, s.t, prints[b])
  {
    FiledShaped(prints, none, r, slots, 0);
    FiledFew(prints, none, r, slots, 0);
    FiledHeld(prints, none, r, slots, 0);
    forall b: nat | b < |prints| ensures Holds(r, s.t, prints[b]) {
      HeldAt(prints, r, s, 0, b);
    }
  }

  // ----- runs of equal blocks -----

  /** The entry stands for a block, and the block before it, if any, has another fingerprint. */
  ghost predicate LowestOfRun<W>(prints: seq<W>, e: Entry<W>) {
    && e.ptr % 16 == 0 && 16 <= e.ptr <= 16 * |prints|
    && (e.ptr >= 32 ==> prints[e.ptr / 16 - 2] != e.val)
  }

  /** All entries but the newest are lowest in their runs, and the newest stands for block `data`. */
  ghost predicate RunsBegin<W>(prints: seq<W>, es: seq<Entry<W>>, data: nat) {
    forall k :: 0 <= k < |es| ==>
      if k == |es| - 1 then es[k].ptr == 16 * data + 16 <= 16 * |prints| else LowestOfRun(prints, es[k])
  }

  lemma RunsPush<W>(prints: seq<W>, es: seq<Entry<W>>, data: nat, e: Entry<W>)
    requires RunsBegin(prints, es, data) && 0 < data <= |prints| && e.ptr == 16 * data && prints[data - 1] == e.val
    requires es != [] ==> es[|es| - 1].val != e.val
    ensures RunsBegin(prints, es + [e], data - 1)
  {}

  lemma RunsLower<W>(prints: seq<W>, es: seq<Entry<W>>, data: nat, e: Entry<W>)
    requires RunsBegin(prints, es, data) && 0 < data <= |prints| && es != [] && e.ptr == 16 * data
    ensures RunsBegin(prints, es[|es| - 1 := e], data - 1)
  {}

  lemma {:induction false} FiledRuns<W>(prints: seq<W>, none: W, r: Rules<W>, slots: nat, data: nat)
    requires Fileable(prints, none, r, slots) && data <= |prints|
    ensures RunsBegin(prints, Filed(prints, none, r, slots, data).t.entries, data)
    decreases |prints| - data
  {
    if data < |prints| {
      var s := Filed(prints, none, r, slots, data + 1);
      var es := s.t.entries;
      FiledRuns(prints, none, r, slots, data + 1);
      FiledShaped(prints, none, r, slots, data + 1);
      if prints[data] == s.prev && es != [] {
        RunsLower(prints, es, data + 1, es[|es| - 1].(ptr := 16 * (data + 1)));
      } else {
        RunsPush(prints, es, data + 1, Entry(16 * (data + 1), prints[data], s.t.heads[r.bucket(prints[data])]));
      }
    }
  }

  lemma FiledLowest<W>(prints: seq<W>, none: W, r: Rules<W>, slots: nat, s: State<W>)
    requires Fileable(prints, none, r, slots) && s == Filed(prints, none, r, slots, 0)
    ensures forall k :: 0 <= k < |s.t.entries| ==> LowestOfRun(prints, s.t.entries[k])
  {
    FiledRuns(prints, none, r, slots, 0);
  }

  // ----- where each run is found -----

  /** Block `b` is the lowest of its run among the blocks from `data` on. */
  predicate Starts<W(==)>(prints: seq<W>, data: nat, b: nat) {
    data <= b < |prints| && (b == data || prints[b - 1] != prints[b])
  }

  /** The lowest block of each run is found. */
  ghost predicate Placed<W>(prints: seq<W>, r: Rules<W>, t: Table<W>, data: nat) {
    forall b: nat :: Starts(prints, data, b) ==> FiledAt(r, t, 16 * b + 16, prints[b])
  }

  /** The newest entry is the first of its bucket, and stands for block `data`. */
  ghost predicate NewestFirst<W>(prints: seq<W>, r: Rules<W>, s: State<W>, data: nat) {
    if data >= |prints| then s.t.entries == []
    else
      && s.t.entries != [] && s.prev == prints[data] && r.bucket(s.prev) < |s.t.heads|
      && s.t.heads[r.bucket(s.prev)] == |s.t.entries| - 1
      && s.t.entries[|s.t.entries| - 1].ptr == 16 * data + 16 && s.t.entries[|s.t.entries| - 1].val == s.prev
  }

  lemma NewestNext<W>(prints: seq<W>, r: Rules<W>, s: State<W>, data: nat)
    requires data < |prints| && r.bucket(prints[data]) < |s.t.heads| == |s.counts|
    requires NewestFirst(prints, r, s, data + 1)
    ensures NewestFirst(prints, r, FileBlock(r, s, prints[data], data + 1), data)
  {}

  lemma NewestFiled<W>(r: Rules<W>, t: Table<W>, ptr: nat, val: W)
    requires t.entries != [] && t.entries[|t.entries| - 1].val == val
    requires r.bucket(val) < |t.heads| && t.heads[r.bucket(val)] == |t.entries| - 1
    ensures FiledAt(r, Lower(t, ptr), ptr, val)
  {
    assert ChainOf(Lower(t, ptr), r.bucket(val))[0] == |t.entries| - 1;
  }

  /** A block that joins the run after it. */
  lemma PlacedLower<W>(prints: seq<W>, r: Rules<W>, s: State<W>, data: nat, b: nat)
    requires data + 1 < |prints| && HeadsOk(r, s.t) && Placed(prints, r, s.t, data + 1) && NewestFirst(prints, r, s, data + 1)
    requires prints[data] == s.prev && Starts(prints, data, b)
    ensures FiledAt(r, Lower(s.t, 16 * data + 16), 16 * b + 16, prints[b])
  {
    if b > data {
      assert b != data + 1 && Starts(prints, data + 1, b);
      LowerFiled(r, s.t, 16 * data + 16, 16 * b + 16, prints[b]);
    } else {
      NewestFiled(r, s.t, 16 * data + 16, s.prev);
    }
  }

  /** A block that begins a run of its own. */
  lemma PlacedPush<W>(prints: seq<W>, r: Rules<W>, t: Table<W>, data: nat, b: nat)
    requires data < |prints| && r.bucket(prints[data]) < |t.heads| && HeadsOk(r, t) && Placed(prints, r, t, data + 1)
    requires Starts(prints, data, b) && (data + 1 < |prints| ==> prints[data] != prints[data + 1])
    ensures FiledAt(r, Push(r, t, 16 * data + 16, prints[data]), 16 * b + 16, prints[b])
  {
    if b > data {
      assert Starts(prints, data + 1, b);
    }
    PushFiled(r, t, 16 * data + 16, prints[data], 16 * b + 16, prints[b]);
  }

  lemma PlacedNext<W>(prints: seq<W>, r: Rules<W>, s: State<W>, data: nat)
    requires data < |prints| && r.bucket(prints[data]) < |s.t.heads| == |s.counts| && HeadsOk(r, s.t)
    requires Placed(prints, r, s.t, data + 1) && NewestFirst(prints, r, s, data + 1)
    ensures Placed(prints, r, FileBlock(r, s, prints[data], data + 1).t, data)
  {
    if prints[data] == s.prev && s.t.entries != [] {
      forall b: nat | Starts(prints, data, b) ensures FiledAt(r, Lower(s.t, 16 * data + 16), 16 * b + 16, prints[b]) {
        PlacedLower(prints, r, s, data, b);
      }
    } else {
      forall b: nat | Starts(prints, data, b)
        ensures FiledAt(r, Push(r, s.t, 16 * data + 16, prints[data]), 16 * b + 16, prints[b])
      {
        PlacedPush(prints, r, s.t, data, b);
      }
    }
  }

  lemma {:induction false} FiledNewest<W>(prints: seq<W>, none: W, r: Rules<W>, slots: nat, data: nat)
    requires Fileable(prints, none, r, slots) && data <= |prints|
    ensures NewestFirst(prints, r, Filed(prints, none, r, slots, data), data)
    decreases |prints| - data
  {
    if data < |prints| {
      FiledNewest(prints, none, r, slots, data + 1);
      NewestNext(prints, r, Filed(prints, none, r, slots, data + 1), data);
    }
  }

  lemma FiledHeads<W>(prints: seq<W>, none: W, r: Rules<W>, slots: nat, data: nat)
    requires Fileable(prints, none, r, slots) && data <= |prints|
    ensures HeadsOk(r, Filed(prints, none, r, slots, data).t)
  {
    FiledShaped(prints, none, r, slots, data);
  }

  lemma {:induction false} FiledPlaced<W>(prints: seq<W>, none: W, r: Rules<W>, slots: nat, data: nat)
    requires Fileable(prints, none, r, slots) && data <= |prints|
    ensures Placed(prints, r, Filed(prints, none, r, slots, data).t, data)
    decreases |prints| - data
  {
    if data < |prints| {
      FiledPlaced(prints, none, r, slots, data + 1);
      FiledHeads(prints, none, r, slots, data + 1);
      FiledNewest(prints, none, r, slots, data + 1);
      PlacedNext(prints, r, Filed(prints, none, r, slots, data + 1), data);
    }
  }

  /** The bucket of `val` begins with the entry for `ptr`. */
  ghost predicate HeadIs<W>(r: Rules<W>, t: Table<W>, ptr: nat, val: W) {
    && r.bucket(val) < |t.heads| && 0 <= t.heads[r.bucket(val)] < |t.entries|
    && t.entries[t.heads[r.bucket(val)]].ptr == ptr && t.entries[t.heads[r.bucket(val)]].val == val
  }

  lemma FiledHead<W>(prints: seq<W>, none: W, r: Rules<W>, slots: nat, s: State<W>)
    requires Fileable(prints, none, r, slots) && s == Filed(prints, none, r, slots, 0)
    ensures forall b: nat :: Starts(prints, 0, b) ==> FiledAt(r, s.t, 16 * b + 16, prints[b])
    ensures prints != [] ==> HeadIs(r, s.t, 16, prints[0])
  {
    FiledPlaced(prints, none, r, slots, 0);
    FiledNewest(prints, none, r, slots, 0);
  }

  // ----- the loop -----

  method FileAll<W(==)>(prints: seq<W>, none: W, r: Rules<W>, slots: nat) returns (s: State<W>)
    requires forall b: nat :: b < |prints| ==> r.bucket(prints[b]) < slots
    ensures s == Filed(prints, none, r, slots, 0)
  {
    var t := Table(seq(slots, _ => -1), []);
    var counts := seq(slots, _ => 0);
    var prev := none;
    var data: nat := |prints|;
    while data > 0
      invariant data <= |prints| && State(t, counts, prev) == Filed(prints, none, r, slots, data)
    {
      var val := prints[data - 1];
      if val == prev && t.entries != [] {
        t := Lower(t, 16 * data);
      } else {
        var i := r.bucket(val);
        t := Push(r, t, 16 * data, val);
        counts := counts[i := counts[i] + 1];
        prev := val;
      }
      data := data - 1;
    }
    s := State(t, counts, prev);
  }

  /** Files all blocks. Each fingerprint is found in its bucket, and each entry stands for the lowest block of a run. */
  method FileBlocks<W(==)>(prints: seq<W>, none: W, r: Rules<W>, slots: nat) returns (t: Table<W>, counts: seq<nat>)
    requires Fileable(prints, none, r, slots)
    ensures |t.heads| == slots && Valid(r, t) && |t.entries| <= |prints| && Counted(t, counts)
    ensures forall b: nat :: b < |prints| ==> Holds(r, t, prints[b])
    ensures forall k :: 0 <= k < |t.entries| ==> LowestOfRun(prints, t.entries[k])
    ensures forall b: nat :: Starts(prints, 0, b) ==> FiledAt(r, t, 16 * b + 16, prints[b])
    ensures prints != [] ==> HeadIs(r, t, 16, prints[0])
  {
    var s := FileAll(prints, none, r, slots);
    FiledFound(prints, none, r, slots, s);
    FiledLowest(prints, none, r, slots, s);
    FiledHead(prints, none, r, slots, s);
    t, counts := s.t, s.counts;
  }
}
