/**
 * Hash buckets as chains threaded through one list of entries. Entries are
 * numbered in order of arrival; a chain starts at its newest entry.
 */
module Buckets {

  /** `next` is the number of the entry after this one in its bucket, or -1. */
  datatype Entry<+W> = Entry(ptr: nat, val: W, next: int)

  /** `heads[i]` is the number of the first entry of bucket `i`, or -1. */
  datatype Table<+W> = Table(heads: seq<int>, entries: seq<Entry<W>>)

  /** How values are spread over buckets, and which positions a value may stand for. */
  datatype Rules<!W> = Rules(bucket: W -> nat, good: (nat, W) -> bool)

  /** Links lead to older entries, larger positions and the same bucket. */
  predicate LinkOk<W>(r: Rules<W>, entries: seq<Entry<W>>, k: nat)
    requires k < |entries|
  {
    var n := entries[k].next;
    -1 <= n < k
    && (n >= 0 ==> entries[k].ptr < entries[n].ptr && r.bucket(entries[n].val) == r.bucket(entries[k].val))
  }

  predicate HeadOk<W>(r: Rules<W>, t: Table<W>, i: nat)
    requires i < |t.heads|
  {
    var h := t.heads[i];
    -1 <= h < |t.entries| && (h >= 0 ==> r.bucket(t.entries[h].val) == i)
  }

  predicate Linked<W>(r: Rules<W>, entries: seq<Entry<W>>) {
    forall k :: 0 <= k < |entries| ==> LinkOk(r, entries, k)
  }

  predicate HeadsOk<W>(r: Rules<W>, t: Table<W>) {
    forall i :: 0 <= i < |t.heads| ==> HeadOk(r, t, i)
  }

  predicate EntriesGood<W>(r: Rules<W>, entries: seq<Entry<W>>) {
    forall k :: 0 <= k < |entries| ==> r.good(entries[k].ptr, entries[k].val)
  }

  predicate Valid<W>(r: Rules<W>, t: Table<W>) {
    EntriesGood(r, t.entries) && Linked(r, t.entries) && HeadsOk(r, t)
  }

  // ----- chains -----

  /** The numbers of the entries reached from `head`. */
  function Chain<W>(entries: seq<Entry<W>>, head: int): (c: seq<nat>)
    ensures forall k :: 0 <= k < |c| ==> c[k] < |entries|
    decreases head
  {
    if 0 <= head < |entries| then
      [head] + (if entries[head].next < head then Chain(entries, entries[head].next) else [])
    else []
  }

  function ChainOf<W>(t: Table<W>, i: nat): (c: seq<nat>)
    requires i < |t.heads|
    ensures forall k :: 0 <= k < |c| ==> c[k] < |t.entries|
  {
    Chain(t.entries, t.heads[i])
  }

  lemma {:induction false} ChainSameLinks<W>(e: seq<Entry<W>>, f: seq<Entry<W>>, head: int)
    requires |e| <= |f| && head < |e|
    requires forall k :: 0 <= k <= head ==> f[k].next == e[k].next
    ensures Chain(f, head) == Chain(e, head)
    decreases head
  {
    if 0 <= head && e[head].next < head {
      ChainSameLinks(e, f, e[head].next);
    }
  }

  /** `val` belongs to an entry of the chain. */
  predicate HoldsIn<W(==)>(entries: seq<Entry<W>>, chain: seq<nat>, val: W)
    requires forall k :: 0 <= k < |chain| ==> chain[k] < |entries|
  {
    exists k :: 0 <= k < |chain| && entries[chain[k]].val == val
  }

  /** `val` is found in its own bucket. */
  predicate Holds<W(==)>(r: Rules<W>, t: Table<W>, val: W) {
    r.bucket(val) < |t.heads| && HoldsIn(t.entries, ChainOf(t, r.bucket(val)), val)
  }

  /** Found in a chain, found in a longer chain of entries that kept their values. */
  lemma HoldsInGrown<W>(e: seq<Entry<W>>, c: seq<nat>, f: seq<Entry<W>>, front: seq<nat>, val: W)
    requires forall k :: 0 <= k < |c| ==> c[k] < |e|
    requires forall k :: 0 <= k < |front + c| ==> (front + c)[k] < |f|
    requires |e| <= |f| && forall k :: 0 <= k < |e| ==> f[k].val == e[k].val
    requires HoldsIn(e, c, val)
    ensures HoldsIn(f, front + c, val)
  {
    var k :| 0 <= k < |c| && e[c[k]].val == val;
    assert (front + c)[|front| + k] == c[k];
  }

  /** An entry of the chain stands for position `ptr` and value `val`. */
  predicate FiledIn<W(==)>(entries: seq<Entry<W>>, chain: seq<nat>, ptr: nat, val: W)
    requires forall k :: 0 <= k < |chain| ==> chain[k] < |entries|
  {
    exists k :: 0 <= k < |chain| && entries[chain[k]].ptr == ptr && entries[chain[k]].val == val
  }

  /** Position and value are found in the value's own bucket. */
  predicate FiledAt<W(==)>(r: Rules<W>, t: Table<W>, ptr: nat, val: W) {
    r.bucket(val) < |t.heads| && FiledIn(t.entries, ChainOf(t, r.bucket(val)), ptr, val)
  }

  lemma FiledInGrown<W>(e: seq<Entry<W>>, c: seq<nat>, f: seq<Entry<W>>, front: seq<nat>, ptr: nat, val: W)
    requires forall k :: 0 <= k < |c| ==> c[k] < |e|
    requires forall k :: 0 <= k < |front + c| ==> (front + c)[k] < |f|
    requires |e| <= |f| && forall k :: 0 <= k < |e| && e[k].ptr == ptr ==> f[k].ptr == ptr && f[k].val == e[k].val
    requires FiledIn(e, c, ptr, val)
    ensures FiledIn(f, front + c, ptr, val)
  {
    var k :| 0 <= k < |c| && e[c[k]].ptr == ptr && e[c[k]].val == val;
    assert (front + c)[|front| + k] == c[k];
  }

  // ----- a new entry at the head of its bucket -----

  function Push<W>(r: Rules<W>, t: Table<W>, ptr: nat, val: W): Table<W>
    requires r.bucket(val) < |t.heads|
  {
    var i := r.bucket(val);
    Table(t.heads[i := |t.entries|], t.entries + [Entry(ptr, val, t.heads[i])])
  }

  lemma PushChain<W>(r: Rules<W>, t: Table<W>, ptr: nat, val: W, i: nat)
    requires r.bucket(val) < |t.heads| && i < |t.heads| && HeadsOk(r, t)
    ensures ChainOf(Push(r, t, ptr, val), i)
         == if i == r.bucket(val) then [|t.entries|] + ChainOf(t, i) else ChainOf(t, i)
  {
    assert HeadOk(r, t, i);
    ChainSameLinks(t.entries, Push(r, t, ptr, val).entries, t.heads[i]);
  }

  lemma PushValid<W>(r: Rules<W>, t: Table<W>, ptr: nat, val: W)
    requires Valid(r, t) && r.bucket(val) < |t.heads| && r.good(ptr, val)
    requires forall k :: 0 <= k < |t.entries| ==> ptr < t.entries[k].ptr
    ensures Valid(r, Push(r, t, ptr, val))
  {
    var next := Push(r, t, ptr, val);
    assert HeadOk(r, t, r.bucket(val));
    forall k | 0 <= k < |next.entries| ensures LinkOk(r, next.entries, k) {
      if k < |t.entries| {
        assert LinkOk(r, t.entries, k);
      }
    }
    forall i | 0 <= i < |next.heads| ensures HeadOk(r, next, i) {
      assert HeadOk(r, t, i);
    }
  }

  lemma PushHolds<W>(r: Rules<W>, t: Table<W>, ptr: nat, val: W, w: W)
    requires r.bucket(val) < |t.heads| && HeadsOk(r, t)
    requires w == val || Holds(r, t, w)
    ensures Holds(r, Push(r, t, ptr, val), w)
  {
    var next := Push(r, t, ptr, val);
    var c := ChainOf(t, r.bucket(w));
    PushChain(r, t, ptr, val, r.bucket(w));
    if w == val {
      assert ([|t.entries|] + c)[0] == |t.entries|;
    } else if r.bucket(w) == r.bucket(val) {
      HoldsInGrown(t.entries, c, next.entries, [|t.entries|], w);
    } else {
      assert [] + c == c;
      HoldsInGrown(t.entries, c, next.entries, [], w);
    }
  }

  lemma PushFiled<W>(r: Rules<W>, t: Table<W>, ptr: nat, val: W, at: nat, w: W)
    requires r.bucket(val) < |t.heads| && HeadsOk(r, t)
    requires (at == ptr && w == val) || FiledAt(r, t, at, w)
    ensures FiledAt(r, Push(r, t, ptr, val), at, w)
  {
    var next := Push(r, t, ptr, val);
    var c := ChainOf(t, r.bucket(w));
    PushChain(r, t, ptr, val, r.bucket(w));
    if at == ptr && w == val {
      assert ([|t.entries|] + c)[0] == |t.entries|;
    } else if r.bucket(w) == r.bucket(val) {
      FiledInGrown(t.entries, c, next.entries, [|t.entries|], at, w);
    } else {
      assert [] + c == c;
      FiledInGrown(t.entries, c, next.entries, [], at, w);
    }
  }

  // ----- the newest entry moved to a smaller position -----

  function Lower<W>(t: Table<W>, ptr: nat): Table<W>
    requires t.entries != []
  {
    var last := |t.entries| - 1;
    t.(entries := t.entries[last := t.entries[last].(ptr := ptr)])
  }

  lemma LowerValid<W>(r: Rules<W>, t: Table<W>, ptr: nat)
    requires Valid(r, t) && t.entries != [] && r.good(ptr, t.entries[|t.entries| - 1].val)
    requires forall k :: 0 <= k < |t.entries| ==> ptr < t.entries[k].ptr
    ensures Valid(r, Lower(t, ptr))
  {
    var next := Lower(t, ptr);
    forall k | 0 <= k < |next.entries| ensures LinkOk(r, next.entries, k) {
      assert LinkOk(r, t.entries, k);
    }
    forall i | 0 <= i < |next.heads| ensures HeadOk(r, next, i) {
      assert HeadOk(r, t, i);
    }
  }

  lemma LowerChain<W>(r: Rules<W>, t: Table<W>, ptr: nat, i: nat)
    requires t.entries != [] && i < |t.heads| && HeadOk(r, t, i)
    ensures ChainOf(Lower(t, ptr), i) == ChainOf(t, i)
  {
    ChainSameLinks(t.entries, Lower(t, ptr).entries, t.heads[i]);
  }

  lemma LowerHolds<W>(r: Rules<W>, t: Table<W>, ptr: nat, w: W)
    requires t.entries != [] && HeadsOk(r, t) && Holds(r, t, w)
    ensures Holds(r, Lower(t, ptr), w)
  {
    var c := ChainOf(t, r.bucket(w));
    assert HeadOk(r, t, r.bucket(w));
    LowerChain(r, t, ptr, r.bucket(w));
    assert [] + c == c;
    HoldsInGrown(t.entries, c, Lower(t, ptr).entries, [], w);
  }

  lemma LowerFiled<W>(r: Rules<W>, t: Table<W>, ptr: nat, at: nat, w: W)
    requires t.entries != [] && HeadsOk(r, t) && FiledAt(r, t, at, w) && at != t.entries[|t.entries| - 1].ptr
    ensures FiledAt(r, Lower(t, ptr), at, w)
  {
    var c := ChainOf(t, r.bucket(w));
    assert HeadOk(r, t, r.bucket(w));
    LowerChain(r, t, ptr, r.bucket(w));
    assert [] + c == c;
    FiledInGrown(t.entries, c, Lower(t, ptr).entries, [], at, w);
  }

  // ----- counters -----

  /** The counters give the length of each chain. */
  predicate Counted<W>(t: Table<W>, counts: seq<nat>) {
    |counts| == |t.heads| && forall i :: 0 <= i < |counts| ==> counts[i] == |ChainOf(t, i)|
  }

  lemma PushCounted<W>(r: Rules<W>, t: Table<W>, counts: seq<nat>, ptr: nat, val: W)
    requires r.bucket(val) < |t.heads| && Counted(t, counts) && HeadsOk(r, t)
    ensures Counted(Push(r, t, ptr, val), counts[r.bucket(val) := counts[r.bucket(val)] + 1])
  {
    forall i | 0 <= i < |t.heads|
      ensures |ChainOf(Push(r, t, ptr, val), i)| == counts[r.bucket(val) := counts[r.bucket(val)] + 1][i]
    {
      PushChain(r, t, ptr, val, i);
    }
  }

  lemma LowerCounted<W>(r: Rules<W>, t: Table<W>, counts: seq<nat>, ptr: nat)
    requires t.entries != [] && Counted(t, counts) && HeadsOk(r, t)
    ensures Counted(Lower(t, ptr), counts)
  {
    forall i | 0 <= i < |t.heads| ensures counts[i] == |ChainOf(Lower(t, ptr), i)| {
      assert HeadOk(r, t, i);
      LowerChain(r, t, ptr, i);
    }
  }

  // ----- thinning a chain -----

  /** Every `step`-th element, from the first; only the first if `step` is 0. */
  function Thinned<T>(c: seq<T>, step: nat): seq<T>
    decreases |c|
  {
    if c == [] then []
    else if step == 0 || step >= |c| then [c[0]]
    else [c[0]] + Thinned(c[step..], step)
  }

  lemma {:induction false} ThinnedLength<T>(c: seq<T>, step: nat)
    requires c != []
    ensures step == 0 ==> |Thinned(c, step)| == 1
    ensures step > 0 ==> (|Thinned(c, step)| - 1) * step < |c| <= |Thinned(c, step)| * step
    decreases |c|
  {
    if 0 < step < |c| {
      ThinnedLength(c[step..], step);
      OneMore(|Thinned(c[step..], step)|, step);
    }
  }

  lemma OneMore(n: nat, step: nat)
    ensures (n + 1) * step == n * step + step && n * step == (n - 1) * step + step
  {}

  /** The entries of a valid chain all lie in one bucket, at increasing positions and decreasing numbers. */
  predicate Descends<W>(r: Rules<W>, entries: seq<Entry<W>>, c: seq<nat>)
    requires forall k :: 0 <= k < |c| ==> c[k] < |entries|
  {
    forall j, k :: 0 <= j < k < |c| ==>
      c[k] < c[j] && entries[c[j]].ptr < entries[c[k]].ptr && r.bucket(entries[c[j]].val) == r.bucket(entries[c[k]].val)
  }

  lemma {:induction false} ChainDescends<W>(r: Rules<W>, entries: seq<Entry<W>>, head: int)
    requires Linked(r, entries) && head < |entries|
    ensures Descends(r, entries, Chain(entries, head))
    decreases head
  {
    if 0 <= head {
      assert LinkOk(r, entries, head);
      var n := entries[head].next;
      ChainDescends(r, entries, n);
      var rest := Chain(entries, n);
      assert Chain(entries, head) == [head] + rest;
      if n >= 0 {
        assert rest[0] == n;
      }
    }
  }

  const HASH_LIMIT: nat := 64

  /** What culling leaves of a chain. */
  function Culled<T>(c: seq<T>): seq<T> {
    if |c| < HASH_LIMIT then c else Thinned(c, |c| / HASH_LIMIT / 2)
  }

  /**
   * Culling is meant to leave at most `HASH_LIMIT` entries in a bucket. It
   * does so exactly when the bucket had fewer than twice that many; what does
   * hold of every bucket is a limit of 255.
   */
  lemma CulledLength<T>(c: seq<T>)
    ensures |Culled(c)| <= HASH_LIMIT <==> |c| < 2 * HASH_LIMIT
    ensures |Culled(c)| <= 255
  {
    if |c| >= HASH_LIMIT {
      var step := |c| / HASH_LIMIT / 2;
      ThinnedLength(c, step);
      if step > 0 {
        CeilingBounds(|c|, step, |Thinned(c, step)|);
      }
    }
  }

  lemma MulLe(a: int, b: int, s: nat)
    ensures a <= b ==> a * s <= b * s
  {}

  lemma CeilingBounds(len: nat, step: nat, n: nat)
    requires step > 0 && 128 * step <= len < 128 * step + 128 && (n - 1) * step < len <= n * step
    ensures 128 <= n <= 255
  {
    MulLe(n, 127, step);
    MulLe(255, n - 1, step);
  }

  /** The entries of `d` are linked in order, and the last one leads to `end`. */
  predicate Threaded<W>(entries: seq<Entry<W>>, d: seq<nat>, end: int)
    decreases |d|
  {
    if d == [] then true
    else
      var last := d[|d| - 1];
      end < last < |entries| && entries[last].next == end && Threaded(entries, d[..|d| - 1], last)
  }

  lemma {:induction false} ThreadedChain<W>(entries: seq<Entry<W>>, d: seq<nat>, end: int)
    requires d != [] && Threaded(entries, d, end)
    ensures Chain(entries, d[0]) == d + Chain(entries, end)
    decreases |d|
  {
    var front, last := d[..|d| - 1], d[|d| - 1];
    assert Chain(entries, last) == [last] + Chain(entries, end);
    if front == [] {
      assert d == [last];
    } else {
      ThreadedChain(entries, front, last);
      assert front + ([last] + Chain(entries, end)) == d + Chain(entries, end);
    }
  }

  lemma {:induction false} ThreadedFrame<W>(e: seq<Entry<W>>, f: seq<Entry<W>>, d: seq<nat>, end: int)
    requires Threaded(e, d, end) && |f| == |e|
    requires forall k :: 0 <= k < |e| && end < k ==> f[k] == e[k]
    ensures Threaded(f, d, end)
    decreases |d|
  {
    if d != [] {
      ThreadedFrame(e, f, d[..|d| - 1], d[|d| - 1]);
    }
  }

  function Relink<W>(entries: seq<Entry<W>>, keep: nat, end: int): seq<Entry<W>>
    requires keep < |entries|
  {
    entries[keep := entries[keep].(next := end)]
  }

  lemma ThreadedExtend<W>(entries: seq<Entry<W>>, d: seq<nat>, keep: nat, end: int)
    requires Threaded(entries, d, keep) && end < keep < |entries|
    ensures Threaded(Relink(entries, keep, end), d + [keep], end)
  {
    ThreadedFrame(entries, Relink(entries, keep, end), d, keep);
    assert (d + [keep])[..|d|] == d;
  }

  lemma RelinkLinked<W>(r: Rules<W>, entries: seq<Entry<W>>, keep: nat, end: int)
    requires Linked(r, entries) && -1 <= end < keep < |entries|
    requires end >= 0 ==> entries[keep].ptr < entries[end].ptr && r.bucket(entries[end].val) == r.bucket(entries[keep].val)
    ensures Linked(r, Relink(entries, keep, end))
  {
    forall k | 0 <= k < |entries| ensures LinkOk(r, Relink(entries, keep, end), k) {
      assert LinkOk(r, entries, k);
    }
  }

  /** Walks down a chain: `step` links, or to its end if `step` is 0. */
  method Advance<W>(r: Rules<W>, entries: seq<Entry<W>>, start: nat, step: nat) returns (entry: int)
    requires Linked(r, entries) && start < |entries|
    ensures entry == NextKept(entries, start, step)
  {
    ghost var c := Chain(entries, start);
    ghost var p := 0;
    entry := start;
    var skip: int := step;
    while true
      invariant 0 <= p < |c| && entry == c[p] && Chain(entries, entry) == c[p..]
      invariant skip == step - p && (step > 0 ==> skip > 0)
      decreases entry
    {
      assert LinkOk(r, entries, entry);
      assert c[p..][1..] == c[p + 1..];
      entry := entries[entry].next;
      assert c[p..] == [c[p]] + Chain(entries, entry);
      p := p + 1;
      assert Chain(entries, entry) == c[p..];
      skip := skip - 1;
      if skip == 0 || entry < 0 {
        break;
      }
    }
  }

  /** Same positions and values; same links outside one bucket. */
  predicate Relinked<W(==)>(r: Rules<W>, e: seq<Entry<W>>, f: seq<Entry<W>>, bucket: nat) {
    |f| == |e| && forall k :: 0 <= k < |e| ==>
      f[k].ptr == e[k].ptr && f[k].val == e[k].val && (r.bucket(e[k].val) != bucket ==> f[k] == e[k])
  }

  /** Part-way through thinning: `done` has been kept and linked, `entry` comes next. */
  ghost predicate Thinning<W(!new)>(r: Rules<W>, entries: seq<Entry<W>>, head: nat, step: nat,
                                    out: seq<Entry<W>>, done: seq<nat>, entry: int)
  {
    && Linked(r, entries) && head < |entries| && -1 <= entry < |entries|
    && Linked(r, out) && Relinked(r, entries, out, r.bucket(entries[head].val))
    && (entry >= 0 ==> r.bucket(entries[entry].val) == r.bucket(entries[head].val))
    && (forall k :: 0 <= k <= entry ==> out[k] == entries[k])
    && Threaded(out, done, entry) && (if done == [] then entry else done[0]) == head
    && Thinned(Chain(entries, head), step) == done + Thinned(Chain(entries, entry), step)
  }

  /** The entry that follows `keep` once its chain is thinned. */
  function NextKept<W>(entries: seq<Entry<W>>, keep: nat, step: nat): int {
    var c := Chain(entries, keep);
    if step == 0 || step >= |c| then -1 else c[step]
  }

  lemma NextKeptOk<W>(r: Rules<W>, entries: seq<Entry<W>>, keep: nat, step: nat)
    requires Linked(r, entries) && keep < |entries|
    ensures
      var n := NextKept(entries, keep, step);
      && -1 <= n < keep
      && (n >= 0 ==> entries[keep].ptr < entries[n].ptr && r.bucket(entries[n].val) == r.bucket(entries[keep].val))
      && Thinned(Chain(entries, keep), step) == [keep] + Thinned(Chain(entries, n), step)
  {
    ChainDescends(r, entries, keep);
    ChainTail(r, entries, keep, step);
    assert Chain(entries, keep)[0] == keep;
  }

  lemma RelinkRelinked<W(!new)>(r: Rules<W>, e: seq<Entry<W>>, f: seq<Entry<W>>, bucket: nat, keep: nat, end: int)
    requires Relinked(r, e, f, bucket) && keep < |e| && r.bucket(e[keep].val) == bucket
    ensures Relinked(r, e, Relink(f, keep, end), bucket)
  {}

  lemma ThinningStep<W(!new)>(r: Rules<W>, entries: seq<Entry<W>>, head: nat, step: nat,
                              out: seq<Entry<W>>, done: seq<nat>, keep: nat)
    requires Thinning(r, entries, head, step, out, done, keep)
    ensures
      var entry := NextKept(out, keep, step);
      entry < keep && Thinning(r, entries, head, step, Relink(out, keep, entry), done + [keep], entry)
  {
    ChainSameLinks(entries, out, keep);
    NextKeptOk(r, entries, keep, step);
    var entry := NextKept(entries, keep, step);
    var kept := Thinned(Chain(entries, entry), step);
    ThreadedExtend(out, done, keep, entry);
    RelinkLinked(r, out, keep, entry);
    RelinkRelinked(r, entries, out, r.bucket(entries[head].val), keep, entry);
    assert done + ([keep] + kept) == (done + [keep]) + kept;
  }

  /** Thins one bucket in place. */
  method CullBucket<W(!new)>(r: Rules<W>, entries: seq<Entry<W>>, head: nat, count: nat) returns (out: seq<Entry<W>>)
    requires Linked(r, entries) && head < |entries|
    ensures Linked(r, out) && Relinked(r, entries, out, r.bucket(entries[head].val))
    ensures Chain(out, head) == Thinned(Chain(entries, head), count / HASH_LIMIT / 2)
  {
    out := entries;
    var entry: int := head;
    var step := count / HASH_LIMIT / 2;
    ghost var done: seq<nat> := [];
    assert [] + Thinned(Chain(entries, head), step) == Thinned(Chain(entries, head), step);
    while true
      invariant entry >= 0 && Thinning(r, entries, head, step, out, done, entry)
      decreases entry
    {
      var keep := entry;
      ThinningStep(r, entries, head, step, out, done, keep);
      entry := Advance(r, out, keep, step);
      out := Relink(out, keep, entry);
      done := done + [keep];
      if entry < 0 {
        break;
      }
    }
    ThreadedChain(out, done, -1);
    assert done + [] == done;
  }

  /** Further down a chain, the chain is its own tail. */
  lemma {:induction false} ChainTail<W>(r: Rules<W>, entries: seq<Entry<W>>, head: int, step: nat)
    requires Linked(r, entries) && head < |entries|
    ensures step < |Chain(entries, head)| ==> Chain(entries, Chain(entries, head)[step]) == Chain(entries, head)[step..]
    decreases step
  {
    if 0 < step < |Chain(entries, head)| {
      assert LinkOk(r, entries, head);
      ChainTail(r, entries, entries[head].next, step - 1);
    }
  }

  lemma {:induction false} ChainElsewhere<W>(r: Rules<W>, e: seq<Entry<W>>, f: seq<Entry<W>>, bucket: nat, head: int)
    requires Linked(r, e) && Relinked(r, e, f, bucket) && head < |e|
    requires head >= 0 ==> r.bucket(e[head].val) != bucket
    ensures Chain(f, head) == Chain(e, head)
    decreases head
  {
    if head >= 0 {
      assert LinkOk(r, e, head);
      ChainElsewhere(r, e, f, bucket, e[head].next);
    }
  }

  /** Same positions and values throughout. */
  predicate SameContent<W(==)>(e: seq<Entry<W>>, f: seq<Entry<W>>) {
    |f| == |e| && forall k :: 0 <= k < |e| ==> f[k].ptr == e[k].ptr && f[k].val == e[k].val
  }

  lemma CullOne<W(!new)>(r: Rules<W>, t: Table<W>, f: seq<Entry<W>>, i: nat)
    requires Valid(r, t) && i < |t.heads| && t.heads[i] >= 0
    requires Linked(r, f) && Relinked(r, t.entries, f, i)
    ensures Valid(r, t.(entries := f)) && SameContent(t.entries, f)
    ensures forall j :: 0 <= j < |t.heads| && j != i ==> ChainOf(t.(entries := f), j) == ChainOf(t, j)
  {
    forall j | 0 <= j < |t.heads| ensures HeadOk(r, t.(entries := f), j) { assert HeadOk(r, t, j); }
    forall j | 0 <= j < |t.heads| && j != i ensures ChainOf(t.(entries := f), j) == ChainOf(t, j) {
      assert HeadOk(r, t, j);
      ChainElsewhere(r, t.entries, f, i, t.heads[j]);
    }
  }

  /** Culls every bucket that has reached the limit, leaving the others as they are. */
  method CullAll<W(!new)>(r: Rules<W>, t: Table<W>, counts: seq<nat>) returns (u: Table<W>)
    requires Valid(r, t) && Counted(t, counts)
    ensures Valid(r, u) && u.heads == t.heads && SameContent(t.entries, u.entries)
    ensures forall i :: 0 <= i < |t.heads| ==> ChainOf(u, i) == Culled(ChainOf(t, i))
  {
    u := t;
    var i := 0;
    while i < |t.heads|
      invariant 0 <= i <= |t.heads|
      invariant Valid(r, u) && u.heads == t.heads && SameContent(t.entries, u.entries)
      invariant forall j :: 0 <= j < i ==> ChainOf(u, j) == Culled(ChainOf(t, j))
      invariant forall j :: i <= j < |t.heads| ==> ChainOf(u, j) == ChainOf(t, j)
    {
      if counts[i] >= HASH_LIMIT {
        assert HeadOk(r, u, i);
        assert u.heads[i] >= 0 && ChainOf(u, i) == ChainOf(t, i);
        var f := CullBucket(r, u.entries, u.heads[i], counts[i]);
        CullOne(r, u, f, i);
        u := u.(entries := f);
      }
      i := i + 1;
    }
  }
}
