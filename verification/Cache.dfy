/**
 * Object caches that share one storage counter. Objects are counted
 * references: a cache holds one for each object in it, and so does everyone
 * who was handed an object and has not released it yet.
 */
module Cache {
  import opened Common

  datatype Kind = Raw | Parsed

  datatype Obj = Obj(oid: nat, kind: Kind, kindOfObject: nat, size: nat)

  /** The buckets of a hash table, some of them taken, and the memory charged for them. */
  datatype Table = Table(slots: seq<Option<nat>>, used: int)

  // ----- sums -----

  function Sum<T>(f: T -> int, s: seq<T>): int {
    if s == [] then 0 else Sum(f, s[..|s| - 1]) + f(s[|s| - 1])
  }

  lemma {:induction false} SumUpdate<T>(f: T -> int, s: seq<T>, i: nat, x: T)
    requires i < |s|
    ensures Sum(f, s[i := x]) == Sum(f, s) - f(s[i]) + f(x)
    decreases |s|
  {
    var n := |s| - 1;
    if i == n {
      assert s[i := x][..n] == s[..n];
    } else {
      assert s[i := x][..n] == s[..n][i := x];
      SumUpdate(f, s[..n], i, x);
    }
  }

  lemma {:induction false} SumZero<T>(f: T -> int, s: seq<T>)
    requires forall i :: 0 <= i < |s| ==> f(s[i]) == 0
    ensures Sum(f, s) == 0
  {
    if s != [] {
      SumZero(f, s[..|s| - 1]);
    }
  }

  lemma {:induction false} SumBounds<T>(f: T -> int, s: seq<T>, i: nat)
    requires i < |s| && forall j :: 0 <= j < |s| ==> f(s[j]) >= 0
    ensures 0 <= f(s[i]) <= Sum(f, s)
    decreases |s|
  {
    var n := |s| - 1;
    if i < n {
      SumBounds(f, s[..n], i);
    } else {
      SumNatural(f, s[..n]);
    }
  }

  lemma {:induction false} SumNatural<T>(f: T -> int, s: seq<T>)
    requires forall j :: 0 <= j < |s| ==> f(s[j]) >= 0
    ensures Sum(f, s) >= 0
  {
    if s != [] {
      SumNatural(f, s[..|s| - 1]);
    }
  }

  // ----- what tables hold -----

  /** How often a slot holds `x`. */
  function Holds(x: nat): Option<nat> -> int { (o: Option<nat>) => if o == Some(x) then 1 else 0 }

  function Weighs(obj: nat -> Obj): Option<nat> -> int { (o: Option<nat>) => if o.Some? then obj(o.value).size else 0 }

  function Takes(): Option<nat> -> int { (o: Option<nat>) => if o.Some? then 1 else 0 }

  function TableHolds(x: nat): Table -> int { (c: Table) => Sum(Holds(x), c.slots) }

  function TableUses(): Table -> int { (c: Table) => c.used }

  /** No two objects in a table have the same id. */
  ghost predicate Distinct(obj: nat -> Obj, s: seq<Option<nat>>) {
    forall i, j :: 0 <= i < j < |s| && s[i].Some? && s[j].Some? ==> obj(s[i].value).oid != obj(s[j].value).oid
  }

  ghost predicate TableOk(obj: nat -> Obj, c: Table) {
    c.used == Sum(Weighs(obj), c.slots) && Distinct(obj, c.slots) && (c.slots != [] ==> 0x1_0000_0000 % |c.slots| == 0)
  }

  ghost predicate TablesOk(obj: nat -> Obj, cs: seq<Table>) {
    cs == [] || (TablesOk(obj, cs[..|cs| - 1]) && TableOk(obj, cs[|cs| - 1]))
  }

  lemma {:induction false} TablesAt(obj: nat -> Obj, cs: seq<Table>, k: nat)
    requires TablesOk(obj, cs) && k < |cs|
    ensures TableOk(obj, cs[k])
  {
    if k < |cs| - 1 {
      TablesAt(obj, cs[..|cs| - 1], k);
    }
  }

  lemma {:induction false} TablesUpdate(obj: nat -> Obj, cs: seq<Table>, k: nat, c: Table)
    requires TablesOk(obj, cs) && k < |cs| && TableOk(obj, c)
    ensures TablesOk(obj, cs[k := c])
    decreases |cs|
  {
    var n := |cs| - 1;
    if k == n {
      assert cs[k := c][..n] == cs[..n];
    } else {
      assert cs[k := c][..n] == cs[..n][k := c];
      TablesUpdate(obj, cs[..n], k, c);
    }
  }

  lemma {:induction false} TablesEmpty(obj: nat -> Obj, cs: seq<Table>)
    requires forall i :: 0 <= i < |cs| ==> cs[i] == Table([], 0)
    ensures TablesOk(obj, cs)
  {
    if cs != [] {
      TablesEmpty(obj, cs[..|cs| - 1]);
    }
  }

  // ----- going round the buckets -----

  /** The next bucket, from the last one back to the first. */
  lemma NextBucket(seed: nat, n: nat)
    requires 0 < n && seed < 0x1_0000_0000 && 0x1_0000_0000 % n == 0
    ensures (seed + 1) % 0x1_0000_0000 % n == if seed % n + 1 == n then 0 else seed % n + 1
  {
    var q, r := seed / n, seed % n;
    assert seed == n * q + r;
    if seed + 1 == 0x1_0000_0000 {
      LastInRow(n, q, r, 0x1_0000_0000 / n);
    } else if r + 1 == n {
      assert seed + 1 == n * (q + 1);
      MultipleMod(n, q + 1, 0);
    } else {
      MultipleMod(n, q, r + 1);
    }
  }

  lemma MultipleMod(n: nat, q: nat, r: nat)
    requires r < n
    ensures (n * q + r) % n == r
  {
    var x := n * q + r;
    var d := x / n;
    assert x == n * d + x % n;
    Times(n, q, d);
    AtLeast(n, q - d);
  }

  lemma LastInRow(n: nat, q: nat, r: nat, m: nat)
    requires 0 < n && r < n && n * q + r + 1 == n * m
    ensures r + 1 == n
  {
    Times(n, m, q);
    AtLeast(n, m - q);
    Times(n, m - q, 1);
    AtLeast(n, m - q - 1);
  }

  lemma Times(n: nat, a: int, b: int)
    ensures n * (a - b) == n * a - n * b
  {}

  lemma AtLeast(n: nat, a: int)
    ensures a >= 1 ==> n * a >= n
    ensures a <= -1 ==> n * a + n <= 0
  {
    if a >= 1 {
      assert n * a == n + n * (a - 1);
    } else if a <= -1 {
      assert n * a == n * (a + 1) - n;
    }
  }

  /** How far `x` lies after `start`, going round. */
  function Ahead(x: nat, start: nat, n: nat): int { if x >= start then x - start else x - start + n }

  // ----- references -----

  /** Every reference is one in a table or one in someone's hands. */
  ghost predicate Counted(refs: multiset<nat>, handles: multiset<nat>, cs: seq<Table>) {
    forall x :: refs[x] == handles[x] + Sum(TableHolds(x), cs)
  }

  lemma SlotsChange(cs: seq<Table>, k: nat, i: nat, o: Option<nat>, x: nat)
    requires k < |cs| && i < |cs[k].slots|
    ensures Sum(TableHolds(x), cs[k := cs[k].(slots := cs[k].slots[i := o])]) ==
            Sum(TableHolds(x), cs) - Holds(x)(cs[k].slots[i]) + Holds(x)(o)
  {
    SumUpdate(TableHolds(x), cs, k, cs[k].(slots := cs[k].slots[i := o]));
    SumUpdate(Holds(x), cs[k].slots, i, o);
  }

  lemma HeldHasReference(refs: multiset<nat>, handles: multiset<nat>, cs: seq<Table>, k: nat, i: nat)
    requires Counted(refs, handles, cs) && k < |cs| && i < |cs[k].slots| && cs[k].slots[i].Some?
    ensures refs[cs[k].slots[i].value] > 0
  {
    var x := cs[k].slots[i].value;
    forall j | 0 <= j < |cs| ensures TableHolds(x)(cs[j]) >= 0 {
      SumNatural(Holds(x), cs[j].slots);
    }
    SumBounds(TableHolds(x), cs, k);
    SumBounds(Holds(x), cs[k].slots, i);
  }

  /** Taking an object out of a table together with the table's reference. */
  lemma CountedDrop(refs: multiset<nat>, handles: multiset<nat>, cs: seq<Table>, k: nat, i: nat)
    requires Counted(refs, handles, cs) && k < |cs| && i < |cs[k].slots| && cs[k].slots[i].Some?
    ensures refs[cs[k].slots[i].value] > 0
    ensures Counted(refs - multiset{cs[k].slots[i].value}, handles, cs[k := cs[k].(slots := cs[k].slots[i := None])])
  {
    HeldHasReference(refs, handles, cs, k, i);
    var y := cs[k].slots[i].value;
    forall x ensures (refs - multiset{y})[x] == handles[x] + Sum(TableHolds(x), cs[k := cs[k].(slots := cs[k].slots[i := None])]) {
      SlotsChange(cs, k, i, None, x);
    }
  }

  lemma HandedOver(refs: multiset<nat>, handles: multiset<nat>, cs: seq<Table>, x: nat)
    requires Counted(refs, handles, cs)
    ensures Counted(refs + multiset{x}, handles + multiset{x}, cs)
  {}

  lemma GivenBack(refs: multiset<nat>, handles: multiset<nat>, cs: seq<Table>, x: nat)
    requires Counted(refs, handles, cs) && x in handles
    ensures x in refs && Counted(refs - multiset{x}, handles - multiset{x}, cs)
  {
    HeldNatural(cs, x);
    forall y ensures (refs - multiset{x})[y] == (handles - multiset{x})[y] + Sum(TableHolds(y), cs) {
      assert refs[y] == handles[y] + Sum(TableHolds(y), cs);
    }
  }

  lemma DistinctDrop(obj: nat -> Obj, s: seq<Option<nat>>, i: nat)
    requires Distinct(obj, s) && i < |s|
    ensures Distinct(obj, s[i := None])
  {}

  // ----- eviction -----

  /** The `steps` buckets from `start` up to `pos`, going round, are empty. */
  ghost predicate Swept(s: seq<Option<nat>>, start: nat, steps: nat, pos: nat) {
    && start < |s| && pos < |s| && steps <= |s|
    && (steps < |s| ==> Ahead(pos, start, |s|) == steps) && (steps == |s| ==> pos == start)
    && forall x :: 0 <= x < |s| && Ahead(x, start, |s|) < steps ==> s[x].None?
  }

  lemma SweptNext(s: seq<Option<nat>>, start: nat, steps: nat, pos: nat)
    requires Swept(s, start, steps, pos) && s[pos].None? && steps < |s|
    ensures Swept(s, start, steps + 1, if pos + 1 == |s| then 0 else pos + 1)
  {}

  /** A sweep never comes round while a bucket is taken. */
  lemma SweptOnlyEmpty(s: seq<Option<nat>>, start: nat, steps: nat, pos: nat)
    requires Swept(s, start, steps, pos) && Sum(Takes(), s) > 0
    ensures steps < |s|
  {
    if steps == |s| {
      SumZero(Takes(), s);
    }
  }

  /** Objects of table `k` have been dropped that are still charged with `freed`. */
  ghost predicate Removing(obj: nat -> Obj, cs0: seq<Table>, cs: seq<Table>, k: nat, freed: int) {
    && k < |cs| && k < |cs0|
    && cs == cs0[k := Table(cs[k].slots, cs0[k].used)]
    && |cs[k].slots| == |cs0[k].slots|
    && Distinct(obj, cs[k].slots)
    && cs0[k].used == Sum(Weighs(obj), cs[k].slots) + freed
  }

  lemma RemovingDrop(obj: nat -> Obj, cs0: seq<Table>, cs: seq<Table>, k: nat, freed: int, i: nat)
    requires Removing(obj, cs0, cs, k, freed) && i < |cs[k].slots| && cs[k].slots[i].Some?
    ensures var s := cs[k].slots;
            && Removing(obj, cs0, cs[k := cs[k].(slots := s[i := None])], k, freed + obj(s[i].value).size)
            && Sum(Takes(), s[i := None]) == Sum(Takes(), s) - 1
  {
    DistinctDrop(obj, cs[k].slots, i);
    SumUpdate(Weighs(obj), cs[k].slots, i, None);
    SumUpdate(Takes(), cs[k].slots, i, None);
  }

  /** Giving up the charge settles the accounts. */
  lemma Settled(obj: nat -> Obj, refs: multiset<nat>, handles: multiset<nat>, cs0: seq<Table>, cs: seq<Table>, k: nat, freed: int)
    requires Removing(obj, cs0, cs, k, freed) && Counted(refs, handles, cs) && TablesOk(obj, cs0)
    ensures var now := cs[k := Table(cs[k].slots, cs[k].used - freed)];
            Accounts(obj, refs, handles, now, Sum(TableUses(), cs0) - freed) && OnlyChanges(cs0, now, k)
  {
    var c := Table(cs[k].slots, cs0[k].used - freed);
    var now := cs[k := c];
    assert now == cs0[k := c];
    TablesAt(obj, cs0, k);
    TablesUpdate(obj, cs0, k, c);
    SumUpdate(TableUses(), cs0, k, c);
    forall x ensures Sum(TableHolds(x), now) == Sum(TableHolds(x), cs) {
      SumUpdate(TableHolds(x), cs, k, c);
    }
  }

  /** References and memory are accounted for. */
  ghost predicate Accounts(obj: nat -> Obj, refs: multiset<nat>, handles: multiset<nat>, cs: seq<Table>, current: int) {
    && Counted(refs, handles, cs)
    && current == Sum(TableUses(), cs)
    && TablesOk(obj, cs)
  }

  lemma AccountsHand(obj: nat -> Obj, refs: multiset<nat>, handles: multiset<nat>, cs: seq<Table>, current: int, x: nat)
    requires Accounts(obj, refs, handles, cs, current)
    ensures Accounts(obj, refs + multiset{x}, handles + multiset{x}, cs, current)
  {
    HandedOver(refs, handles, cs, x);
  }

  lemma AccountsBack(obj: nat -> Obj, refs: multiset<nat>, handles: multiset<nat>, cs: seq<Table>, current: int, x: nat)
    requires Accounts(obj, refs, handles, cs, current) && x in handles
    ensures x in refs && Accounts(obj, refs - multiset{x}, handles - multiset{x}, cs, current)
  {
    GivenBack(refs, handles, cs, x);
  }

  /** All tables but one are as they were. */
  ghost predicate OnlyChanges(cs0: seq<Table>, cs: seq<Table>, k: nat) {
    |cs| == |cs0| && k < |cs| && cs == cs0[k := cs[k]]
  }

  const EVICT_COUNT: nat := 8

  /**
   * What a hash table makes of its buckets when an object is put into it, if
   * there is memory for it. The number of the call stands for all else it
   * may depend on.
   */
  type Placing = (nat, seq<Option<nat>>, nat) -> Option<seq<Option<nat>>>

  class Caches {
    const obj: nat -> Obj
    const limit: nat -> nat
    const maxStorage: int
    const place: Placing
    var puts: nat
    var enabled: bool
    var tables: seq<Table>
    var refs: multiset<nat>
    var current: int
    /** The references in the hands of callers. */
    var handles: multiset<nat>

    constructor (obj: nat -> Obj, limit: nat -> nat, maxStorage: int, place: Placing, n: nat)
      ensures this.obj == obj && this.limit == limit && this.maxStorage == maxStorage && this.place == place && enabled
      ensures Valid() && current == 0 && handles == multiset{}
      ensures |tables| == n && forall k :: 0 <= k < n ==> tables[k] == Table([], 0)
    {
      this.obj, this.limit, this.maxStorage, this.place := obj, limit, maxStorage, place;
      enabled, refs, current, handles, puts := true, multiset{}, 0, multiset{}, 0;
      tables := seq(n, i => Table([], 0));
      new;
      SumZero(TableUses(), tables);
      TablesEmpty(obj, tables);
      forall x ensures Sum(TableHolds(x), tables) == 0 {
        SumZero(TableHolds(x), tables);
      }
    }

    /** Memory and references are accounted for, in all caches together. */
    ghost predicate Valid()
      reads this
    {
      Accounts(obj, refs, handles, tables, current)
    }

    /** Empties one slot and gives up the table's reference; the charge for it is yet to be given up. */
    method Drop(k: nat, i: nat, ghost cs0: seq<Table>, freed: int) returns (more: int)
      requires Counted(refs, handles, tables) && Removing(obj, cs0, tables, k, freed)
      requires i < |tables[k].slots| && tables[k].slots[i].Some?
      modifies this`tables, this`refs
      ensures Counted(refs, handles, tables) && Removing(obj, cs0, tables, k, more)
      ensures tables[k].slots == old(tables)[k].slots[i := None]
      ensures Sum(Takes(), tables[k].slots) == Sum(Takes(), old(tables)[k].slots) - 1
      ensures refs == old(refs) - multiset{old(tables)[k].slots[i].value}
    {
      var x := tables[k].slots[i].value;
      CountedDrop(refs, handles, tables, k, i);
      RemovingDrop(obj, cs0, tables, k, freed, i);
      more := freed + obj(x).size;
      refs := refs - multiset{x};
      tables := tables[k := tables[k].(slots := tables[k].slots[i := None])];
    }

    method DropAll(k: nat, ghost cs0: seq<Table>) returns (freed: int)
      requires Counted(refs, handles, tables) && Removing(obj, cs0, tables, k, 0)
      modifies this`tables, this`refs
      ensures Counted(refs, handles, tables) && Removing(obj, cs0, tables, k, freed)
      ensures forall j :: 0 <= j < |tables[k].slots| ==> tables[k].slots[j].None?
    {
      freed := 0;
      var i: nat := 0;
      while i < |tables[k].slots|
        invariant Counted(refs, handles, tables) && Removing(obj, cs0, tables, k, freed) && i <= |tables[k].slots|
        invariant forall j :: 0 <= j < i ==> tables[k].slots[j].None?
        decreases |cs0[k].slots| - i
      {
        if tables[k].slots[i].Some? {
          freed := Drop(k, i, cs0, freed);
        }
        i := i + 1;
      }
    }

    method GiveUp(k: nat, ghost cs0: seq<Table>, freed: int)
      requires Counted(refs, handles, tables) && Removing(obj, cs0, tables, k, freed)
      requires current == Sum(TableUses(), cs0) && TablesOk(obj, cs0)
      modifies this`tables, this`current
      ensures Valid() && OnlyChanges(cs0, tables, k) && tables[k].slots == old(tables)[k].slots
      ensures tables[k].used == cs0[k].used - freed
    {
      Settled(obj, refs, handles, cs0, tables, k, freed);
      tables := tables[k := Table(tables[k].slots, tables[k].used - freed)];
      current := current - freed;
    }

    /** Empties a whole cache. */
    method Clear(k: nat)
      requires Valid() && k < |tables|
      modifies this`tables, this`refs, this`current
      ensures Valid() && OnlyChanges(old(tables), tables, k)
      ensures tables[k].used == 0 && forall j :: 0 <= j < |tables[k].slots| ==> tables[k].slots[j].None?
    {
      ghost var cs0 := tables;
      TablesAt(obj, tables, k);
      assert Removing(obj, cs0, tables, k, 0);
      var freed := DropAll(k, cs0);
      SumZero(Weighs(obj), tables[k].slots);
      GiveUp(k, cs0, freed);
    }

    /** Drops eight objects, going round the buckets from one that the seed picks. */
    method Sweep(k: nat, seed0: nat, ghost cs0: seq<Table>) returns (freed: int)
      requires Counted(refs, handles, tables) && Removing(obj, cs0, tables, k, 0) && seed0 < 0x1_0000_0000
      requires tables[k].slots != [] && 0x1_0000_0000 % |tables[k].slots| == 0
      requires Sum(Takes(), tables[k].slots) >= EVICT_COUNT
      modifies this`tables, this`refs
      ensures Counted(refs, handles, tables) && Removing(obj, cs0, tables, k, freed)
      ensures Sum(Takes(), tables[k].slots) == Sum(Takes(), old(tables)[k].slots) - EVICT_COUNT
    {
      var seed := seed0;
      freed := 0;
      for i := 0 to EVICT_COUNT
        invariant Counted(refs, handles, tables) && Removing(obj, cs0, tables, k, freed)
        invariant seed < 0x1_0000_0000 && |tables[k].slots| == |old(tables)[k].slots|
        invariant Sum(Takes(), tables[k].slots) == Sum(Takes(), old(tables)[k].slots) - i
      {
        var pos;
        pos, seed := NextTaken(tables[k].slots, seed);
        freed := Drop(k, pos, cs0, freed);
      }
    }

    /** Drops eight objects, or all of them if there are fewer. */
    method EvictEntries(k: nat, seed: nat)
      requires Valid() && k < |tables| && seed < 0x1_0000_0000
      modifies this`tables, this`refs, this`current
      ensures Valid() && OnlyChanges(old(tables), tables, k)
      ensures var n := Sum(Takes(), old(tables)[k].slots);
              Sum(Takes(), tables[k].slots) == if n < 8 then 0 else n - 8
    {
      var taken := CountTaken(tables[k].slots);
      if EVICT_COUNT > taken {
        Clear(k);
        SumZero(Takes(), tables[k].slots);
        return;
      }
      ghost var cs0 := tables;
      TablesAt(obj, tables, k);
      assert Removing(obj, cs0, tables, k, 0);
      var freed := Sweep(k, seed, cs0);
      GiveUp(k, cs0, freed);
    }

    /** One more reference, for the caller. */
    method Hand(x: nat)
      requires Valid()
      modifies this`refs, this`handles
      ensures Valid() && handles == old(handles) + multiset{x}
    {
      AccountsHand(obj, refs, handles, tables, current, x);
      refs := refs + multiset{x};
      handles := handles + multiset{x};
    }

    /** Looks an object up; it is of the kind asked for, if one is. */
    method Get(k: nat, oid: nat, want: Option<Kind>) returns (r: Option<nat>)
      requires Valid() && k < |tables|
      modifies this`refs, this`handles
      ensures Valid()
      ensures r.Some? ==> Some(r.value) in tables[k].slots && obj(r.value).oid == oid && (want.Some? ==> obj(r.value).kind == want.value)
      ensures r.None? && enabled ==>
                forall x :: Some(x) in tables[k].slots && obj(x).oid == oid ==> want.Some? && obj(x).kind != want.value
      ensures handles == old(handles) + (if r.Some? then multiset{r.value} else multiset{})
    {
      r := None;
      if !enabled {
        return;
      }
      var i := Lookup(obj, tables[k].slots, oid);
      if i < |tables[k].slots| {
        var x := tables[k].slots[i].value;
        if Fits(obj(x), oid, want) {
          Hand(x);
          r := Some(x);
        } else {
          TablesAt(obj, tables, k);
          OneWithId(obj, tables[k].slots, i);
        }
      }
    }

    /**
     * Offers an object to a cache. The caller gets the object to use from then
     * on: the one offered, or one of its kind that the cache had already.
     */
    method Store(k: nat, x: nat, seed: nat) returns (r: nat)
      requires Valid() && k < |tables| && seed < 0x1_0000_0000 && SizedById(obj) && Places(obj, place)
      modifies this
      ensures Valid() && enabled == old(enabled)
      ensures obj(r).oid == obj(x).oid && obj(r).kind == obj(x).kind && handles == old(handles) + multiset{r}
      ensures |tables| == |old(tables)|
      ensures enabled && obj(x).size < limit(obj(x).kindOfObject) ==>
                Took(obj, place, old(puts), old(tables), tables, k, x, r, old(current) <= maxStorage)
    {
      ghost var before := handles;
      Hand(x);
      r := x;
      if !enabled && tables[k].used > 0 {
        Clear(k);
        return;
      }
      if !enabled || obj(x).size >= limit(obj(x).kindOfObject) {
        return;
      }
      r := Admit(k, x, seed);
      Exchanged(before, x, r);
    }

    /** Makes room if need be, then stores the object or finds it stored. */
    method Admit(k: nat, x: nat, seed: nat) returns (r: nat)
      requires Valid() && k < |tables| && seed < 0x1_0000_0000 && SizedById(obj) && Places(obj, place) && x in handles
      modifies this`tables, this`refs, this`handles, this`current, this`puts
      ensures Valid() && Took(obj, place, old(puts), old(tables), tables, k, x, r, old(current) <= maxStorage)
      ensures obj(r).oid == obj(x).oid && obj(r).kind == obj(x).kind
      ensures handles == old(handles) - multiset{x} + multiset{r}
    {
      TakenBackAndGiven(handles, x);
      if current > maxStorage {
        EvictEntries(k, seed);
      }
      var i := Lookup(obj, tables[k].slots, obj(x).oid);
      if i == |tables[k].slots| {
        AbsentSettles(obj, tables[k].slots, x, x);
        PutNew(k, x);
        r := x;
      } else {
        r := Merge(k, i, x);
      }
    }

    method PutNew(k: nat, x: nat)
      requires Valid() && k < |tables| && Places(obj, place)
      requires !Has(obj, tables[k].slots, obj(x).oid)
      modifies this`tables, this`refs, this`current, this`puts
      ensures Valid() && OnlyChanges(old(tables), tables, k) && puts == old(puts) + 1
      ensures Settles(obj, tables[k].slots, x, x)
      ensures if place(old(puts), old(tables)[k].slots, x).Some? then Has(obj, tables[k].slots, obj(x).oid) else tables == old(tables)
    {
      var t := place(puts, tables[k].slots, x);
      PutOk(obj, place, puts, refs, handles, tables, k, x, current);
      puts := puts + 1;
      if t.Some? {
        Put(k, x, t.value);
      }
    }

    method Put(k: nat, x: nat, t: seq<Option<nat>>)
      requires k < |tables| && Has(obj, t, obj(x).oid)
      requires var now := tables[k := Table(t, tables[k].used + obj(x).size)];
               Accounts(obj, refs + multiset{x}, handles, now, current + obj(x).size)
      modifies this`tables, this`refs, this`current
      ensures Valid() && OnlyChanges(old(tables), tables, k) && Has(obj, tables[k].slots, obj(x).oid)
      ensures tables[k].slots == t
    {
      tables := tables[k := Table(t, tables[k].used + obj(x).size)];
      refs := refs + multiset{x};
      current := current + obj(x).size;
    }

    /** The cache has the object already, perhaps in another form; a parsed form replaces a raw one. */
    method Merge(k: nat, i: nat, x: nat) returns (r: nat)
      requires Valid() && k < |tables| && i < |tables[k].slots| && tables[k].slots[i].Some? && SizedById(obj)
      requires obj(tables[k].slots[i].value).oid == obj(x).oid && x in handles
      modifies this`tables, this`refs, this`handles
      ensures Valid() && OnlyChanges(old(tables), tables, k) && Has(obj, tables[k].slots, obj(x).oid)
      ensures obj(r).oid == obj(x).oid && obj(r).kind == obj(x).kind
      ensures Merged(obj, old(tables)[k].slots, tables[k].slots, x, r) && Settles(obj, tables[k].slots, x, r)
      ensures handles == old(handles) - multiset{x} + multiset{r}
    {
      var y := tables[k].slots[i].value;
      r := x;
      TakenBackAndGiven(handles, x);
      if obj(y).kind == obj(x).kind {
        Exchange(x, y);
        r := y;
      } else if obj(y).kind == Raw {
        ReplaceSlot(k, i, x);
      }
      TablesAt(obj, old(tables), k);
      MergedAt(obj, old(tables)[k].slots, tables[k].slots, i, x, r);
    }

    method ReplaceSlot(k: nat, i: nat, x: nat)
      requires Valid() && k < |tables| && i < |tables[k].slots| && tables[k].slots[i].Some? && SizedById(obj)
      requires obj(tables[k].slots[i].value).oid == obj(x).oid
      modifies this`tables, this`refs
      ensures Valid() && OnlyChanges(old(tables), tables, k) && Has(obj, tables[k].slots, obj(x).oid)
      ensures tables[k].slots == old(tables)[k].slots[i := Some(x)]
    {
      Replaced(obj, refs, handles, tables, k, i, x, current);
      refs := refs - multiset{tables[k].slots[i].value} + multiset{x};
      tables := tables[k := tables[k].(slots := tables[k].slots[i := Some(x)])];
    }

    /** A reference to one object is given back for one to another. */
    method Exchange(x: nat, y: nat)
      requires Valid() && x in handles
      modifies this`refs, this`handles
      ensures Valid() && handles == old(handles) - multiset{x} + multiset{y}
    {
      AccountsBack(obj, refs, handles, tables, current, x);
      refs, handles := refs - multiset{x}, handles - multiset{x};
      Hand(y);
    }

    /** Gives a reference back; only then may the object go, and only if nobody else has one. */
    method Release(x: nat)
      requires Valid() && x in handles
      modifies this`refs, this`handles
      ensures Valid() && handles == old(handles) - multiset{x}
      ensures refs == old(refs) - multiset{x}
    {
      AccountsBack(obj, refs, handles, tables, current, x);
      refs := refs - multiset{x};
      handles := handles - multiset{x};
    }
  }

  datatype Step =
    | StoreIn(k: nat, x: nat, seed: nat)
    | LookUp(k: nat, oid: nat, want: Option<Kind>)
    | Empty(k: nat)
    | GiveBack(x: nat)
    | Switch(on: bool)

  function Bag(o: Option<nat>): multiset<nat> { if o.Some? then multiset{o.value} else multiset{} }

  /** The reference that was got has been added, or the one that was given back taken off. */
  ghost predicate Passed(before: multiset<nat>, after: multiset<nat>, got: Option<nat>, back: Option<nat>) {
    if back.Some? then got.None? && back.value in before && after == before - multiset{back.value}
    else if got.Some? then after == before + multiset{got.value}
    else after == before
  }

  /** One call: the reference the caller got and the one the caller gave back. */
  method Invoke(c: Caches, step: Step) returns (got: Option<nat>, back: Option<nat>)
    requires c.Valid() && SizedById(c.obj) && Places(c.obj, c.place)
    modifies c
    ensures c.Valid() && |c.tables| == old(|c.tables|)
    ensures Passed(old(c.handles), c.handles, got, back)
  {
    got, back := None, None;
    match step
    case StoreIn(k, x, seed) =>
      if k < |c.tables| && seed < 0x1_0000_0000 {
        var r := c.Store(k, x, seed);
        got := Some(r);
      }
    case LookUp(k, oid, want) =>
      if k < |c.tables| {
        got := c.Get(k, oid, want);
      }
    case Empty(k) =>
      if k < |c.tables| {
        c.Clear(k);
      }
    case GiveBack(x) =>
      if x in c.handles {
        c.Release(x);
        back := Some(x);
      }
    case Switch(on) =>
      c.enabled := on;
  }

  lemma Balance(h0: multiset<nat>, h: multiset<nat>, now: multiset<nat>, got: multiset<nat>, back: multiset<nat>,
                g: Option<nat>, b: Option<nat>)
    requires h + back == h0 + got && Passed(h, now, g, b)
    ensures now + (back + Bag(b)) == h0 + (got + Bag(g))
  {
    assert now + (back + Bag(b)) == h + back + Bag(g);
  }

  /**
   * Any sequence of calls, on whichever caches, keeps the accounts. The
   * references in the hands of callers are those they got less those they gave back.
   */
  method Perform(c: Caches, steps: seq<Step>) returns (got: multiset<nat>, back: multiset<nat>)
    requires c.Valid() && SizedById(c.obj) && Places(c.obj, c.place)
    modifies c
    ensures c.Valid() && |c.tables| == old(|c.tables|)
    ensures c.handles + back == old(c.handles) + got
  {
    got, back := multiset{}, multiset{};
    for i := 0 to |steps|
      invariant c.Valid() && |c.tables| == old(|c.tables|)
      invariant c.handles + back == old(c.handles) + got
    {
      ghost var h := c.handles;
      var g, b := Invoke(c, steps[i]);
      Balance(old(c.handles), h, c.handles, got, back, g, b);
      got, back := got + Bag(g), back + Bag(b);
    }
  }

  /** A cache with room for it has an object that was stored in it. */
  method StoreOne(obj: nat -> Obj, limit: nat -> nat, maxStorage: nat, x: nat) returns (c: Caches)
    requires SizedById(obj) && obj(x).size < limit(obj(x).kindOfObject)
    ensures c.Valid() && c.obj == obj && Places(c.obj, c.place) && |c.tables| == 1
    ensures Has(obj, c.tables[0].slots, obj(x).oid)
  {
    PutFirstPlaces(obj);
    c := new Caches(obj, limit, maxStorage, FirstFree(), 1);
    assert c.tables[0].slots == [];
    var r := c.Store(0, x, 0);
  }

  /** When everything is given back and every cache is empty, no reference and no memory is left. */
  lemma NothingLeft(obj: nat -> Obj, refs: multiset<nat>, handles: multiset<nat>, cs: seq<Table>, current: int)
    requires Accounts(obj, refs, handles, cs, current) && handles == multiset{}
    requires forall k, i :: 0 <= k < |cs| && 0 <= i < |cs[k].slots| ==> cs[k].slots[i].None?
    ensures refs == multiset{} && current == 0
  {
    forall x ensures refs[x] == 0 {
      forall k | 0 <= k < |cs| ensures TableHolds(x)(cs[k]) == 0 {
        SumZero(Holds(x), cs[k].slots);
      }
      SumZero(TableHolds(x), cs);
    }
    forall k | 0 <= k < |cs| ensures TableUses()(cs[k]) == 0 {
      TablesAt(obj, cs, k);
      SumZero(Weighs(obj), cs[k].slots);
    }
    SumZero(TableUses(), cs);
  }

  /** An object that a table or anyone holds has a reference, so it has not been freed. */
  lemma HeldIsAlive(obj: nat -> Obj, refs: multiset<nat>, handles: multiset<nat>, cs: seq<Table>, current: int, x: nat)
    requires Accounts(obj, refs, handles, cs, current)
    ensures x in handles ==> refs[x] > 0
    ensures (exists k :: 0 <= k < |cs| && Some(x) in cs[k].slots) ==> refs[x] > 0
  {
    HeldNatural(cs, x);
    if k :| 0 <= k < |cs| && Some(x) in cs[k].slots {
      var i: nat :| i < |cs[k].slots| && cs[k].slots[i] == Some(x);
      HeldHasReference(refs, handles, cs, k, i);
    }
  }

  /** The size of an object depends on its id alone. */
  ghost predicate SizedById(obj: nat -> Obj) {
    forall x, y :: obj(x).oid == obj(y).oid ==> obj(x).size == obj(y).size
  }

  /** A table after `x` has been put into it, in whatever bucket and however enlarged. */
  ghost predicate Placed(obj: nat -> Obj, s: seq<Option<nat>>, x: nat, t: seq<Option<nat>>) {
    && (forall y :: Sum(Holds(y), t) == Sum(Holds(y), s) + if y == x then 1 else 0)
    && Sum(Weighs(obj), t) == Sum(Weighs(obj), s) + obj(x).size
    && (forall o :: o in t && o.Some? ==> o == Some(x) || o in s)
    && Some(x) in t && 0x1_0000_0000 % |t| == 0
    && (Distinct(obj, s) && (forall j :: 0 <= j < |s| && s[j].Some? ==> obj(s[j].value).oid != obj(x).oid) ==> Distinct(obj, t))
  }

  /** If a table can be had, it is the old one with the object in it. */
  ghost predicate PlacesAt(obj: nat -> Obj, place: Placing, n: nat, s: seq<Option<nat>>, x: nat) {
    place(n, s, x).Some? ==> Placed(obj, s, x, place(n, s, x).value)
  }

  ghost predicate Places(obj: nat -> Obj, place: Placing) {
    forall n, s, x :: PlacesAt(obj, place, n, s, x)
  }

  // ----- a hash table of the simplest kind -----

  /** The first bucket that is free, or the number of buckets. */
  function Free(s: seq<Option<nat>>): (i: nat)
    ensures i <= |s| && (i < |s| ==> s[i].None?)
  {
    if s == [] || s[0].None? then 0 else 1 + Free(s[1..])
  }

  function Enlarged(s: seq<Option<nat>>): (t: seq<Option<nat>>) {
    s + seq(if s == [] then 1 else |s|, _ => None)
  }

  /** The table itself if it has a free bucket, else one twice as large. */
  function Roomy(s: seq<Option<nat>>): (r: seq<Option<nat>>)
    ensures Free(s) < |r| && r[Free(s)] == None
  {
    if Free(s) < |s| then s else Enlarged(s)
  }

  /** Puts an object into the first free bucket of a table, which is doubled if it is full. */
  function PutIn(s: seq<Option<nat>>, x: nat): seq<Option<nat>> { Roomy(s)[Free(s) := Some(x)] }

  /** The same, as long as the number of buckets divides 2^32. */
  function PutFirst(s: seq<Option<nat>>, x: nat): (t: Option<seq<Option<nat>>>) {
    if 0x1_0000_0000 % |Roomy(s)| == 0 then Some(PutIn(s, x)) else None
  }

  lemma {:induction false} SumEmpty(f: Option<nat> -> int, s: seq<Option<nat>>, n: nat)
    requires f(None) == 0
    ensures Sum(f, s + seq(n, _ => None)) == Sum(f, s)
    decreases n
  {
    var t := s + seq(n, _ => None);
    if n == 0 {
      assert t == s;
    } else {
      assert t[..|t| - 1] == s + seq(n - 1, _ => None);
      SumEmpty(f, s, n - 1);
    }
  }

  lemma RoomySum(f: Option<nat> -> int, s: seq<Option<nat>>)
    requires f(None) == 0
    ensures Sum(f, Roomy(s)) == Sum(f, s)
  {
    if Free(s) == |s| {
      SumEmpty(f, s, if s == [] then 1 else |s|);
    }
  }

  lemma PutSum(f: Option<nat> -> int, s: seq<Option<nat>>, x: nat)
    requires f(None) == 0
    ensures Sum(f, PutIn(s, x)) == Sum(f, s) + f(Some(x))
  {
    RoomySum(f, s);
    SumUpdate(f, Roomy(s), Free(s), Some(x));
  }

  lemma PutSums(obj: nat -> Obj, s: seq<Option<nat>>, x: nat)
    ensures forall y :: Sum(Holds(y), PutIn(s, x)) == Sum(Holds(y), s) + if y == x then 1 else 0
    ensures Sum(Weighs(obj), PutIn(s, x)) == Sum(Weighs(obj), s) + obj(x).size
  {
    forall y ensures Sum(Holds(y), PutIn(s, x)) == Sum(Holds(y), s) + if y == x then 1 else 0 {
      PutSum(Holds(y), s, x);
    }
    PutSum(Weighs(obj), s, x);
  }

  lemma PutAt(s: seq<Option<nat>>, x: nat, j: nat)
    requires j < |PutIn(s, x)|
    ensures PutIn(s, x)[j] == if j == Free(s) then Some(x) else if j < |s| then s[j] else None
  {}

  lemma PutMembers(obj: nat -> Obj, s: seq<Option<nat>>, x: nat)
    ensures Some(x) in PutIn(s, x) && forall o :: o in PutIn(s, x) && o.Some? ==> o == Some(x) || o in s
    ensures Distinct(obj, s) && (forall j :: 0 <= j < |s| && s[j].Some? ==> obj(s[j].value).oid != obj(x).oid) ==> Distinct(obj, PutIn(s, x))
  {
    var t := PutIn(s, x);
    assert t[Free(s)] == Some(x);
    forall j | 0 <= j < |t| ensures t[j] == if j == Free(s) then Some(x) else if j < |s| then s[j] else None {
      PutAt(s, x, j);
    }
  }

  lemma PutFirstPlaced(obj: nat -> Obj, s: seq<Option<nat>>, x: nat)
    requires PutFirst(s, x).Some?
    ensures Placed(obj, s, x, PutFirst(s, x).value)
  {
    PutSums(obj, s, x);
    PutMembers(obj, s, x);
  }

  function FirstFree(): Placing { (n: nat, s: seq<Option<nat>>, x: nat) => PutFirst(s, x) }

  /** Such a table meets what is asked of one, and it takes the first object. */
  lemma PutFirstPlaces(obj: nat -> Obj)
    ensures Places(obj, FirstFree()) && forall x :: PutFirst([], x).Some?
  {
    assert Enlarged([]) == [None];
    forall n, s, x ensures PlacesAt(obj, FirstFree(), n, s, x) {
      if PutFirst(s, x).Some? {
        PutFirstPlaced(obj, s, x);
      }
    }
  }

  ghost predicate Has(obj: nat -> Obj, s: seq<Option<nat>>, oid: nat) {
    exists i :: 0 <= i < |s| && s[i].Some? && obj(s[i].value).oid == oid
  }

  /** What the cache has under the id of `x` is `r`, or a parsed form where `x` is raw. */
  ghost predicate Settles(obj: nat -> Obj, s: seq<Option<nat>>, x: nat, r: nat) {
    forall o :: o in s && o.Some? && obj(o.value).oid == obj(x).oid ==> o == Some(r) || (obj(o.value).kind == Parsed && obj(x).kind == Raw)
  }

  /** What the cache had under the id of `x` is handed out if it is of the same kind, and gives way to a parsed `x` if it is raw. */
  ghost predicate Merged(obj: nat -> Obj, was: seq<Option<nat>>, now: seq<Option<nat>>, x: nat, r: nat) {
    forall i :: 0 <= i < |was| && was[i].Some? && obj(was[i].value).oid == obj(x).oid ==>
      && (obj(was[i].value).kind == obj(x).kind ==> r == was[i].value && now == was)
      && (obj(was[i].value).kind == Raw && obj(x).kind == Parsed ==> r == x && now == was[i := Some(x)])
      && (obj(was[i].value).kind == Parsed && obj(x).kind == Raw ==> r == x && now == was)
  }

  lemma PlacedSettles(obj: nat -> Obj, s: seq<Option<nat>>, x: nat, t: seq<Option<nat>>)
    requires Placed(obj, s, x, t)
    requires forall j :: 0 <= j < |s| && s[j].Some? ==> obj(s[j].value).oid != obj(x).oid
    ensures Settles(obj, t, x, x)
  {
  }

  lemma AbsentSettles(obj: nat -> Obj, s: seq<Option<nat>>, x: nat, r: nat)
    requires forall j :: 0 <= j < |s| && s[j].Some? ==> obj(s[j].value).oid != obj(x).oid
    ensures Settles(obj, s, x, r) && Merged(obj, s, s, x, r)
  {
  }

  lemma Exchanged(handles: multiset<nat>, x: nat, r: nat)
    ensures handles + multiset{x} - multiset{x} + multiset{r} == handles + multiset{r}
  {
  }

  /** Whether the table can be had or not, the accounts will balance. */
  lemma PutOk(obj: nat -> Obj, place: Placing, n: nat, refs: multiset<nat>, handles: multiset<nat>, cs: seq<Table>, k: nat, x: nat,
              current: int)
    requires Accounts(obj, refs, handles, cs, current) && k < |cs| && Places(obj, place)
    requires !Has(obj, cs[k].slots, obj(x).oid)
    ensures Settles(obj, cs[k].slots, x, x)
    ensures var t := place(n, cs[k].slots, x);
            t.Some? ==>
              && Accounts(obj, refs + multiset{x}, handles, cs[k := Table(t.value, cs[k].used + obj(x).size)], current + obj(x).size)
              && Has(obj, t.value, obj(x).oid) && Settles(obj, t.value, x, x)
  {
    var t := place(n, cs[k].slots, x);
    AbsentSettles(obj, cs[k].slots, x, x);
    if t.Some? {
      assert PlacesAt(obj, place, n, cs[k].slots, x);
      PlacedSettles(obj, cs[k].slots, x, t.value);
      PlacedIn(obj, refs, handles, cs, k, x, t.value, current);
    }
  }

  /** What became of `x`: `room` says that nothing had to be dropped first. */
  ghost predicate Took(obj: nat -> Obj, place: Placing, n: nat, was: seq<Table>, now: seq<Table>, k: nat, x: nat, r: nat, room: bool) {
    && k < |was| == |now|
    && Settles(obj, now[k].slots, x, r)
    && (room ==> Merged(obj, was[k].slots, now[k].slots, x, r))
    && (!Has(obj, now[k].slots, obj(x).oid) ==> place(n, now[k].slots, x).None? && (room ==> now == was))
  }

  lemma MergedAt(obj: nat -> Obj, was: seq<Option<nat>>, now: seq<Option<nat>>, i: nat, x: nat, r: nat)
    requires Distinct(obj, was) && i < |was| && was[i].Some? && obj(was[i].value).oid == obj(x).oid
    requires if obj(was[i].value).kind == obj(x).kind then r == was[i].value && now == was
             else r == x && now == if obj(x).kind == Parsed then was[i := Some(x)] else was
    ensures Merged(obj, was, now, x, r) && Settles(obj, now, x, r)
  {
    forall o | o in now && o.Some? && obj(o.value).oid == obj(x).oid
      ensures o == Some(r) || (obj(o.value).kind == Parsed && obj(x).kind == Raw)
    {
      var j :| 0 <= j < |now| && now[j] == o;
      assert j == i;
    }
  }

  lemma PlacedIn(obj: nat -> Obj, refs: multiset<nat>, handles: multiset<nat>, cs: seq<Table>, k: nat, x: nat,
                 t: seq<Option<nat>>, current: int)
    requires Accounts(obj, refs, handles, cs, current) && k < |cs| && Placed(obj, cs[k].slots, x, t)
    requires forall j :: 0 <= j < |cs[k].slots| && cs[k].slots[j].Some? ==> obj(cs[k].slots[j].value).oid != obj(x).oid
    ensures var now := cs[k := Table(t, cs[k].used + obj(x).size)];
            Accounts(obj, refs + multiset{x}, handles, now, current + obj(x).size) && Has(obj, t, obj(x).oid)
  {
    var c := Table(t, cs[k].used + obj(x).size);
    SumUpdate(TableUses(), cs, k, c);
    TablesAt(obj, cs, k);
    TablesUpdate(obj, cs, k, c);
    forall y ensures (refs + multiset{x})[y] == handles[y] + Sum(TableHolds(y), cs[k := c]) {
      SumUpdate(TableHolds(y), cs, k, c);
      assert refs[y] == handles[y] + Sum(TableHolds(y), cs);
    }
  }

  lemma Replaced(obj: nat -> Obj, refs: multiset<nat>, handles: multiset<nat>, cs: seq<Table>, k: nat, i: nat, x: nat, current: int)
    requires Accounts(obj, refs, handles, cs, current) && k < |cs| && i < |cs[k].slots| && cs[k].slots[i].Some?
    requires SizedById(obj) && obj(cs[k].slots[i].value).oid == obj(x).oid
    ensures var c, y := cs[k].(slots := cs[k].slots[i := Some(x)]), cs[k].slots[i].value;
            && refs[y] > 0 && Accounts(obj, refs - multiset{y} + multiset{x}, handles, cs[k := c], current)
            && Has(obj, c.slots, obj(x).oid)
  {
    var s := cs[k].slots;
    var c := cs[k].(slots := s[i := Some(x)]);
    HeldHasReference(refs, handles, cs, k, i);
    SumUpdate(TableUses(), cs, k, c);
    TablesAt(obj, cs, k);
    SwapOk(obj, cs[k], i, x);
    TablesUpdate(obj, cs, k, c);
    CountedSwap(refs, handles, cs, k, i, x);
    assert c.slots[i] == Some(x);
  }

  lemma SwapOk(obj: nat -> Obj, c: Table, i: nat, x: nat)
    requires TableOk(obj, c) && i < |c.slots| && c.slots[i].Some? && SizedById(obj) && obj(c.slots[i].value).oid == obj(x).oid
    ensures TableOk(obj, c.(slots := c.slots[i := Some(x)]))
  {
    SumUpdate(Weighs(obj), c.slots, i, Some(x));
  }

  lemma CountedSwap(refs: multiset<nat>, handles: multiset<nat>, cs: seq<Table>, k: nat, i: nat, x: nat)
    requires Counted(refs, handles, cs) && k < |cs| && i < |cs[k].slots| && cs[k].slots[i].Some?
    requires refs[cs[k].slots[i].value] > 0
    ensures Counted(refs - multiset{cs[k].slots[i].value} + multiset{x}, handles, cs[k := cs[k].(slots := cs[k].slots[i := Some(x)])])
  {
    var y := cs[k].slots[i].value;
    forall z ensures (refs - multiset{y} + multiset{x})[z] ==
                     handles[z] + Sum(TableHolds(z), cs[k := cs[k].(slots := cs[k].slots[i := Some(x)])]) {
      SlotsChange(cs, k, i, Some(x), z);
    }
  }

  predicate Fits(o: Obj, oid: nat, want: Option<Kind>) { o.oid == oid && (want.None? || o.kind == want.value) }

  lemma HeldNatural(cs: seq<Table>, x: nat)
    ensures Sum(TableHolds(x), cs) >= 0
  {
    forall j | 0 <= j < |cs| ensures TableHolds(x)(cs[j]) >= 0 {
      SumNatural(Holds(x), cs[j].slots);
    }
    SumNatural(TableHolds(x), cs);
  }

  lemma TakenBackAndGiven(h: multiset<nat>, x: nat)
    ensures x in h ==> h - multiset{x} + multiset{x} == h
    ensures forall r :: h + multiset{x} - multiset{x} + multiset{r} == h + multiset{r}
  {}

  lemma OneWithId(obj: nat -> Obj, s: seq<Option<nat>>, i: nat)
    requires Distinct(obj, s) && i < |s| && s[i].Some?
    ensures forall x :: Some(x) in s && obj(x).oid == obj(s[i].value).oid ==> x == s[i].value
  {
    forall x | Some(x) in s && obj(x).oid == obj(s[i].value).oid ensures x == s[i].value {
      var j :| 0 <= j < |s| && s[j] == Some(x);
    }
  }

  /** The slot with an id, or the number of slots. */
  method Lookup(obj: nat -> Obj, s: seq<Option<nat>>, oid: nat) returns (i: nat)
    ensures i <= |s| && (i < |s| ==> s[i].Some? && obj(s[i].value).oid == oid)
    ensures i == |s| ==> forall j :: 0 <= j < |s| && s[j].Some? ==> obj(s[j].value).oid != oid
  {
    i := 0;
    while i < |s| && !(s[i].Some? && obj(s[i].value).oid == oid)
      invariant i <= |s| && forall j :: 0 <= j < i && s[j].Some? ==> obj(s[j].value).oid != oid
    {
      i := i + 1;
    }
  }

  /** The first bucket that is taken, going round from the one the seed picks, and the seed after it. */
  method NextTaken(s: seq<Option<nat>>, seed0: nat) returns (pos: nat, seed: nat)
    requires s != [] && 0x1_0000_0000 % |s| == 0 && seed0 < 0x1_0000_0000 && Sum(Takes(), s) > 0
    ensures pos < |s| && s[pos].Some? && seed < 0x1_0000_0000
    ensures forall x :: 0 <= x < |s| && Ahead(x, seed0 % |s|, |s|) < Ahead(pos, seed0 % |s|, |s|) ==> s[x].None?
    ensures seed % |s| == if pos + 1 == |s| then 0 else pos + 1
  {
    pos, seed := seed0 % |s|, seed0;
    ghost var start: nat, steps: nat := pos, 0;
    SweptOnlyEmpty(s, start, steps, pos);
    NextBucket(seed, |s|);
    seed := (seed + 1) % 0x1_0000_0000;
    while s[pos].None?
      invariant seed < 0x1_0000_0000 && Swept(s, start, steps, pos) && steps < |s|
      invariant seed % |s| == if pos + 1 == |s| then 0 else pos + 1
      decreases |s| - steps
    {
      SweptNext(s, start, steps, pos);
      pos, steps := seed % |s|, steps + 1;
      SweptOnlyEmpty(s, start, steps, pos);
      NextBucket(seed, |s|);
      seed := (seed + 1) % 0x1_0000_0000;
    }
  }

  method CountTaken(s: seq<Option<nat>>) returns (n: nat)
    ensures n == Sum(Takes(), s)
  {
    n := 0;
    for i := 0 to |s|
      invariant n == Sum(Takes(), s[..i])
    {
      assert s[..i + 1][..i] == s[..i];
      if s[i].Some? {
        n := n + 1;
      }
    }
    assert s[..|s|] == s;
  }
}
