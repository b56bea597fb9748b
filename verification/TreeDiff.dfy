/**
 * The difference of two trees: both are walked in path order, and the records
 * found for each path turn the one tree into the other.
 */
module TreeDiff {
  import opened Common

  /** A file in a tree. The top bits of the mode are its type. */
  datatype Entry<P> = Entry(path: P, mode: nat, oid: nat)

  function Type(mode: nat): nat { mode / 0x1000 }

  const GITLINK: nat := 0xE

  datatype Flags = Flags(reverse: bool, typechange: bool, unmodified: bool, ignoreSubmodules: bool)

  datatype Status = Unmodified | Added | Deleted | Modified | Typechange

  datatype File = File(mode: nat, oid: nat)

  datatype Delta<P> = Delta(status: Status, path: P, oldFile: Option<File>, newFile: Option<File>)

  function FileOf<P>(e: Entry<P>): Option<File> { Some(File(e.mode, e.oid)) }

  // ----- records -----

  function FromOne<P>(f: Flags, deleted: bool, e: Entry<P>): Delta<P> {
    if deleted != f.reverse then Delta(Deleted, e.path, FileOf(e), None) else Delta(Added, e.path, None, FileOf(e))
  }

  function FromTwo<P>(f: Flags, status: Status, o: Entry<P>, n: Entry<P>): seq<Delta<P>> {
    if status == Unmodified && !f.unmodified then []
    else if f.reverse then [Delta(status, o.path, FileOf(n), FileOf(o))]
    else [Delta(status, o.path, FileOf(o), FileOf(n))]
  }

  /** The records for a path in both trees; a change of type is a removal and an addition unless asked for. */
  function FromBoth<P>(f: Flags, o: Entry<P>, n: Entry<P>): seq<Delta<P>> {
    if Type(o.mode) != Type(n.mode) then
      if f.typechange then FromTwo(f, Typechange, o, n) else [FromOne(f, true, o), FromOne(f, false, n)]
    else if (o.oid == n.oid && o.mode == n.mode) || (Type(n.mode) == GITLINK && f.ignoreSubmodules) then
      FromTwo(f, Unmodified, o, n)
    else FromTwo(f, Modified, o, n)
  }

  /** The records for a path, from what the two trees have there. */
  function Records<P>(f: Flags, o: Option<Entry<P>>, n: Option<Entry<P>>): seq<Delta<P>> {
    match (o, n)
    case (None, None) => []
    case (Some(a), None) => [FromOne(f, true, a)]
    case (None, Some(b)) => [FromOne(f, false, b)]
    case (Some(a), Some(b)) => FromBoth(f, a, b)
  }

  // ----- trees and lists of records, path by path -----

  ghost predicate Sorted<P>(less: (P, P) -> bool, t: seq<Entry<P>>) {
    forall i, j :: 0 <= i < j < |t| ==> less(t[i].path, t[j].path)
  }

  function Find<P(==)>(t: seq<Entry<P>>, p: P): Option<Entry<P>> {
    if t == [] then None else if t[|t| - 1].path == p then Some(t[|t| - 1]) else Find(t[..|t| - 1], p)
  }

  function At<P(==)>(ds: seq<Delta<P>>, p: P): seq<Delta<P>> {
    if ds == [] then [] else At(ds[..|ds| - 1], p) + if ds[|ds| - 1].path == p then [ds[|ds| - 1]] else []
  }

  lemma {:induction false} AtConcat<P>(a: seq<Delta<P>>, b: seq<Delta<P>>, p: P)
    ensures At(a + b, p) == At(a, p) + At(b, p)
    decreases |b|
  {
    if b == [] {
      assert a + b == a;
    } else {
      var n := |b| - 1;
      assert (a + b)[..|a + b| - 1] == a + b[..n];
      AtConcat(a, b[..n], p);
    }
  }

  /** All records of a list are for one path. */
  ghost predicate OnPath<P>(ds: seq<Delta<P>>, p: P) { forall i :: 0 <= i < |ds| ==> ds[i].path == p }

  lemma {:induction false} AtOnPath<P>(ds: seq<Delta<P>>, q: P, p: P)
    requires OnPath(ds, q)
    ensures At(ds, p) == if p == q then ds else []
    decreases |ds|
  {
    if ds != [] {
      AtOnPath(ds[..|ds| - 1], q, p);
      assert ds == ds[..|ds| - 1] + [ds[|ds| - 1]];
    }
  }

  /** The list holds, for each path, exactly the records due to it. */
  ghost predicate Describes<P(!new)>(f: Flags, before: seq<Entry<P>>, after: seq<Entry<P>>, ds: seq<Delta<P>>) {
    forall p :: At(ds, p) == Records(f, Find(before, p), Find(after, p))
  }

  lemma FindNext<P>(t: seq<Entry<P>>, i: nat, p: P)
    requires i < |t|
    ensures Find(t[..i + 1], p) == if p == t[i].path then Some(t[i]) else Find(t[..i], p)
  {
    assert t[..i + 1][..i] == t[..i];
  }

  lemma {:induction false} FindAbsent<P>(t: seq<Entry<P>>, p: P)
    requires forall k :: 0 <= k < |t| ==> t[k].path != p
    ensures Find(t, p) == None
  {
    if t != [] {
      FindAbsent(t[..|t| - 1], p);
    }
  }

  // ----- the walk -----

  /** What the walk has found in a tree after one more entry, or none. */
  ghost predicate Extends<P(!new)>(t: seq<Entry<P>>, u: seq<Entry<P>>, e: Option<Entry<P>>, q: P) {
    (e.Some? ==> e.value.path == q) && forall p :: Find(u, p) == if p == q then e else Find(t, p)
  }

  lemma ExtendsNext<P(!new)>(less: (P, P) -> bool, t: seq<Entry<P>>, i: nat)
    requires StrictOrder(less) && Sorted(less, t) && i < |t|
    ensures Extends(t[..i], t[..i + 1], Some(t[i]), t[i].path) && Find(t[..i], t[i].path) == None
  {
    forall p ensures Find(t[..i + 1], p) == if p == t[i].path then Some(t[i]) else Find(t[..i], p) {
      FindNext(t, i, p);
    }
    FindAbsent(t[..i], t[i].path);
  }

  lemma ExtendsNot<P(!new)>(less: (P, P) -> bool, t: seq<Entry<P>>, i: nat, q: P)
    requires StrictOrder(less) && i <= |t| && forall k :: 0 <= k < i ==> less(t[k].path, q)
    ensures Extends(t[..i], t[..i], None, q) && Find(t[..i], q) == None
  {
    FindAbsent(t[..i], q);
  }

  lemma RecordsOnPath<P>(f: Flags, o: Option<Entry<P>>, n: Option<Entry<P>>, q: P)
    requires (o.Some? ==> o.value.path == q) && (n.Some? ==> n.value.path == q)
    ensures OnPath(Records(f, o, n), q)
  {}

  /** One more path is done with. */
  lemma DescribesNext<P(!new)>(f: Flags, a: seq<Entry<P>>, b: seq<Entry<P>>, c: seq<Entry<P>>, d: seq<Entry<P>>,
                               ds: seq<Delta<P>>, o: Option<Entry<P>>, n: Option<Entry<P>>, q: P)
    requires Describes(f, a, b, ds) && Extends(a, c, o, q) && Extends(b, d, n, q) && Find(a, q) == None && Find(b, q) == None
    ensures Describes(f, c, d, ds + Records(f, o, n)) && OnPath(Records(f, o, n), q)
  {
    RecordsOnPath(f, o, n, q);
    forall p ensures At(ds + Records(f, o, n), p) == Records(f, Find(c, p), Find(d, p)) {
      DescribesAt(f, a, b, c, d, ds, Records(f, o, n), p, q);
    }
  }

  lemma DescribesAt<P(!new)>(f: Flags, a: seq<Entry<P>>, b: seq<Entry<P>>, c: seq<Entry<P>>, d: seq<Entry<P>>,
                             ds: seq<Delta<P>>, more: seq<Delta<P>>, p: P, q: P)
    requires OnPath(more, q) && At(ds, p) == Records(f, Find(a, p), Find(b, p))
    requires p != q ==> Find(c, p) == Find(a, p) && Find(d, p) == Find(b, p)
    requires p == q ==> Find(a, p) == None && Find(b, p) == None && more == Records(f, Find(c, p), Find(d, p))
    ensures At(ds + more, p) == Records(f, Find(c, p), Find(d, p))
  {
    AtConcat(ds, more, p);
    AtOnPath(more, q, p);
  }

  /** Where the walk stands in both trees: nothing it has passed lies behind what comes next. */
  ghost predicate Walking<P(!new)>(less: (P, P) -> bool, a: seq<Entry<P>>, b: seq<Entry<P>>, i: nat, j: nat) {
    && i <= |a| && j <= |b|
    && (forall k :: 0 <= k < j && i < |a| ==> less(b[k].path, a[i].path))
    && (forall k :: 0 <= k < i && j < |b| ==> less(a[k].path, b[j].path))
  }

  /** The records are in path order. */
  ghost predicate InOrder<P(!new)>(less: (P, P) -> bool, ds: seq<Delta<P>>) {
    forall x, y :: 0 <= x < y < |ds| ==> !less(ds[y].path, ds[x].path)
  }

  /** Every record made so far lies behind `q`. */
  ghost predicate AllBefore<P(!new)>(less: (P, P) -> bool, ds: seq<Delta<P>>, q: P) {
    forall x :: 0 <= x < |ds| ==> less(ds[x].path, q)
  }

  lemma InOrderNext<P(!new)>(less: (P, P) -> bool, ds: seq<Delta<P>>, more: seq<Delta<P>>, q: P)
    requires StrictOrder(less) && InOrder(less, ds) && AllBefore(less, ds, q) && OnPath(more, q)
    ensures InOrder(less, ds + more)
    ensures forall r :: less(q, r) ==> AllBefore(less, ds + more, r)
  {}

  /** What holds whenever the walk has come to `i` and `j`. */
  ghost predicate Walk<P(!new)>(less: (P, P) -> bool, f: Flags, a: seq<Entry<P>>, b: seq<Entry<P>>, i: nat, j: nat,
                                ds: seq<Delta<P>>)
  {
    && Walking(less, a, b, i, j) && Describes(f, a[..i], b[..j], ds) && InOrder(less, ds)
    && (i < |a| ==> AllBefore(less, ds, a[i].path)) && (j < |b| ==> AllBefore(less, ds, b[j].path))
  }

  lemma WalkOld<P(!new)>(less: (P, P) -> bool, f: Flags, a: seq<Entry<P>>, b: seq<Entry<P>>, i: nat, j: nat, ds: seq<Delta<P>>)
    requires StrictOrder(less) && Sorted(less, a) && Sorted(less, b) && Walk(less, f, a, b, i, j, ds)
    requires i < |a| && (j < |b| ==> less(a[i].path, b[j].path))
    ensures Walk(less, f, a, b, i + 1, j, ds + [FromOne(f, true, a[i])])
  {
    var q := a[i].path;
    ExtendsNext(less, a, i);
    ExtendsNot(less, b, j, q);
    DescribesNext(f, a[..i], b[..j], a[..i + 1], b[..j], ds, Some(a[i]), None, q);
    InOrderNext(less, ds, [FromOne(f, true, a[i])], q);
  }

  lemma WalkNew<P(!new)>(less: (P, P) -> bool, f: Flags, a: seq<Entry<P>>, b: seq<Entry<P>>, i: nat, j: nat, ds: seq<Delta<P>>)
    requires StrictOrder(less) && Sorted(less, a) && Sorted(less, b) && Walk(less, f, a, b, i, j, ds)
    requires j < |b| && (i < |a| ==> less(b[j].path, a[i].path))
    ensures Walk(less, f, a, b, i, j + 1, ds + [FromOne(f, false, b[j])])
  {
    var q := b[j].path;
    ExtendsNext(less, b, j);
    ExtendsNot(less, a, i, q);
    DescribesNext(f, a[..i], b[..j], a[..i], b[..j + 1], ds, None, Some(b[j]), q);
    InOrderNext(less, ds, [FromOne(f, false, b[j])], q);
  }

  lemma WalkBoth<P(!new)>(less: (P, P) -> bool, f: Flags, a: seq<Entry<P>>, b: seq<Entry<P>>, i: nat, j: nat, ds: seq<Delta<P>>)
    requires StrictOrder(less) && Sorted(less, a) && Sorted(less, b) && Walk(less, f, a, b, i, j, ds)
    requires i < |a| && j < |b| && a[i].path == b[j].path
    ensures Walk(less, f, a, b, i + 1, j + 1, ds + FromBoth(f, a[i], b[j]))
  {
    var q := a[i].path;
    ExtendsNext(less, a, i);
    ExtendsNext(less, b, j);
    DescribesNext(f, a[..i], b[..j], a[..i + 1], b[..j + 1], ds, Some(a[i]), Some(b[j]), q);
    InOrderNext(less, ds, FromBoth(f, a[i], b[j]), q);
  }

  lemma WalkBegins<P(!new)>(less: (P, P) -> bool, f: Flags, a: seq<Entry<P>>, b: seq<Entry<P>>)
    ensures Walk(less, f, a, b, 0, 0, [])
  {}

  lemma WalkEnds<P(!new)>(less: (P, P) -> bool, f: Flags, a: seq<Entry<P>>, b: seq<Entry<P>>, ds: seq<Delta<P>>)
    requires Walk(less, f, a, b, |a|, |b|, ds)
    ensures Describes(f, a, b, ds) && InOrder(less, ds)
  {
    assert a[..|a|] == a && b[..|b|] == b;
  }

  // ----- what the records amount to -----

  ghost function Tree<P>(t: seq<Entry<P>>): set<Entry<P>> { set e | e in t }

  ghost function OldSides<P(!new)>(ds: seq<Delta<P>>): set<Entry<P>> {
    set d | d in ds && d.oldFile.Some? :: Entry(d.path, d.oldFile.value.mode, d.oldFile.value.oid)
  }

  ghost function NewSides<P(!new)>(ds: seq<Delta<P>>): set<Entry<P>> {
    set d | d in ds && d.newFile.Some? :: Entry(d.path, d.newFile.value.mode, d.newFile.value.oid)
  }

  lemma {:induction false} InAt<P>(ds: seq<Delta<P>>, d: Delta<P>)
    ensures d in ds <==> d in At(ds, d.path)
  {
    if ds != [] {
      InAt(ds[..|ds| - 1], d);
      assert ds == ds[..|ds| - 1] + [ds[|ds| - 1]];
    }
  }

  lemma {:induction false} FindIn<P>(t: seq<Entry<P>>, p: P)
    ensures Find(t, p).Some? ==> Find(t, p).value in t && Find(t, p).value.path == p
    ensures (forall e :: e in t && e.path == p ==> Find(t, p).Some?)
  {
    if t != [] {
      FindIn(t[..|t| - 1], p);
      assert t == t[..|t| - 1] + [t[|t| - 1]];
    }
  }

  lemma TreeHas<P(!new)>(less: (P, P) -> bool, t: seq<Entry<P>>, e: Entry<P>)
    requires StrictOrder(less) && Sorted(less, t)
    ensures e in t <==> Find(t, e.path) == Some(e)
  {
    FindIn(t, e.path);
    if e in t {
      var g := Find(t, e.path).value;
      var i :| 0 <= i < |t| && t[i] == e;
      var j :| 0 <= j < |t| && t[j] == g;
      assert i == j;
    }
  }

  /** A record stands for a file that only one of the trees has. */
  lemma SidesAt<P(!new)>(f: Flags, o: Option<Entry<P>>, n: Option<Entry<P>>, p: P, e: Entry<P>)
    requires !f.reverse && !f.unmodified && !f.ignoreSubmodules && e.path == p
    requires (o.Some? ==> o.value.path == p) && (n.Some? ==> n.value.path == p)
    ensures (exists d :: d in Records(f, o, n) && d.oldFile == FileOf(e)) <==> o == Some(e) && n != Some(e)
    ensures (exists d :: d in Records(f, o, n) && d.newFile == FileOf(e)) <==> n == Some(e) && o != Some(e)
  {
    var ds := Records(f, o, n);
    forall k | 0 <= k < |ds| ensures ds[k] in ds {}
  }

  lemma OldSide<P(!new)>(less: (P, P) -> bool, f: Flags, a: seq<Entry<P>>, b: seq<Entry<P>>, ds: seq<Delta<P>>, e: Entry<P>)
    requires StrictOrder(less) && Sorted(less, a) && Sorted(less, b) && Describes(f, a, b, ds)
    requires !f.reverse && !f.unmodified && !f.ignoreSubmodules
    ensures e in OldSides(ds) <==> e in a && e !in b
    ensures e in NewSides(ds) <==> e in b && e !in a
  {
    var p := e.path;
    var rs := Records(f, Find(a, p), Find(b, p));
    assert At(ds, p) == rs;
    TreeHas(less, a, e);
    TreeHas(less, b, e);
    FindIn(a, p);
    FindIn(b, p);
    SidesAt(f, Find(a, p), Find(b, p), p, e);
    SideInList(ds, e);
  }

  lemma SideInList<P(!new)>(ds: seq<Delta<P>>, e: Entry<P>)
    ensures e in OldSides(ds) <==> exists d :: d in At(ds, e.path) && d.oldFile == FileOf(e)
    ensures e in NewSides(ds) <==> exists d :: d in At(ds, e.path) && d.newFile == FileOf(e)
  {
    forall d ensures d in At(ds, e.path) ==> d.path == e.path && d in ds {
      AtPath(ds, e.path, d);
      InAt(ds, d);
    }
    if e in OldSides(ds) {
      var d :| d in ds && d.oldFile.Some? && Entry(d.path, d.oldFile.value.mode, d.oldFile.value.oid) == e;
      InAt(ds, d);
      assert d in At(ds, e.path) && d.oldFile == FileOf(e);
    }
    if e in NewSides(ds) {
      var d :| d in ds && d.newFile.Some? && Entry(d.path, d.newFile.value.mode, d.newFile.value.oid) == e;
      InAt(ds, d);
      assert d in At(ds, e.path) && d.newFile == FileOf(e);
    }
  }

  lemma {:induction false} AtPath<P>(ds: seq<Delta<P>>, p: P, d: Delta<P>)
    ensures d in At(ds, p) ==> d.path == p
  {
    if ds != [] {
      AtPath(ds[..|ds| - 1], p, d);
    }
  }

  /**
   * The records take away exactly the files that only the first tree has and
   * add exactly those that only the second one has, so they turn the first
   * tree into the second.
   */
  lemma Patch<P(!new)>(less: (P, P) -> bool, f: Flags, a: seq<Entry<P>>, b: seq<Entry<P>>, ds: seq<Delta<P>>)
    requires StrictOrder(less) && Sorted(less, a) && Sorted(less, b) && Describes(f, a, b, ds)
    requires !f.reverse && !f.unmodified && !f.ignoreSubmodules
    ensures OldSides(ds) == Tree(a) - Tree(b) && NewSides(ds) == Tree(b) - Tree(a)
    ensures Tree(a) - OldSides(ds) + NewSides(ds) == Tree(b)
  {
    forall e ensures e in OldSides(ds) <==> e in a && e !in b ensures e in NewSides(ds) <==> e in b && e !in a {
      OldSide(less, f, a, b, ds, e);
    }
  }

  // ----- the reverse difference -----

  lemma {:induction false} CountAt<P>(ds: seq<Delta<P>>, d: Delta<P>)
    ensures multiset(ds)[d] == multiset(At(ds, d.path))[d]
  {
    if ds != [] {
      CountAt(ds[..|ds| - 1], d);
      assert ds == ds[..|ds| - 1] + [ds[|ds| - 1]];
    }
  }

  lemma FromTwoReversed<P>(f: Flags, status: Status, o: Entry<P>, n: Entry<P>)
    requires o.path == n.path
    ensures FromTwo(f, status, o, n) == FromTwo(f.(reverse := !f.reverse), status, n, o)
  {}

  lemma FromBothReversed<P>(f: Flags, o: Entry<P>, n: Entry<P>)
    requires o.path == n.path
    ensures multiset(FromBoth(f, o, n)) == multiset(FromBoth(f.(reverse := !f.reverse), n, o))
  {
    if Type(o.mode) != Type(n.mode) && !f.typechange {
      Exchanged(FromOne(f, true, o), FromOne(f, false, n));
    } else {
      FromTwoReversed(f, Typechange, o, n);
      FromTwoReversed(f, Unmodified, o, n);
      FromTwoReversed(f, Modified, o, n);
    }
  }

  lemma RecordsReversed<P>(f: Flags, o: Option<Entry<P>>, n: Option<Entry<P>>)
    requires o.Some? && n.Some? ==> o.value.path == n.value.path
    ensures multiset(Records(f, o, n)) == multiset(Records(f.(reverse := !f.reverse), n, o))
  {
    if o.Some? && n.Some? {
      FromBothReversed(f, o.value, n.value);
    }
  }

  lemma Exchanged<T>(x: T, y: T)
    ensures multiset([x, y]) == multiset([y, x])
  {}

  /** Reversing a difference gives the same records as swapping the trees. */
  lemma Reversed<P(!new)>(f: Flags, a: seq<Entry<P>>, b: seq<Entry<P>>, ds: seq<Delta<P>>, es: seq<Delta<P>>)
    requires Describes(f, a, b, ds) && Describes(f.(reverse := !f.reverse), b, a, es)
    ensures multiset(ds) == multiset(es)
  {
    forall d ensures multiset(ds)[d] == multiset(es)[d] {
      var p := d.path;
      CountAt(ds, d);
      CountAt(es, d);
      FindIn(a, p);
      FindIn(b, p);
      RecordsReversed(f, Find(a, p), Find(b, p));
      assert At(ds, p) == Records(f, Find(a, p), Find(b, p));
      assert At(es, p) == Records(f.(reverse := !f.reverse), Find(b, p), Find(a, p));
    }
  }

  // ----- which records there are, from the two trees -----

  function OldEntry<P>(d: Delta<P>): Entry<P>
    requires d.oldFile.Some?
  {
    Entry(d.path, d.oldFile.value.mode, d.oldFile.value.oid)
  }

  function NewEntry<P>(d: Delta<P>): Entry<P>
    requires d.newFile.Some?
  {
    Entry(d.path, d.newFile.value.mode, d.newFile.value.oid)
  }

  /** A tree has no file at the path, or one of another type if that does not make a record of its own. */
  ghost predicate Lacks<P(!new)>(f: Flags, t: seq<Entry<P>>, e: Entry<P>) {
    forall o :: o in t && o.path == e.path ==> !f.typechange && o.mode / 0x1000 != e.mode / 0x1000
  }

  /** The record tells of files that the trees have, and its status says which of them do. */
  ghost predicate Tells<P(!new)>(f: Flags, was: seq<Entry<P>>, now: seq<Entry<P>>, d: Delta<P>) {
    && (d.oldFile.Some? ==> OldEntry(d) in was)
    && (d.newFile.Some? ==> NewEntry(d) in now)
    && match d.status
       case Added => d.oldFile.None? && d.newFile.Some? && Lacks(f, was, NewEntry(d))
       case Deleted => d.newFile.None? && d.oldFile.Some? && Lacks(f, now, OldEntry(d))
       case _ => d.oldFile.Some? && d.newFile.Some? && Compares(f, d.status, d.oldFile.value, d.newFile.value)
  }

  /** Files at the same path that differ in type, in content or mode, or not at all. */
  predicate Compares(f: Flags, status: Status, o: File, n: File) {
    var ignored := n.mode / 0x1000 == 0xE && f.ignoreSubmodules;
    match status
    case Typechange => f.typechange && o.mode / 0x1000 != n.mode / 0x1000
    case Modified => o.mode / 0x1000 == n.mode / 0x1000 && o != n && !ignored
    case Unmodified => f.unmodified && o.mode / 0x1000 == n.mode / 0x1000 && (o == n || ignored)
    case _ => false
  }

  predicate LacksOne<P>(f: Flags, o: Option<Entry<P>>, e: Entry<P>) {
    o.None? || (!f.typechange && Type(o.value.mode) != Type(e.mode))
  }

  predicate TellsOf<P(==)>(f: Flags, o: Option<Entry<P>>, n: Option<Entry<P>>, d: Delta<P>) {
    && (d.oldFile.Some? ==> o == Some(OldEntry(d)))
    && (d.newFile.Some? ==> n == Some(NewEntry(d)))
    && match d.status
       case Added => d.oldFile.None? && d.newFile.Some? && LacksOne(f, o, NewEntry(d))
       case Deleted => d.newFile.None? && d.oldFile.Some? && LacksOne(f, n, OldEntry(d))
       case _ => d.oldFile.Some? && d.newFile.Some? && Compares(f, d.status, d.oldFile.value, d.newFile.value)
  }

  /** What a tree has at a path. */
  ghost predicate Holds<P(!new)>(t: seq<Entry<P>>, p: P, o: Option<Entry<P>>) {
    forall e :: e in t && e.path == p <==> o == Some(e)
  }

  lemma LacksAt<P(!new)>(f: Flags, t: seq<Entry<P>>, o: Option<Entry<P>>, e: Entry<P>)
    requires Holds(t, e.path, o)
    ensures Lacks(f, t, e) <==> LacksOne(f, o, e)
  {
  }

  lemma TellsAt<P(!new)>(f: Flags, was: seq<Entry<P>>, now: seq<Entry<P>>, o: Option<Entry<P>>, n: Option<Entry<P>>, d: Delta<P>)
    requires Holds(was, d.path, o) && Holds(now, d.path, n)
    ensures Tells(f, was, now, d) <==> TellsOf(f, o, n, d)
  {
    if d.newFile.Some? {
      LacksAt(f, was, o, NewEntry(d));
    }
    if d.oldFile.Some? {
      LacksAt(f, now, n, OldEntry(d));
    }
  }

  lemma OneTells<P>(f: Flags, deleted: bool, e: Entry<P>, d: Delta<P>)
    requires !f.reverse
    ensures d == FromOne(f, deleted, e) <==>
            d.path == e.path && if deleted then TellsOf(f, Some(e), None, d) else TellsOf(f, None, Some(e), d)
  {
  }

  lemma BothTell<P>(f: Flags, o: Entry<P>, n: Entry<P>, d: Delta<P>)
    requires !f.reverse && d.path == o.path == n.path
    ensures d in FromBoth(f, o, n) <==> TellsOf(f, Some(o), Some(n), d)
    ensures multiset(FromBoth(f, o, n))[d] <= 1
  {
    if Type(o.mode) == Type(n.mode) || f.typechange {
      TwoTell(f, o, n, d);
    } else {
      OneTells(f, true, o, d);
      OneTells(f, false, n, d);
    }
  }

  lemma TwoTell<P>(f: Flags, o: Entry<P>, n: Entry<P>, d: Delta<P>)
    requires !f.reverse && d.path == o.path == n.path && (Type(o.mode) == Type(n.mode) || f.typechange)
    ensures d in FromBoth(f, o, n) <==> TellsOf(f, Some(o), Some(n), d)
    ensures multiset(FromBoth(f, o, n))[d] <= 1
  {
    var x := Delta(d.status, d.path, FileOf(o), FileOf(n));
    assert TellsOf(f, Some(o), Some(n), d) <==> d == x && Compares(f, d.status, FileOf(o).value, FileOf(n).value);
  }

  lemma RecordsTell<P>(f: Flags, o: Option<Entry<P>>, n: Option<Entry<P>>, d: Delta<P>)
    requires !f.reverse && (o.Some? ==> o.value.path == d.path) && (n.Some? ==> n.value.path == d.path)
    ensures d in Records(f, o, n) <==> TellsOf(f, o, n, d)
    ensures multiset(Records(f, o, n))[d] <= 1
  {
    if o.Some? && n.Some? {
      BothTell(f, o.value, n.value, d);
    } else if o.Some? {
      OneTells(f, true, o.value, d);
    } else if n.Some? {
      OneTells(f, false, n.value, d);
    }
  }

  lemma FindExactly<P(!new)>(less: (P, P) -> bool, t: seq<Entry<P>>, p: P)
    requires StrictOrder(less) && Sorted(less, t)
    ensures Holds(t, p, Find(t, p))
  {
    FindIn(t, p);
    forall e ensures e in t && e.path == p <==> Find(t, p) == Some(e) {
      if e.path == p {
        TreeHas(less, t, e);
      }
    }
  }

  lemma SameMembers<T>(s: seq<T>, t: seq<T>, x: T)
    requires multiset(s) == multiset(t)
    ensures (x in s <==> x in t) && multiset(s)[x] == multiset(t)[x]
  {
    assert x in s <==> x in multiset(s);
  }

  lemma EitherWay<P>(f: Flags, reverse: bool, o: Option<Entry<P>>, n: Option<Entry<P>>, d: Delta<P>)
    ensures TellsOf(f.(reverse := reverse), o, n, d) == TellsOf(f, o, n, d)
  {
  }

  lemma ReversedTell<P>(f: Flags, o: Option<Entry<P>>, n: Option<Entry<P>>, d: Delta<P>)
    requires f.reverse && (o.Some? ==> o.value.path == d.path) && (n.Some? ==> n.value.path == d.path)
    ensures d in Records(f, o, n) <==> TellsOf(f, n, o, d)
    ensures multiset(Records(f, o, n))[d] <= 1
  {
    RecordsReversed(f, o, n);
    SameMembers(Records(f, o, n), Records(f.(reverse := false), n, o), d);
    RecordsTell(f.(reverse := false), n, o, d);
    EitherWay(f, false, n, o, d);
  }

  /** The list has exactly the records that tell of the two trees, each of them once; reversed, the trees change places. */
  lemma TellsAll<P(!new)>(less: (P, P) -> bool, f: Flags, a: seq<Entry<P>>, b: seq<Entry<P>>, ds: seq<Delta<P>>, d: Delta<P>)
    requires StrictOrder(less) && Sorted(less, a) && Sorted(less, b) && Describes(f, a, b, ds)
    ensures d in ds <==> if f.reverse then Tells(f, b, a, d) else Tells(f, a, b, d)
    ensures multiset(ds)[d] <= 1
  {
    FindExactly(less, a, d.path);
    FindExactly(less, b, d.path);
    InAt(ds, d);
    CountAt(ds, d);
    FindIn(a, d.path);
    FindIn(b, d.path);
    var o, n := Find(a, d.path), Find(b, d.path);
    assert At(ds, d.path) == Records(f, o, n);
    if f.reverse {
      ReversedTell(f, o, n, d);
      TellsAt(f, b, a, n, o, d);
    } else {
      RecordsTell(f, o, n, d);
      TellsAt(f, a, b, o, n, d);
    }
  }

  /** The walk of two sorted trees side by side. */
  method FromIterators<P(!new)>(less: (P, P) -> bool, before: seq<Entry<P>>, after: seq<Entry<P>>, f: Flags)
    returns (ds: seq<Delta<P>>)
    requires StrictOrder(less) && Sorted(less, before) && Sorted(less, after)
    ensures Describes(f, before, after, ds) && InOrder(less, ds)
    ensures forall d :: d in ds <==> if f.reverse then Tells(f, after, before, d) else Tells(f, before, after, d)
  {
    ds := [];
    var i: nat, j: nat := 0, 0;
    WalkBegins(less, f, before, after);
    while i < |before| || j < |after|
      invariant Walk(less, f, before, after, i, j, ds)
      decreases |before| - i + |after| - j
    {
      if j == |after| || (i < |before| && less(before[i].path, after[j].path)) {
        WalkOld(less, f, before, after, i, j, ds);
        ds, i := ds + [FromOne(f, true, before[i])], i + 1;
      } else if i == |before| || less(after[j].path, before[i].path) {
        WalkNew(less, f, before, after, i, j, ds);
        ds, j := ds + [FromOne(f, false, after[j])], j + 1;
      } else {
        WalkBoth(less, f, before, after, i, j, ds);
        ds, i, j := ds + FromBoth(f, before[i], after[j]), i + 1, j + 1;
      }
    }
    WalkEnds(less, f, before, after, ds);
    forall d ensures d in ds <==> if f.reverse then Tells(f, after, before, d) else Tells(f, before, after, d) {
      TellsAll(less, f, before, after, ds, d);
    }
  }
}
