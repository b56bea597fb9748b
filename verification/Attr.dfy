/**
 * Attributes of paths: the assignments on a line, kept sorted by a hash of
 * their names, and three ways of asking a stack of rules for them.
 */
module Attr {
  import opened Common
  import opened Sequences

  type char8 = c: int | -128 <= c < 128

  type text = seq<char8>

  datatype Value = True | False | Unset | Str(s: text)

  datatype Assign = Assign(name: text, hash: nat, value: Value)

  // ----- names and their order -----

  /** One step of the hash, in 32 bits. */
  function HashStep(h: nat, c: char8): (r: nat)
    ensures r < 0x1_0000_0000
  {
    (h * 33 + c) % 0x1_0000_0000
  }

  const SEED: nat := 5381

  function Hash(name: text): nat { if name == [] then SEED else HashStep(Hash(name[..|name| - 1]), name[|name| - 1]) }

  method NameHash(name: text) returns (h: nat)
    ensures h == Hash(name)
  {
    h := SEED;
    for i := 0 to |name|
      invariant h == Hash(name[..i])
    {
      assert name[..i + 1][..i] == name[..i];
      h := HashStep(h, name[i]);
    }
    assert name[..|name|] == name;
  }

  /** By hash, and by name the other way round where hashes are equal. */
  predicate Before(less: (text, text) -> bool, a: Assign, b: Assign) {
    a.hash < b.hash || (a.hash == b.hash && less(b.name, a.name))
  }

  predicate Same(a: Assign, b: Assign) { a.hash == b.hash && a.name == b.name }

  /** In order, no name twice, and every hash that of its name. */
  ghost predicate Sorted(less: (text, text) -> bool, v: seq<Assign>) {
    && (forall i, j :: 0 <= i < j < |v| ==> Before(less, v[i], v[j]))
    && (forall i :: 0 <= i < |v| ==> v[i].hash == Hash(v[i].name))
  }

  function Lookup(v: seq<Assign>, n: text): Option<Value> {
    if v == [] then None else if v[0].name == n then Some(v[0].value) else Lookup(v[1..], n)
  }

  // ----- keeping assignments -----

  /** An assignment of the same name is replaced; any other goes to its place. */
  function Insert(less: (text, text) -> bool, v: seq<Assign>, a: Assign): seq<Assign> {
    if v == [] then [a]
    else if Same(v[0], a) then [a] + v[1..]
    else if Before(less, a, v[0]) then [a] + v
    else [v[0]] + Insert(less, v[1..], a)
  }

  ghost predicate AllAfter(less: (text, text) -> bool, a: Assign, v: seq<Assign>) {
    forall i :: 0 <= i < |v| ==> Before(less, a, v[i])
  }

  lemma {:induction false} InsertAfter(less: (text, text) -> bool, v: seq<Assign>, a: Assign, b: Assign)
    requires AllAfter(less, b, v) && Before(less, b, a)
    ensures AllAfter(less, b, Insert(less, v, a))
  {
    if v != [] {
      InsertAfter(less, v[1..], a, b);
    }
  }

  lemma SortedTail(less: (text, text) -> bool, v: seq<Assign>)
    requires v != []
    ensures Sorted(less, v) <==> Sorted(less, v[1..]) && AllAfter(less, v[0], v[1..]) && v[0].hash == Hash(v[0].name)
  {
    if Sorted(less, v[1..]) && AllAfter(less, v[0], v[1..]) {
      forall i, j | 0 <= i < j < |v| ensures Before(less, v[i], v[j]) {
        assert v[j] == v[1..][j - 1];
        assert i > 0 ==> v[i] == v[1..][i - 1];
      }
    }
  }

  lemma {:induction false} InsertSorted(less: (text, text) -> bool, v: seq<Assign>, a: Assign)
    requires StrictOrder(less) && Sorted(less, v) && a.hash == Hash(a.name)
    ensures Sorted(less, Insert(less, v, a))
    decreases |v|
  {
    if v != [] {
      SortedTail(less, v);
      var r := Insert(less, v, a);
      if Same(v[0], a) {
        assert r[1..] == v[1..];
      } else if Before(less, a, v[0]) {
        assert r[1..] == v;
        forall i | 0 <= i < |v| ensures Before(less, a, v[i]) {
          assert i > 0 ==> Before(less, v[0], v[i]);
        }
      } else {
        InsertSorted(less, v[1..], a);
        InsertAfter(less, v[1..], a, v[0]);
        assert r[1..] == Insert(less, v[1..], a);
      }
      SortedTail(less, r);
    }
  }

  lemma {:induction false} InsertLookup(less: (text, text) -> bool, v: seq<Assign>, a: Assign, n: text)
    requires StrictOrder(less) && Sorted(less, v) && a.hash == Hash(a.name)
    ensures Lookup(Insert(less, v, a), n) == if n == a.name then Some(a.value) else Lookup(v, n)
    decreases |v|
  {
    if v != [] {
      SortedTail(less, v);
      InsertLookup(less, v[1..], a, n);
      var r := Insert(less, v, a);
      if Same(v[0], a) {
        assert r[1..] == v[1..];
      } else if Before(less, a, v[0]) {
        assert r[1..] == v;
      } else {
        assert r[1..] == Insert(less, v[1..], a);
      }
    } else {
      assert [a][1..] == [];
    }
  }

  // ----- searching them -----

  /** A binary search by hash and name. */
  method BinarySearch(less: (text, text) -> bool, v: seq<Assign>, name: text, hash: nat) returns (pos: nat)
    requires StrictOrder(less) && Sorted(less, v) && hash == Hash(name)
    ensures pos <= |v|
    ensures pos < |v| ==> v[pos].name == name && Lookup(v, name) == Some(v[pos].value)
    ensures pos == |v| ==> Lookup(v, name) == None
  {
    var key := Assign(name, hash, Unset);
    var lo: nat, hi: nat := 0, |v|;
    while lo < hi
      invariant lo <= hi <= |v|
      invariant forall i :: 0 <= i < lo ==> Before(less, v[i], key)
      invariant forall i :: hi <= i < |v| ==> Before(less, key, v[i])
    {
      var mid := (lo + hi) / 2;
      if Same(v[mid], key) {
        LookupAt(less, v, mid);
        return mid;
      } else if Before(less, v[mid], key) {
        forall i | 0 <= i <= mid ensures Before(less, v[i], key) {
          assert i < mid ==> Before(less, v[i], v[mid]);
        }
        lo := mid + 1;
      } else {
        forall i | mid <= i < |v| ensures Before(less, key, v[i]) {
          assert i > mid ==> Before(less, v[mid], v[i]);
        }
        hi := mid;
      }
    }
    LookupAbsent(v, name);
    pos := |v|;
  }

  lemma {:induction false} LookupAt(less: (text, text) -> bool, v: seq<Assign>, i: nat)
    requires StrictOrder(less) && Sorted(less, v) && i < |v|
    ensures Lookup(v, v[i].name) == Some(v[i].value)
    decreases |v|
  {
    if i > 0 {
      SortedTail(less, v);
      assert Before(less, v[0], v[i]);
      LookupAt(less, v[1..], i - 1);
    }
  }

  lemma {:induction false} LookupAbsent(v: seq<Assign>, n: text)
    requires forall i :: 0 <= i < |v| ==> v[i].name != n
    ensures Lookup(v, n) == None
  {
    if v != [] {
      LookupAbsent(v[1..], n);
    }
  }

  // ----- stacks of rules -----

  datatype Rule = Rule(pattern: text, assigns: seq<Assign>)

  /** The rules of a file that match, from the bottom up. */
  function Matching(matches: Rule -> bool, rs: seq<Rule>): seq<seq<Assign>> {
    if rs == [] then []
    else (if matches(rs[|rs| - 1]) then [rs[|rs| - 1].assigns] else []) + Matching(matches, rs[..|rs| - 1])
  }

  /** All matching rules in the order in which they are asked. */
  function Visited(matches: Rule -> bool, files: seq<seq<Rule>>): seq<seq<Assign>> {
    if files == [] then [] else Matching(matches, files[0]) + Visited(matches, files[1..])
  }

  /** The value in the first rule that has the name. */
  function FirstValue(rs: seq<seq<Assign>>, n: text): Option<Value> {
    if rs == [] then None else if Lookup(rs[0], n).Some? then Lookup(rs[0], n) else FirstValue(rs[1..], n)
  }

  // ----- the rule that decides -----

  /** A rule that applies and has the name. */
  predicate Tells(matches: Rule -> bool, r: Rule, n: text) { matches(r) && Lookup(r.assigns, n).Some? }

  /** No file before it and no rule below it in its own file has the name. */
  ghost predicate Decides(matches: Rule -> bool, files: seq<seq<Rule>>, n: text, i: nat, j: nat) {
    && i < |files| && j < |files[i]| && Tells(matches, files[i][j], n)
    && (forall k :: j < k < |files[i]| ==> !Tells(matches, files[i][k], n))
    && (forall h, k :: 0 <= h < i && 0 <= k < |files[h]| ==> !Tells(matches, files[h][k], n))
  }

  lemma {:induction false} FirstOf(a: seq<seq<Assign>>, b: seq<seq<Assign>>, n: text)
    ensures FirstValue(a + b, n) == if FirstValue(a, n).Some? then FirstValue(a, n) else FirstValue(b, n)
  {
    if a == [] {
      assert a + b == b;
    } else {
      assert (a + b)[1..] == a[1..] + b;
      FirstOf(a[1..], b, n);
    }
  }

  lemma {:induction false} NoneMatching(matches: Rule -> bool, rs: seq<Rule>, n: text)
    requires forall k :: 0 <= k < |rs| ==> !Tells(matches, rs[k], n)
    ensures FirstValue(Matching(matches, rs), n) == None
  {
    if rs != [] {
      var r, rest := rs[|rs| - 1], rs[..|rs| - 1];
      NoneMatching(matches, rest, n);
      FirstOf(if matches(r) then [r.assigns] else [], Matching(matches, rest), n);
    }
  }

  lemma {:induction false} LastMatching(matches: Rule -> bool, rs: seq<Rule>, n: text, j: nat)
    requires j < |rs| && Tells(matches, rs[j], n) && forall k :: j < k < |rs| ==> !Tells(matches, rs[k], n)
    ensures FirstValue(Matching(matches, rs), n) == Lookup(rs[j].assigns, n)
    decreases |rs|
  {
    var r, rest := rs[|rs| - 1], rs[..|rs| - 1];
    FirstOf(if matches(r) then [r.assigns] else [], Matching(matches, rest), n);
    if j < |rs| - 1 {
      LastMatching(matches, rest, n, j);
    }
  }

  lemma {:induction false} NoneVisited(matches: Rule -> bool, files: seq<seq<Rule>>, n: text)
    requires forall h, k :: 0 <= h < |files| && 0 <= k < |files[h]| ==> !Tells(matches, files[h][k], n)
    ensures FirstValue(Visited(matches, files), n) == None
    decreases |files|
  {
    if files != [] {
      NoneMatching(matches, files[0], n);
      NoneVisited(matches, files[1..], n);
      FirstOf(Matching(matches, files[0]), Visited(matches, files[1..]), n);
    }
  }

  /** The value of a name is the one in the rule that decides. */
  lemma {:induction false} DecidingValue(matches: Rule -> bool, files: seq<seq<Rule>>, n: text, i: nat, j: nat)
    requires Decides(matches, files, n, i, j)
    ensures FirstValue(Visited(matches, files), n) == Lookup(files[i][j].assigns, n)
    decreases i
  {
    FirstOf(Matching(matches, files[0]), Visited(matches, files[1..]), n);
    if i == 0 {
      LastMatching(matches, files[0], n, j);
    } else {
      NoneMatching(matches, files[0], n);
      DecidingValue(matches, files[1..], n, i - 1, j);
    }
  }

  /** A value comes from the rule that decides, and without such a rule there is none. */
  ghost predicate Decided(matches: Rule -> bool, files: seq<seq<Rule>>, n: text, r: Option<Value>) {
    && (forall i: nat, j: nat :: Decides(matches, files, n, i, j) ==> r == Lookup(files[i][j].assigns, n))
    && ((forall h, k :: 0 <= h < |files| && 0 <= k < |files[h]| ==> !Tells(matches, files[h][k], n)) ==> r == None)
  }

  lemma ValueDecided(matches: Rule -> bool, files: seq<seq<Rule>>, n: text)
    ensures Decided(matches, files, n, FirstValue(Visited(matches, files), n))
  {
    forall i: nat, j: nat | Decides(matches, files, n, i, j)
      ensures FirstValue(Visited(matches, files), n) == Lookup(files[i][j].assigns, n)
    {
      DecidingValue(matches, files, n, i, j);
    }
    if forall h, k :: 0 <= h < |files| && 0 <= k < |files[h]| ==> !Tells(matches, files[h][k], n) {
      NoneVisited(matches, files, n);
    }
  }

  /** The assignments of every rule are as they were read. */
  ghost predicate FilesSorted(less: (text, text) -> bool, files: seq<seq<Rule>>) {
    forall i, j :: 0 <= i < |files| && 0 <= j < |files[i]| ==> Sorted(less, files[i][j].assigns)
  }

  /** The matching rules to come while the first `j` rules of file `i` and all later files are left. */
  function Coming(matches: Rule -> bool, files: seq<seq<Rule>>, i: nat, j: nat): seq<seq<Assign>>
    requires i < |files| ==> j <= |files[i]|
  {
    if i >= |files| then [] else Matching(matches, files[i][..j]) + Visited(matches, files[i + 1..])
  }

  function Height(files: seq<seq<Rule>>, i: nat): nat { if i < |files| then |files[i]| else 0 }

  lemma ComingAll(matches: Rule -> bool, files: seq<seq<Rule>>, i: nat)
    requires i <= |files|
    ensures Coming(matches, files, i, Height(files, i)) == Visited(matches, files[i..])
  {
    if i < |files| {
      assert files[i][..|files[i]|] == files[i] && files[i..][1..] == files[i + 1..];
    }
  }

  lemma ComingOver(matches: Rule -> bool, files: seq<seq<Rule>>, i: nat, j: nat)
    requires i < |files| && j <= |files[i]| && Matching(matches, files[i][..j]) == []
    ensures Coming(matches, files, i, j) == Coming(matches, files, i + 1, Height(files, i + 1))
  {
    var later := Visited(matches, files[i + 1..]);
    assert [] + later == later;
    ComingAll(matches, files, i + 1);
  }

  lemma MatchingNext(matches: Rule -> bool, rs: seq<Rule>, j: nat)
    requires 0 < j <= |rs|
    ensures Matching(matches, rs[..j]) ==
            (if matches(rs[j - 1]) then [rs[j - 1].assigns] else []) + Matching(matches, rs[..j - 1])
  {
    assert rs[..j][..j - 1] == rs[..j - 1];
  }

  /** The next matching rule of a file, from the bottom up. */
  method NextInFile(matches: Rule -> bool, rs: seq<Rule>, j0: nat) returns (found: bool, j: nat)
    requires j0 <= |rs|
    ensures j <= j0 && (found ==> j < j0 && Matching(matches, rs[..j0]) == [rs[j].assigns] + Matching(matches, rs[..j]))
    ensures !found ==> Matching(matches, rs[..j0]) == []
  {
    j := j0;
    while j > 0
      invariant j <= j0 && Matching(matches, rs[..j]) == Matching(matches, rs[..j0])
    {
      MatchingNext(matches, rs, j);
      j := j - 1;
      if matches(rs[j]) {
        return true, j;
      }
    }
    found := false;
  }

  /** Goes on to the next rule that matches, in this file or a later one. */
  method NextRule(matches: Rule -> bool, files: seq<seq<Rule>>, i0: nat, j0: nat) returns (found: bool, i: nat, j: nat)
    requires i0 < |files| ==> j0 <= |files[i0]|
    ensures i < |files| ==> j <= |files[i]|
    ensures found ==> i < |files| && j < |files[i]| &&
                        Coming(matches, files, i0, j0) == [files[i][j].assigns] + Coming(matches, files, i, j)
    ensures !found ==> Coming(matches, files, i0, j0) == []
  {
    i, j := i0, j0;
    while i < |files|
      invariant (i < |files| ==> j <= |files[i]|) && Coming(matches, files, i, j) == Coming(matches, files, i0, j0)
      decreases |files| - i
    {
      ghost var was := j;
      found, j := NextInFile(matches, files[i], j);
      if found {
        Associative([files[i][j].assigns], Matching(matches, files[i][..j]), Visited(matches, files[i + 1..]));
        return;
      }
      ComingOver(matches, files, i, was);
      i := i + 1;
      j := Height(files, i);
    }
    found := false;
  }

  /** Asks for one attribute. */
  method Get(less: (text, text) -> bool, matches: Rule -> bool, files: seq<seq<Rule>>, name: text) returns (r: Option<Value>)
    requires StrictOrder(less) && FilesSorted(less, files)
    ensures r == FirstValue(Visited(matches, files), name) && Decided(matches, files, name, r)
  {
    ValueDecided(matches, files, name);
    var hash := NameHash(name);
    var i: nat, j: nat := 0, Height(files, 0);
    ComingAll(matches, files, 0);
    assert files[0..] == files;
    while true
      invariant i < |files| ==> j <= |files[i]|
      invariant FirstValue(Visited(matches, files), name) == FirstValue(Coming(matches, files, i, j), name)
      decreases |Coming(matches, files, i, j)|
    {
      var found;
      found, i, j := NextRule(matches, files, i, j);
      if !found {
        break;
      }
      var rule := files[i][j].assigns;
      var pos := BinarySearch(less, rule, name, hash);
      if pos < |rule| {
        return Some(rule[pos].value);
      }
    }
    r := None;
  }

  /** What is known of each name so far, and what the rest of the rules will say. */
  ghost predicate Partly(rs: seq<seq<Assign>>, rest: seq<seq<Assign>>, names: seq<text>, values: seq<Option<Value>>, k: nat) {
    && |values| == |names|
    && forall i :: 0 <= i < |names| ==>
         FirstValue(rs, names[i]) == if values[i].Some? then values[i] else FirstValue(Left(rest, i < k), names[i])
  }

  function Left(rest: seq<seq<Assign>>, asked: bool): seq<seq<Assign>> {
    if asked && rest != [] then rest[1..] else rest
  }

  function Found(values: seq<Option<Value>>): nat {
    if values == [] then 0 else Found(values[..|values| - 1]) + if values[|values| - 1].Some? then 1 else 0
  }

  lemma {:induction false} FoundNext(values: seq<Option<Value>>, k: nat, x: Value)
    requires k < |values| && values[k].None?
    ensures Found(values[k := Some(x)]) == Found(values) + 1
    decreases |values|
  {
    var n := |values| - 1;
    if k == n {
      assert values[k := Some(x)][..n] == values[..n];
    } else {
      assert values[k := Some(x)][..n] == values[..n][k := Some(x)];
      FoundNext(values[..n], k, x);
    }
  }

  lemma {:induction false} FoundAll(values: seq<Option<Value>>)
    ensures Found(values) <= |values|
    ensures Found(values) == |values| ==> forall i :: 0 <= i < |values| ==> values[i].Some?
  {
    if values != [] {
      FoundAll(values[..|values| - 1]);
      assert forall i :: 0 <= i < |values| - 1 ==> values[i] == values[..|values| - 1][i];
    }
  }

  lemma {:induction false} FoundNone(values: seq<Option<Value>>)
    requires forall i :: 0 <= i < |values| ==> values[i].None?
    ensures Found(values) == 0
  {
    if values != [] {
      FoundNone(values[..|values| - 1]);
    }
  }

  lemma PartlyNext(rs: seq<seq<Assign>>, rest: seq<seq<Assign>>, names: seq<text>, values: seq<Option<Value>>, k: nat)
    requires Partly(rs, rest, names, values, k) && k < |names| && rest != []
    ensures Partly(rs, rest, names, values[k := if values[k].Some? then values[k] else Lookup(rest[0], names[k])], k + 1)
  {}

  lemma PartlyDone(rs: seq<seq<Assign>>, rest: seq<seq<Assign>>, names: seq<text>, values: seq<Option<Value>>, k: nat, j: nat)
    requires Partly(rs, rest, names, values, k) && forall i :: 0 <= i < |values| ==> values[i].Some?
    ensures Partly(rs, rest, names, values, j)
  {}

  /** Asks one rule for every name that has no value yet; `done` if all have one now. */
  method AskRule(less: (text, text) -> bool, ghost rs: seq<seq<Assign>>, ghost rest: seq<seq<Assign>>, rule: seq<Assign>, names: seq<text>,
                 values0: seq<Option<Value>>, found0: nat) returns (values: seq<Option<Value>>, found: nat, done: bool)
    requires StrictOrder(less) && Sorted(less, rule) && rest != [] && rest[0] == rule
    requires Partly(rs, rest, names, values0, 0) && found0 == Found(values0)
    ensures found == Found(values) && Partly(rs, rest, names, values, |names|)
    ensures done ==> found == |names|
  {
    values, found, done := values0, found0, false;
    var k := 0;
    while k < |names|
      invariant k <= |names| && found == Found(values) && Partly(rs, rest, names, values, k) && !done
    {
      PartlyNext(rs, rest, names, values, k);
      assert values[k := values[k]] == values;
      if values[k].None? {
        var hash := NameHash(names[k]);
        var pos := BinarySearch(less, rule, names[k], hash);
        if pos < |rule| {
          FoundNext(values, k, rule[pos].value);
          values := values[k := Some(rule[pos].value)];
          found := found + 1;
          if found == |names| {
            FoundAll(values);
            PartlyDone(rs, rest, names, values, k + 1, |names|);
            done := true;
            return;
          }
        }
      }
      k := k + 1;
    }
  }

  /** Asks for many attributes in one pass that ends once all are found. */
  method GetMany(less: (text, text) -> bool, matches: Rule -> bool, files: seq<seq<Rule>>, names: seq<text>)
    returns (values: seq<Option<Value>>)
    requires StrictOrder(less) && FilesSorted(less, files)
    ensures |values| == |names|
    ensures forall k :: 0 <= k < |names| ==> values[k] == FirstValue(Visited(matches, files), names[k])
  {
    ghost var rs := Visited(matches, files);
    values := seq(|names|, _ => None);
    FoundNone(values);
    var i: nat, j: nat, found := 0, Height(files, 0), 0;
    ComingAll(matches, files, 0);
    assert files[0..] == files;
    while true
      invariant i < |files| ==> j <= |files[i]|
      invariant Partly(rs, Coming(matches, files, i, j), names, values, 0) && found == Found(values)
      decreases |Coming(matches, files, i, j)|
    {
      ghost var rest := Coming(matches, files, i, j);
      var more;
      more, i, j := NextRule(matches, files, i, j);
      if !more {
        break;
      }
      var done;
      values, found, done := AskRule(less, rs, rest, files[i][j].assigns, names, values, found);
      if done {
        FoundAll(values);
        return;
      }
      assert rest[1..] == Coming(matches, files, i, j);
    }
  }

  // ----- reporting all attributes -----

  /** Every name reported so far has its value, and the rest of the rules decide on the others. */
  ghost predicate Reported(rs: seq<seq<Assign>>, rest: seq<seq<Assign>>, seen: set<text>, out: seq<Assign>) {
    && (forall n :: n in seen <==> Lookup(out, n).Some?)
    && (forall n :: FirstValue(rs, n) == if n in seen then Lookup(out, n) else FirstValue(rest, n))
    && (forall i, j :: 0 <= i < j < |out| ==> out[i].name != out[j].name)
  }

  lemma {:induction false} LookupLast(v: seq<Assign>, a: Assign, n: text)
    requires Lookup(v, a.name) == None
    ensures Lookup(v + [a], n) == if n == a.name then Some(a.value) else Lookup(v, n)
    ensures forall i :: 0 <= i < |v| ==> v[i].name != a.name
    decreases |v|
  {
    if v == [] {
      assert [] + [a] == [a] && [a][1..] == [];
    } else {
      assert (v + [a])[1..] == v[1..] + [a];
      LookupLast(v[1..], a, n);
      forall i | 0 <= i < |v| ensures v[i].name != a.name {
        assert i > 0 ==> v[i] == v[1..][i - 1];
      }
    }
  }

  lemma ReportedNext(rs: seq<seq<Assign>>, rest: seq<seq<Assign>>, seen: set<text>, out: seq<Assign>, a: Assign)
    requires Reported(rs, rest, seen, out) && a.name !in seen && FirstValue(rest, a.name) == Some(a.value)
    ensures Reported(rs, rest, seen + {a.name}, out + [a])
  {
    forall n ensures Lookup(out + [a], n) == if n == a.name then Some(a.value) else Lookup(out, n) {
      LookupLast(out, a, n);
    }
    LookupLast(out, a, a.name);
  }

  /** Reports the assignments of one rule that no rule before it has made. */
  method ReportRule(less: (text, text) -> bool, ghost rs: seq<seq<Assign>>, ghost rest: seq<seq<Assign>>, rule: seq<Assign>,
                    seen0: set<text>, out0: seq<Assign>) returns (seen: set<text>, out: seq<Assign>)
    requires StrictOrder(less) && Sorted(less, rule) && rest != [] && rest[0] == rule && Reported(rs, rest, seen0, out0)
    ensures Reported(rs, rest[1..], seen, out)
  {
    seen, out := seen0, out0;
    for k := 0 to |rule|
      invariant Reported(rs, rest, seen, out)
      invariant forall i :: 0 <= i < k ==> rule[i].name in seen
    {
      if rule[k].name !in seen {
        LookupAt(less, rule, k);
        ReportedNext(rs, rest, seen, out, rule[k]);
        seen, out := seen + {rule[k].name}, out + [rule[k]];
      }
    }
    RuleDone(rs, rest, seen, out);
  }

  lemma RuleDone(rs: seq<seq<Assign>>, rest: seq<seq<Assign>>, seen: set<text>, out: seq<Assign>)
    requires rest != [] && Reported(rs, rest, seen, out) && forall i :: 0 <= i < |rest[0]| ==> rest[0][i].name in seen
    ensures Reported(rs, rest[1..], seen, out)
  {
    forall n | n !in seen ensures FirstValue(rest, n) == FirstValue(rest[1..], n) {
      LookupAbsent(rest[0], n);
    }
  }

  /** Reports every attribute once, with the value that asking for it gives. */
  method Foreach(less: (text, text) -> bool, matches: Rule -> bool, files: seq<seq<Rule>>) returns (out: seq<Assign>)
    requires StrictOrder(less) && FilesSorted(less, files)
    ensures forall n :: Lookup(out, n) == FirstValue(Visited(matches, files), n)
    ensures forall i, j :: 0 <= i < j < |out| ==> out[i].name != out[j].name
  {
    ghost var rs := Visited(matches, files);
    out := [];
    var seen: set<text> := {};
    var i: nat, j: nat := 0, Height(files, 0);
    ComingAll(matches, files, 0);
    assert files[0..] == files;
    while true
      invariant i < |files| ==> j <= |files[i]|
      invariant Reported(rs, Coming(matches, files, i, j), seen, out)
      decreases |Coming(matches, files, i, j)|
    {
      ghost var rest := Coming(matches, files, i, j);
      var more;
      more, i, j := NextRule(matches, files, i, j);
      if !more {
        break;
      }
      seen, out := ReportRule(less, rs, rest, files[i][j].assigns, seen, out);
      assert rest[1..] == Coming(matches, files, i, j);
    }
  }

  // ----- reading a line of assignments -----

  const TAB: char8 := 9
  const NEWLINE: char8 := 10
  const SPACE: char8 := 32
  const BANG: char8 := 33
  const HASH: char8 := 35
  const MINUS: char8 := 45
  const EQUALS: char8 := 61

  predicate IsSpace(c: char8) { c == SPACE || TAB <= c <= 13 }

  /** The length of the run at the front that contains no space, and no equals sign if so asked. */
  function Run(s: text, equals: bool): (n: nat)
    ensures n <= |s| && (n < |s| ==> IsSpace(s[n]) || (equals && s[n] == EQUALS))
    ensures s != [] && !IsSpace(s[0]) && !equals ==> n > 0
  {
    if s == [] || IsSpace(s[0]) || (equals && s[0] == EQUALS) then 0 else 1 + Run(s[1..], equals)
  }

  function SkipBlanks(s: text): (r: text)
    ensures |r| <= |s| && (r != [] ==> !IsSpace(r[0]) || r[0] == NEWLINE)
  {
    if s != [] && IsSpace(s[0]) && s[0] != NEWLINE then SkipBlanks(s[1..]) else s
  }

  datatype Item = Item(name: text, value: Value)

  function Prefixed(s: text): Value {
    if s != [] && s[0] == MINUS then False else if s != [] && s[0] == BANG then Unset else True
  }

  datatype Step = Step(item: Option<Item>, rest: text)

  /** A name and perhaps a value; what has no name is passed over. */
  function Next(u: text, given: Value): (r: Step)
    ensures |r.rest| <= |u| && (u != [] && !IsSpace(u[0]) ==> |r.rest| < |u|)
  {
    var n := Run(u, true);
    if n == 0 then Step(None, u[Run(u, false)..])
    else if n < |u| && u[n] == EQUALS then
      var m := Run(u[n + 1..], false);
      Step(Some(Item(u[..n], if m > 0 then Str(u[n + 1..n + 1 + m]) else given)), u[n + 1 + m..])
    else Step(Some(Item(u[..n], given)), u[n..])
  }

  /** The assignments on a line, in order. A number sign before a name ends them. */
  function Items(s: text): seq<Item>
    decreases |s|
  {
    if s == [] || s[0] == NEWLINE then []
    else
      var t := SkipBlanks(s);
      if t == [] || t[0] == NEWLINE || t[0] == HASH then []
      else
        var r := Next(if Prefixed(t) == True then t else t[1..], Prefixed(t));
        (if r.item.Some? then [r.item.value] else []) + Items(r.rest)
  }

  function InsertAll(less: (text, text) -> bool, v: seq<Assign>, more: seq<Assign>): seq<Assign>
    decreases |more|
  {
    if more == [] then v else InsertAll(less, Insert(less, v, more[0]), more[1..])
  }

  /** Assignments made in order; one that sets the name of a macro makes the macro's assignments first. */
  function Assigned(less: (text, text) -> bool, macros: text -> Option<seq<Assign>>, v: seq<Assign>, items: seq<Item>): seq<Assign>
    decreases |items|
  {
    if items == [] then v
    else Assigned(less, macros, Applied(less, macros, v, items[0]), items[1..])
  }

  function Applied(less: (text, text) -> bool, macros: text -> Option<seq<Assign>>, v: seq<Assign>, item: Item): seq<Assign> {
    var m := macros(item.name);
    var w := if item.value == True && m.Some? then InsertAll(less, v, m.value) else v;
    Insert(less, w, Assign(item.name, Hash(item.name), item.value))
  }

  ghost predicate MacrosSorted(less: (text, text) -> bool, macros: text -> Option<seq<Assign>>) {
    forall n :: macros(n).Some? ==> Sorted(less, macros(n).value)
  }

  lemma {:induction false} InsertAllSorted(less: (text, text) -> bool, v: seq<Assign>, more: seq<Assign>, n: text)
    requires StrictOrder(less) && Sorted(less, v) && Sorted(less, more)
    ensures Sorted(less, InsertAll(less, v, more))
    ensures Lookup(InsertAll(less, v, more), n) == if Lookup(more, n).Some? then Lookup(more, n) else Lookup(v, n)
    decreases |more|
  {
    if more != [] {
      SortedTail(less, more);
      InsertSorted(less, v, more[0]);
      InsertLookup(less, v, more[0], n);
      InsertAllSorted(less, Insert(less, v, more[0]), more[1..], n);
      if n == more[0].name {
        NotLater(less, more, n);
      }
    }
  }

  lemma NotLater(less: (text, text) -> bool, v: seq<Assign>, n: text)
    requires StrictOrder(less) && Sorted(less, v) && v != [] && v[0].name == n
    ensures Lookup(v[1..], n) == None
  {
    forall i | 0 <= i < |v[1..]| ensures v[1..][i].name != n {
      assert Before(less, v[0], v[i + 1]);
    }
    LookupAbsent(v[1..], n);
  }

  /** What a line says about a name: its last assignment, by itself or by a macro. */
  function Says(macros: text -> Option<seq<Assign>>, items: seq<Item>, n: text, before: Option<Value>): Option<Value> {
    if items == [] then before
    else
      var i := items[0];
      var m := macros(i.name);
      Says(macros, items[1..], n,
           if i.name == n then Some(i.value)
           else if i.value == True && m.Some? && Lookup(m.value, n).Some? then Lookup(m.value, n)
           else before)
  }

  lemma {:induction false} AssignedSays(less: (text, text) -> bool, macros: text -> Option<seq<Assign>>, v: seq<Assign>, items: seq<Item>, n: text)
    requires StrictOrder(less) && Sorted(less, v) && MacrosSorted(less, macros)
    ensures Sorted(less, Assigned(less, macros, v, items))
    ensures Lookup(Assigned(less, macros, v, items), n) == Says(macros, items, n, Lookup(v, n))
    decreases |items|
  {
    if items != [] {
      AppliedSays(less, macros, v, items[0], n);
      AssignedSays(less, macros, Applied(less, macros, v, items[0]), items[1..], n);
    }
  }

  lemma AppliedSays(less: (text, text) -> bool, macros: text -> Option<seq<Assign>>, v: seq<Assign>, i: Item, n: text)
    requires StrictOrder(less) && Sorted(less, v) && MacrosSorted(less, macros)
    ensures Sorted(less, Applied(less, macros, v, i))
    ensures Lookup(Applied(less, macros, v, i), n) ==
            if i.name == n then Some(i.value)
            else if i.value == True && macros(i.name).Some? && Lookup(macros(i.name).value, n).Some? then Lookup(macros(i.name).value, n)
            else Lookup(v, n)
  {
    var m := macros(i.name);
    var w := if i.value == True && m.Some? then InsertAll(less, v, m.value) else v;
    var a := Assign(i.name, Hash(i.name), i.value);
    if i.value == True && m.Some? {
      InsertAllSorted(less, v, m.value, n);
    }
    InsertSorted(less, w, a);
    InsertLookup(less, w, a, n);
  }

  /** The name at the front, hashed while it is read. */
  method ReadName(s: text) returns (n: nat, hash: nat)
    ensures n == Run(s, true) && hash == Hash(s[..n])
  {
    n, hash := 0, SEED;
    while n < |s| && !IsSpace(s[n]) && s[n] != EQUALS
      invariant n <= |s| && Run(s, true) == n + Run(s[n..], true) && hash == Hash(s[..n])
    {
      assert s[n..][1..] == s[n + 1..];
      assert s[..n + 1][..n] == s[..n];
      hash := HashStep(hash, s[n]);
      n := n + 1;
    }
  }

  method ReadRun(s: text) returns (n: nat)
    ensures n == Run(s, false)
  {
    n := 0;
    while n < |s| && !IsSpace(s[n])
      invariant n <= |s| && Run(s, false) == n + Run(s[n..], false)
    {
      assert s[n..][1..] == s[n + 1..];
      n := n + 1;
    }
  }

  method InsertMacro(less: (text, text) -> bool, v: seq<Assign>, more: seq<Assign>) returns (r: seq<Assign>)
    ensures r == InsertAll(less, v, more)
  {
    r := v;
    var rest := more;
    while rest != []
      invariant InsertAll(less, v, more) == InsertAll(less, r, rest)
      decreases |rest|
    {
      r, rest := Insert(less, r, rest[0]), rest[1..];
    }
  }

  method ReadNext(u: text, given: Value) returns (item: Option<Item>, hash: nat, rest: text)
    ensures Step(item, rest) == Next(u, given)
    ensures item.Some? ==> hash == Hash(item.value.name)
  {
    var n;
    n, hash := ReadName(u);
    if n == 0 {
      var m := ReadRun(u);
      return None, hash, u[m..];
    }
    if n < |u| && u[n] == EQUALS {
      var m := ReadRun(u[n + 1..]);
      item := Some(Item(u[..n], if m > 0 then Str(u[n + 1..n + 1 + m]) else given));
      rest := u[n + 1 + m..];
    } else {
      item, rest := Some(Item(u[..n], given)), u[n..];
    }
  }

  /** Reads one assignment and makes it. */
  method ReadItem(less: (text, text) -> bool, macros: text -> Option<seq<Assign>>, v0: seq<Assign>, u: text, given: Value)
    returns (v: seq<Assign>, rest: text)
    ensures var r := Next(u, given);
            rest == r.rest && v == if r.item.Some? then Applied(less, macros, v0, r.item.value) else v0
  {
    v := v0;
    var item, hash;
    item, hash, rest := ReadNext(u, given);
    if item.Some? {
      var i := item.value;
      var macro := macros(i.name);
      if i.value == True && macro.Some? {
        v := InsertMacro(less, v, macro.value);
      }
      v := Insert(less, v, Assign(i.name, hash, i.value));
    }
  }

  lemma AssignedNext(less: (text, text) -> bool, macros: text -> Option<seq<Assign>>, v: seq<Assign>, i: Option<Item>, items: seq<Item>)
    ensures Assigned(less, macros, v, (if i.Some? then [i.value] else []) + items) ==
            Assigned(less, macros, if i.Some? then Applied(less, macros, v, i.value) else v, items)
  {
    if i.Some? {
      assert ([i.value] + items)[1..] == items;
    } else {
      assert [] + items == items;
    }
  }

  /** Reads a line of assignments into a sorted vector. */
  method Parse(less: (text, text) -> bool, macros: text -> Option<seq<Assign>>, line: text) returns (v: seq<Assign>)
    requires StrictOrder(less) && MacrosSorted(less, macros)
    ensures v == Assigned(less, macros, [], Items(line)) && Sorted(less, v)
    ensures forall n :: Lookup(v, n) == Says(macros, Items(line), n, None)
  {
    v := [];
    var scan := line;
    while scan != [] && scan[0] != NEWLINE
      invariant Assigned(less, macros, [], Items(line)) == Assigned(less, macros, v, Items(scan))
      decreases |scan|
    {
      scan := SkipBlanks(scan);
      if scan == [] || scan[0] == NEWLINE {
        break;
      }
      var given := Prefixed(scan);
      if given == True && scan[0] == HASH {
        break;
      }
      var u := if given == True then scan else scan[1..];
      ghost var r := Next(u, given);
      AssignedNext(less, macros, v, r.item, Items(r.rest));
      v, scan := ReadItem(less, macros, v, u, given);
    }
    forall n ensures Lookup(v, n) == Says(macros, Items(line), n, None) {
      AssignedSays(less, macros, [], Items(line), n);
    }
    AssignedSays(less, macros, [], Items(line), []);
  }

  // ----- lines written out -----

  /** A name stands for itself, after a minus for false, after an exclamation mark for unset, before an equals sign for a text. */
  function Word(i: Item): text {
    match i.value
    case True => i.name
    case False => [MINUS] + i.name
    case Unset => [BANG] + i.name
    case Str(s) => i.name + [EQUALS] + s
  }

  predicate Unbroken(s: text) { s != [] && forall i :: 0 <= i < |s| ==> !IsSpace(s[i]) }

  predicate Writable(i: Item) {
    && Unbroken(i.name) && EQUALS !in i.name
    && (i.value == True || i.value.Str? ==> i.name[0] != MINUS && i.name[0] != BANG && i.name[0] != HASH)
    && (i.value.Str? ==> Unbroken(i.value.s))
  }

  function Show(items: seq<Item>): text { if items == [] then [] else [SPACE] + Word(items[0]) + Show(items[1..]) }

  /** The end of the text or of the line, or a comment. */
  predicate Ends(s: text) { s == [] || s[0] == NEWLINE || (|s| > 1 && s[0] == SPACE && s[1] == HASH) }

  lemma {:induction false} RunOf(x: text, y: text, equals: bool)
    requires forall i :: 0 <= i < |x| ==> !IsSpace(x[i]) && (equals ==> x[i] != EQUALS)
    requires y == [] || IsSpace(y[0]) || (equals && y[0] == EQUALS)
    ensures Run(x + y, equals) == |x|
  {
    if x == [] {
      assert x + y == y;
    } else {
      assert (x + y)[1..] == x[1..] + y;
      RunOf(x[1..], y, equals);
    }
  }

  lemma NextPlain(name: text, given: Value, y: text)
    requires Unbroken(name) && EQUALS !in name && (y == [] || IsSpace(y[0]))
    ensures Next(name + y, given) == Step(Some(Item(name, given)), y)
  {
    RunOf(name, y, true);
    assert (name + y)[..|name|] == name && (name + y)[|name|..] == y;
  }

  lemma NextText(name: text, value: text, y: text)
    requires Unbroken(name) && EQUALS !in name && Unbroken(value) && (y == [] || IsSpace(y[0]))
    ensures Next(name + ([EQUALS] + (value + y)), True) == Step(Some(Item(name, Str(value))), y)
  {
    var e := [EQUALS] + (value + y);
    RunOf(name, e, true);
    RunOf(value, y, false);
    ThreeParts(name, EQUALS, value, y);
  }

  lemma ThreeParts<T>(name: seq<T>, c: T, value: seq<T>, y: seq<T>)
    ensures var u, n, m := name + ([c] + (value + y)), |name|, |value|;
            && u[..n] == name && u[n] == c && u[n + 1..] == value + y
            && u[n + 1..n + 1 + m] == value && u[n + 1 + m..] == y
  {}

  ghost predicate ReadsAs(t: text, i: Item, y: text) {
    && t != [] && !IsSpace(t[0]) && t[0] != HASH
    && Next(if Prefixed(t) == True then t else t[1..], Prefixed(t)) == Step(Some(i), y)
  }

  lemma TextWord(name: text, value: text, y: text)
    requires Unbroken(name) && EQUALS !in name && name[0] != MINUS && name[0] != BANG && name[0] != HASH
    requires Unbroken(value) && (y == [] || IsSpace(y[0]))
    ensures ReadsAs(name + [EQUALS] + value + y, Item(name, Str(value)), y)
  {
    NextText(name, value, y);
    Associative(name + [EQUALS], value, y);
    Associative(name, [EQUALS], value + y);
  }

  lemma NextWord(i: Item, y: text)
    requires Writable(i) && (y == [] || IsSpace(y[0]))
    ensures ReadsAs(Word(i) + y, i, y)
  {
    match i.value
    case Str(s) => TextWord(i.name, s, y);
    case True => NextPlain(i.name, True, y);
    case False =>
      NextPlain(i.name, False, y);
      assert (Word(i) + y)[1..] == i.name + y;
    case Unset =>
      NextPlain(i.name, Unset, y);
      assert (Word(i) + y)[1..] == i.name + y;
  }

  lemma ItemsNext(i: Item, t: text, y: text)
    requires ReadsAs(t, i, y)
    ensures Items([SPACE] + t) == [i] + Items(y)
  {
    var s := [SPACE] + t;
    assert s[1..] == t;
    assert SkipBlanks(s) == SkipBlanks(t) == t;
  }

  lemma NoItems(end: text)
    requires Ends(end)
    ensures Items(end) == []
  {
    if |end| > 1 && end[0] == SPACE {
      assert SkipBlanks(end) == SkipBlanks(end[1..]) == end[1..];
    }
  }

  lemma ShownNext(items: seq<Item>, end: text)
    requires items != []
    ensures Show(items) + end == [SPACE] + (Word(items[0]) + (Show(items[1..]) + end))
  {
    var w, rest := Word(items[0]), Show(items[1..]);
    Associative([SPACE] + w, rest, end);
    Associative([SPACE], w, rest + end);
  }

  lemma ShownBegins(items: seq<Item>, end: text)
    requires Ends(end)
    ensures var y := Show(items) + end; y == [] || IsSpace(y[0])
  {
    if items != [] {
      ShownNext(items, end);
    }
  }

  lemma {:induction false} ItemsShown(items: seq<Item>, end: text)
    requires (forall i :: 0 <= i < |items| ==> Writable(items[i])) && Ends(end)
    ensures Items(Show(items) + end) == items
    decreases |items|
  {
    if items == [] {
      assert Show(items) + end == end;
      NoItems(end);
    } else {
      var y := Show(items[1..]) + end;
      ItemsShown(items[1..], end);
      ShownNext(items, end);
      ShownBegins(items[1..], end);
      NextWord(items[0], y);
      ItemsNext(items[0], Word(items[0]) + y, y);
    }
  }

  /** Nothing after an item says anything about its name. */
  ghost predicate Last(macros: text -> Option<seq<Assign>>, items: seq<Item>, k: nat)
    requires k < |items|
  {
    forall i :: k < i < |items| ==>
      items[i].name != items[k].name &&
      (items[i].value == True && macros(items[i].name).Some? ==> Lookup(macros(items[i].name).value, items[k].name) == None)
  }

  lemma {:induction false} SaysNothing(macros: text -> Option<seq<Assign>>, items: seq<Item>, n: text, before: Option<Value>)
    requires forall i :: 0 <= i < |items| ==>
               items[i].name != n && (items[i].value == True && macros(items[i].name).Some? ==> Lookup(macros(items[i].name).value, n) == None)
    ensures Says(macros, items, n, before) == before
    decreases |items|
  {
    if items != [] {
      SaysNothing(macros, items[1..], n, before);
    }
  }

  lemma {:induction false} SaysLast(macros: text -> Option<seq<Assign>>, items: seq<Item>, k: nat, before: Option<Value>)
    requires k < |items| && Last(macros, items, k)
    ensures Says(macros, items, items[k].name, before) == Some(items[k].value)
    decreases |items|
  {
    var i, n := items[0], items[k].name;
    var m := macros(i.name);
    var now := if i.name == n then Some(i.value)
               else if i.value == True && m.Some? && Lookup(m.value, n).Some? then Lookup(m.value, n)
               else before;
    if k == 0 {
      SaysNothing(macros, items[1..], n, now);
    } else {
      SaysLast(macros, items[1..], k - 1, now);
    }
  }

  /** A line written out is read back, comment or not: what it says last of a name is the name's value. */
  method ParseShown(less: (text, text) -> bool, macros: text -> Option<seq<Assign>>, items: seq<Item>, end: text)
    returns (v: seq<Assign>)
    requires StrictOrder(less) && MacrosSorted(less, macros)
    requires (forall i :: 0 <= i < |items| ==> Writable(items[i])) && Ends(end)
    ensures Sorted(less, v) && forall n :: Lookup(v, n) == Says(macros, items, n, None)
    ensures forall k :: 0 <= k < |items| && Last(macros, items, k) ==> Lookup(v, items[k].name) == Some(items[k].value)
  {
    v := Parse(less, macros, Show(items) + end);
    ItemsShown(items, end);
    forall k | 0 <= k < |items| && Last(macros, items, k) ensures Lookup(v, items[k].name) == Some(items[k].value) {
      SaysLast(macros, items, k, None);
    }
  }
}
