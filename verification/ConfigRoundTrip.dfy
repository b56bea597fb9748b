/** What is written to a configuration file and read back again. */
module ConfigRoundTrip {
  import opened Common
  import opened ConfigText
  import opened ConfigReader
  import opened Sequences

  // ----- spaces -----

  ghost predicate Spaces(w: text) { forall i :: 0 <= i < |w| ==> IsSpace(w[i]) }

  lemma {:induction false} SkipSpaceRun(w: text, s: text)
    requires Spaces(w) && (s == [] || !IsSpace(s[0]))
    ensures SkipSpace(w + s) == s
  {
    if w == [] {
      assert w + s == s;
    } else {
      assert (w + s)[1..] == w[1..] + s;
      SkipSpaceRun(w[1..], s);
    }
  }

  lemma {:induction false} TrimEndRun(s: text, w: text)
    requires Spaces(w) && (s == [] || !IsSpace(s[|s| - 1]))
    ensures TrimEnd(s + w) == s
  {
    if w == [] {
      assert s + w == s;
    } else {
      var n := |w| - 1;
      assert (s + w)[..|s + w| - 1] == s + w[..n];
      TrimEndRun(s, w[..n]);
    }
  }

  lemma {:induction false} IndexAfter(s: text, c: ascii, t: text)
    requires c !in s
    ensures Index(s + [c] + t, c) == |s|
  {
    if s != [] {
      assert s[0] in s;
      assert (s + [c] + t)[1..] == s[1..] + [c] + t;
      IndexAfter(s[1..], c, t);
    }
  }

  /** A line that ends in spaces. */
  lemma NextLineOf(body: text, w: text, rest: text)
    requires Spaces(w) && NEWLINE !in body && NEWLINE !in w && (body == [] || !IsSpace(body[|body| - 1]))
    ensures NextLine(body + w + [NEWLINE] + rest) == LineRead(body, rest)
  {
    var s := body + w + [NEWLINE] + rest;
    IndexAfter(body + w, NEWLINE, rest);
    assert s[..|body + w|] == body + w && s[|body + w| + 1..] == rest;
    TrimEndRun(body, w);
  }

  // ----- comments -----

  predicate Starts(c: ascii) { c == SEMICOLON || c == HASH }

  lemma {:induction false} ScanQuiet(line: text, k: nat, m: nat, q: nat)
    requires k <= m <= |line| && forall i :: k <= i < m ==> !Starts(line[i]) && line[i] != QUOTE
    ensures Scan(line, k, q) == Scan(line, m, q)
    decreases m - k
  {
    if k < m {
      ScanQuiet(line, k + 1, m, q);
    }
  }

  lemma {:induction false} ScanNoComment(line: text, k: nat, q: nat)
    requires k <= |line| && forall i :: 0 <= i < |line| ==> !Starts(line[i])
    ensures Scan(line, k, q).end == |line|
    decreases |line| - k
  {
    if k < |line| {
      ScanNoComment(line, k + 1, if line[k] == QUOTE && k > 0 && line[k - 1] != BACKSLASH then q + 1 else q);
    }
  }

  /** Every quote is escaped. */
  ghost predicate Guarded(e: text) {
    forall k :: 0 <= k < |e| && e[k] == QUOTE ==> k > 0 && e[k - 1] == BACKSLASH
  }

  lemma {:induction false} ScanInside(line: text, k: nat, last: nat)
    requires 0 < k <= last == |line| - 1 && line[last] == QUOTE
    requires forall i :: k <= i < last && line[i] == QUOTE ==> line[i - 1] == BACKSLASH
    ensures Scan(line, k, 1).end == |line|
    decreases last - k
  {
    if k < last {
      ScanInside(line, k + 1, last);
    }
  }

  /** Nothing between quotes is taken for a comment. */
  lemma ScanQuoted(pre: text, e: text)
    requires pre != [] && pre[|pre| - 1] == SPACE && Guarded(e)
    requires forall i :: 0 <= i < |pre| ==> !Starts(pre[i]) && pre[i] != QUOTE
    ensures var line := pre + ([QUOTE] + e + [QUOTE]); Scan(line, 0, 0).end == |line|
  {
    var line := pre + ([QUOTE] + e + [QUOTE]);
    var n := |pre|;
    ScanQuiet(line, 0, n, 0);
    forall i | n + 1 <= i < |line| - 1 && line[i] == QUOTE ensures line[i - 1] == BACKSLASH {
      assert line[i] == e[i - n - 1];
    }
    ScanInside(line, n + 1, |line| - 1);
  }

  // ----- escaped text -----

  function EscapeOne(c: ascii): text { if Special(c) then [BACKSLASH, EscapeOf(c)] else [c] }

  lemma {:induction false} EscapeShape(v: text)
    ensures NEWLINE !in Escape(v) && Guarded(Escape(v))
    ensures SEMICOLON in Escape(v) <==> SEMICOLON in v
    ensures HASH in Escape(v) <==> HASH in v
    ensures v == [] <==> Escape(v) == []
  {
    if v != [] {
      EscapeShape(v[1..]);
      var a, b := EscapeOne(v[0]), Escape(v[1..]);
      assert Escape(v) == a + b && v == [v[0]] + v[1..];
      GuardedConcat(a, b);
    }
  }

  lemma GuardedConcat(a: text, b: text)
    requires Guarded(a) && Guarded(b)
    ensures Guarded(a + b)
  {
    var e := a + b;
    forall k | 0 <= k < |e| && e[k] == QUOTE ensures k > 0 && e[k - 1] == BACKSLASH {
      if k >= |a| {
        assert e[k] == b[k - |a|];
        assert e[k - 1] == b[k - |a| - 1];
      }
    }
  }

  lemma EscapeLast(v: text)
    requires v != []
    ensures Escape(v) == Escape(v[..|v| - 1]) + EscapeOne(v[|v| - 1])
  {
    var n := |v| - 1;
    assert v == v[..n] + [v[n]];
    EscapeConcat(v[..n], [v[n]]);
    EscapeSingle(v[n]);
  }

  lemma EscapeSingle(c: ascii)
    ensures Escape([c]) == EscapeOne(c)
  {
    assert [c][1..] == [];
    assert EscapeOne(c) + [] == EscapeOne(c);
  }

  /** Escaped text never ends in a backslash that is not itself escaped. */
  lemma {:induction false} EscapeEven(v: text)
    ensures Backslashes(Escape(v)) % 2 == 0
  {
    if v != [] {
      var n := |v| - 1;
      EscapeLast(v);
      EscapeEven(v[..n]);
      var a := Escape(v[..n]);
      if v[n] == BACKSLASH {
        var s := a + [BACKSLASH, BACKSLASH];
        assert s[..|s| - 1] == a + [BACKSLASH];
        assert (a + [BACKSLASH])[..|a|] == a;
      }
    }
  }

  // ----- what is lost at the ends -----

  /** Spaces that are written as they are. */
  predicate Raw(c: ascii) { IsSpace(c) && !Special(c) }

  function DropStart(v: text): text {
    if v != [] && Raw(v[0]) then DropStart(v[1..]) else v
  }

  function DropEnd(v: text): text {
    if v != [] && Raw(v[|v| - 1]) then DropEnd(v[..|v| - 1]) else v
  }

  function Trim(v: text): text { DropEnd(DropStart(v)) }

  ghost predicate AllRaw(w: text) { forall i :: 0 <= i < |w| ==> Raw(w[i]) }

  lemma {:induction false} DropStartParts(v: text) returns (w: text)
    ensures v == w + DropStart(v) && AllRaw(w) && (DropStart(v) == [] || !Raw(DropStart(v)[0]))
  {
    w := [];
    if v != [] && Raw(v[0]) {
      w := DropStartParts(v[1..]);
      Associative([v[0]], w, DropStart(v));
      assert v == [v[0]] + v[1..];
      w := [v[0]] + w;
    }
  }

  lemma {:induction false} DropEndParts(v: text) returns (w: text)
    ensures v == DropEnd(v) + w && AllRaw(w) && (DropEnd(v) == [] || !Raw(DropEnd(v)[|DropEnd(v)| - 1]))
    ensures DropEnd(v) == [] || DropEnd(v)[0] == v[0]
  {
    w := [];
    if v != [] && Raw(v[|v| - 1]) {
      w := DropEndParts(v[..|v| - 1]);
      Associative(DropEnd(v), w, [v[|v| - 1]]);
      assert v == v[..|v| - 1] + [v[|v| - 1]];
      w := w + [v[|v| - 1]];
    }
  }

  lemma {:induction false} EscapeRaw(w: text)
    requires AllRaw(w)
    ensures Escape(w) == w && Spaces(w) && NEWLINE !in w
  {
    if w != [] {
      EscapeRaw(w[1..]);
      assert w == [w[0]] + w[1..];
    }
  }

  /** Neither end is a space. */
  ghost predicate Tight(b: text) { b == [] || (!IsSpace(b[0]) && !IsSpace(b[|b| - 1])) }

  lemma EscapeTight(v: text)
    requires v == [] || (!Raw(v[0]) && !Raw(v[|v| - 1]))
    ensures Tight(Escape(v))
  {
    if v != [] {
      EscapeLast(v);
    }
  }

  /** What is written, less the spaces around it, is the escaped form of what is left. */
  lemma EscapeTrim(v: text) returns (lead: text, trail: text)
    ensures Escape(v) == lead + Escape(Trim(v)) + trail && Tight(Escape(Trim(v)))
    ensures Spaces(lead) && Spaces(trail) && NEWLINE !in lead && NEWLINE !in trail
  {
    lead := DropStartParts(v);
    trail := DropEndParts(DropStart(v));
    assert v == lead + (Trim(v) + trail);
    EscapeBetween(lead, Trim(v), trail);
    EscapeTight(Trim(v));
  }

  lemma EscapeBetween(lead: text, m: text, trail: text)
    requires AllRaw(lead) && AllRaw(trail)
    ensures Escape(lead + (m + trail)) == lead + Escape(m) + trail
    ensures Spaces(lead) && Spaces(trail) && NEWLINE !in lead && NEWLINE !in trail
  {
    EscapeConcat(lead, m + trail);
    EscapeConcat(m, trail);
    EscapeRaw(lead);
    EscapeRaw(trail);
    Associative(lead, Escape(m), trail);
  }

  /** Nothing is lost exactly if neither end is such a space. */
  lemma TrimKeeps(v: text)
    ensures Trim(v) == v <==> v == [] || (!Raw(v[0]) && !Raw(v[|v| - 1]))
  {
    var w := DropStartParts(v);
    var x := DropEndParts(DropStart(v));
    assert |v| == |w| + |Trim(v)| + |x|;
  }

  // ----- variables -----

  ghost predicate ValidName(name: text) { name != [] && forall i :: 0 <= i < |name| ==> KeyChar(name[i]) }

  /** What a line with a name and a body means. */
  lemma LineOf(name: text, w: text, b: text)
    requires ValidName(name) && Spaces(w) && Tight(b) && b != [] && !Multiline(b)
    requires var line := name + [SPACE, EQUALS] + w + b; Scan(line, 0, 0).end == |line|
    ensures var r := LineMeaning(name + [SPACE, EQUALS] + w + b);
            match Fixup(b) case None => r == Malformed case Some(t) => r == Variable(name, Some(t))
  {
    var line := name + [SPACE, EQUALS] + w + b;
    assert line[|line| - 1] == b[|b| - 1];
    assert Shorten(line, |line|) == line;
    NameAndValue(name, w + b, line);
    SkipSpaceRun(w, b);
  }

  lemma NameAndValue(name: text, v: text, line: text)
    requires ValidName(name) && line == name + [SPACE, EQUALS] + v
    ensures Index(line, EQUALS) == |name| + 1 && NameOf(line[..|name| + 1]) == name && line[|name| + 2..] == v
  {
    assert line == (name + [SPACE]) + [EQUALS] + v;
    IndexAfter(name + [SPACE], EQUALS, v);
    assert line[..|name| + 1] == name + [SPACE];
    assert (name + [SPACE])[..|name|] == name;
  }

  lemma EmptyLineOf(name: text)
    requires ValidName(name)
    ensures LineMeaning(name + [SPACE, EQUALS]) == Variable(name, Some([]))
  {
    var line := name + [SPACE, EQUALS];
    ScanNoComment(line, 0, 0);
    assert Shorten(line, |line|) == line;
    assert line == name + [SPACE, EQUALS] + [];
    NameAndValue(name, [], line);
  }

  /** The value that is read back. */
  function Stored(value: text): text { if NeedsQuotes(Escape(value)) then value else Trim(value) }

  /** The line of a variable whose value is in quotes. */
  lemma QuotedLine(name: text, e: text, value: text)
    requires ValidName(name) && Guarded(e) && Fixup(e + [QUOTE]) == Some(value)
    ensures LineMeaning(name + [SPACE, EQUALS] + [SPACE] + ([QUOTE] + e + [QUOTE])) == Variable(name, Some(value))
  {
    var b := [QUOTE] + e + [QUOTE];
    ScanQuoted(name + [SPACE, EQUALS] + [SPACE], e);
    assert b[1..] == e + [QUOTE];
    LineOf(name, [SPACE], b);
  }

  function Body(name: text, w: text, e: text): text { name + [SPACE, EQUALS] + w + e }

  lemma BodyShape(name: text, w: text, e: text)
    requires ValidName(name) && Spaces(w)
    ensures var b := Body(name, w, e);
            && b != [] && b[0] == name[0] && (e != [] ==> b[|b| - 1] == e[|e| - 1])
            && (NEWLINE !in w && NEWLINE !in e ==> NEWLINE !in b)
            && ((forall i :: 0 <= i < |e| ==> !Starts(e[i])) ==> forall i :: 0 <= i < |b| ==> !Starts(b[i]))
  {
    var b := Body(name, w, e);
    var n := |name| + 2;
    forall i | 0 <= i < |b| ensures b[i] == if i < n then (name + [SPACE, EQUALS])[i] else if i < n + |w| then w[i - n] else e[i - n - |w|] {}
  }

  /** The line of a variable whose value is not. */
  lemma PlainLine(name: text, w: text, e: text, value: text)
    requires ValidName(name) && Spaces(w) && Tight(e) && e != [] && !Multiline(e) && Fixup(e) == Some(value)
    requires forall i :: 0 <= i < |e| ==> !Starts(e[i])
    ensures LineMeaning(Body(name, w, e)) == Variable(name, Some(value))
  {
    BodyShape(name, w, e);
    ScanNoComment(Body(name, w, e), 0, 0);
    LineOf(name, w, e);
  }

  /** The next line of the file and what it means. */
  ghost predicate ReadsAs(s: text, name: text, value: text, rest: text) {
    var t := SkipSpace(s);
    && t != [] && name != [] && t[0] == name[0]
    && NextLine(t).rest == rest
    && LineMeaning(NextLine(t).line) == Variable(name, Some(value))
  }

  lemma LineInFile(name: text, body: text, w: text, rest: text, value: text)
    requires ValidName(name) && Spaces(w) && NEWLINE !in body && NEWLINE !in w
    requires body != [] && body[0] == name[0] && !IsSpace(body[|body| - 1])
    requires LineMeaning(body) == Variable(name, Some(value))
    ensures ReadsAs([TAB] + (body + w + [NEWLINE] + rest), name, value, rest)
  {
    SkipSpaceRun([TAB], body + w + [NEWLINE] + rest);
    NextLineOf(body, w, rest);
  }

  lemma Regroup<T>(tab: seq<T>, name: seq<T>, eq: seq<T>, sp: seq<T>, q: seq<T>, e: seq<T>, nl: seq<T>, rest: seq<T>)
    ensures tab + name + (eq + sp) + q + e + q + nl + rest == tab + (name + eq + sp + (q + e + q) + [] + nl + rest)
  {}

  lemma RegroupPlain<T>(tab: seq<T>, name: seq<T>, eq: seq<T>, sp: seq<T>, lead: seq<T>, e: seq<T>, trail: seq<T>,
                        nl: seq<T>, rest: seq<T>)
    ensures tab + name + (eq + sp) + (lead + e + trail) + nl + rest ==
            tab + (name + eq + (sp + lead) + e + trail + nl + rest)
    ensures e == [] ==> tab + name + (eq + sp) + (lead + e + trail) + nl + rest ==
                        tab + (name + eq + (sp + lead + trail) + nl + rest)
  {}

  lemma QuotedInFile(name: text, e: text, rest: text, value: text)
    requires ValidName(name) && Guarded(e) && NEWLINE !in e && Fixup(e + [QUOTE]) == Some(value)
    ensures ReadsAs([TAB] + name + ([SPACE, EQUALS] + [SPACE]) + [QUOTE] + e + [QUOTE] + [NEWLINE] + rest, name, value, rest)
  {
    var b := [QUOTE] + e + [QUOTE];
    QuotedLine(name, e, value);
    BodyShape(name, [SPACE], b);
    LineInFile(name, Body(name, [SPACE], b), [], rest, value);
    Regroup([TAB], name, [SPACE, EQUALS], [SPACE], [QUOTE], e, [NEWLINE], rest);
  }

  ghost predicate Blank(w: text) { Spaces(w) && NEWLINE !in w }

  lemma BlankConcat(v: text, w: text)
    requires Blank(v) && Blank(w)
    ensures Blank(v + w)
  {}

  lemma PlainInFile(name: text, lead: text, e: text, trail: text, rest: text, value: text)
    requires ValidName(name) && Blank(lead) && Blank(trail) && NEWLINE !in e && e != []
    requires Tight(e) && !Multiline(e) && Fixup(e) == Some(value) && forall i :: 0 <= i < |e| ==> !Starts(e[i])
    ensures ReadsAs([TAB] + name + ([SPACE, EQUALS] + [SPACE]) + (lead + e + trail) + [NEWLINE] + rest, name, value, rest)
  {
    BlankConcat([SPACE], lead);
    BodyInFile(name, [SPACE] + lead, e, trail, rest, value);
    RegroupPlain([TAB], name, [SPACE, EQUALS], [SPACE], lead, e, trail, [NEWLINE], rest);
  }

  lemma BodyInFile(name: text, w: text, e: text, trail: text, rest: text, value: text)
    requires ValidName(name) && Blank(w) && Blank(trail) && NEWLINE !in e && e != []
    requires Tight(e) && !Multiline(e) && Fixup(e) == Some(value) && forall i :: 0 <= i < |e| ==> !Starts(e[i])
    ensures ReadsAs([TAB] + (Body(name, w, e) + trail + [NEWLINE] + rest), name, value, rest)
  {
    PlainLine(name, w, e, value);
    BodyShape(name, w, e);
    LineInFile(name, Body(name, w, e), trail, rest, value);
  }

  lemma BlankInFile(name: text, lead: text, trail: text, rest: text)
    requires ValidName(name) && Blank(lead) && Blank(trail)
    ensures ReadsAs([TAB] + name + ([SPACE, EQUALS] + [SPACE]) + (lead + [] + trail) + [NEWLINE] + rest, name, [], rest)
  {
    var w := [SPACE] + lead + trail;
    BlankConcat([SPACE], lead);
    BlankConcat([SPACE] + lead, trail);
    EmptyLineOf(name);
    LineInFile(name, name + [SPACE, EQUALS], w, rest, []);
    RegroupPlain([TAB], name, [SPACE, EQUALS], [SPACE], lead, [], trail, [NEWLINE], rest);
  }

  lemma TrimWithin(value: text)
    ensures forall c :: c in Trim(value) ==> c in value
  {
    var w := DropStartParts(value);
    var x := DropEndParts(DropStart(value));
  }

  lemma Printed(name: text, value: text)
    ensures var e := Escape(value);
            PrintVariable(name, value) ==
            if NeedsQuotes(e) then [TAB] + name + ([SPACE, EQUALS] + [SPACE]) + [QUOTE] + e + [QUOTE] + [NEWLINE]
            else [TAB] + name + ([SPACE, EQUALS] + [SPACE]) + e + [NEWLINE]
  {
    assert [SPACE, EQUALS] + [SPACE] == [SPACE, EQUALS, SPACE];
    var e := Escape(value);
    if !NeedsQuotes(e) {
      WithoutQuotes([TAB] + name + [SPACE, EQUALS, SPACE], e, [NEWLINE]);
    }
  }

  lemma WithoutQuotes<T>(s: seq<T>, e: seq<T>, t: seq<T>)
    ensures s + [] + e + [] + t == s + e + t
  {}

  lemma PlainRoundTrip(name: text, value: text, rest: text)
    requires ValidName(name) && !NeedsQuotes(Escape(value))
    ensures ReadsAs([TAB] + name + ([SPACE, EQUALS] + [SPACE]) + Escape(value) + [NEWLINE] + rest, name, Trim(value), rest)
  {
    EscapeShape(value);
    PlainValue(value);
    var lead, trail := EscapeTrim(value);
    EscapeShape(Trim(value));
    if Trim(value) == [] {
      BlankInFile(name, lead, trail, rest);
    } else {
      PlainInFile(name, lead, Escape(Trim(value)), trail, rest, Trim(value));
    }
  }

  /** A variable is read back with its value, less the spaces that were not put in quotes. */
  lemma VariableRoundTrip(name: text, value: text, rest: text)
    requires ValidName(name)
    ensures ReadsAs(PrintVariable(name, value) + rest, name, Stored(value), rest)
  {
    Printed(name, value);
    if NeedsQuotes(Escape(value)) {
      EscapeShape(value);
      FixupQuoted(value);
      QuotedInFile(name, Escape(value), rest, value);
    } else {
      PlainRoundTrip(name, value, rest);
    }
  }

  lemma FixupQuoted(value: text)
    ensures Fixup(Escape(value) + [QUOTE]) == Some(value)
  {
    FixupEscape(value, [QUOTE]);
    assert [QUOTE][1..] == [];
    assert value + [] == value;
  }

  lemma PlainValue(value: text)
    requires SEMICOLON !in value && HASH !in value
    ensures var e := Escape(Trim(value));
            && NEWLINE !in e && !Multiline(e) && Fixup(e) == Some(Trim(value))
            && forall i :: 0 <= i < |e| ==> !Starts(e[i])
  {
    var v := Trim(value);
    TrimWithin(value);
    EscapeShape(v);
    EscapeEven(v);
    FixupEscape(v, []);
    assert Escape(v) + [] == Escape(v) && v + [] == v;
  }

  /** Which values are put in quotes, from the value itself. */
  lemma QuotedValues(value: text)
    ensures NeedsQuotes(Escape(value)) <==>
            value == [] || value[0] == ' ' as int || value[|value| - 1] == ' ' as int || ';' as int in value || '#' as int in value
  {
    EscapeShape(value);
    if value != [] {
      EscapeLast(value);
    }
  }

  /** A vertical tab, form feed or carriage return. */
  predicate Lost(c: ascii) { 11 <= c <= 13 }

  /**
   * The value survives exactly if it is empty, has a space at an end or a
   * comment character in it, so that it is put in quotes, or has none of the
   * three other spaces at an end.
   */
  lemma ValueSurvives(value: text)
    ensures Stored(value) == value <==>
            || value == [] || value[0] == ' ' as int || value[|value| - 1] == ' ' as int
            || ';' as int in value || '#' as int in value
            || (!Lost(value[0]) && !Lost(value[|value| - 1]))
  {
    QuotedValues(value);
    TrimKeeps(value);
  }

  /** A carriage return and a letter come back without the carriage return. */
  lemma ValueLost()
    ensures Stored([13, 97]) != [13, 97]
  {
    var value: text := [13, 97];
    ValueSurvives(value);
    assert value[1..] == [97] && [97][1..] == [];
    assert Escape([97]) == [97] && Escape(value) == value;
  }

  // ----- section headers -----

  ghost predicate ValidKey(key: text) {
    var d := Index(key, DOT);
    (forall i :: 0 <= i < d ==> KeyChar(key[i])) && key != []
  }

  /** Escapes in a header stand for the letter they are written with. */
  function Flatten(v: text): (r: text)
    ensures |r| == |v| && forall i :: 0 <= i < |v| ==> r[i] == if Special(v[i]) then EscapeOf(v[i]) else v[i]
  {
    seq(|v|, i requires 0 <= i < |v| => if Special(v[i]) then EscapeOf(v[i]) else v[i])
  }

  /** The section name that is read back. */
  function HeaderName(key: text): text {
    var d := Index(key, DOT);
    if d == |key| then LowerAll(key) else LowerAll(key[..d]) + [DOT] + Flatten(key[d + 1..])
  }

  ghost predicate LowerCase(v: text) { forall i :: 0 <= i < |v| ==> Lower(v[i]) == v[i] }

  ghost predicate Unspecial(v: text) { NEWLINE !in v && TAB !in v && BACKSPACE !in v }

  lemma LowerKeeps(v: text)
    ensures LowerAll(v) == v <==> LowerCase(v)
  {}

  lemma FlattenKeeps(v: text)
    ensures Flatten(v) == v <==> Unspecial(v)
  {
    if Flatten(v) == v {
      forall c | c in v ensures c != NEWLINE && c != TAB && c != BACKSPACE {
        var i :| 0 <= i < |v| && v[i] == c;
        assert Flatten(v)[i] == v[i];
      }
    }
  }

  lemma SameParts<T>(a: seq<T>, b: seq<T>, m: seq<T>, c: seq<T>, d: seq<T>)
    requires |a| == |b| && |c| == |d|
    ensures a + m + c == b + m + d <==> a == b && c == d
  {
    if a + m + c == b + m + d {
      assert a == (a + m + c)[..|a|] && b == (b + m + d)[..|b|];
      assert c == (a + m + c)[|a + m|..] && d == (b + m + d)[|b + m|..];
    }
  }

  /** A name survives exactly if its section is in lower case and its subsection has no newline, tab or backspace. */
  lemma HeaderSurvives(key: text)
    ensures var d := Index(key, DOT);
            HeaderName(key) == key <==> LowerCase(key[..d]) && (d < |key| ==> Unspecial(key[d + 1..]))
  {
    var d := Index(key, DOT);
    if d == |key| {
      LowerKeeps(key);
      assert key[..d] == key;
    } else {
      var base, sub := key[..d], key[d + 1..];
      SplitAt(key, d);
      PartsSurvive(base, sub);
      calc <==> {
        HeaderName(key) == key;
        LowerAll(base) + [DOT] + Flatten(sub) == base + [DOT] + sub;
      }
    }
  }

  /** A capital letter in a section, and a tab in a subsection, do not come back. */
  lemma HeadersLost()
    ensures HeaderName([65]) != [65] && HeaderName([97, DOT, TAB]) != [97, DOT, TAB]
  {
    var key: text := [97, DOT, TAB];
    HeaderSurvives([65]);
    HeaderSurvives(key);
    assert key[1..] == [DOT, TAB] && key[2..] == [TAB];
    assert Index(key, DOT) == 1 && Lower([65][0]) == 97;
  }

  lemma SplitAt<T>(s: seq<T>, d: nat)
    requires d < |s|
    ensures s == s[..d] + [s[d]] + s[d + 1..]
  {}

  lemma PartsSurvive(base: text, sub: text)
    ensures LowerAll(base) + [DOT] + Flatten(sub) == base + [DOT] + sub <==>
            LowerCase(base) && Unspecial(sub)
  {
    SameParts(LowerAll(base), base, [DOT], Flatten(sub), sub);
    LowerKeeps(base);
    FlattenKeeps(sub);
  }

  /** Reading the name up to `m`. */
  lemma {:induction false} SectionRun(line: text, k: nat, m: nat, name: text)
    requires k <= m < |line| && (forall i :: k <= i < m ==> KeyChar(line[i])) && line[m] != CLOSE
    ensures Section(line, k, name) == Section(line, m, name + LowerAll(line[k..m]))
    decreases m - k
  {
    if k == m {
      assert name + LowerAll(line[k..m]) == name;
    } else {
      SectionRun(line, k + 1, m, name + [Lower(line[k])]);
      assert name + [Lower(line[k])] + LowerAll(line[k + 1..m]) == name + LowerAll(line[k..m]);
    }
  }

  lemma PlainHeader(key: text)
    requires key != [] && forall i :: 0 <= i < |key| ==> KeyChar(key[i])
    ensures HeaderMeaning([OPEN] + key + [CLOSE]) == Some(LowerAll(key))
  {
    var line := [OPEN] + key + [CLOSE];
    var m := |key|;
    assert line[m + 1] == CLOSE;
    SectionRun(line, 1, m, []);
    assert [] + LowerAll(line[1..m]) + [Lower(line[m])] == LowerAll(key);
  }

  /** Reading what is in the quotes. */
  lemma {:induction false} SubsectionRun(line: text, k: nat, last: nat, name: text, v: text)
    requires k <= last && last + 1 < |line| && line[last] == QUOTE && line[last + 1] == CLOSE && line[k..last] == Escape(v)
    ensures Subsection(line, k, last, name) == Some(name + Flatten(v))
    decreases |v|
  {
    if v == [] {
      assert k == last && name + Flatten(v) == name;
    } else {
      var a := EscapeOne(v[0]);
      SubsectionStep(line, k, last, v);
      var c := a[|a| - 1];
      SubsectionNext(line, k, last, name);
      SubsectionRun(line, k + |a|, last, name + [c], v[1..]);
      FlattenFirst(name, v);
    }
  }

  lemma FlattenFirst(name: text, v: text)
    requires v != []
    ensures var a := EscapeOne(v[0]); name + [a[|a| - 1]] + Flatten(v[1..]) == name + Flatten(v)
  {}

  /** One character of a subsection, escaped or not. */
  lemma SubsectionNext(line: text, k: nat, last: nat, name: text)
    requires k < last < |line| && line[last] == QUOTE && line[k] != QUOTE
    ensures var n := if line[k] == BACKSLASH then k + 1 else k;
            n < last ==> Subsection(line, k, last, name) == Subsection(line, n + 1, last, name + [line[n]])
  {}

  lemma SubsectionStep(line: text, k: nat, last: nat, v: text)
    requires k <= last < |line| && line[k..last] == Escape(v) && v != []
    ensures var a := EscapeOne(v[0]);
            && k + |a| <= last && line[k] == a[0] && line[k + |a| - 1] == a[|a| - 1]
            && line[k + |a|..last] == Escape(v[1..])
  {
    var a, s := EscapeOne(v[0]), line[k..last];
    assert s == a + Escape(v[1..]);
    assert line[k] == s[0] && line[k + |a| - 1] == s[|a| - 1] && line[k + |a|..last] == s[|a|..];
  }

  lemma {:induction false} LastQuote(s: text, t: text)
    requires QUOTE !in t
    ensures LastIndex(s + [QUOTE] + t, QUOTE) == |s|
  {
    var u := s + [QUOTE] + t;
    assert u[|s|] == QUOTE;
    forall i | |s| < i < |u| ensures u[i] != QUOTE {
      assert u[i] == t[i - |s| - 1];
    }
  }

  /** The parts of a header with a subsection. */
  lemma HeaderParts<T>(o: T, base: seq<T>, sp: T, q: T, e: seq<T>, c: T)
    ensures var line, m := [o] + base + [sp, q] + e + [q, c], |base| + 1;
            && line == ([o] + base + [sp]) + [q] + (e + [q, c])
            && line == ([o] + base + [sp] + [q] + e) + [q] + [c]
            && line[m] == sp && line[1..m] == base && line[m + 2..|line| - 2] == e
            && line[|line| - 2] == q && line[|line| - 1] == c
  {}

  lemma ExtendedRun(line: text, first: nat, last: nat, name: text, sub: text)
    requires first < last && last + 1 < |line| && line[last] == QUOTE && line[last + 1] == CLOSE
    requires Index(line, QUOTE) == first && LastIndex(line, QUOTE) == last && line[first + 1..last] == Escape(sub)
    ensures Extended(line, name) == Some(name + [DOT] + Flatten(sub))
  {
    SubsectionRun(line, first + 1, last, name + [DOT], sub);
  }

  lemma SectionUpTo(line: text, m: nat, base: text)
    requires 0 < m < |line| && line[m] == SPACE && line[1..m] == base && forall i :: 0 <= i < |base| ==> KeyChar(base[i])
    ensures Section(line, 1, []) == Extended(line, LowerAll(base))
  {
    forall i | 1 <= i < m ensures KeyChar(line[i]) {
      assert line[i] == line[1..m][i - 1];
    }
    SectionRun(line, 1, m, []);
    assert [] + LowerAll(base) == LowerAll(base);
  }

  lemma QuotedHeader(base: text, e: text, sub: text)
    requires (forall i :: 0 <= i < |base| ==> KeyChar(base[i])) && e == Escape(sub)
    ensures HeaderMeaning([OPEN] + base + [SPACE, QUOTE] + e + [QUOTE, CLOSE]) ==
            Some(LowerAll(base) + [DOT] + Flatten(sub))
  {
    var line := [OPEN] + base + [SPACE, QUOTE] + e + [QUOTE, CLOSE];
    QuotesOfHeader(base, e);
    HeaderParts(OPEN, base, SPACE, QUOTE, e, CLOSE);
    ExtendedRun(line, |base| + 2, |line| - 2, LowerAll(base), sub);
    SectionUpTo(line, |base| + 1, base);
  }

  lemma QuotesOfHeader(base: text, e: text)
    requires forall i :: 0 <= i < |base| ==> KeyChar(base[i])
    ensures var line := [OPEN] + base + [SPACE, QUOTE] + e + [QUOTE, CLOSE];
            Index(line, QUOTE) == |base| + 2 && LastIndex(line, QUOTE) == |line| - 2
  {
    var pre := [OPEN] + base + [SPACE];
    HeaderParts(OPEN, base, SPACE, QUOTE, e, CLOSE);
    IndexAfter(pre, QUOTE, e + [QUOTE, CLOSE]);
    LastQuote(pre + [QUOTE] + e, [CLOSE]);
  }

  /** The next line of the file and the section it opens. */
  ghost predicate Opens(s: text, name: text, rest: text) {
    var t := SkipSpace(s);
    && t != [] && t[0] == OPEN
    && NextLine(t).rest == rest
    && HeaderMeaning(NextLine(t).line) == Some(name)
  }

  lemma HeaderInFile(body: text, name: text, rest: text)
    requires body != [] && body[0] == OPEN && NEWLINE !in body && body[|body| - 1] == CLOSE && HeaderMeaning(body) == Some(name)
    ensures Opens(body + [NEWLINE] + rest, name, rest)
  {
    assert body + [] + [NEWLINE] + rest == body + [NEWLINE] + rest;
    NextLineOf(body, [], rest);
  }

  lemma WithNewline<T>(s: seq<T>, c: T, n: T)
    ensures s + [c, n] == s + [c] + [n]
  {}

  lemma PlainHeaderRoundTrip(key: text, rest: text)
    requires key != [] && forall i :: 0 <= i < |key| ==> KeyChar(key[i])
    ensures Opens([OPEN] + key + [CLOSE, NEWLINE] + rest, LowerAll(key), rest)
  {
    PlainHeader(key);
    HeaderInFile([OPEN] + key + [CLOSE], LowerAll(key), rest);
    WithNewline([OPEN] + key, CLOSE, NEWLINE);
  }

  lemma QuotedHeaderRoundTrip(base: text, sub: text, rest: text)
    requires forall i :: 0 <= i < |base| ==> KeyChar(base[i])
    ensures Opens([OPEN] + base + [SPACE, QUOTE] + Escape(sub) + [QUOTE, CLOSE, NEWLINE] + rest,
                  LowerAll(base) + [DOT] + Flatten(sub), rest)
  {
    var e := Escape(sub);
    EscapeShape(sub);
    QuotedHeader(base, e, sub);
    HeaderLine(base, e, LowerAll(base) + [DOT] + Flatten(sub), rest);
  }

  lemma HeaderLine(base: text, e: text, name: text, rest: text)
    requires (forall i :: 0 <= i < |base| ==> KeyChar(base[i])) && NEWLINE !in e
    requires HeaderMeaning([OPEN] + base + [SPACE, QUOTE] + e + [QUOTE, CLOSE]) == Some(name)
    ensures Opens([OPEN] + base + [SPACE, QUOTE] + e + [QUOTE, CLOSE, NEWLINE] + rest, name, rest)
  {
    var s := [OPEN] + base + [SPACE, QUOTE] + e;
    HeaderInFile(s + [QUOTE, CLOSE], name, rest);
    assert s + [QUOTE, CLOSE, NEWLINE] == s + [QUOTE, CLOSE] + [NEWLINE];
  }

  /** A section is read back under its name, with the escapes of its subsection flattened. */
  lemma HeaderRoundTrip(key: text, rest: text)
    requires ValidKey(key)
    ensures Opens(PrintHeader(key) + rest, HeaderName(key), rest)
  {
    var d := Index(key, DOT);
    if d == |key| {
      PlainHeaderRoundTrip(key, rest);
    } else {
      QuotedHeaderRoundTrip(key[..d], key[d + 1..], rest);
    }
  }

  // ----- whole files -----

  datatype Pair = Pair(name: text, value: text)

  datatype SectionText = SectionText(key: text, pairs: seq<Pair>)

  function PrintPairs(ps: seq<Pair>): text {
    if ps == [] then [] else PrintVariable(ps[0].name, ps[0].value) + PrintPairs(ps[1..])
  }

  function PrintFile(ss: seq<SectionText>): text {
    if ss == [] then [] else PrintHeader(ss[0].key) + PrintPairs(ss[0].pairs) + PrintFile(ss[1..])
  }

  function SettingsOfPairs(section: text, ps: seq<Pair>): seq<Setting> {
    if ps == [] then []
    else [Setting(section + [DOT] + LowerAll(ps[0].name), Some(Stored(ps[0].value)))] + SettingsOfPairs(section, ps[1..])
  }

  function SettingsOf(ss: seq<SectionText>): seq<Setting> {
    if ss == [] then [] else SettingsOfPairs(HeaderName(ss[0].key), ss[0].pairs) + SettingsOf(ss[1..])
  }

  lemma ReadVariable(s: text, section: text, name: text, value: text, rest: text)
    requires ValidName(name) && ReadsAs(s, name, value, rest)
    ensures Settings(s, Some(section)) ==
            Preceded(Setting(section + [DOT] + LowerAll(name), Some(value)), Settings(rest, Some(section)))
  {}

  lemma ReadHeader(s: text, section: Option<text>, name: text, rest: text)
    requires Opens(s, name, rest)
    ensures Settings(s, section) == Settings(rest, Some(name))
  {}

  lemma {:induction false} PairsRoundTrip(section: text, ps: seq<Pair>, rest: text)
    requires forall i :: 0 <= i < |ps| ==> ValidName(ps[i].name)
    ensures Settings(PrintPairs(ps) + rest, Some(section)) ==
            Join(SettingsOfPairs(section, ps), Settings(rest, Some(section)))
    decreases |ps|
  {
    if ps == [] {
      assert PrintPairs(ps) + rest == rest;
      Joined([], Settings(rest, Some(section)));
    } else {
      var p, more := ps[0], PrintPairs(ps[1..]) + rest;
      Associative(PrintVariable(p.name, p.value), PrintPairs(ps[1..]), rest);
      VariableRoundTrip(p.name, p.value, more);
      ReadVariable(PrintVariable(p.name, p.value) + more, section, p.name, Stored(p.value), more);
      PairsRoundTrip(section, ps[1..], rest);
      JoinPreceded(Setting(section + [DOT] + LowerAll(p.name), Some(Stored(p.value))),
                   SettingsOfPairs(section, ps[1..]), Settings(rest, Some(section)));
    }
  }

  lemma JoinPreceded<T>(t: T, out: seq<T>, r: Option<seq<T>>)
    ensures Preceded(t, Join(out, r)) == Join([t] + out, r)
  {
    if r.Some? {
      assert [t] + (out + r.value) == [t] + out + r.value;
    }
  }

  /** Every file of sections and variables is read back as the settings in it, in order. */
  lemma {:induction false} FileRoundTrip(ss: seq<SectionText>, section: Option<text>)
    requires forall i :: 0 <= i < |ss| ==>
               ValidKey(ss[i].key) && forall j :: 0 <= j < |ss[i].pairs| ==> ValidName(ss[i].pairs[j].name)
    ensures Settings(PrintFile(ss), section) == Some(SettingsOf(ss))
    decreases |ss|
  {
    if ss != [] {
      var s, more := ss[0], PrintFile(ss[1..]);
      Associative(PrintHeader(s.key), PrintPairs(s.pairs), more);
      HeaderRoundTrip(s.key, PrintPairs(s.pairs) + more);
      ReadHeader(PrintHeader(s.key) + (PrintPairs(s.pairs) + more), section, HeaderName(s.key), PrintPairs(s.pairs) + more);
      PairsRoundTrip(HeaderName(s.key), s.pairs, more);
      FileRoundTrip(ss[1..], Some(HeaderName(s.key)));
    }
  }

  /** Writes a file section by section and reads it back: the settings are those written, in order, with stored values. */
  method WriteAndRead(ss: seq<SectionText>) returns (r: Option<seq<Setting>>)
    requires forall i :: 0 <= i < |ss| ==>
               ValidKey(ss[i].key) && forall j :: 0 <= j < |ss[i].pairs| ==> ValidName(ss[i].pairs[j].name)
    ensures r == Some(SettingsOf(ss))
  {
    var file := WriteFile(ss);
    FileRoundTrip(ss, None);
    var reader := new Reader(file);
    r := reader.ParseConfig();
  }

  method WriteFile(ss: seq<SectionText>) returns (file: text)
    ensures file == PrintFile(ss)
  {
    file := [];
    var rest := ss;
    while rest != []
      invariant file + PrintFile(rest) == PrintFile(ss)
      decreases |rest|
    {
      var header := WriteSection(rest[0].key);
      var body := WritePairs(rest[0].pairs);
      Associative(file, header + body, PrintFile(rest[1..]));
      file := file + (header + body);
      rest := rest[1..];
    }
  }

  method WritePairs(ps: seq<Pair>) returns (body: text)
    ensures body == PrintPairs(ps)
  {
    body := [];
    var rest := ps;
    while rest != []
      invariant body + PrintPairs(rest) == PrintPairs(ps)
      decreases |rest|
    {
      var line := WriteVariable(rest[0].name, rest[0].value);
      Associative(body, line, PrintPairs(rest[1..]));
      body := body + line;
      rest := rest[1..];
    }
  }
}
