/**
 * Comments in configuration files: lines of their own, and after a value.
 * What stands before a comment loses one space at its end and no more, and a
 * quote after a backslash is not counted.
 */
module ConfigComments {
  import opened Common
  import opened Sequences
  import opened ConfigText
  import opened ConfigReader
  import opened ConfigRoundTrip

  /** A comment up to the end of its line. */
  ghost predicate IsNote(note: text) { note != [] && Starts(note[0]) && NEWLINE !in note }

  // ----- where a comment begins -----

  lemma {:induction false} TrimNote(x: text, y: text)
    requires y != [] && !IsSpace(y[0])
    ensures TrimEnd(x + y) == x + TrimEnd(y) && TrimEnd(y) != [] && TrimEnd(y)[0] == y[0]
    decreases |y|
  {
    if IsSpace(y[|y| - 1]) {
      assert (x + y)[..|x + y| - 1] == x + y[..|y| - 1];
      TrimNote(x, y[..|y| - 1]);
    }
  }

  /** Every quote follows a backslash. */
  ghost predicate GuardedFrom(line: text, k: nat, m: nat)
    requires m <= |line|
  {
    forall i :: k <= i < m && line[i] == QUOTE ==> i > 0 && line[i - 1] == BACKSLASH
  }

  lemma {:induction false} ScanGuarded(line: text, k: nat, m: nat, q: nat)
    requires k <= m <= |line| && GuardedFrom(line, k, m)
    requires q % 2 == 1 || forall i :: k <= i < m ==> !Starts(line[i])
    ensures Scan(line, k, q) == Scan(line, m, q)
    decreases m - k
  {
    if k < m {
      ScanGuarded(line, k + 1, m, q);
    }
  }

  /** A line up to its comment, when the quotes before it pair up. */
  lemma PlainScan(b: text, gap: text, note: text)
    requires Guarded(b) && (forall i :: 0 <= i < |b| ==> !Starts(b[i])) && Blank(gap) && note != [] && Starts(note[0])
    ensures Scan(b + gap + note, 0, 0) == Scanned(|b| + |gap|, 0)
  {
    var line, m := b + gap + note, |b| + |gap|;
    assert line[..m] == b + gap;
    forall i | 0 <= i < m ensures line[i] == if i < |b| then b[i] else gap[i - |b|] {}
    ScanGuarded(line, 0, m, 0);
  }

  lemma QuotedParts(pre: text, e: text, gap: text, note: text, line: text)
    requires line == pre + ([QUOTE] + e + [QUOTE]) + gap + note && Guarded(e) && Blank(gap)
    ensures var n, c := |pre|, |pre| + |e| + 1;
            && (forall i :: 0 <= i < n ==> line[i] == pre[i]) && line[n] == line[c] == QUOTE
            && GuardedFrom(line, n + 1, c) && line[c - 1] == (if e == [] then QUOTE else e[|e| - 1])
            && (forall i :: c < i <= c + |gap| ==> IsSpace(line[i])) && line[c + 1 + |gap|..] == note
  {
    var n, c := |pre|, |pre| + |e| + 1;
    forall i | n < i < c ensures line[i] == e[i - n - 1] {}
    forall i | c < i <= c + |gap| ensures line[i] == gap[i - c - 1] {}
  }

  /** The same after quotes: the closing one counts unless it follows a backslash. */
  lemma QuotedScan(pre: text, e: text, gap: text, note: text, line: text)
    requires pre != [] && pre[|pre| - 1] == SPACE && forall i :: 0 <= i < |pre| ==> !Starts(pre[i]) && pre[i] != QUOTE
    requires line == pre + ([QUOTE] + e + [QUOTE]) + gap + note && Guarded(e) && Blank(gap) && note != [] && Starts(note[0])
    ensures var m := |line| - |note|;
            if e != [] && e[|e| - 1] == BACKSLASH then Scan(line, 0, 0).end > m else Scan(line, 0, 0) == Scanned(m, 2)
  {
    var n, c, m := |pre|, |pre| + |e| + 1, |line| - |note|;
    QuotedParts(pre, e, gap, note, line);
    assert line[m] == line[m..][0] == note[0];
    ScanQuiet(line, 0, n, 0);
    ScanGuarded(line, n + 1, c, 1);
    var q := if e != [] && e[|e| - 1] == BACKSLASH then 1 else 2;
    assert Scan(line, c, 1) == Scan(line, c + 1, q);
    ScanQuiet(line, c + 1, m, q);
  }

  // ----- what is left of a value -----

  function DropOne(s: text): text { if s != [] && IsSpace(s[|s| - 1]) then s[..|s| - 1] else s }

  lemma ShortenIs(line: text, x: text, w: text, end: nat)
    requires end <= |line| && line[..end] == x + w && Spaces(w) && (x == [] || !IsSpace(x[|x| - 1]))
    ensures Shorten(line, end) == x + DropOne(w)
  {
    if w == [] {
      assert x + w == x;
      assert x != [] ==> line[end - 1] == line[..end][end - 1];
    } else {
      assert line[end - 1] == line[..end][end - 1] == w[|w| - 1];
      assert line[..end - 1] == line[..end][..end - 1] == x + w[..|w| - 1];
    }
  }

  lemma {:induction false} FixupSpaces(w: text)
    requires Spaces(w)
    ensures Fixup(w) == Some(w)
  {
    if w != [] {
      FixupSpaces(w[1..]);
      assert w == [w[0]] + w[1..];
    }
  }

  lemma NotMultiline(s: text, w: text)
    requires Spaces(w) && !Multiline(s)
    ensures !Multiline(s + w)
  {
    if w == [] {
      assert s + w == s;
    }
  }

  /** What an assignment means if its value, up to spaces, is known. */
  lemma AssignmentIs(name: text, w: text, e: text, q: nat)
    requires ValidName(name) && Spaces(w) && (e == [] || !IsSpace(e[0]))
    ensures Assignment(Body(name, w, e), q) ==
            match Fixup(e)
            case None => Malformed
            case Some(t) => if Multiline(e) then Continues(name, t, q) else Variable(name, Some(t))
  {
    var b := Body(name, w, e);
    Associative(name + [SPACE, EQUALS], w, e);
    NameAndValue(name, w + e, b);
    SkipSpaceRun(w, e);
  }

  function Written(value: text): text { if NeedsQuotes(Escape(value)) then [QUOTE] + Escape(value) + [QUOTE] else Escape(value) }

  /** The spaces at the end of a value that are lost. */
  function Trail(value: text): text {
    TrimShorter(value);
    DropStart(value)[|Trim(value)|..]
  }

  lemma TrimShorter(value: text)
    ensures |Trim(value)| <= |DropStart(value)|
  {
    var w := DropEndParts(DropStart(value));
  }

  /** A value with a comment after it, as it is read. */
  function Kept(value: text, gap: text): text {
    if NeedsQuotes(Escape(value)) then value + DropOne(gap)
    else if Trim(value) == [] then []
    else Trim(value) + DropOne(Trail(value) + gap)
  }

  /** The comment is taken for more of the value. */
  predicate RunsOn(value: text) { NeedsQuotes(Escape(value)) && value != [] && value[|value| - 1] == BACKSLASH }

  lemma WrittenParts(value: text) returns (lead: text, trail: text)
    ensures Escape(value) == lead + Escape(Trim(value)) + trail && Tight(Escape(Trim(value)))
    ensures Blank(lead) && Blank(trail) && trail == Trail(value)
  {
    lead := DropStartParts(value);
    trail := DropEndParts(DropStart(value));
    assert value == lead + (Trim(value) + trail);
    EscapeBetween(lead, Trim(value), trail);
    EscapeTight(Trim(value));
    assert trail == DropStart(value)[|Trim(value)|..];
  }

  // ----- a value without quotes -----

  lemma PlainMeans(name: text, w: text, value: text, tail: text, q: nat)
    requires ValidName(name) && Spaces(w) && Spaces(tail) && Tight(Escape(value))
    ensures Assignment(Body(name, w, Escape(value) + tail), q) == Variable(name, Some(if value == [] then [] else value + tail))
  {
    var e := Escape(value);
    EscapeShape(value);
    EscapeEven(value);
    if value == [] {
      assert Body(name, w, e + tail) == Body(name, w + tail, []);
      AssignmentIs(name, w + tail, [], q);
    } else {
      FixupEscape(value, tail);
      FixupSpaces(tail);
      NotMultiline(e, tail);
      AssignmentIs(name, w, e + tail, q);
    }
  }

  lemma RegroupNoted<T>(name: seq<T>, eq: seq<T>, sp: seq<T>, lead: seq<T>, e: seq<T>, trail: seq<T>, gap: seq<T>)
    ensures name + eq + sp + (lead + e + trail) + gap == name + eq + (sp + lead) + e + (trail + gap)
    ensures e == [] ==> name + eq + sp + (lead + e + trail) + gap == name + eq + (sp + lead + trail + gap)
  {}

  lemma PlainCut(name: text, lead: text, value: text, trail: text, gap: text, line: text, end: nat, q: nat)
    requires ValidName(name) && Blank(lead) && Blank(trail) && Blank(gap) && Tight(Escape(value)) && end <= |line|
    requires line[..end] == Body(name, [SPACE], lead + Escape(value) + trail) + gap
    ensures Assignment(Shorten(line, end), q) == Variable(name, Some(if value == [] then [] else value + DropOne(trail + gap)))
  {
    var e := Escape(value);
    EscapeShape(value);
    RegroupNoted(name, [SPACE, EQUALS], [SPACE], lead, e, trail, gap);
    if value == [] {
      var w := [SPACE] + lead + trail + gap;
      ShortenIs(line, name + [SPACE, EQUALS], w, end);
      PlainMeans(name, DropOne(w), [], [], q);
      assert Body(name, DropOne(w), Escape([]) + []) == name + [SPACE, EQUALS] + DropOne(w);
    } else {
      var x := Body(name, [SPACE] + lead, e);
      BodyShape(name, [SPACE] + lead, e);
      ShortenIs(line, x, trail + gap, end);
      PlainMeans(name, [SPACE] + lead, value, DropOne(trail + gap), q);
      Associative(name + [SPACE, EQUALS] + ([SPACE] + lead), e, DropOne(trail + gap));
    }
  }

  lemma BodyGuarded(name: text, e: text)
    requires ValidName(name) && Guarded(e)
    ensures Guarded(Body(name, [SPACE], e))
  {
    var b, n := Body(name, [SPACE], e), |name| + 3;
    forall k | 0 <= k < |b| && b[k] == QUOTE ensures k > 0 && b[k - 1] == BACKSLASH {
      if k >= n {
        assert b[k] == e[k - n] && b[k - 1] == e[k - n - 1];
      }
    }
  }

  lemma PlainScanned(name: text, value: text, gap: text, note: text)
    requires ValidName(name) && !NeedsQuotes(Escape(value)) && Blank(gap) && note != [] && Starts(note[0])
    ensures var b := Body(name, [SPACE], Escape(value)); Scan(b + gap + note, 0, 0) == Scanned(|b| + |gap|, 0)
  {
    EscapeShape(value);
    BodyGuarded(name, Escape(value));
    BodyShape(name, [SPACE], Escape(value));
    PlainScan(Body(name, [SPACE], Escape(value)), gap, note);
  }

  lemma CutAt(line: text, before: text, note: text, q: nat, r: VariableRead)
    requires line == before + note && Scan(line, 0, 0) == Scanned(|before|, q) && Assignment(Shorten(line, |before|), q) == r
    ensures LineMeaning(line) == r
  {
  }

  lemma PlainNoted(name: text, value: text, gap: text, note: text)
    requires ValidName(name) && !NeedsQuotes(Escape(value)) && Blank(gap) && note != [] && Starts(note[0])
    ensures LineMeaning(Body(name, [SPACE], Escape(value)) + gap + note) == Variable(name, Some(Kept(value, gap)))
  {
    var before := Body(name, [SPACE], Escape(value)) + gap;
    PlainScanned(name, value, gap, note);
    var lead, trail := WrittenParts(value);
    assert (before + note)[..|before|] == before;
    PlainCut(name, lead, Trim(value), trail, gap, before + note, |before|, 0);
    CutAt(before + note, before, note, 0, Variable(name, Some(Kept(value, gap))));
  }

  // ----- a value in quotes -----

  lemma QuotedMeans(name: text, value: text, tail: text, q: nat)
    requires ValidName(name) && Spaces(tail)
    ensures Assignment(Body(name, [SPACE], [QUOTE] + Escape(value) + [QUOTE] + tail), q) == Variable(name, Some(value + tail))
  {
    var e := [QUOTE] + Escape(value) + [QUOTE];
    FixupMore(value, tail);
    FixupSpaces(tail);
    NotMultiline(e, tail);
    AssignmentIs(name, [SPACE], e + tail, q);
  }

  lemma FixupMore(value: text, more: text)
    ensures Fixup([QUOTE] + Escape(value) + [QUOTE] + more) == Appended(value, Fixup(more))
  {
    var s := [QUOTE] + Escape(value) + [QUOTE] + more;
    assert s[1..] == Escape(value) + ([QUOTE] + more);
    FixupEscape(value, [QUOTE] + more);
    assert ([QUOTE] + more)[1..] == more;
  }

  lemma QuotedCut(name: text, value: text, gap: text, line: text, end: nat, q: nat)
    requires ValidName(name) && Blank(gap) && end <= |line|
    requires line[..end] == Body(name, [SPACE], [QUOTE] + Escape(value) + [QUOTE]) + gap
    ensures Assignment(Shorten(line, end), q) == Variable(name, Some(value + DropOne(gap)))
  {
    var e := [QUOTE] + Escape(value) + [QUOTE];
    BodyShape(name, [SPACE], e);
    ShortenIs(line, Body(name, [SPACE], e), gap, end);
    QuotedMeans(name, value, DropOne(gap), q);
    Associative(name + [SPACE, EQUALS] + [SPACE], e, DropOne(gap));
  }

  lemma LastEscaped(value: text)
    ensures var e := Escape(value); e != [] && e[|e| - 1] == BACKSLASH <==> value != [] && value[|value| - 1] == BACKSLASH
  {
    EscapeShape(value);
    if value != [] {
      EscapeLast(value);
    }
  }

  /** More than the value is read, if it is read at all. */
  ghost predicate ReadsMore(value: text, r: VariableRead) { r.Variable? ==> r.value.Some? && |r.value.value| > |value| }

  lemma QuotedRunsOn(name: text, value: text, gap: text, more: text, q: nat)
    requires ValidName(name) && Blank(gap) && more != [] && Starts(more[0])
    ensures ReadsMore(value, Assignment(Body(name, [SPACE], [QUOTE] + Escape(value) + [QUOTE] + (gap + more)), q))
  {
    var e := [QUOTE] + Escape(value) + [QUOTE] + (gap + more);
    FixupMore(value, gap + more);
    AssignmentIs(name, [SPACE], e, q);
  }

  lemma FrontShape(name: text)
    requires ValidName(name)
    ensures var pre := name + [SPACE, EQUALS] + [SPACE];
            pre[|pre| - 1] == SPACE && forall i :: 0 <= i < |pre| ==> !Starts(pre[i]) && pre[i] != QUOTE
  {}

  lemma QuotedScanned(name: text, value: text, gap: text, note: text, line: text)
    requires ValidName(name) && Blank(gap) && note != [] && Starts(note[0])
    requires line == Body(name, [SPACE], [QUOTE] + Escape(value) + [QUOTE]) + gap + note
    ensures var m := |line| - |note|;
            if value != [] && value[|value| - 1] == BACKSLASH then Scan(line, 0, 0).end > m else Scan(line, 0, 0) == Scanned(m, 2)
  {
    var pre := name + [SPACE, EQUALS] + [SPACE];
    FrontShape(name);
    assert Guarded(Escape(value)) by {
      EscapeShape(value);
    }
    QuotedScan(pre, Escape(value), gap, note, line);
    LastEscaped(value);
  }

  lemma QuotedNoted(name: text, value: text, gap: text, note: text)
    requires ValidName(name) && NeedsQuotes(Escape(value)) && Blank(gap) && note != [] && Starts(note[0])
    ensures var r := LineMeaning(Body(name, [SPACE], Written(value)) + gap + note);
            if RunsOn(value) then ReadsMore(value, r) else r == Variable(name, Some(Kept(value, gap)))
  {
    var e := [QUOTE] + Escape(value) + [QUOTE];
    var before := Body(name, [SPACE], e) + gap;
    var line := before + note;
    QuotedScanned(name, value, gap, note, line);
    if RunsOn(value) {
      var c := Scan(line, 0, 0);
      LongerCut(name, e, gap, note, line, c.end);
      QuotedRunsOn(name, value, gap, Shorten(line, c.end)[|before|..], c.quotes);
    } else {
      assert line[..|before|] == before;
      QuotedCut(name, value, gap, line, |before|, 2);
      CutAt(line, before, note, 2, Variable(name, Some(value + DropOne(gap))));
    }
  }

  lemma LongerCut(name: text, e: text, gap: text, note: text, line: text, end: nat)
    requires line == Body(name, [SPACE], e) + gap + note && note != [] && Starts(note[0]) && |line| - |note| < end <= |line|
    ensures var s, m := Shorten(line, end), |line| - |note|;
            |s| > m && s[m] == note[0] && s == Body(name, [SPACE], e + (gap + s[m..]))
  {
    var s, m, b := Shorten(line, end), |line| - |note|, Body(name, [SPACE], e);
    assert line[m] == note[0];
    assert s[..m] == line[..m] == b + gap;
    var more := s[m..];
    assert s == b + gap + more;
    Associative(b, gap, more);
    Associative(name + [SPACE, EQUALS] + [SPACE], e, gap + more);
  }

  // ----- a variable and its comment -----

  /** A variable's line with a comment after its value. */
  function PrintNoted(name: text, value: text, gap: text, note: text): text {
    [TAB] + (Body(name, [SPACE], Written(value)) + gap + note + [NEWLINE])
  }

  /** Without the comment it is the line that is written. */
  lemma NotedPlain(name: text, value: text)
    ensures PrintNoted(name, value, [], []) == PrintVariable(name, value)
  {
    var e := Escape(value);
    Printed(name, value);
    SameLine([TAB], name, [SPACE, EQUALS], [SPACE], [QUOTE], e, [NEWLINE]);
  }

  lemma SameLine<T>(tab: seq<T>, name: seq<T>, eq: seq<T>, sp: seq<T>, q: seq<T>, e: seq<T>, nl: seq<T>)
    ensures tab + (name + eq + sp + e + [] + [] + nl) == tab + name + (eq + sp) + e + nl
    ensures tab + (name + eq + sp + (q + e + q) + [] + [] + nl) == tab + name + (eq + sp) + q + e + q + nl
  {}

  lemma Noted(name: text, value: text, gap: text, note: text)
    requires ValidName(name) && Blank(gap) && note != [] && Starts(note[0])
    ensures var r := LineMeaning(Body(name, [SPACE], Written(value)) + gap + note);
            if RunsOn(value) then ReadsMore(value, r) else r == Variable(name, Some(Kept(value, gap)))
  {
    if NeedsQuotes(Escape(value)) {
      QuotedNoted(name, value, gap, note);
    } else {
      PlainNoted(name, value, gap, note);
    }
  }

  /** The line itself, once it has been found in the file. */
  lemma NotedLine(name: text, value: text, gap: text, note: text, rest: text) returns (line: text)
    requires ValidName(name) && Blank(gap) && IsNote(note)
    ensures var t := SkipSpace(PrintNoted(name, value, gap, note) + rest);
            t != [] && t[0] == name[0] && NextLine(t) == LineRead(line, rest)
    ensures var r := LineMeaning(line);
            if RunsOn(value) then ReadsMore(value, r) else r == Variable(name, Some(Kept(value, gap)))
  {
    var w := Written(value);
    var b := Body(name, [SPACE], w);
    EscapeShape(value);
    BodyShape(name, [SPACE], w);
    TrimNote(b + gap, note);
    line := b + gap + TrimEnd(note);
    Noted(name, value, gap, TrimEnd(note));
    LineFound(name, b, gap, note, rest);
  }

  lemma LineFound(name: text, b: text, gap: text, note: text, rest: text)
    requires ValidName(name) && b != [] && b[0] == name[0] && NEWLINE !in b && NEWLINE !in gap && NEWLINE !in note
    ensures var t := SkipSpace([TAB] + (b + gap + note + [NEWLINE]) + rest);
            t != [] && t[0] == name[0] && NextLine(t) == LineRead(TrimEnd(b + gap + note), rest)
  {
    var l := b + gap + note;
    var t := l + [NEWLINE] + rest;
    assert [TAB] + (l + [NEWLINE]) + rest == [TAB] + t;
    SkipSpaceRun([TAB], t);
    IndexAfter(l, NEWLINE, rest);
    assert t[..|l|] == l && t[|l| + 1..] == rest;
  }

  /**
   * The comment can be left out: not more than one space is before it,
   * counting what the value ends with, and the value is not one in quotes that
   * ends in a backslash.
   */
  predicate Harmless(value: text, gap: text) {
    if NeedsQuotes(Escape(value)) then |gap| <= 1 && !RunsOn(value)
    else Trim(value) == [] || |Trail(value)| + |gap| <= 1
  }

  lemma KeptIs(value: text, gap: text)
    requires Blank(gap) && !RunsOn(value)
    ensures Kept(value, gap) == Stored(value) <==> Harmless(value, gap)
  {
    var lead, trail := WrittenParts(value);
    assert value + [] == value && Trim(value) + [] == Trim(value);
    var w := if NeedsQuotes(Escape(value)) then gap else trail + gap;
    assert w != [] ==> IsSpace(w[|w| - 1]);
    assert DropOne(w) == [] <==> |w| <= 1;
  }

  /** A variable with a comment after it is read as without it exactly if the comment is harmless. */
  lemma NotedVariable(name: text, value: text, gap: text, note: text, rest: text)
    requires ValidName(name) && Blank(gap) && IsNote(note)
    ensures VariableAt(SkipSpace(PrintNoted(name, value, gap, note) + rest)) == Parsed(Variable(name, Some(Stored(value))), rest)
            <==> Harmless(value, gap)
  {
    var line := NotedLine(name, value, gap, note, rest);
    if !RunsOn(value) {
      KeptIs(value, gap);
    }
  }

  // ----- files with comments -----

  datatype Remark = Nothing | Remark(gap: text, note: text)

  /** A variable, the comments on the lines before it and perhaps one after it. */
  datatype NotedPair = NotedPair(notes: seq<text>, pair: Pair, remark: Remark)

  datatype NotedSection = NotedSection(notes: seq<text>, key: text, pairs: seq<NotedPair>)

  function PrintNotes(notes: seq<text>): text { if notes == [] then [] else notes[0] + [NEWLINE] + PrintNotes(notes[1..]) }

  function PrintPair(p: NotedPair): text {
    match p.remark
    case Nothing => PrintVariable(p.pair.name, p.pair.value)
    case Remark(gap, note) => PrintNoted(p.pair.name, p.pair.value, gap, note)
  }

  function PrintNotedPairs(ps: seq<NotedPair>): text {
    if ps == [] then [] else PrintNotes(ps[0].notes) + (PrintPair(ps[0]) + PrintNotedPairs(ps[1..]))
  }

  function PrintNotedFile(ss: seq<NotedSection>, end: seq<text>): text {
    if ss == [] then PrintNotes(end)
    else PrintNotes(ss[0].notes) + (PrintHeader(ss[0].key) + (PrintNotedPairs(ss[0].pairs) + PrintNotedFile(ss[1..], end)))
  }

  ghost predicate Notes(notes: seq<text>) { forall i :: 0 <= i < |notes| ==> IsNote(notes[i]) }

  ghost predicate PairNoted(p: NotedPair) {
    && Notes(p.notes) && ValidName(p.pair.name)
    && (p.remark.Remark? ==> Blank(p.remark.gap) && IsNote(p.remark.note) && Harmless(p.pair.value, p.remark.gap))
  }

  ghost predicate SectionNoted(s: NotedSection) {
    Notes(s.notes) && ValidKey(s.key) && forall j :: 0 <= j < |s.pairs| ==> PairNoted(s.pairs[j])
  }

  function PairsOf(ps: seq<NotedPair>): seq<Pair> { seq(|ps|, i requires 0 <= i < |ps| => ps[i].pair) }

  function Unnoted(s: NotedSection): SectionText { SectionText(s.key, PairsOf(s.pairs)) }

  function AllUnnoted(ss: seq<NotedSection>): seq<SectionText> { seq(|ss|, i requires 0 <= i < |ss| => Unnoted(ss[i])) }

  lemma NoteSkipped(note: text, rest: text, section: Option<text>)
    requires IsNote(note)
    ensures Settings(note + [NEWLINE] + rest, section) == Settings(rest, section)
  {
    var s := note + [NEWLINE] + rest;
    IndexAfter(note, NEWLINE, rest);
    assert s[0] == note[0] && SkipSpace(s) == s;
    assert s[|note| + 1..] == rest;
  }

  lemma {:induction false} NotesSkipped(notes: seq<text>, rest: text, section: Option<text>)
    requires Notes(notes)
    ensures Settings(PrintNotes(notes) + rest, section) == Settings(rest, section)
    decreases |notes|
  {
    if notes == [] {
      assert PrintNotes(notes) + rest == rest;
    } else {
      Associative(notes[0] + [NEWLINE], PrintNotes(notes[1..]), rest);
      NoteSkipped(notes[0], PrintNotes(notes[1..]) + rest, section);
      NotesSkipped(notes[1..], rest, section);
    }
  }

  lemma PairReads(p: NotedPair, rest: text)
    requires PairNoted(p)
    ensures ReadsAs(PrintPair(p) + rest, p.pair.name, Stored(p.pair.value), rest)
  {
    match p.remark
    case Nothing => VariableRoundTrip(p.pair.name, p.pair.value, rest);
    case Remark(gap, note) =>
      var line := NotedLine(p.pair.name, p.pair.value, gap, note, rest);
      KeptIs(p.pair.value, gap);
  }

  lemma {:induction false} PairsRead(section: text, ps: seq<NotedPair>, rest: text)
    requires forall i :: 0 <= i < |ps| ==> PairNoted(ps[i])
    ensures Settings(PrintNotedPairs(ps) + rest, Some(section)) ==
            Join(SettingsOfPairs(section, PairsOf(ps)), Settings(rest, Some(section)))
    decreases |ps|
  {
    if ps == [] {
      assert PrintNotedPairs(ps) + rest == rest;
      Joined([], Settings(rest, Some(section)));
    } else {
      var p, more := ps[0], PrintNotedPairs(ps[1..]) + rest;
      assert PairsOf(ps)[1..] == PairsOf(ps[1..]);
      Associative(PrintNotes(p.notes), PrintPair(p) + PrintNotedPairs(ps[1..]), rest);
      Associative(PrintPair(p), PrintNotedPairs(ps[1..]), rest);
      NotesSkipped(p.notes, PrintPair(p) + more, Some(section));
      PairReads(p, more);
      ReadVariable(PrintPair(p) + more, section, p.pair.name, Stored(p.pair.value), more);
      PairsRead(section, ps[1..], rest);
      JoinPreceded(Setting(section + [DOT] + LowerAll(p.pair.name), Some(Stored(p.pair.value))),
                   SettingsOfPairs(section, PairsOf(ps[1..])), Settings(rest, Some(section)));
    }
  }

  lemma HeaderReads(key: text, after: text, section: Option<text>)
    requires ValidKey(key)
    ensures Settings(PrintHeader(key) + after, section) == Settings(after, Some(HeaderName(key)))
  {
    HeaderRoundTrip(key, after);
    ReadHeader(PrintHeader(key) + after, section, HeaderName(key), after);
  }

  lemma SectionReads(s: NotedSection, more: text, section: Option<text>)
    requires SectionNoted(s)
    ensures Settings(PrintNotes(s.notes) + (PrintHeader(s.key) + (PrintNotedPairs(s.pairs) + more)), section) ==
            Join(SettingsOfPairs(HeaderName(s.key), PairsOf(s.pairs)), Settings(more, Some(HeaderName(s.key))))
  {
    var after := PrintNotedPairs(s.pairs) + more;
    NotesSkipped(s.notes, PrintHeader(s.key) + after, section);
    HeaderReads(s.key, after, section);
    PairsRead(HeaderName(s.key), s.pairs, more);
  }

  lemma SettingsNext(ss: seq<NotedSection>)
    requires ss != []
    ensures SettingsOf(AllUnnoted(ss)) ==
            SettingsOfPairs(HeaderName(ss[0].key), Unnoted(ss[0]).pairs) + SettingsOf(AllUnnoted(ss[1..]))
  {
    assert AllUnnoted(ss)[1..] == AllUnnoted(ss[1..]);
  }

  /** A file with comments added to it has the settings of the file without them. */
  lemma {:induction false} CommentsMeanNothing(ss: seq<NotedSection>, end: seq<text>, section: Option<text>)
    requires Notes(end) && forall i :: 0 <= i < |ss| ==> SectionNoted(ss[i])
    ensures Settings(PrintNotedFile(ss, end), section) == Some(SettingsOf(AllUnnoted(ss)))
    decreases |ss|
  {
    if ss == [] {
      NotesSkipped(end, [], section);
      assert PrintNotes(end) + [] == PrintNotes(end);
    } else {
      SectionReads(ss[0], PrintNotedFile(ss[1..], end), section);
      CommentsMeanNothing(ss[1..], end, Some(HeaderName(ss[0].key)));
      SettingsNext(ss);
    }
  }

  /** A value in quotes that ends in a backslash takes the comment after it for more of the value. */
  lemma CommentRead()
    ensures var value: text := [HASH, BACKSLASH];
            VariableAt(SkipSpace(PrintNoted([120], value, [SPACE], [HASH]) + [])) != Parsed(Variable([120], Some(value)), [])
  {
    var value: text := [HASH, BACKSLASH];
    EscapeShape(value);
    assert HASH in value && HASH in Escape(value);
    NotedVariable([120], value, [SPACE], [HASH], []);
  }

  /** Of two spaces before a comment one stays at the end of the value. */
  lemma SpaceRead()
    ensures VariableAt(SkipSpace(PrintNoted([120], [97], [SPACE, SPACE], [HASH]) + [])) != Parsed(Variable([120], Some([97])), [])
  {
    var value: text := [97];
    assert value[1..] == [] && Escape(value) == value;
    TrimKeeps(value);
    NotedVariable([120], value, [SPACE, SPACE], [HASH], []);
  }
}
