/**
 * Values that go on over several lines. Whether one goes on is decided on what
 * has been read of it, after escapes have been taken out.
 */
module ConfigContinued {
  import opened Common
  import opened Sequences
  import opened ConfigText
  import opened ConfigReader
  import opened ConfigRoundTrip

  // ----- backslashes at the end -----

  lemma OneMore(s: text)
    ensures Backslashes(s + [BACKSLASH]) == Backslashes(s) + 1
  {
    assert (s + [BACKSLASH])[..|s|] == s;
  }

  lemma {:induction false} NotOnly(s: text, u: text)
    requires Backslashes(s) < |s|
    ensures Backslashes(s + u) < |s + u|
    decreases |u|
  {
    if u == [] {
      assert s + u == s;
    } else {
      NotOnly(s, u[..|u| - 1]);
      assert (s + u)[..|s + u| - 1] == s + u[..|u| - 1];
    }
  }

  lemma OnlyMore(s: text, c: ascii)
    ensures Backslashes(s + [c]) == |s| + 1 <==> c == BACKSLASH && Backslashes(s) == |s|
  {
    assert (s + [c])[..|s|] == s;
  }

  lemma EscapeOnlyLast(a: text, c: ascii)
    ensures Backslashes(a + EscapeOne(c)) == |a + EscapeOne(c)| <==> c == BACKSLASH && Backslashes(a) == |a|
  {
    if Special(c) {
      OnlyMore(a, BACKSLASH);
      OnlyMore(a + [BACKSLASH], EscapeOf(c));
      assert a + [BACKSLASH] + [EscapeOf(c)] == a + EscapeOne(c);
    } else {
      OnlyMore(a, c);
    }
  }

  lemma {:induction false} EscapeOnly(v: text)
    ensures Backslashes(Escape(v)) == |Escape(v)| <==> Backslashes(v) == |v|
  {
    if v != [] {
      var n := |v| - 1;
      EscapeLast(v);
      EscapeOnly(v[..n]);
      EscapeOnlyLast(Escape(v[..n]), v[n]);
      OnlyMore(v[..n], v[n]);
      assert v == v[..n] + [v[n]];
    }
  }

  /** With a backslash after it, `s` goes on: the backslashes before it are even in number, and not all there is. */
  predicate GoesOn(s: text) { Backslashes(s) % 2 == 0 && Backslashes(s) < |s| }

  lemma GoesOnIs(s: text)
    ensures Multiline(s + [BACKSLASH]) <==> GoesOn(s)
  {
    OneMore(s);
  }

  lemma EscapedGoesOn(v: text)
    ensures Multiline(Escape(v) + [BACKSLASH]) <==> Backslashes(v) < |v|
  {
    GoesOnIs(Escape(v));
    EscapeEven(v);
    EscapeOnly(v);
  }

  // ----- lines -----

  /** No character starts a comment. */
  ghost predicate Plain(u: text) { forall i :: 0 <= i < |u| ==> !Starts(u[i]) }

  lemma PlainEscaped(u: text)
    requires Plain(u)
    ensures Plain(Escape(u)) && Plain(Escape(u) + [BACKSLASH]) && NEWLINE !in Escape(u)
  {
    EscapeShape(u);
  }

  /** What a line that is not a comment reads as. */
  lemma LineKept(body: text, rest: text, q: nat)
    requires Plain(body) && NEWLINE !in body && (body == [] || !IsSpace(body[|body| - 1]))
    ensures NextLine(body + [NEWLINE] + rest) == LineRead(body, rest)
    ensures Shorten(body, Scan(body, 0, q).end) == body
  {
    NextLineOf(body, [], rest);
    assert body + [] == body;
    ScanNoComment(body, 0, q);
  }

  lemma FixupBreak(u: text)
    ensures Fixup(Escape(u) + [BACKSLASH]) == Some(u + [BACKSLASH]) && Fixup(Escape(u)) == Some(u)
  {
    FixupEscape(u, [BACKSLASH]);
    FixupEscape(u, []);
    assert Escape(u) + [] == Escape(u) && u + [] == u;
  }

  /** The lines of a value that is broken into pieces. */
  function Lines(us: seq<text>, rest: text): text
    requires us != []
  {
    if |us| == 1 then Escape(us[0]) + [NEWLINE] + rest
    else Escape(us[0]) + [BACKSLASH] + [NEWLINE] + Lines(us[1..], rest)
  }

  function Flat(us: seq<text>): text { if us == [] then [] else us[0] + Flat(us[1..]) }

  lemma {:induction false} LinesLonger(us: seq<text>, rest: text)
    requires us != []
    ensures |Lines(us, rest)| > |rest|
  {
    if |us| > 1 {
      LinesLonger(us[1..], rest);
    }
  }

  /** The pieces can be written without quotes. */
  ghost predicate Pieces(us: seq<text>) {
    && us != [] && (forall i :: 0 <= i < |us| ==> Plain(us[i]))
    && var last := us[|us| - 1]; last != [] ==> !Raw(last[|last| - 1])
  }

  // ----- reading on -----

  /** The same for the pieces that are left after `acc` has been read. */
  predicate BreaksAfter(acc: text, us: seq<text>)
    requires us != []
    decreases |us|
  {
    Backslashes(acc + us[0]) % 2 == 0 && if |us| == 1 then us[0] != [] else BreaksAfter(acc + us[0], us[1..])
  }

  lemma LastLine(acc: text, u: text, rest: text, q: nat)
    requires Pieces([u]) && GoesOn(acc)
    ensures MoreLines(Escape(u) + [NEWLINE] + rest, acc + [BACKSLASH], q) == Whole(acc + u, rest) <==> BreaksAfter(acc, [u])
  {
    var e := Escape(u);
    PlainEscaped(u);
    EscapedEnd(u);
    EscapeShape(u);
    LineKept(e, rest, if q == 0 then 0 else 1);
    FixupBreak(u);
    GoesOnIs(acc);
    NotOnly(acc, u);
    assert (acc + [BACKSLASH])[..|acc|] == acc;
  }

  lemma EscapedEnd(u: text)
    ensures u != [] && !Raw(u[|u| - 1]) ==> !IsSpace(Escape(u)[|Escape(u)| - 1])
    ensures u != [] && !Raw(u[0]) ==> Escape(u) != [] && !IsSpace(Escape(u)[0])
  {
    if u != [] {
      EscapeLast(u);
    }
  }

  lemma MiddleLine(acc: text, u: text, more: text, q: nat) returns (k: nat)
    requires Plain(u) && GoesOn(acc)
    ensures MoreLines(Escape(u) + [BACKSLASH] + [NEWLINE] + more, acc + [BACKSLASH], q) ==
            if GoesOn(acc + u) then MoreLines(more, acc + u + [BACKSLASH], k) else Whole(acc + u + [BACKSLASH], more)
  {
    var line := Escape(u) + [BACKSLASH];
    PlainEscaped(u);
    LineKept(line, more, if q == 0 then 0 else 1);
    FixupBreak(u);
    GoesOnIs(acc);
    GoesOnIs(acc + u);
    assert (acc + [BACKSLASH])[..|acc|] == acc;
    Associative(acc, u, [BACKSLASH]);
    k := Scan(line, 0, if q == 0 then 0 else 1).quotes;
  }

  lemma {:induction false} ReadsOn(acc: text, us: seq<text>, rest: text, q: nat)
    requires Pieces(us) && GoesOn(acc)
    ensures MoreLines(Lines(us, rest), acc + [BACKSLASH], q) == Whole(acc + Flat(us), rest) <==> BreaksAfter(acc, us)
    decreases |us|
  {
    if |us| == 1 {
      LastLine(acc, us[0], rest, q);
      assert us == [us[0]] && us[1..] == [];
      assert us[0] + [] == us[0];
    } else {
      var more := Lines(us[1..], rest);
      LinesLonger(us[1..], rest);
      var k := MiddleLine(acc, us[0], more, q);
      NotOnly(acc, us[0]);
      Associative(acc, us[0], Flat(us[1..]));
      if GoesOn(acc + us[0]) {
        ReadsOn(acc + us[0], us[1..], rest, k);
      }
    }
  }

  // ----- the whole value -----

  /** What has been read does not end in a break that is seen, so that reading on fails. */
  lemma {:induction false} NothingMore(s: text, value: text, q: nat)
    requires !Multiline(value)
    ensures !MoreLines(s, value, q).Whole?
    decreases |s|
  {
    var l := NextLine(s);
    if l.line != [] {
      LineWithin(s);
      var c := Scan(l.line, 0, if q == 0 then 0 else 1);
      if Shorten(l.line, c.end) == [] {
        NothingMore(l.rest, value, c.quotes);
      }
    }
  }

  lemma AssignmentOf(name: text, e: text, q: nat)
    requires ValidName(name) && e != [] && !IsSpace(e[0])
    ensures Assignment(Body(name, [SPACE], e), q) ==
            match Fixup(e)
            case None => Malformed
            case Some(t) => if Multiline(e) then Continues(name, t, q) else Variable(name, Some(t))
  {
    var b := Body(name, [SPACE], e);
    Associative(name + [SPACE, EQUALS], [SPACE], e);
    NameAndValue(name, [SPACE] + e, b);
    SkipSpaceRun([SPACE], e);
  }

  /** The first line of a value that is broken after `u`. */
  ghost predicate Begins(s: text, name: text, u: text, q: nat, more: text) {
    var l := NextLine(s);
    && l.rest == more
    && LineMeaning(l.line) ==
       if Backslashes(u) < |u| then Continues(name, u + [BACKSLASH], q) else Variable(name, Some(u + [BACKSLASH]))
  }

  lemma EscapedStart(u: text)
    requires u != [] ==> !Raw(u[0])
    ensures !IsSpace((Escape(u) + [BACKSLASH])[0])
  {
    EscapedEnd(u);
  }

  lemma FirstMeaning(name: text, u: text, q: nat)
    requires ValidName(name) && (u != [] ==> !Raw(u[0]))
    ensures Assignment(Body(name, [SPACE], Escape(u) + [BACKSLASH]), q) ==
            if Backslashes(u) < |u| then Continues(name, u + [BACKSLASH], q) else Variable(name, Some(u + [BACKSLASH]))
  {
    EscapedStart(u);
    AssignmentOf(name, Escape(u) + [BACKSLASH], q);
    FixupBreak(u);
    EscapedGoesOn(u);
  }

  lemma FirstLine(name: text, u: text, more: text) returns (q: nat)
    requires ValidName(name) && Plain(u) && (u != [] ==> !Raw(u[0]))
    ensures Begins(Body(name, [SPACE], Escape(u) + [BACKSLASH]) + [NEWLINE] + more, name, u, q, more)
  {
    var e := Escape(u) + [BACKSLASH];
    var b := Body(name, [SPACE], e);
    PlainEscaped(u);
    BodyShape(name, [SPACE], e);
    LineKept(b, more, 0);
    q := Scan(b, 0, 0).quotes;
    FirstMeaning(name, u, q);
  }

  /** A variable whose value is broken over lines. */
  function Broken(name: text, us: seq<text>, rest: text): text
    requires |us| >= 2
  {
    Body(name, [SPACE], Escape(us[0]) + [BACKSLASH]) + [NEWLINE] + Lines(us[1..], rest)
  }

  /** Every break is seen, and the end is not taken for one. */
  predicate BreaksWell(us: seq<text>)
    requires |us| >= 2
  {
    GoesOn(us[0]) && BreaksAfter(us[0], us[1..])
  }

  lemma ReadFirst(s: text, name: text, u: text, q: nat, more: text, value: text, rest: text)
    requires Begins(s, name, u, q, more) && |more| > |rest|
    ensures VariableAt(s) == Parsed(Variable(name, Some(value)), rest) <==>
            Backslashes(u) < |u| && MoreLines(more, u + [BACKSLASH], q) == Whole(value, rest)
  {}

  lemma PiecesRest(us: seq<text>)
    requires Pieces(us) && |us| >= 2
    ensures Plain(us[0]) && Pieces(us[1..])
  {}

  lemma ReadRest(us: seq<text>, rest: text, q: nat)
    requires Pieces(us) && |us| >= 2
    ensures Backslashes(us[0]) < |us[0]| && MoreLines(Lines(us[1..], rest), us[0] + [BACKSLASH], q) == Whole(Flat(us), rest)
            <==> BreaksWell(us)
  {
    PiecesRest(us);
    if GoesOn(us[0]) {
      ReadsOn(us[0], us[1..], rest, q);
    } else {
      GoesOnIs(us[0]);
      NothingMore(Lines(us[1..], rest), us[0] + [BACKSLASH], q);
    }
  }

  /**
   * A value broken over lines is read as its pieces put together if and only
   * if neither the value nor any part of it up to a break ends in an odd
   * number of backslashes, the first piece has something else, and the last
   * line is not empty.
   */
  lemma BrokenValue(name: text, us: seq<text>, rest: text)
    requires ValidName(name) && |us| >= 2 && Pieces(us) && (us[0] != [] ==> !Raw(us[0][0]))
    ensures VariableAt(Broken(name, us, rest)) == Parsed(Variable(name, Some(Flat(us))), rest) <==> BreaksWell(us)
  {
    var more := Lines(us[1..], rest);
    PiecesRest(us);
    var q := FirstLine(name, us[0], more);
    LinesLonger(us[1..], rest);
    ReadFirst(Broken(name, us, rest), name, us[0], q, more, Flat(us), rest);
    ReadRest(us, rest, q);
  }

  /** A piece that ends in one backslash makes an assertion fail. */
  lemma BreakAborts()
    ensures VariableAt(Broken([120], [[97, BACKSLASH], [98]], [])).read == Aborted
  {
    var us: seq<text> := [[97, BACKSLASH], [98]];
    var q := FirstLine([120], us[0], Lines(us[1..], []));
    assert us[0][..1] == [97];
    assert Backslashes([97]) == 0 && Backslashes(us[0]) == 1;
    GoesOnIs(us[0]);
    PlainEscaped([98]);
    EscapedEnd([98]);
    LineKept(Escape([98]), [], if q == 0 then 0 else 1);
    EscapeShape([98]);
  }
}
