/** The text of configuration files: escapes, quotes, comments and lines. */
module ConfigText {
  import opened Common
  import opened Sequences

  /** An ASCII character other than NUL. */
  type ascii = c: int | 1 <= c < 128 witness 1

  type text = seq<ascii>

  const BACKSPACE: ascii := 8
  const TAB: ascii := 9
  const NEWLINE: ascii := 10
  const SPACE: ascii := 32
  const QUOTE: ascii := 34
  const HASH: ascii := 35
  const DASH: ascii := 45
  const DOT: ascii := 46
  const SEMICOLON: ascii := 59
  const EQUALS: ascii := 61
  const OPEN: ascii := 91
  const BACKSLASH: ascii := 92
  const CLOSE: ascii := 93
  const LETTER_B: ascii := 98
  const LETTER_N: ascii := 110
  const LETTER_T: ascii := 116

  predicate IsSpace(c: ascii) { c == SPACE || 9 <= c <= 13 }

  // ----- escapes -----

  predicate Special(c: ascii) { c == NEWLINE || c == TAB || c == BACKSPACE || c == QUOTE || c == BACKSLASH }

  function EscapeOf(c: ascii): ascii
    requires Special(c)
  {
    if c == NEWLINE then LETTER_N else if c == TAB then LETTER_T else if c == BACKSPACE then LETTER_B else c
  }

  function Unescaped(c: ascii): Option<ascii> {
    if c == LETTER_N then Some(NEWLINE)
    else if c == LETTER_T then Some(TAB)
    else if c == LETTER_B then Some(BACKSPACE)
    else if c == QUOTE || c == BACKSLASH then Some(c)
    else None
  }

  function Escape(v: text): text {
    if v == [] then []
    else (if Special(v[0]) then [BACKSLASH, EscapeOf(v[0])] else [v[0]]) + Escape(v[1..])
  }

  /** Takes escapes and quotes out again; a lone backslash at the end stays, and any other escape is an error. */
  function Fixup(s: text): Option<text>
    decreases |s|
  {
    if s == [] then Some([])
    else if s[0] == QUOTE then Fixup(s[1..])
    else if s[0] != BACKSLASH then Prefixed(s[0], Fixup(s[1..]))
    else if |s| == 1 then Some([BACKSLASH])
    else
      match Unescaped(s[1])
      case None => None
      case Some(c) => Prefixed(c, Fixup(s[2..]))
  }

  function Prefixed(c: ascii, r: Option<text>): Option<text> {
    match r
    case None => None
    case Some(t) => Some([c] + t)
  }

  /** The five escapes by the letters they are written with; any other one is an error, and quotes are dropped. */
  lemma EscapesRead(c: ascii, s: text)
    ensures Fixup(['\\' as int, c] + s) ==
            if c == 'n' as int then Prefixed('\n' as int, Fixup(s))
            else if c == 't' as int then Prefixed('\t' as int, Fixup(s))
            else if c == 'b' as int then Prefixed(8, Fixup(s))
            else if c == '\"' as int || c == '\\' as int then Prefixed(c, Fixup(s))
            else None
    ensures c != '\\' as int ==> Fixup([c] + s) == if c == '\"' as int then Fixup(s) else Prefixed(c, Fixup(s))
  {
    assert (['\\' as int, c] + s)[2..] == s && ([c] + s)[1..] == s;
  }

  method EscapeValue(v: text) returns (r: text)
    ensures r == Escape(v)
  {
    r := [];
    for i := 0 to |v|
      invariant Escape(v) == r + Escape(v[i..])
    {
      assert v[i..][1..] == v[i + 1..];
      var one: text := if Special(v[i]) then [BACKSLASH, EscapeOf(v[i])] else [v[i]];
      Associative(r, one, Escape(v[i + 1..]));
      r := r + one;
    }
  }

  function Appended(before: text, r: Option<text>): Option<text> {
    match r
    case None => None
    case Some(t) => Some(before + t)
  }

  method FixupLine(s: text) returns (r: Option<text>)
    ensures r == Fixup(s)
  {
    var out: text := [];
    var p := s;
    AppendedEmpty(Fixup(s));
    while p != []
      invariant Fixup(s) == Appended(out, Fixup(p))
      decreases |p|
    {
      if p[0] == QUOTE {
      } else if p[0] != BACKSLASH {
        AppendedNext(out, p[0], Fixup(p[1..]));
        out := out + [p[0]];
      } else {
        if |p| == 1 {
          out := out + [BACKSLASH];
          return Some(out);
        }
        var esc := Unescaped(p[1]);
        if esc.None? {
          return None;
        }
        AppendedNext(out, esc.value, Fixup(p[2..]));
        out := out + [esc.value];
        p := p[1..];
      }
      p := p[1..];
    }
    assert out + [] == out;
    r := Some(out);
  }

  lemma AppendedEmpty(r: Option<text>)
    ensures Appended([], r) == r
  {
    if r.Some? {
      assert [] + r.value == r.value;
    }
  }

  lemma AppendedNext(out: text, c: ascii, r: Option<text>)
    ensures Appended(out, Prefixed(c, r)) == Appended(out + [c], r)
  {
    if r.Some? {
      assert out + ([c] + r.value) == out + [c] + r.value;
    }
  }

  /** Unescaping undoes escaping, whatever comes after. */
  lemma {:induction false} FixupEscape(v: text, rest: text)
    ensures Fixup(Escape(v) + rest) == Appended(v, Fixup(rest))
  {
    if v == [] {
      assert Escape(v) + rest == rest;
      AppendedEmpty(Fixup(rest));
    } else {
      FixupEscape(v[1..], rest);
      FixupFirst(v, rest);
      assert v == [v[0]] + v[1..];
      AppendedFront(v[0], v[1..], Fixup(rest));
    }
  }

  lemma FixupFirst(v: text, rest: text)
    requires v != []
    ensures Fixup(Escape(v) + rest) == Prefixed(v[0], Fixup(Escape(v[1..]) + rest))
  {
    var more := Escape(v[1..]) + rest;
    var one: text := if Special(v[0]) then [BACKSLASH, EscapeOf(v[0])] else [v[0]];
    Associative(one, Escape(v[1..]), rest);
    FixupOne(v[0], one, more);
  }

  lemma FixupOne(c: ascii, one: text, more: text)
    requires one == if Special(c) then [BACKSLASH, EscapeOf(c)] else [c]
    ensures Fixup(one + more) == Prefixed(c, Fixup(more))
  {
    assert (one + more)[|one|..] == more;
  }

  lemma AppendedFront(c: ascii, v: text, r: Option<text>)
    ensures Prefixed(c, Appended(v, r)) == Appended([c] + v, r)
  {
    if r.Some? {
      assert [c] + (v + r.value) == [c] + v + r.value;
    }
  }

  lemma {:induction false} EscapeConcat(u: text, v: text)
    ensures Escape(u + v) == Escape(u) + Escape(v)
  {
    if u == [] {
      assert u + v == v;
    } else {
      assert (u + v)[1..] == u[1..] + v;
      EscapeConcat(u[1..], v);
    }
  }

  // ----- quoting -----

  /** A text that would lose something if written without quotes. */
  predicate NeedsQuotes(v: text) {
    v == [] || v[0] == SPACE || v[|v| - 1] == SPACE || SEMICOLON in v || HASH in v
  }

  method QuotesForValue(v: text) returns (q: text)
    ensures q == if NeedsQuotes(v) then [QUOTE] else []
  {
    if v == [] || v[0] == SPACE {
      return [QUOTE];
    }
    for i := 0 to |v|
      invariant SEMICOLON !in v[..i] && HASH !in v[..i]
    {
      if v[i] == SEMICOLON || v[i] == HASH {
        return [QUOTE];
      }
    }
    assert v == v[..|v|];
    q := if v[|v| - 1] == SPACE then [QUOTE] else [];
  }

  /** A variable's line as it is written. */
  function PrintVariable(name: text, value: text): text {
    var esc := Escape(value);
    var q: text := if NeedsQuotes(esc) then [QUOTE] else [];
    [TAB] + name + [SPACE, EQUALS, SPACE] + q + esc + q + [NEWLINE]
  }

  method WriteVariable(name: text, value: text) returns (r: text)
    ensures r == PrintVariable(name, value)
  {
    var esc := EscapeValue(value);
    var q := QuotesForValue(esc);
    r := [TAB] + name + [SPACE, EQUALS, SPACE] + q + esc + q + [NEWLINE];
  }

  /** The index of the first `c`, or the length if there is none. */
  function Index(s: text, c: ascii): (r: nat)
    ensures r <= |s| && (r < |s| ==> s[r] == c) && forall i :: 0 <= i < r ==> s[i] != c
  {
    if s == [] || s[0] == c then 0 else 1 + Index(s[1..], c)
  }

  method FindChar(s: text, c: ascii) returns (d: nat)
    ensures d == Index(s, c)
  {
    d := 0;
    while d < |s| && s[d] != c
      invariant d <= |s| && Index(s, c) == d + Index(s[d..], c)
    {
      assert s[d..][1..] == s[d + 1..];
      d := d + 1;
    }
  }

  /** A section's header; what follows the first dot of its name goes in quotes. */
  function PrintHeader(key: text): text {
    var d := Index(key, DOT);
    if d == |key| then [OPEN] + key + [CLOSE, NEWLINE]
    else [OPEN] + key[..d] + [SPACE, QUOTE] + Escape(key[d + 1..]) + [QUOTE, CLOSE, NEWLINE]
  }

  method WriteSection(key: text) returns (r: text)
    ensures r == PrintHeader(key)
  {
    var d := FindChar(key, DOT);
    if d == |key| {
      r := [OPEN] + key + [CLOSE, NEWLINE];
    } else {
      var esc := EscapeValue(key[d + 1..]);
      r := [OPEN] + key[..d] + [SPACE, QUOTE] + esc + [QUOTE, CLOSE, NEWLINE];
    }
  }
}
