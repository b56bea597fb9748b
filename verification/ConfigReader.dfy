/** Reading configuration files line by line. */
module ConfigReader {
  import opened Common
  import opened ConfigText

  // ----- lines -----

  function SkipSpace(s: text): text {
    if s != [] && IsSpace(s[0]) then SkipSpace(s[1..]) else s
  }

  function TrimEnd(s: text): text {
    if s != [] && IsSpace(s[|s| - 1]) then TrimEnd(s[..|s| - 1]) else s
  }

  datatype LineRead = LineRead(line: text, rest: text)

  function NextLine(s: text): (r: LineRead)
    ensures s != [] ==> |r.rest| < |s|
  {
    var n := Index(s, NEWLINE);
    LineRead(TrimEnd(s[..n]), if n < |s| then s[n + 1..] else [])
  }

  lemma {:induction false} SkipSpaceShrinks(s: text)
    ensures |SkipSpace(s)| <= |s|
  {
    if s != [] && IsSpace(s[0]) {
      SkipSpaceShrinks(s[1..]);
    }
  }

  // ----- comments -----

  datatype Scanned = Scanned(end: nat, quotes: nat)

  /** How far a line goes before a comment that is not within quotes. */
  function Scan(line: text, k: nat, quotes: nat): (r: Scanned)
    requires k <= |line|
    ensures k <= r.end <= |line|
    decreases |line| - k
  {
    if k == |line| then Scanned(k, quotes)
    else
      var q := if line[k] == QUOTE && k > 0 && line[k - 1] != BACKSLASH then quotes + 1 else quotes;
      if (line[k] == SEMICOLON || line[k] == HASH) && q % 2 == 0 then Scanned(k, q) else Scan(line, k + 1, q)
  }

  /** The line up to `end`, less one space there. */
  function Shorten(line: text, end: nat): text
    requires end <= |line|
  {
    if end > 0 && IsSpace(line[end - 1]) then line[..end - 1] else line[..end]
  }

  method StripComments(line: text, inQuotes: nat) returns (r: text, quotes: nat)
    ensures r == Shorten(line, Scan(line, 0, inQuotes).end) && quotes == Scan(line, 0, inQuotes).quotes
  {
    quotes := inQuotes;
    var p: nat := 0;
    while p < |line|
      invariant p <= |line| && Scan(line, 0, inQuotes) == Scan(line, p, quotes)
    {
      if line[p] == QUOTE && p > 0 && line[p - 1] != BACKSLASH {
        quotes := quotes + 1;
      }
      if (line[p] == SEMICOLON || line[p] == HASH) && quotes % 2 == 0 {
        break;
      }
      p := p + 1;
    }
    if p > 0 && IsSpace(line[p - 1]) {
      p := p - 1;
    }
    r := line[..p];
  }

  // ----- variables -----

  function Backslashes(s: text): (n: nat)
    ensures n <= |s|
  {
    if s != [] && s[|s| - 1] == BACKSLASH then 1 + Backslashes(s[..|s| - 1]) else 0
  }

  /** The value goes on on the next line. */
  predicate Multiline(s: text) { Backslashes(s) < |s| && Backslashes(s) % 2 == 1 }

  method IsMultiline(s: text) returns (r: bool)
    ensures r == Multiline(s)
  {
    var end, count := |s|, 0;
    assert s[..end] == s;
    while end > 0 && s[end - 1] == BACKSLASH
      invariant 0 <= end <= |s| && count + end == |s| && Backslashes(s) == count + Backslashes(s[..end])
    {
      assert s[..end][..end - 1] == s[..end - 1];
      count, end := count + 1, end - 1;
    }
    assert s[..end] == [] || s[..end][|s[..end]| - 1] != BACKSLASH;
    r := end > 0 && count % 2 == 1;
  }

  /** The part of a line before its equals sign, without spaces at its end but never empty. */
  function NameOf(s: text): text {
    if |s| > 1 && IsSpace(s[|s| - 1]) then NameOf(s[..|s| - 1]) else s
  }

  /**
   * `Continues` is a value that goes on on the next line, as far as it has been
   * read; `Aborted` is a failed assertion.
   */
  datatype VariableRead =
    | Variable(name: text, value: Option<text>) | Continues(name: text, start: text, quotes: nat) | Malformed | Aborted

  /** What a line without its comment says. */
  function Assignment(line: text, quotes: nat): VariableRead {
    var e := Index(line, EQUALS);
    var name := NameOf(line[..e]);
    if e == |line| then Variable(name, None)
    else
      var v := SkipSpace(line[e + 1..]);
      match Fixup(v)
      case None => Malformed
      case Some(t) => if Multiline(v) then Continues(name, t, quotes) else Variable(name, Some(t))
  }

  function LineMeaning(line: text): VariableRead {
    var c := Scan(line, 0, 0); Assignment(Shorten(line, c.end), c.quotes)
  }

  datatype Continued = Whole(value: text, rest: text) | Broken | Stopped

  /** The lines that follow a value that goes on; comments among them count for nothing. */
  function MoreLines(s: text, value: text, quotes: nat): (r: Continued)
    ensures r.Whole? ==> |r.rest| < |s|
    decreases |s|
  {
    var l := NextLine(s);
    if l.line == [] then Broken
    else
      LineWithin(s);
      var c := Scan(l.line, 0, if quotes == 0 then 0 else 1);
      var kept := Shorten(l.line, c.end);
      if kept == [] then MoreLines(l.rest, value, c.quotes)
      else if !Multiline(value) then Stopped
      else
        match Fixup(kept)
        case None => Broken
        case Some(t) =>
          var more := value[..|value| - 1] + t;
          if Multiline(more) then MoreLines(l.rest, more, c.quotes) else Whole(more, l.rest)
  }

  lemma LineWithin(s: text)
    requires NextLine(s).line != []
    ensures s != []
  {}

  function Ended(name: text, more: Continued): VariableRead {
    match more
    case Whole(value, _) => Variable(name, Some(value))
    case Broken => Malformed
    case Stopped => Aborted
  }

  datatype Parsed = Parsed(read: VariableRead, rest: text)

  /** The variable at the front of a text, and what comes after it. */
  function VariableAt(s: text): (r: Parsed)
    ensures s != [] && r.read.Variable? ==> |r.rest| < |s|
    ensures !r.read.Continues?
  {
    var l := NextLine(s);
    match LineMeaning(l.line)
    case Continues(name, start, quotes) =>
      var more := MoreLines(l.rest, start, quotes);
      Parsed(Ended(name, more), if more.Whole? then more.rest else [])
    case v => Parsed(v, l.rest)
  }

  // ----- section headers -----

  predicate KeyChar(c: int) { 48 <= c <= 57 || 65 <= c <= 90 || 97 <= c <= 122 || c == DASH }

  function Lower(c: ascii): ascii { if 65 <= c <= 90 then c + 32 else c }

  function At(s: text, k: nat): int { if k < |s| then s[k] else 0 }

  function LastIndex(s: text, c: ascii): (r: nat)
    ensures r <= |s| && (r < |s| ==> s[r] == c) && (r == |s| ==> c !in s)
    ensures forall i :: r < i < |s| ==> s[i] != c
  {
    if c !in s then |s| else if s[|s| - 1] == c then |s| - 1 else
      assert s == s[..|s| - 1] + [s[|s| - 1]];
      LastIndex(s[..|s| - 1], c)
  }

  /** The quoted part of a header from `k` on; a backslash stands for whatever follows it. */
  function Subsection(line: text, k: nat, last: nat, name: text): Option<text>
    decreases |line| - k
  {
    if k >= |line| then None
    else if line[k] == QUOTE then Closed(line, k, name)
    else
      var n := if line[k] == BACKSLASH then k + 1 else k;
      if n >= |line| then None
      else if n + 1 < last then Subsection(line, n + 1, last, name + [line[n]])
      else Closed(line, n + 1, name + [line[n]])
  }

  function Closed(line: text, k: nat, name: text): Option<text> {
    if At(line, k) == QUOTE && At(line, k + 1) == CLOSE then Some(name) else None
  }

  function Extended(line: text, name: text): Option<text> {
    var first, last := Index(line, QUOTE), LastIndex(line, QUOTE);
    if first == last then None else Subsection(line, first + 1, last, name + [DOT])
  }

  /** The name in a header, read from `k` on. */
  function Section(line: text, k: nat, name: text): Option<text>
    decreases |line| - k
  {
    if k >= |line| then None
    else if IsSpace(line[k]) then Extended(line, name)
    else if !KeyChar(line[k]) && line[k] != DOT then None
    else if At(line, k + 1) == CLOSE then Some(name + [Lower(line[k])])
    else Section(line, k + 1, name + [Lower(line[k])])
  }

  function HeaderMeaning(line: text): Option<text> { if CLOSE in line then Section(line, 1, []) else None }

  // ----- whole files -----

  datatype Setting = Setting(name: text, value: Option<text>)

  function LowerAll(s: text): (r: text)
    ensures |r| == |s| && forall i :: 0 <= i < |s| ==> r[i] == Lower(s[i])
  {
    seq(|s|, i requires 0 <= i < |s| => Lower(s[i]))
  }

  function Preceded<T>(t: T, r: Option<seq<T>>): Option<seq<T>> {
    match r
    case None => None
    case Some(more) => Some([t] + more)
  }

  /** The settings in a file, each with the section it is in; there must be one. */
  function Settings(s: text, section: Option<text>): Option<seq<Setting>>
    decreases |s|
  {
    SkipSpaceShrinks(s);
    var t := SkipSpace(s);
    if t == [] then Some([])
    else
      var r := NextLine(t);
      if t[0] == OPEN then
        match HeaderMeaning(r.line)
        case None => None
        case Some(name) => Settings(r.rest, Some(name))
      else if t[0] == SEMICOLON || t[0] == HASH then Settings(NextLine(s).rest, section)
      else
        var p := VariableAt(t);
        if !p.read.Variable? || section.None? then None
        else Preceded(Setting(section.value + [DOT] + LowerAll(p.read.name), p.read.value), Settings(p.rest, section))
  }

  /** A position in a file: what is left to read. */
  class Reader {
    var rest: text

    constructor (s: text)
      ensures rest == s
    {
      rest := s;
    }

    method ReadLine(skipSpace: bool) returns (line: text)
      modifies this
      ensures var r := NextLine(if skipSpace then SkipSpace(old(rest)) else old(rest)); line == r.line && rest == r.rest
    {
      var s := rest;
      while skipSpace && s != [] && IsSpace(s[0])
        invariant skipSpace ==> SkipSpace(rest) == SkipSpace(s)
        invariant !skipSpace ==> s == rest
        decreases |s|
      {
        s := s[1..];
      }
      var end := FindChar(s, NEWLINE);
      var n := end;
      assert s[..end][..n] == s[..n];
      while n > 0 && IsSpace(s[n - 1])
        invariant n <= end && TrimEnd(s[..end]) == TrimEnd(s[..n])
      {
        assert s[..n][..n - 1] == s[..n - 1];
        n := n - 1;
      }
      line := s[..n];
      rest := if end < |s| then s[end + 1..] else [];
    }

    method ConsumeLine()
      modifies this
      ensures rest == NextLine(old(rest)).rest
    {
      var end := FindChar(rest, NEWLINE);
      rest := if end < |rest| then rest[end + 1..] else [];
    }

    /** The next character that is no space, if there is one. */
    method Peek() returns (c: Option<ascii>)
      ensures c == if SkipSpace(rest) == [] then None else Some(SkipSpace(rest)[0])
    {
      var s := rest;
      while s != [] && IsSpace(s[0])
        invariant SkipSpace(rest) == SkipSpace(s)
        decreases |s|
      {
        s := s[1..];
      }
      c := if s == [] then None else Some(s[0]);
    }

    /** Reads on as long as the value so far ends with a backslash that is not escaped. */
    method ParseMultilineVariable(value: text, inQuotes: nat) returns (r: Continued)
      modifies this
      ensures r == MoreLines(old(rest), value, inQuotes) && (r.Whole? ==> rest == r.rest)
      decreases |rest|
    {
      var line := ReadLine(false);
      if line == [] {
        return Broken;
      }
      LineWithin(old(rest));
      var kept, quotes := StripComments(line, if inQuotes == 0 then 0 else 1);
      if kept == [] {
        r := ParseMultilineVariable(value, quotes);
        return;
      }
      var multi := IsMultiline(value);
      if !multi {
        return Stopped;
      }
      var more := FixupLine(kept);
      if more.None? {
        return Broken;
      }
      var whole := value[..|value| - 1] + more.value;
      multi := IsMultiline(whole);
      if multi {
        r := ParseMultilineVariable(whole, quotes);
        return;
      }
      r := Whole(whole, rest);
    }

    /** The name before an equals sign and the text behind it. */
    method SplitLine(kept: text) returns (name: text, e: nat, v: text)
      ensures e == Index(kept, EQUALS) && name == NameOf(kept[..e])
      ensures v == if e == |kept| then [] else SkipSpace(kept[e + 1..])
    {
      e := FindChar(kept, EQUALS);
      name := kept[..e];
      while |name| > 1 && IsSpace(name[|name| - 1])
        invariant NameOf(kept[..e]) == NameOf(name)
        decreases |name|
      {
        name := name[..|name| - 1];
      }
      if e == |kept| {
        return name, e, [];
      }
      v := kept[e + 1..];
      while v != [] && IsSpace(v[0])
        invariant SkipSpace(kept[e + 1..]) == SkipSpace(v)
        decreases |v|
      {
        v := v[1..];
      }
    }

    /** A line by itself. */
    method ParseLine(line: text) returns (r: VariableRead)
      ensures r == LineMeaning(line)
    {
      var kept, quotes := StripComments(line, 0);
      var name, e, v := SplitLine(kept);
      if e == |kept| {
        return Variable(name, None);
      }
      var multi := IsMultiline(v);
      var value := FixupLine(v);
      if value.None? {
        return Malformed;
      }
      r := if multi then Continues(name, value.value, quotes) else Variable(name, value);
    }

    method ParseVariable() returns (r: VariableRead)
      modifies this
      ensures var p := VariableAt(SkipSpace(old(rest))); r == p.read && (r.Variable? ==> rest == p.rest)
    {
      var line := ReadLine(true);
      r := ParseLine(line);
      if r.Continues? {
        var more := ParseMultilineVariable(r.start, r.quotes);
        r := Ended(r.name, more);
      }
    }

    method ParseSectionHeaderExt(line: text, name: text) returns (r: Option<text>)
      ensures r == Extended(line, name)
    {
      var first, last := Index(line, QUOTE), LastIndex(line, QUOTE);
      if first == last {
        return None;
      }
      var out, k := name + [DOT], first + 1;
      while true
        invariant k <= |line| && Extended(line, name) == Subsection(line, k, last, out)
        decreases |line| - k
      {
        if k == |line| {
          return None;
        }
        var c := line[k];
        if c == QUOTE {
          break;
        }
        if c == BACKSLASH {
          k := k + 1;
          if k == |line| {
            return None;
          }
          c := line[k];
        }
        out := out + [c];
        k := k + 1;
        if k >= last {
          break;
        }
      }
      r := if At(line, k) == QUOTE && At(line, k + 1) == CLOSE then Some(out) else None;
    }

    method ParseSectionHeader() returns (r: Option<text>)
      modifies this
      ensures var l := NextLine(SkipSpace(old(rest))); r == HeaderMeaning(l.line) && rest == l.rest
    {
      var line := ReadLine(true);
      if CLOSE !in line {
        return None;
      }
      var name: text, k := [], 1;
      while true
        invariant k <= |line| && Section(line, 1, []) == Section(line, k, name)
        decreases |line| - k
      {
        if k == |line| {
          return None;
        }
        if IsSpace(line[k]) {
          r := ParseSectionHeaderExt(line, name);
          return;
        }
        if !KeyChar(line[k]) && line[k] != DOT {
          return None;
        }
        name := name + [Lower(line[k])];
        k := k + 1;
        if At(line, k) == CLOSE {
          return Some(name);
        }
      }
    }

    /** Reads all settings. */
    method ParseConfig() returns (r: Option<seq<Setting>>)
      modifies this
      ensures r == Settings(old(rest), None)
    {
      var section: Option<text> := None;
      var out: seq<Setting> := [];
      Joined([], Settings(rest, None));
      while true
        invariant Settings(old(rest), None) == Join(out, Settings(rest, section))
        decreases |rest|
      {
        SkipSpaceShrinks(rest);
        var c := Peek();
        if c.None? {
          break;
        }
        if c.value == OPEN {
          section := ParseSectionHeader();
          if section.None? {
            return None;
          }
        } else if c.value == SEMICOLON || c.value == HASH {
          ConsumeLine();
        } else {
          var v := ParseVariable();
          if !v.Variable? || section.None? {
            return None;
          }
          var t := Setting(section.value + [DOT] + LowerAll(v.name), v.value);
          JoinNext(out, t, Settings(rest, section));
          out := out + [t];
        }
      }
      Joined(out, Some([]));
      r := Some(out);
    }
  }

  function Join<T>(out: seq<T>, r: Option<seq<T>>): Option<seq<T>> {
    match r
    case None => None
    case Some(more) => Some(out + more)
  }

  lemma Joined<T>(out: seq<T>, r: Option<seq<T>>)
    ensures Join([], r) == r && Join(out, Some([])) == Some(out)
  {
    assert out + [] == out;
    if r.Some? {
      assert [] + r.value == r.value;
    }
  }

  lemma JoinNext<T>(out: seq<T>, t: T, r: Option<seq<T>>)
    ensures Join(out, Preceded(t, r)) == Join(out + [t], r)
  {
    if r.Some? {
      assert out + ([t] + r.value) == out + [t] + r.value;
    }
  }
}
