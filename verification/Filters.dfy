/** The line-ending filter, and lists of filters run between two buffers. */
module Filters {
  import opened Common
  import opened BufText

  /** A filter leaves the text alone, gives another one, or fails. */
  datatype Outcome = Pass | Done(text: bytes) | Fail

  function After(o: Outcome, from: bytes): bytes { if o.Done? then o.text else from }

  // ----- the line-ending filter -----

  datatype Action = Guess | Binary | Text | Input | Crlf | Auto

  datatype Eol = Unset | Lf | CrLf

  datatype AutoCrlf = Off | On | OnInput

  datatype Value = True | False | Unspecified | Other(name: string)

  datatype Attrs = Attrs(action: Action, eol: Eol, auto: AutoCrlf)

  function CheckCrlf(v: Value): Action {
    match v
    case True => Text
    case False => Binary
    case Unspecified => Guess
    case Other(name) => if name == "input" then Input else if name == "auto" then Auto else Guess
  }

  function CheckEol(v: Value): Eol {
    if v == Other("lf") then Lf else if v == Other("crlf") then CrLf else Unset
  }

  function InputAction(action: Action, eol: Eol): Action {
    if action == Binary then Binary else if eol == Lf then Input else if eol == CrLf then Crlf else action
  }

  datatype Values = Values(crlf: Value, eol: Value, text: Value)

  /** The settings the filter runs with, or none if it does not run at all. */
  function Check(v: Option<Values>, auto: AutoCrlf): Option<Attrs> {
    var asked := if v.None? then Guess else if CheckCrlf(v.value.text) == Guess then CheckCrlf(v.value.crlf) else CheckCrlf(v.value.text);
    var eol := if v.None? then Unset else CheckEol(v.value.eol);
    var action := InputAction(asked, eol);
    if action == Binary || (action == Guess && auto == Off) then None
    else Some(Attrs(action, eol, if action == Guess then auto else Off))
  }

  /** Whether files in the working directory are to end their lines with carriage returns. */
  predicate EndsCrlf(ca: Attrs, native: bool) {
    match ca.action
    case Binary => false
    case Input => false
    case Crlf => true
    case _ => ca.eol == CrLf || (ca.eol == Unset && native)
  }

  function Smudge(ca: Attrs, native: bool, from: bytes): Outcome {
    if from == [] then Done([])
    else if LooksBinary(from) then Pass
    else if !EndsCrlf(ca, native) then
      if (ca.action == Guess && ca.auto != Off) || CR !in from then Pass else Done(ToLf(from))
    else Done(ToCrlf(from, false))
  }

  function Clean(ca: Attrs, crInIndex: bool, from: bytes): Outcome {
    var st := StatsOf(Proper(from));
    if from == [] then Done([])
    else if (ca.action == Auto || ca.action == Guess) &&
            (StatsBinary(st) || st.cr != st.crlf || (ca.action == Guess && crInIndex) || st.cr == 0) then Pass
    else Done(ToLf(from))
  }

  method ApplyToWorkdir(ca: Attrs, native: bool, from: bytes) returns (r: Outcome)
    ensures r == Smudge(ca, native, from)
  {
    if from == [] {
      return Done([]);
    }
    var binary := IsBinary(from);
    if binary {
      return Pass;
    }
    if !EndsCrlf(ca, native) {
      if ca.action == Guess && ca.auto != Off {
        return Pass;
      }
      var i := Find(from, CR);
      if i == |from| {
        return Pass;
      }
      var to := CrlfToLf(from);
      r := Done(to);
    } else {
      var to := LfToCrlf(from);
      r := Done(to);
    }
  }

  method ApplyToOdb(ca: Attrs, crInIndex: bool, from: bytes) returns (r: Outcome)
    ensures r == Clean(ca, crInIndex, from)
  {
    if from == [] {
      return Done([]);
    }
    if ca.action == Auto || ca.action == Guess {
      var st, binary := GatherStats(from);
      if binary || st.cr != st.crlf || (ca.action == Guess && crInIndex) || st.cr == 0 {
        return Pass;
      }
    }
    var to := CrlfToLf(from);
    r := Done(to);
  }

  /** Without carriage returns there is nothing to clean. */
  lemma CleanNothing(ca: Attrs, crInIndex: bool, s: bytes)
    requires NoCr(s)
    ensures After(Clean(ca, crInIndex, s), s) == s
  {
    ToLfNoCr(s);
  }

  lemma NoCrExpanded(s: bytes)
    requires CR !in ToCrlf(s, false)
    ensures ToCrlf(s, false) == s
  {
    if !AllPaired(s, false) {
      ExpandedHasCr(s, false);
    }
    ExpandLengthens(s, false);
  }

  lemma {:induction false} ExpandedHasCr(s: bytes, after: bool)
    requires !AllPaired(s, after)
    ensures CR in ToCrlf(s, after)
  {
    if s[0] == LF && !after {
      assert ToCrlf(s, after)[0] == CR;
    } else {
      ExpandedHasCr(s[1..], s[0] == CR);
    }
  }

  /**
   * Content without carriage returns comes back as it was from the working
   * directory, whatever the settings, while the index has it as well.
   */
  lemma CleanSmudge(ca: Attrs, native: bool, s: bytes)
    requires NoCr(s)
    ensures var w := After(Smudge(ca, native, s), s); After(Clean(ca, CR in s, w), w) == s
  {
    if Smudge(ca, native, s).Done? && s != [] {
      var w := ToCrlf(s, false);
      ThereAndBack(s);
      TextStaysText(s);
      CrCounted(w);
      if CR !in w {
        NoCrExpanded(s);
      }
    } else {
      CleanNothing(ca, false, s);
    }
  }

  /**
   * Whether content survives. Without carriage returns it does. With them, it
   * must have no pair of carriage return and newline wherever cleaning
   * contracts the file; where cleaning leaves the file alone, it must be one
   * that smudging leaves alone too. With action `Auto`, cleaning leaves mixed
   * content alone.
   */
  predicate Survives(ca: Attrs, native: bool, s: bytes) {
    if CR !in s then true
    else
      match ca.action
      case Guess => LooksBinary(s) || if EndsCrlf(ca, native) then AllPaired(s, false) else ca.auto != Off || !HasPair(s)
      case Auto =>
        if LooksBinary(s) then Mixed(s) || !HasPair(s)
        else if EndsCrlf(ca, native) && Mixed(s) then AllPaired(s, false)
        else !HasPair(s)
      case _ => !HasPair(s)
  }

  /** What two conversions come to, whatever made the filter choose them. */
  lemma Converted(out: Outcome, into: Outcome, crlf: bool, s: bytes)
    requires out.Pass? || out == Done(if crlf then ToCrlf(s, false) else ToLf(s))
    requires into.Pass? || into == Done(ToLf(After(out, s)))
    ensures After(into, After(out, s)) == s <==>
            if into.Pass? && (out.Pass? || crlf) then out.Pass? || AllPaired(s, false) else !HasPair(s)
  {
    ContractShortens(s);
    ContractShortens(ToLf(s));
    ExpandLengthens(s, false);
    ExpandContract(s, false);
  }

  lemma SmudgeShape(ca: Attrs, native: bool, s: bytes)
    ensures var out := Smudge(ca, native, s);
            out.Pass? || out == Done(if EndsCrlf(ca, native) then ToCrlf(s, false) else ToLf(s))
  {}

  lemma CleanShape(ca: Attrs, crInIndex: bool, s: bytes)
    ensures var into := Clean(ca, crInIndex, s); into.Pass? || into == Done(ToLf(s))
  {}

  /** When cleaning leaves a file with carriage returns alone, told from the content it was made from. */
  lemma CleanPasses(ca: Attrs, native: bool, s: bytes)
    requires CR in s && (Smudge(ca, native, s).Pass? || EndsCrlf(ca, native))
    ensures Clean(ca, true, After(Smudge(ca, native, s), s)).Pass? <==> ca.action == Guess || (ca.action == Auto && Mixed(s))
  {
    var w := ToCrlf(s, false);
    MixedExpanded(s);
    CrCounted(s);
    CrCounted(w);
    if CR !in w {
      NoCrExpanded(s);
    }
  }

  /** Content comes back as it was exactly if it survives. */
  lemma SurvivesExactly(ca: Attrs, native: bool, s: bytes)
    ensures var w := After(Smudge(ca, native, s), s); After(Clean(ca, CR in s, w), w) == s <==> Survives(ca, native, s)
  {
    if CR !in s {
      CleanSmudge(ca, native, s);
    } else {
      var out := Smudge(ca, native, s);
      var w := After(out, s);
      SmudgeShape(ca, native, s);
      CleanShape(ca, true, w);
      Converted(out, Clean(ca, true, w), EndsCrlf(ca, native), s);
      if out.Pass? || EndsCrlf(ca, native) {
        CleanPasses(ca, native, s);
      }
    }
  }

  /** A line with a carriage return comes back without it from a file that is said to be text. */
  lemma PairLost()
    ensures var ca, s: bytes := Attrs(Text, Unset, Off), [97, CR, LF]; var w := After(Smudge(ca, false, s), s);
            After(Clean(ca, CR in s, w), w) != s
  {
    var s: bytes := [97, CR, LF];
    SurvivesExactly(Attrs(Text, Unset, Off), false, s);
    assert s[1] in s && HasPair(s[1..]);
  }

  // ----- from the attributes of a file -----

  /** Values of `text` and `crlf` that say something. */
  predicate Says(v: Value) { v == True || v == False || v == Other("input") || v == Other("auto") }

  /** What is asked for: by `text`, or else by `crlf`, or else nothing. */
  function Asked(v: Option<Values>): Value {
    if v.None? then Unspecified
    else if Says(v.value.text) then v.value.text
    else if Says(v.value.crlf) then v.value.crlf
    else Unspecified
  }

  predicate AsksEol(v: Option<Values>, name: string) { v.Some? && v.value.eol == Other(name) }

  /** The file that content becomes, for each value of the attributes and of `core.autocrlf`. */
  ghost predicate FileAs(v: Option<Values>, auto: AutoCrlf, native: bool, s: bytes, file: bytes) {
    var asked := Asked(v);
    var lf, crlf := AsksEol(v, "lf"), AsksEol(v, "crlf");
    && (LooksBinary(s) ==> file == s)
    && (asked == False ==> file == s)
    && (!LooksBinary(s) && asked != False && crlf ==> file == ToCrlf(s, false))
    && (!LooksBinary(s) && asked != False && lf ==> file == ToLf(s))
    && (!LooksBinary(s) && asked == Other("input") && !lf && !crlf ==> file == ToLf(s))
    && (!LooksBinary(s) && (asked == True || asked == Other("auto")) && !lf && !crlf ==>
          file == if native then ToCrlf(s, false) else ToLf(s))
    && (asked == Unspecified && !lf && !crlf && auto == Off ==> file == s)
    && (!LooksBinary(s) && asked == Unspecified && !lf && !crlf && auto != Off ==> file == if native then ToCrlf(s, false) else s)
  }

  /** Whether content comes back from it, for each of these values. */
  ghost predicate BackAs(v: Option<Values>, auto: AutoCrlf, native: bool, s: bytes, same: bool) {
    var asked := Asked(v);
    var eol := AsksEol(v, "lf") || AsksEol(v, "crlf");
    && (asked == False ==> same)
    && (asked != False && (eol || asked == True || asked == Other("input")) ==> (same <==> !HasPair(s)))
    && (asked == Other("auto") && !eol ==>
          (same <==> CR !in s || if LooksBinary(s) then Mixed(s) || !HasPair(s)
                                 else if native && Mixed(s) then AllPaired(s, false) else !HasPair(s)))
    && (asked == Unspecified && !eol ==>
          (same <==> auto == Off || CR !in s || LooksBinary(s) || !native || AllPaired(s, false)))
  }

  /** What the attributes ask for decides the settings. */
  lemma CheckedAs(v: Option<Values>, auto: AutoCrlf)
    ensures var asked, lf, crlf := Asked(v), AsksEol(v, "lf"), AsksEol(v, "crlf");
            Check(v, auto) == if asked == False then None
                              else if lf then Some(Attrs(Input, Lf, Off))
                              else if crlf then Some(Attrs(Crlf, CrLf, Off))
                              else if asked == True then Some(Attrs(Text, Unset, Off))
                              else if asked == Other("input") then Some(Attrs(Input, Unset, Off))
                              else if asked == Other("auto") then Some(Attrs(Auto, Unset, Off))
                              else if auto == Off then None else Some(Attrs(Guess, Unset, auto))
  {
  }

  lemma Smudged(ca: Attrs, native: bool, s: bytes)
    ensures After(Smudge(ca, native, s), s) ==
            if LooksBinary(s) then s else if EndsCrlf(ca, native) then ToCrlf(s, false)
            else if ca.action == Guess && ca.auto != Off then s else ToLf(s)
  {
    if CR !in s {
      ToLfNoCr(s);
    }
  }

  lemma SmudgedAs(v: Option<Values>, auto: AutoCrlf, native: bool, s: bytes)
    ensures var ca := Check(v, auto); FileAs(v, auto, native, s, if ca.None? then s else After(Smudge(ca.value, native, s), s))
  {
    var ca := Check(v, auto);
    CheckedAs(v, auto);
    if ca.Some? {
      Smudged(ca.value, native, s);
    }
  }

  lemma SurvivesAs(v: Option<Values>, auto: AutoCrlf, native: bool, s: bytes)
    ensures var ca := Check(v, auto); BackAs(v, auto, native, s, ca.None? || Survives(ca.value, native, s))
  {
    CheckedAs(v, auto);
    if CR !in s {
      NoCrNoPair(s);
    }
  }

  /**
   * Content goes to the working directory and back to the index, for any
   * attributes of the file and any setting of `core.autocrlf`. Without
   * carriage returns it comes back as it was; in general exactly if it survives.
   */
  method CheckOutAndIn(v: Option<Values>, auto: AutoCrlf, native: bool, s: bytes) returns (file: bytes, back: bytes)
    ensures NoCr(s) ==> back == s
    ensures back == s <==> Check(v, auto).None? || Survives(Check(v, auto).value, native, s)
    ensures FileAs(v, auto, native, s, file) && BackAs(v, auto, native, s, back == s)
  {
    var ca := Check(v, auto);
    SmudgedAs(v, auto, native, s);
    SurvivesAs(v, auto, native, s);
    file, back := s, s;
    if ca.None? {
      return;
    }
    var out := ApplyToWorkdir(ca.value, native, s);
    file := After(out, s);
    var cr := Find(s, CR);
    var into := ApplyToOdb(ca.value, cr < |s|, file);
    back := After(into, file);
    SurvivesExactly(ca.value, native, s);
    if NoCr(s) {
      CleanSmudge(ca.value, native, s);
    }
  }

  // ----- lists of filters -----

  /** One filter after the other; a filter that passes leaves the text to the next one. */
  function Through(fs: seq<bytes -> Outcome>, s: bytes): Option<bytes> {
    if fs == [] then Some(s)
    else
      match fs[0](s)
      case Pass => Through(fs[1..], s)
      case Done(t) => Through(fs[1..], t)
      case Fail => None
  }

  function Backwards<T>(fs: seq<T>): (r: seq<T>)
    ensures |r| == |fs| && forall i :: 0 <= i < |fs| ==> r[i] == fs[|fs| - 1 - i]
  {
    if fs == [] then [] else Backwards(fs[1..]) + [fs[0]]
  }

  /** Runs the filters between two buffers that change roles whenever a filter has produced something. */
  method ApplyToData(fs: seq<bytes -> Outcome>, toWorktree: bool, src: bytes) returns (tgt: Option<bytes>)
    ensures tgt == Through(if toWorktree then fs else Backwards(fs), src)
  {
    ghost var order := if toWorktree then fs else Backwards(fs);
    var buffer := new bytes[2];
    buffer[0], buffer[1] := src, [];
    var si := 0;
    assert order[0..] == order;
    for i := 0 to |fs|
      invariant buffer.Length == 2 && (si == 0 || si == 1)
      invariant Through(order, src) == Through(order[i..], buffer[si])
    {
      var di := 1 - si;
      var f := fs[if toWorktree then i else |fs| - 1 - i];
      assert order[i..][0] == f && order[i..][1..] == order[i + 1..];
      buffer[di] := [];
      var r := f(buffer[si]);
      if r.Done? {
        buffer[di] := r.text;
        si := di;
      } else if r.Fail? {
        return None;
      }
    }
    tgt := Some(buffer[si]);
  }

  lemma {:induction false} ThroughConcat(fs: seq<bytes -> Outcome>, gs: seq<bytes -> Outcome>, s: bytes)
    ensures Through(fs + gs, s) == match Through(fs, s) case None => None case Some(t) => Through(gs, t)
    decreases |fs|
  {
    if fs == [] {
      assert fs + gs == gs;
    } else {
      assert (fs + gs)[1..] == fs[1..] + gs;
      ThroughConcat(fs[1..], gs, After(fs[0](s), s));
    }
  }

  /** Each cleaning filter gives back what its smudging counterpart was given. */
  ghost predicate Undoes(smudges: seq<bytes -> Outcome>, cleans: seq<bytes -> Outcome>, s: bytes) {
    if smudges == [] || cleans == [] then |smudges| == |cleans|
    else
      var t := After(smudges[0](s), s);
      && !smudges[0](s).Fail? && !cleans[0](t).Fail? && After(cleans[0](t), t) == s
      && Undoes(smudges[1..], cleans[1..], t)
  }

  /** A list of filters that undo each other, run forwards and then backwards, gives the content back. */
  lemma {:induction false} ListRoundTrip(smudges: seq<bytes -> Outcome>, cleans: seq<bytes -> Outcome>, s: bytes)
    requires Undoes(smudges, cleans, s)
    ensures Through(smudges, s).Some?
    ensures Through(Backwards(cleans), Through(smudges, s).value) == Some(s)
    decreases |smudges|
  {
    if smudges != [] {
      var t := After(smudges[0](s), s);
      ListRoundTrip(smudges[1..], cleans[1..], t);
      ThroughConcat(Backwards(cleans[1..]), [cleans[0]], Through(smudges, s).value);
      assert [cleans[0]][1..] == [];
    }
  }
}
