/**
 * The delta decoder: a small interpreter that fills a result buffer of the
 * size announced in the header.
 */
module DeltaApply {
  import opened Common
  import opened Tokens
  import opened DeltaFormat

  /** The weight of a header digit. */
  function Weight(digit: nat): (w: nat)
    requires digit <= 5
    ensures w > 0
  {
    if digit == 0 then 1
    else if digit == 1 then 0x80
    else if digit == 2 then 0x4000
    else if digit == 3 then 0x20_0000
    else if digit == 4 then 0x1000_0000
    else 0x8_0000_0000
  }

  /** What a header reader knows after some digits: their sum, and how the rest will be added. */
  function Combine(sum: nat, digit: nat, rest: Header): Header
    requires digit <= 5
  {
    match rest
    case BadHeader => BadHeader
    case Header(v, n) => Header(sum + Weight(digit) * v, digit + n)
  }

  lemma CombineStep(sum: nat, digit: nat, d: seq<byte>)
    requires digit < 5 && d != []
    ensures
      var next := sum + d[0] % 0x80 * Weight(digit) % 0x1_0000_0000;
      Combine(sum, digit, ReadHeader(d, digit))
      == if d[0] < 0x80 then Header(next, digit + 1) else Combine(next, digit + 1, ReadHeader(d[1..], digit + 1))
  {
    DigitAdds(digit, d[0], 0);
    var rest := ReadHeader(d[1..], digit + 1);
    if rest.Header? {
      DigitAdds(digit, d[0], rest.size);
    }
  }

  lemma DigitAdds(digit: nat, c: byte, v: nat)
    requires digit < 5
    ensures Weight(digit) * ((if digit == 4 then c % 0x10 else c % 0x80) + 0x80 * v)
         == c % 0x80 * Weight(digit) % 0x1_0000_0000 + Weight(digit + 1) * v
  {
    if digit == 0 {} else if digit == 1 {} else if digit == 2 {} else if digit == 3 {}
  }

  /** Reads one size header: seven bits a byte, low bits first, until a byte without the top bit. */
  method ReadSize(delta: seq<byte>) returns (h: Header)
    ensures h == ReadHeader(delta, 0)
  {
    var r: nat := 0;
    var d, digit := delta, 0;
    while true
      invariant digit <= 5 && ReadHeader(delta, 0) == Combine(r, digit, ReadHeader(d, digit))
      decreases 5 - digit
    {
      if d == [] || digit == 5 {
        return BadHeader;
      }
      CombineStep(r, digit, d);
      var c := d[0];
      r := r + c % 0x80 * Weight(digit) % 0x1_0000_0000;
      d, digit := d[1..], digit + 1;
      if c < 0x80 {
        return Header(r, digit);
      }
    }
  }

  /** Copies `src[off..off + len]` to `res[at..at + len]`. */
  method CopyInto(res: array<byte>, at: nat, src: seq<byte>, off: nat, len: nat)
    requires at + len <= res.Length && off + len <= |src|
    modifies res
    ensures res[..at + len] == old(res[..at]) + src[off..off + len]
    ensures res[at + len..] == old(res[at + len..])
  {
    ghost var before := res[..at];
    var i := 0;
    while i < len
      invariant i <= len
      invariant res[..at + i] == before + src[off..off + i]
      invariant res[at + len..] == old(res[at + len..])
    {
      res[at + i] := src[off + i];
      i := i + 1;
    }
  }

  /**
   * Applies a delta to a base. It succeeds exactly when the delta has a
   * meaning for that base, and the buffer then holds that meaning.
   */
  method Apply(base: seq<byte>, delta: seq<byte>) returns (r: Option<seq<byte>>)
    ensures r == Meaning(base, delta)
  {
    var baseHeader := ReadSize(delta);
    if baseHeader.BadHeader? || baseHeader.size != |base| {
      return None;
    }
    var rest := delta[baseHeader.length..];
    var resHeader := ReadSize(rest);
    if resHeader.BadHeader? {
      return None;
    }
    r := Interpret(READ_OP, base, rest[resHeader.length..], resHeader.size);
  }

  /** Carries out one instruction on the buffer, unless it leaves the base or overfills the result. */
  method Execute(res: array<byte>, base: seq<byte>, op: Op, written: nat, size: nat) returns (ok: bool)
    requires written <= size < res.Length
    modifies res
    ensures ok <==> InRange(base, op) && written + |Piece(base, op)| <= size
    ensures ok ==> res[..written + |Piece(base, op)|] == old(res[..written]) + Piece(base, op)
  {
    match op {
      case Copy(off, len) =>
        if |base| < off + len || size - written < len {
          return false;
        }
        CopyInto(res, written, base, off, len);
      case Insert(bytes) =>
        if size - written < |bytes| {
          return false;
        }
        CopyInto(res, written, bytes, 0, |bytes|);
        assert bytes[0..|bytes|] == bytes;
    }
    return true;
  }

  /**
   * What running the instructions `d` behind `done` comes to, told one
   * instruction at a time.
   */
  ghost predicate Steps(outcome: (seq<byte>, seq<byte>) -> Option<seq<byte>>, read: seq<byte> -> Read<Op>, base: seq<byte>,
                        size: nat, d: seq<byte>, done: seq<byte>)
    requires d != [] && read(d).Read? ==> read(d).length <= |d|
  {
    if d == [] then outcome(d, done) == if |done| == size then Some(done) else None
    else match read(d)
      case Bad => outcome(d, done) == None
      case Read(op, n) =>
        outcome(d, done) == if InRange(base, op) && |done| + |Piece(base, op)| <= size
                            then outcome(d[n..], done + Piece(base, op)) else None
  }

  /** Fills a buffer of `size` bytes from the instructions. */
  method Run(ghost outcome: (seq<byte>, seq<byte>) -> Option<seq<byte>>, read: seq<byte> -> Read<Op>, base: seq<byte>,
             delta: seq<byte>, size: nat) returns (r: Option<seq<byte>>)
    requires forall d: seq<byte> :: d != [] && read(d).Read? ==> 1 <= read(d).length <= |d|
    requires forall d, done :: Steps(outcome, read, base, size, d, done)
    ensures r == outcome(delta, [])
  {
    var res := new byte[size + 1];
    res[size] := 0;
    var rest, written := delta, 0;
    ghost var goal := outcome(rest, []);
    while rest != []
      invariant 0 <= written <= size
      invariant goal == outcome(rest, res[..written])
      decreases |rest|
    {
      var op := read(rest);
      assert Steps(outcome, read, base, size, rest, res[..written]);
      if op.Bad? {
        return None;
      }
      var ok := Execute(res, base, op.token, written, size);
      if !ok {
        return None;
      }
      written := written + |Piece(base, op.token)|;
      rest := rest[op.length..];
    }
    assert Steps(outcome, read, base, size, rest, res[..written]);
    if written != size {
      return None;
    }
    return Some(res[..size]);
  }

  /** The command loop, however single instructions are laid out in bytes. */
  method Interpret(read: seq<byte> -> Read<Op>, base: seq<byte>, delta: seq<byte>, size: nat)
    returns (r: Option<seq<byte>>)
    requires forall d: seq<byte> :: d != [] && read(d).Read? ==> 1 <= read(d).length <= |d|
    ensures r == Outcome(read, InRangeOf(base), PieceOf(base), delta, [], size)
  {
    ghost var outcome := (d, done) => Outcome(read, InRangeOf(base), PieceOf(base), d, done, size);
    forall d, done ensures Steps(outcome, read, base, size, d, done) {
      if d == [] {
        OutcomeEnd(read, InRangeOf(base), PieceOf(base), done, size);
      } else {
        OutcomeStep(read, InRangeOf(base), PieceOf(base), d, done, size);
      }
    }
    r := Run(outcome, read, base, delta, size);
  }
}
