/**
 * The copy/insert delta of Git's pack format ("Deltified representation" in
 * gitformat-pack): two size headers, then a stream of instructions.
 */
module DeltaFormat {
  import opened Common
  import opened Tokens

  type byte = x: int | 0 <= x < 256

  // ----- bytes and numbers -----

  function Byte0(n: nat): byte { n % 0x100 }
  function Byte1(n: nat): byte { n / 0x100 % 0x100 }
  function Byte2(n: nat): byte { n / 0x1_0000 % 0x100 }
  function Byte3(n: nat): byte { n / 0x100_0000 % 0x100 }

  /** Four bytes and their number. */
  lemma BytesRebuild(n: nat)
    requires n < 0x1_0000_0000
    ensures Byte0(n) + 0x100 * Byte1(n) + 0x1_0000 * Byte2(n) + 0x100_0000 * Byte3(n) == n
  {
    var n1 := n / 0x100;
    var n2 := n1 / 0x100;
    assert n2 == n / 0x1_0000;
    assert n2 / 0x100 == n / 0x100_0000 == Byte3(n);
  }

  // ----- size headers -----

  /** Base-128 digits, least significant first, each but the last marked with its top bit. */
  function HeaderBytes(n: nat): (h: seq<byte>)
    ensures |h| > 0
  {
    if n < 0x80 then [n] else [n % 0x80 + 0x80] + HeaderBytes(n / 0x80)
  }

  datatype Header = BadHeader | Header(size: nat, length: nat)

  /**
   * Reads a header from its digit number `digit` on. The sum is kept to 32
   * bits, so only four bits of the fifth digit count; a sixth digit would be
   * shifted past the word and is refused.
   */
  function ReadHeader(d: seq<byte>, digit: nat): (h: Header)
    requires digit <= 5
    ensures h.Header? ==> 0 < h.length <= |d|
    decreases 5 - digit
  {
    if d == [] || digit == 5 then BadHeader
    else
      var here := if digit == 4 then d[0] % 0x10 else d[0] % 0x80;
      if d[0] < 0x80 then Header(here, 1)
      else
        match ReadHeader(d[1..], digit + 1)
        case BadHeader => BadHeader
        case Header(rest, len) => Header(here + 0x80 * rest, len + 1)
  }

  /** How large a number may be if it starts at a given digit and must stay below 2^31. */
  function Room(digit: nat): nat {
    if digit == 0 then 0x8000_0000
    else if digit == 1 then 0x100_0000
    else if digit == 2 then 0x2_0000
    else if digit == 3 then 0x400
    else 8
  }

  lemma {:induction false} HeaderRoundTrip(n: nat, digit: nat, rest: seq<byte>)
    requires digit < 5 && n < Room(digit)
    ensures ReadHeader(HeaderBytes(n) + rest, digit) == Header(n, |HeaderBytes(n)|)
    ensures |HeaderBytes(n)| <= 5 - digit
    decreases n
  {
    var d := HeaderBytes(n) + rest;
    if n >= 0x80 {
      HeaderRoundTrip(n / 0x80, digit + 1, rest);
      assert d[1..] == HeaderBytes(n / 0x80) + rest;
    }
  }

  // ----- instructions -----

  datatype Op = Copy(off: nat, len: nat) | Insert(bytes: seq<byte>)

  /** An operand byte is written only when it is not zero. */
  function Operand(b: byte): seq<byte> {
    if b == 0 then [] else [b]
  }

  function Flag(b: nat, mask: nat): nat {
    if b == 0 then 0 else mask
  }

  /** The command byte of a copy, from its four offset bytes and two length bytes. */
  function CopyCommand(b0: nat, b1: nat, b2: nat, b3: nat, l0: nat, l1: nat): (c: nat)
    ensures 0x80 <= c < 0x100
  {
    0x80 + Flag(b0, 0x01) + Flag(b1, 0x02) + Flag(b2, 0x04) + Flag(b3, 0x08) + Flag(l0, 0x10) + Flag(l1, 0x20)
  }

  function OffsetBytes(b0: byte, b1: byte, b2: byte, b3: byte, l0: byte, l1: byte): seq<byte> {
    [CopyCommand(b0, b1, b2, b3, l0, l1)] + Operand(b0) + Operand(b1) + Operand(b2) + Operand(b3)
  }

  function CopyBytes(b0: byte, b1: byte, b2: byte, b3: byte, l0: byte, l1: byte): seq<byte> {
    OffsetBytes(b0, b1, b2, b3, l0, l1) + Operand(l0) + Operand(l1)
  }

  /** The instruction as the encoder writes it; a copy of 0x10000 bytes has no length operand. */
  function OpBytes(op: Op): (s: seq<byte>)
    ensures |s| > 0
  {
    match op
    case Copy(off, len) => CopyBytes(Byte0(off), Byte1(off), Byte2(off), Byte3(off), Byte0(len), Byte1(len))
    case Insert(bytes) => [|bytes| % 0x100] + bytes
  }

  /** What the encoder can emit. */
  predicate Encodable(op: Op) {
    match op
    case Copy(off, len) => off < 0x8000_0000 && 1 <= len <= 0x1_0000
    case Insert(bytes) => 1 <= |bytes| < 0x80
  }

  // ----- reading instructions -----

  /** A value being assembled from operand bytes, and where the next operand is. */
  datatype Cursor = Cursor(value: nat, at: nat)

  predicate Bit(cmd: nat, mask: nat)
    requires mask > 0
  {
    cmd / mask % 2 == 1
  }

  /** Takes one operand byte of the given weight if its flag is set; past the end there is none. */
  function TakeOperand(d: seq<byte>, c: Option<Cursor>, present: bool, weight: nat): (r: Option<Cursor>)
    ensures r.Some? ==> c.Some? && c.value.at <= r.value.at && (c.value.at <= |d| ==> r.value.at <= |d|)
  {
    match c
    case None => None
    case Some(Cursor(v, at)) =>
      if !present then c
      else if at < |d| then Some(Cursor(v + weight * d[at], at + 1))
      else None
  }

  function ReadOffset(d: seq<byte>): (r: Option<Cursor>)
    requires d != []
    ensures r.Some? ==> 1 <= r.value.at <= |d|
  {
    var cmd := d[0];
    var c0 := TakeOperand(d, Some(Cursor(0, 1)), Bit(cmd, 0x01), 1);
    var c1 := TakeOperand(d, c0, Bit(cmd, 0x02), 0x100);
    var c2 := TakeOperand(d, c1, Bit(cmd, 0x04), 0x1_0000);
    TakeOperand(d, c2, Bit(cmd, 0x08), 0x100_0000)
  }

  function ReadLength(d: seq<byte>, at: nat): (r: Option<Cursor>)
    requires d != [] && 1 <= at <= |d|
    ensures r.Some? ==> at <= r.value.at <= |d|
  {
    var cmd := d[0];
    var c0 := TakeOperand(d, Some(Cursor(0, at)), Bit(cmd, 0x10), 1);
    var c1 := TakeOperand(d, c0, Bit(cmd, 0x20), 0x100);
    TakeOperand(d, c1, Bit(cmd, 0x40), 0x1_0000)
  }

  /** The first instruction of a stream. */
  function ReadOp(d: seq<byte>): (r: Read<Op>)
    requires d != []
    ensures r.Read? ==> 1 <= r.length <= |d|
  {
    var cmd := d[0];
    if cmd >= 0x80 then
      match ReadOffset(d)
      case None => Bad
      case Some(Cursor(off, at)) =>
        match ReadLength(d, at)
        case None => Bad
        case Some(Cursor(len, end)) => Read(Copy(off, if len == 0 then 0x1_0000 else len), end)
    else if cmd == 0 || |d| - 1 < cmd then Bad
    else Read(Insert(d[1..1 + cmd]), 1 + cmd)
  }

  const READ_OP: seq<byte> -> Read<Op> := d => if d == [] then Bad else ReadOp(d)

  /** All instructions of a stream. */
  function Decode(d: seq<byte>): Option<seq<Op>> {
    ReadAll(READ_OP, d)
  }

  // ----- meaning -----

  predicate InRange(base: seq<byte>, op: Op) {
    op.Copy? ==> op.off + op.len <= |base|
  }

  function Piece(base: seq<byte>, op: Op): seq<byte> {
    match op
    case Copy(off, len) => if off + len <= |base| then base[off..off + len] else []
    case Insert(bytes) => bytes
  }

  function InRangeOf(base: seq<byte>): Op -> bool { op => InRange(base, op) }

  function PieceOf(base: seq<byte>): Op -> seq<byte> { op => Piece(base, op) }

  /** The text a list of instructions produces. */
  function Expand(base: seq<byte>, ops: seq<Op>): seq<byte> {
    WriteAll(PieceOf(base), ops)
  }

  /**
   * The meaning of a delta: its headers must give the sizes of the base and
   * of the result, its stream must decode, and every copy must lie in the base.
   */
  function Meaning(base: seq<byte>, delta: seq<byte>): Option<seq<byte>> {
    match ReadHeader(delta, 0)
    case BadHeader => None
    case Header(baseSize, n) =>
      if baseSize != |base| then None
      else
        match ReadHeader(delta[n..], 0)
        case BadHeader => None
        case Header(resSize, m) => Outcome(READ_OP, InRangeOf(base), PieceOf(base), delta[n..][m..], [], resSize)
  }

  // ----- the stream an encoder writes -----

  predicate AllEncodable(ops: seq<Op>) {
    forall k :: 0 <= k < |ops| ==> Encodable(ops[k])
  }

  const WRITE_OP: Op -> seq<byte> := op => OpBytes(op)

  function Stream(ops: seq<Op>): seq<byte> {
    WriteAll(WRITE_OP, ops)
  }

  /** What is written for one instruction is read back as that instruction, whatever follows it. */
  lemma OpRoundTrip(op: Op, rest: seq<byte>)
    requires Encodable(op)
    ensures ReadOp(OpBytes(op) + rest) == Read(op, |OpBytes(op)|)
  {
    match op
    case Copy(off, len) => CopyRoundTrip(off, len, rest);
    case Insert(bytes) => assert (OpBytes(op) + rest)[1..1 + |bytes|] == bytes;
  }

  /** An operand byte of a copy command, and whether the command says that it is there. */
  datatype Slot = Slot(given: bool, b: byte)

  function Given(s: Slot): seq<byte> { if s.given then [s.b] else [] }

  function Worth(s: Slot): nat { if s.given then s.b else 0 }

  function Mark(given: bool, mask: nat): nat { if given then mask else 0 }

  /** The command byte of a copy: one bit for each of four offset bytes and three length bytes. */
  function Marks(f0: bool, f1: bool, f2: bool, f3: bool, f4: bool, f5: bool, f6: bool): (c: byte)
    ensures 0x80 <= c
  {
    0x80 + Mark(f0, 0x01) + Mark(f1, 0x02) + Mark(f2, 0x04) + Mark(f3, 0x08) + Mark(f4, 0x10) + Mark(f5, 0x20) + Mark(f6, 0x40)
  }

  function Command(o: seq<Slot>, l: seq<Slot>): byte
    requires |o| == 4 && |l| == 3
  {
    Marks(o[0].given, o[1].given, o[2].given, o[3].given, l[0].given, l[1].given, l[2].given)
  }

  /** The command and the operands that are there, offset first, each number from its low byte up. */
  function CommandBytes(o: seq<Slot>, l: seq<Slot>): seq<byte>
    requires |o| == 4 && |l| == 3
  {
    [Command(o, l)] + Given(o[0]) + Given(o[1]) + Given(o[2]) + Given(o[3]) + Given(l[0]) + Given(l[1]) + Given(l[2])
  }

  lemma OffsetBits(f0: bool, f1: bool, f2: bool, f3: bool, f4: bool, f5: bool, f6: bool)
    ensures var c := Marks(f0, f1, f2, f3, f4, f5, f6);
            (Bit(c, 0x01) <==> f0) && (Bit(c, 0x02) <==> f1) && (Bit(c, 0x04) <==> f2) && (Bit(c, 0x08) <==> f3)
  {}

  lemma LengthBits(f0: bool, f1: bool, f2: bool, f3: bool, f4: bool, f5: bool, f6: bool)
    ensures var c := Marks(f0, f1, f2, f3, f4, f5, f6); (Bit(c, 0x10) <==> f4) && (Bit(c, 0x20) <==> f5) && (Bit(c, 0x40) <==> f6)
  {}

  lemma CommandBits(o: seq<Slot>, l: seq<Slot>)
    requires |o| == 4 && |l| == 3
    ensures
      var c := Command(o, l);
      && (Bit(c, 0x01) <==> o[0].given) && (Bit(c, 0x02) <==> o[1].given) && (Bit(c, 0x04) <==> o[2].given)
      && (Bit(c, 0x08) <==> o[3].given) && (Bit(c, 0x10) <==> l[0].given) && (Bit(c, 0x20) <==> l[1].given)
      && (Bit(c, 0x40) <==> l[2].given)
  {
    OffsetBits(o[0].given, o[1].given, o[2].given, o[3].given, l[0].given, l[1].given, l[2].given);
    LengthBits(o[0].given, o[1].given, o[2].given, o[3].given, l[0].given, l[1].given, l[2].given);
  }

  /** Operands laid end to end are taken one by one. */
  lemma TakeGiven(before: seq<byte>, s: Slot, after: seq<byte>, v: nat, weight: nat)
    ensures TakeOperand(before + Given(s) + after, Some(Cursor(v, |before|)), s.given, weight)
         == Some(Cursor(v + weight * Worth(s), |before + Given(s)|))
  {
    if s.given {
      assert (before + Given(s) + after)[|before|] == s.b;
    }
  }

  lemma TakePair(before: seq<byte>, s: Slot, t: Slot, after: seq<byte>, v: nat, ws: nat, wt: nat)
    ensures
      var d := before + Given(s) + Given(t) + after;
      var first := TakeOperand(d, Some(Cursor(v, |before|)), s.given, ws);
      TakeOperand(d, first, t.given, wt) == Some(Cursor(v + ws * Worth(s) + wt * Worth(t), |before + Given(s) + Given(t)|))
  {
    assert before + Given(s) + Given(t) + after == before + Given(s) + (Given(t) + after);
    TakeGiven(before, s, Given(t) + after, v, ws);
    TakeGiven(before + Given(s), t, after, v + ws * Worth(s), wt);
  }

  lemma OffsetRead(cmd: byte, o: seq<Slot>, l: seq<Slot>, rest: seq<byte>)
    requires |o| == 4 && |l| == 3 && cmd == Command(o, l)
    ensures ReadOffset([cmd] + Given(o[0]) + Given(o[1]) + Given(o[2]) + Given(o[3]) + rest)
         == Some(Cursor(Worth(o[0]) + 0x100 * Worth(o[1]) + 0x1_0000 * Worth(o[2]) + 0x100_0000 * Worth(o[3]),
                        |[cmd] + Given(o[0]) + Given(o[1]) + Given(o[2]) + Given(o[3])|))
  {
    var half := [cmd] + Given(o[0]) + Given(o[1]);
    var d := half + Given(o[2]) + Given(o[3]) + rest;
    CommandBits(o, l);
    assert d[0] == cmd;
    assert d == half + (Given(o[2]) + Given(o[3]) + rest);
    TakePair([cmd], o[0], o[1], Given(o[2]) + Given(o[3]) + rest, 0, 1, 0x100);
    TakePair(half, o[2], o[3], rest, Worth(o[0]) + 0x100 * Worth(o[1]), 0x1_0000, 0x100_0000);
  }

  lemma LengthRead(before: seq<byte>, o: seq<Slot>, l: seq<Slot>, rest: seq<byte>)
    requires |o| == 4 && |l| == 3 && before != [] && before[0] == Command(o, l)
    ensures ReadLength(before + Given(l[0]) + Given(l[1]) + Given(l[2]) + rest, |before|)
         == Some(Cursor(Worth(l[0]) + 0x100 * Worth(l[1]) + 0x1_0000 * Worth(l[2]),
                        |before + Given(l[0]) + Given(l[1]) + Given(l[2])|))
  {
    var two := before + Given(l[0]) + Given(l[1]);
    var d := two + Given(l[2]) + rest;
    CommandBits(o, l);
    assert d[0] == before[0];
    assert d == two + (Given(l[2]) + rest);
    TakePair(before, l[0], l[1], Given(l[2]) + rest, 0, 1, 0x100);
    TakeGiven(two, l[2], rest, Worth(l[0]) + 0x100 * Worth(l[1]), 0x1_0000);
  }

  /** Every copy command, with whichever operands, is read as the numbers its operands make up; length 0 stands for 0x10000. */
  lemma CommandRead(o: seq<Slot>, l: seq<Slot>, rest: seq<byte>)
    requires |o| == 4 && |l| == 3
    ensures
      var off := Worth(o[0]) + 0x100 * Worth(o[1]) + 0x1_0000 * Worth(o[2]) + 0x100_0000 * Worth(o[3]);
      var len := Worth(l[0]) + 0x100 * Worth(l[1]) + 0x1_0000 * Worth(l[2]);
      ReadOp(CommandBytes(o, l) + rest) == Read(Copy(off, if len == 0 then 0x1_0000 else len), |CommandBytes(o, l)|)
  {
    var before := [Command(o, l)] + Given(o[0]) + Given(o[1]) + Given(o[2]) + Given(o[3]);
    LengthLast(before, Given(l[0]), Given(l[1]), Given(l[2]), rest);
    OffsetRead(Command(o, l), o, l, Given(l[0]) + Given(l[1]) + Given(l[2]) + rest);
    LengthRead(before, o, l, rest);
    CopyReads(CommandBytes(o, l) + rest, |before|, |CommandBytes(o, l)|);
  }

  lemma LengthLast<T>(before: seq<T>, a: seq<T>, b: seq<T>, c: seq<T>, rest: seq<T>)
    ensures before + a + b + c + rest == before + (a + b + c + rest)
  {}

  lemma CopyReads(d: seq<byte>, at: nat, end: nat)
    requires d != [] && d[0] >= 0x80 && at <= |d|
    requires ReadOffset(d).Some? && ReadOffset(d).value.at == at && ReadLength(d, at).Some? && ReadLength(d, at).value.at == end
    ensures var len := ReadLength(d, at).value.value;
            ReadOp(d) == Read(Copy(ReadOffset(d).value.value, if len == 0 then 0x1_0000 else len), end)
  {}

  /** One if the command announces the operand of that bit. */
  function Announced(cmd: nat, mask: nat): nat
    requires mask > 0
  {
    if Bit(cmd, mask) then 1 else 0
  }

  lemma OffsetFails(d: seq<byte>)
    requires d != []
    ensures var n := Announced(d[0], 0x01) + Announced(d[0], 0x02) + Announced(d[0], 0x04) + Announced(d[0], 0x08);
            (ReadOffset(d).None? <==> 1 + n > |d|) && (ReadOffset(d).Some? ==> ReadOffset(d).value.at == 1 + n)
  {}

  lemma LengthFails(d: seq<byte>, at: nat)
    requires d != [] && 1 <= at <= |d|
    ensures var n := Announced(d[0], 0x10) + Announced(d[0], 0x20) + Announced(d[0], 0x40);
            ReadLength(d, at).None? <==> at + n > |d|
  {}

  /** An instruction is bad exactly if it is the reserved zero, or if its literals or the operands it announces are not all there. */
  lemma ReadFails(d: seq<byte>)
    requires d != []
    ensures var offsets := Announced(d[0], 0x01) + Announced(d[0], 0x02) + Announced(d[0], 0x04) + Announced(d[0], 0x08);
            var lengths := Announced(d[0], 0x10) + Announced(d[0], 0x20) + Announced(d[0], 0x40);
            ReadOp(d).Bad? <==> d[0] == 0 || |d| < 1 + if d[0] < 0x80 then d[0] else offsets + lengths
  {
    OffsetFails(d);
    if ReadOffset(d).Some? {
      LengthFails(d, ReadOffset(d).value.at);
    }
  }

  function SlotOf(b: byte): Slot { Slot(b != 0, b) }

  /** What the encoder writes gives exactly the operands that are not zero. */
  lemma CopyIsCommand(b0: byte, b1: byte, b2: byte, b3: byte, l0: byte, l1: byte)
    ensures CopyBytes(b0, b1, b2, b3, l0, l1) ==
            CommandBytes([SlotOf(b0), SlotOf(b1), SlotOf(b2), SlotOf(b3)], [SlotOf(l0), SlotOf(l1), SlotOf(0)])
  {
    assert Given(SlotOf(0)) == [];
    assert Given(SlotOf(b0)) == Operand(b0) && Given(SlotOf(b1)) == Operand(b1) && Given(SlotOf(b2)) == Operand(b2);
    assert Given(SlotOf(b3)) == Operand(b3) && Given(SlotOf(l0)) == Operand(l0) && Given(SlotOf(l1)) == Operand(l1);
  }

  lemma CopyRead(b0: byte, b1: byte, b2: byte, b3: byte, l0: byte, l1: byte, rest: seq<byte>)
    ensures
      var s := CopyBytes(b0, b1, b2, b3, l0, l1);
      var len := if l0 + 0x100 * l1 == 0 then 0x1_0000 else l0 + 0x100 * l1;
      ReadOp(s + rest) == Read(Copy(b0 + 0x100 * b1 + 0x1_0000 * b2 + 0x100_0000 * b3, len), |s|)
  {
    CopyIsCommand(b0, b1, b2, b3, l0, l1);
    CommandRead([SlotOf(b0), SlotOf(b1), SlotOf(b2), SlotOf(b3)], [SlotOf(l0), SlotOf(l1), SlotOf(0)], rest);
  }

  lemma CopyRoundTrip(off: nat, len: nat, rest: seq<byte>)
    requires Encodable(Copy(off, len))
    ensures ReadOp(OpBytes(Copy(off, len)) + rest) == Read(Copy(off, len), |OpBytes(Copy(off, len))|)
  {
    CopyRead(Byte0(off), Byte1(off), Byte2(off), Byte3(off), Byte0(len), Byte1(len), rest);
    BytesRebuild(off);
    BytesRebuild(len);
  }

  /** Every list of instructions an encoder can emit survives writing and reading. */
  lemma StreamRoundTrip(ops: seq<Op>)
    requires AllEncodable(ops)
    ensures Decode(Stream(ops)) == Some(ops)
  {
    forall k, rest: seq<byte> | 0 <= k < |ops| ensures ReadsBackAt(READ_OP, WRITE_OP, ops[k], rest) {
      OpRoundTrip(ops[k], rest);
    }
    ReadAllWritten(READ_OP, WRITE_OP, ops);
  }

  /** Headers followed by a written stream mean what the instructions produce. */
  lemma WrittenMeaning(base: seq<byte>, ops: seq<Op>)
    requires AllEncodable(ops) && All(InRangeOf(base), ops)
    requires |base| < 0x8000_0000 && |Expand(base, ops)| < 0x8000_0000
    ensures Meaning(base, HeaderBytes(|base|) + HeaderBytes(|Expand(base, ops)|) + Stream(ops))
         == Some(Expand(base, ops))
  {
    var h0, h1, s := HeaderBytes(|base|), HeaderBytes(|Expand(base, ops)|), Stream(ops);
    var delta := h0 + h1 + s;
    assert delta == h0 + (h1 + s);
    HeaderRoundTrip(|base|, 0, h1 + s);
    assert delta[|h0|..] == h1 + s;
    HeaderRoundTrip(|Expand(base, ops)|, 0, s);
    assert (h1 + s)[|h1|..] == s;
    StreamRoundTrip(ops);
    assert [] + Expand(base, ops) == Expand(base, ops);
  }
}
