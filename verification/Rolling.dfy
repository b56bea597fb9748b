/**
 * Rolling values in general: bytes enter one at a time, each by a step that is
 * linear for some "exclusive or", and an old byte is cancelled by adding what
 * it has become.
 */
module Rolling {

  type byte = bv8

  datatype Machine<!W> = Machine(xor: (W, W) -> W, step: (W, byte) -> W, zero: W)

  predicate StepLinearAt<W(==)>(m: Machine<W>, v: W, w: W, b: byte) {
    m.step(m.xor(v, w), b) == m.xor(m.step(v, b), m.step(w, 0))
  }

  predicate CancelsAt<W(==)>(m: Machine<W>, v: W, w: W) {
    m.xor(m.xor(v, w), w) == v
  }

  predicate ZeroAt<W(==)>(m: Machine<W>, v: W) {
    m.xor(m.zero, v) == v
  }

  ghost predicate Lawful<W(!new)>(m: Machine<W>) {
    && (forall v, w, b: byte :: StepLinearAt(m, v, w, b))
    && (forall v, w :: CancelsAt(m, v, w))
    && (forall v :: ZeroAt(m, v))
  }

  /** The value after all of `s` has entered, oldest byte first. */
  function Fold<W>(m: Machine<W>, v: W, s: seq<byte>): W
    decreases |s|
  {
    if s == [] then v else m.step(Fold(m, v, s[..|s| - 1]), s[|s| - 1])
  }

  /** `w` after `n` zero bytes have entered behind it. */
  function Push<W>(m: Machine<W>, w: W, n: nat): W
    decreases n
  {
    if n == 0 then w else m.step(Push(m, w, n - 1), 0)
  }

  /** What was there before `s` entered contributes independently of `s`. */
  lemma {:induction false} FoldXor<W(!new)>(m: Machine<W>, v: W, w: W, s: seq<byte>)
    requires Lawful(m)
    ensures Fold(m, m.xor(v, w), s) == m.xor(Fold(m, v, s), Push(m, w, |s|))
    decreases |s|
  {
    if s != [] {
      var front := s[..|s| - 1];
      FoldXor(m, v, w, front);
      assert StepLinearAt(m, Fold(m, v, front), Push(m, w, |front|), s[|s| - 1]);
    }
  }

  lemma {:induction false} PushXor<W(!new)>(m: Machine<W>, v: W, w: W, n: nat)
    requires Lawful(m)
    ensures Push(m, m.xor(v, w), n) == m.xor(Push(m, v, n), Push(m, w, n))
    decreases n
  {
    if n > 0 {
      PushXor(m, v, w, n - 1);
      assert StepLinearAt(m, Push(m, v, n - 1), Push(m, w, n - 1), 0);
    }
  }

  lemma {:induction false} PushMore<W>(m: Machine<W>, w: W, k: nat, n: nat)
    ensures Push(m, Push(m, w, k), n) == Push(m, w, k + n)
    decreases n
  {
    if n > 0 {
      PushMore(m, w, k, n - 1);
    }
  }

  /** Values that follow from one another by `k` zero bytes each. */
  ghost predicate Stages<W>(m: Machine<W>, s: seq<W>, k: nat) {
    forall j :: 0 < j < |s| ==> s[j] == Push(m, s[j - 1], k)
  }

  lemma {:induction false} PushStages<W>(m: Machine<W>, s: seq<W>, k: nat, n: nat)
    requires Stages(m, s, k) && n < |s|
    ensures Push(m, s[0], k * n) == s[n]
    decreases n
  {
    if n > 0 {
      PushStages(m, s, k, n - 1);
      PushMore(m, s[0], k * (n - 1), k);
      assert k * (n - 1) + k == k * n;
    }
  }

  lemma {:induction false} FoldFront<W>(m: Machine<W>, v: W, b: byte, s: seq<byte>)
    ensures Fold(m, v, [b] + s) == Fold(m, m.step(v, b), s)
    decreases |s|
  {
    if s == [] {
      assert ([b] + s)[..0] == [];
    } else {
      FoldFront(m, v, b, s[..|s| - 1]);
      assert ([b] + s)[..|s|] == [b] + s[..|s| - 1];
    }
  }

  lemma {:induction false} FoldConcat<W>(m: Machine<W>, v: W, s: seq<byte>, t: seq<byte>)
    ensures Fold(m, v, s + t) == Fold(m, Fold(m, v, s), t)
    decreases |t|
  {
    if t == [] {
      assert s + t == s;
    } else {
      FoldConcat(m, v, s, t[..|t| - 1]);
      assert (s + t)[..|s + t| - 1] == s + t[..|t| - 1];
    }
  }

  /**
   * Sliding agrees with starting over: cancel the oldest byte of a window as
   * it now stands, let a new byte enter, and the value is that of the window
   * one place on, computed from nothing.
   */
  lemma SlideIsFold<W(!new)>(m: Machine<W>, w: seq<byte>, newest: byte)
    requires Lawful(m) && w != []
    ensures m.step(m.xor(Fold(m, m.zero, w), Push(m, m.step(m.zero, w[0]), |w| - 1)), newest)
         == Fold(m, m.zero, w[1..] + [newest])
  {
    var rest := w[1..];
    var entered := m.step(m.zero, w[0]);
    assert w == [w[0]] + rest;
    FoldFront(m, m.zero, w[0], rest);
    assert ZeroAt(m, entered);
    FoldXor(m, m.zero, entered, rest);
    assert CancelsAt(m, Fold(m, m.zero, rest), Push(m, entered, |rest|));
    assert (rest + [newest])[..|rest|] == rest;
  }

  // ----- linear tables, a nibble at a time -----

  predicate SplitsAt<W(==)>(t: byte -> W, xor: (W, W) -> W, x: byte) {
    t(x) == xor(t(x & 0xf0), t(x & 0x0f))
  }

  predicate LinearAt<W(==)>(t: byte -> W, xor: (W, W) -> W, x: byte, y: byte) {
    t(x ^ y) == xor(t(x), t(y))
  }

  predicate SwapsAt<W(==)>(xor: (W, W) -> W, a: W, b: W, c: W, d: W) {
    xor(xor(a, b), xor(c, d)) == xor(xor(a, c), xor(b, d))
  }

  ghost predicate Linear<W>(t: byte -> W, xor: (W, W) -> W) {
    forall x: byte, y: byte :: LinearAt(t, xor, x, y)
  }

  lemma NibbleXor(x: byte, y: byte)
    ensures (x ^ y) & 0xf0 == (x & 0xf0) ^ (y & 0xf0)
    ensures (x ^ y) & 0x0f == (x & 0x0f) ^ (y & 0x0f)
    ensures (x & 0xf0) & 0x0f == 0 && x & 0x0f < 16
  {}

  /** Linear within the first row and the first column, and every entry their sum: linear everywhere. */
  lemma NibbleLinearIsLinear<W(!new)>(t: byte -> W, xor: (W, W) -> W)
    requires forall a, b, c, d :: SwapsAt(xor, a, b, c, d)
    requires forall x: byte :: SplitsAt(t, xor, x)
    requires forall x: byte, y: byte :: x < 16 && y < 16 ==> LinearAt(t, xor, x, y)
    requires forall x: byte, y: byte :: x & 0x0f == 0 && y & 0x0f == 0 ==> LinearAt(t, xor, x, y)
    ensures Linear(t, xor)
  {
    forall x: byte, y: byte ensures LinearAt(t, xor, x, y) {
      NibbleXor(x, y);
      NibbleXor(y, x);
      assert SplitsAt(t, xor, x) && SplitsAt(t, xor, y) && SplitsAt(t, xor, x ^ y);
      assert LinearAt(t, xor, x & 0xf0, y & 0xf0);
      assert LinearAt(t, xor, x & 0x0f, y & 0x0f);
      assert SwapsAt(xor, t(x & 0xf0), t(y & 0xf0), t(x & 0x0f), t(y & 0x0f));
    }
  }

  /** `u` gives what the byte `x` has become after `n` more bytes. */
  predicate AgesAt<W(==)>(m: Machine<W>, u: byte -> W, into: byte -> W, n: nat, x: byte) {
    u(x) == Push(m, into(x), n)
  }

  lemma AgesJoin<W(!new)>(m: Machine<W>, u: byte -> W, into: byte -> W, n: nat, x: byte, y: byte)
    requires Lawful(m) && Linear(u, m.xor) && Linear(into, m.xor)
    requires AgesAt(m, u, into, n, x) && AgesAt(m, u, into, n, y)
    ensures AgesAt(m, u, into, n, x ^ y)
  {
    assert LinearAt(u, m.xor, x, y) && LinearAt(into, m.xor, x, y);
    PushXor(m, into(x), into(y), n);
  }

  predicate SingleBit(b: byte) {
    b == 0x01 || b == 0x02 || b == 0x04 || b == 0x08 || b == 0x10 || b == 0x20 || b == 0x40 || b == 0x80
  }

  /** Adding one more bit of `x` to the part of `x` below it. */
  lemma AgesBit<W(!new)>(m: Machine<W>, u: byte -> W, into: byte -> W, n: nat, x: byte, bit: byte)
    requires Lawful(m) && Linear(u, m.xor) && Linear(into, m.xor)
    requires forall b: byte :: SingleBit(b) ==> AgesAt(m, u, into, n, b)
    requires SingleBit(bit) && AgesAt(m, u, into, n, x & (bit - 1))
    ensures AgesAt(m, u, into, n, x & (bit | (bit - 1)))
  {
    BitAdds(x, bit);
    if x & bit != 0 {
      AgesJoin(m, u, into, n, x & (bit - 1), bit);
    }
  }

  lemma BitAdds(x: byte, bit: byte)
    requires SingleBit(bit)
    ensures x & bit != 0 ==> x & (bit | (bit - 1)) == (x & (bit - 1)) ^ bit
    ensures x & bit == 0 ==> x & (bit | (bit - 1)) == x & (bit - 1)
  {}

  /** A linear table that is right on single bits is right on every byte. */
  lemma AgesEverywhere<W(!new)>(m: Machine<W>, u: byte -> W, into: byte -> W, n: nat, x: byte)
    requires Lawful(m) && Linear(u, m.xor) && Linear(into, m.xor)
    requires forall b: byte :: SingleBit(b) ==> AgesAt(m, u, into, n, b)
    ensures AgesAt(m, u, into, n, x)
  {
    assert SingleBit(0x01);
    AgesJoin(m, u, into, n, 0x01, 0x01);
    assert (0x01 as byte) ^ 0x01 == 0 && x & 0x00 == 0;
    AgesBit(m, u, into, n, x, 0x01);
    AgesBit(m, u, into, n, x, 0x02);
    AgesBit(m, u, into, n, x, 0x04);
    AgesBit(m, u, into, n, x, 0x08);
    AgesBit(m, u, into, n, x, 0x10);
    AgesBit(m, u, into, n, x, 0x20);
    AgesBit(m, u, into, n, x, 0x40);
    AgesBit(m, u, into, n, x, 0x80);
    assert x & 0xff == x;
  }

  // ----- shift registers with a reduction table -----

  /** `shift` lets a byte in at the bottom; `top` is what a shift loses, reduced by a table. */
  datatype Register<!W> = Register(xor: (W, W) -> W, shift: (W, byte) -> W, top: W -> byte, zero: W)

  function Reducing<W>(r: Register<W>, t: byte -> W): Machine<W> {
    Machine(r.xor, (v, b) => r.xor(r.shift(v, b), t(r.top(v))), r.zero)
  }

  predicate ShiftLinearAt<W(==)>(r: Register<W>, v: W, w: W, b: byte) {
    && r.shift(r.xor(v, w), b) == r.xor(r.shift(v, b), r.shift(w, 0))
    && r.top(r.xor(v, w)) == r.top(v) ^ r.top(w)
  }

  ghost predicate Regular<W(!new)>(r: Register<W>) {
    && (forall v, w, b: byte :: ShiftLinearAt(r, v, w, b))
    && (forall a, b, c, d :: SwapsAt(r.xor, a, b, c, d))
    && (forall v, w :: r.xor(r.xor(v, w), w) == v)
    && (forall v :: r.xor(r.zero, v) == v)
  }

  lemma ReducingIsLawful<W(!new)>(r: Register<W>, t: byte -> W)
    requires Regular(r) && Linear(t, r.xor)
    ensures Lawful(Reducing(r, t))
  {
    var m := Reducing(r, t);
    forall v, w, b: byte ensures StepLinearAt(m, v, w, b) {
      assert ShiftLinearAt(r, v, w, b);
      assert LinearAt(t, r.xor, r.top(v), r.top(w));
      assert SwapsAt(r.xor, r.shift(v, b), r.shift(w, 0), t(r.top(v)), t(r.top(w)));
    }
    forall v, w ensures CancelsAt(m, v, w) {}
    forall v ensures ZeroAt(m, v) {}
  }
}
