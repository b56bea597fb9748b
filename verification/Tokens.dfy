/**
 * Streams of self-delimiting tokens: writing a list of tokens end to end and
 * reading it back one at a time.
 */
module Tokens {
  import opened Common
  import opened Sequences

  /** What reading the front of a stream gives: a token and the number of symbols it took. */
  datatype Read<+T> = Bad | Read(token: T, length: nat)

  /** All tokens of a stream, or `None` if some part of it is not a token. */
  function ReadAll<S, T>(read: seq<S> -> Read<T>, d: seq<S>): Option<seq<T>>
    decreases |d|
  {
    if d == [] then Some([])
    else
      match read(d)
      case Bad => None
      case Read(token, n) =>
        if n == 0 || n > |d| then None
        else
          match ReadAll(read, d[n..])
          case None => None
          case Some(rest) => Some([token] + rest)
  }

  /** The tokens written end to end. */
  function WriteAll<S, T>(write: T -> seq<S>, ts: seq<T>): seq<S>
    decreases |ts|
  {
    if ts == [] then [] else WriteAll(write, ts[..|ts| - 1]) + write(ts[|ts| - 1])
  }

  /** A written token is read back, with its own length, in front of `rest`. */
  predicate ReadsBackAt<S, T(==)>(read: seq<S> -> Read<T>, write: T -> seq<S>, t: T, rest: seq<S>) {
    |write(t)| > 0 && read(write(t) + rest) == Read(t, |write(t)|)
  }

  /** Each of the tokens is read back, whatever follows it. */
  ghost predicate ReadBack<S(!new), T>(read: seq<S> -> Read<T>, write: T -> seq<S>, ts: seq<T>) {
    forall k, rest :: 0 <= k < |ts| ==> ReadsBackAt(read, write, ts[k], rest)
  }

  lemma ReadAllFirst<S(!new), T>(read: seq<S> -> Read<T>, write: T -> seq<S>, t: T, rest: seq<S>)
    requires ReadsBackAt(read, write, t, rest) && ReadAll(read, rest).Some?
    ensures ReadAll(read, write(t) + rest) == Some([t] + ReadAll(read, rest).value)
  {
    assert (write(t) + rest)[|write(t)|..] == rest;
  }

  lemma FrontReadBack<S(!new), T>(read: seq<S> -> Read<T>, write: T -> seq<S>, ts: seq<T>)
    requires ReadBack(read, write, ts) && ts != []
    ensures ReadBack(read, write, ts[..|ts| - 1])
  {
    var front := ts[..|ts| - 1];
    forall k, r | 0 <= k < |front| ensures ReadsBackAt(read, write, front[k], r) {
      assert ReadsBackAt(read, write, ts[k], r);
    }
  }

  lemma {:induction false} ReadAllAppend<S(!new), T>(
    read: seq<S> -> Read<T>, write: T -> seq<S>, ts: seq<T>, rest: seq<S>)
    requires ReadBack(read, write, ts) && ReadAll(read, rest).Some?
    ensures ReadAll(read, WriteAll(write, ts) + rest) == Some(ts + ReadAll(read, rest).value)
    decreases |ts|
  {
    if ts == [] {
      assert WriteAll(write, ts) + rest == rest;
      assert ts + ReadAll(read, rest).value == ReadAll(read, rest).value;
    } else {
      var front, last := ts[..|ts| - 1], ts[|ts| - 1];
      FrontReadBack(read, write, ts);
      assert ReadsBackAt(read, write, last, rest);
      ReadAllFirst(read, write, last, rest);
      ReadAllAppend(read, write, front, write(last) + rest);
      Associative(WriteAll(write, front), write(last), rest);
      Associative(front, [last], ReadAll(read, rest).value);
      assert front + [last] == ts;
    }
  }

  lemma ReadAllWritten<S(!new), T>(read: seq<S> -> Read<T>, write: T -> seq<S>, ts: seq<T>)
    requires ReadBack(read, write, ts)
    ensures ReadAll(read, WriteAll(write, ts)) == Some(ts)
  {
    ReadAllAppend(read, write, ts, []);
    assert WriteAll(write, ts) + [] == WriteAll(write, ts);
    assert ts + [] == ts;
  }

  // ----- streams as programs -----

  lemma {:induction false} WriteAllFront<S, T>(write: T -> seq<S>, t: T, ts: seq<T>)
    ensures WriteAll(write, [t] + ts) == write(t) + WriteAll(write, ts)
    decreases |ts|
  {
    var all := [t] + ts;
    if ts == [] {
      assert all == [t] && all[..0] == [];
      assert WriteAll(write, all) == [] + write(t);
    } else {
      var front := ts[..|ts| - 1];
      WriteAllFront(write, t, front);
      assert all[..|ts|] == [t] + front;
      assert all[|ts|] == ts[|ts| - 1];
      assert WriteAll(write, all) == (write(t) + WriteAll(write, front)) + write(ts[|ts| - 1]);
    }
  }

  lemma WriteAllBack<S, T>(write: T -> seq<S>, ts: seq<T>, t: T)
    ensures WriteAll(write, ts + [t]) == WriteAll(write, ts) + write(t)
  {
    assert (ts + [t])[..|ts|] == ts;
  }

  predicate All<T>(ok: T -> bool, ts: seq<T>) {
    forall k :: 0 <= k < |ts| ==> ok(ts[k])
  }

  /**
   * What a stream of instructions produces behind `done`: nothing unless all
   * of it can be read, every instruction is `ok`, and the whole has the given size.
   */
  function Outcome<S, T, B>(read: seq<S> -> Read<T>, ok: T -> bool, piece: T -> seq<B>,
                            d: seq<S>, done: seq<B>, size: nat): Option<seq<B>>
  {
    match ReadAll(read, d)
    case None => None
    case Some(ts) =>
      if All(ok, ts) && |done + WriteAll(piece, ts)| == size then Some(done + WriteAll(piece, ts)) else None
  }

  /** One instruction: a bad or overlong one decides the outcome, a good one moves it along. */
  lemma OutcomeStep<S, T, B>(read: seq<S> -> Read<T>, ok: T -> bool, piece: T -> seq<B>,
                             d: seq<S>, done: seq<B>, size: nat)
    requires d != [] && (read(d).Read? ==> 1 <= read(d).length <= |d|)
    ensures
      match read(d)
      case Bad => Outcome(read, ok, piece, d, done, size) == None
      case Read(t, n) =>
        if ok(t) && |done| + |piece(t)| <= size
        then Outcome(read, ok, piece, d, done, size) == Outcome(read, ok, piece, d[n..], done + piece(t), size)
        else Outcome(read, ok, piece, d, done, size) == None
  {
    match read(d)
    case Bad =>
    case Read(t, n) =>
      if ReadAll(read, d[n..]).Some? {
        var ts := ReadAll(read, d[n..]).value;
        AllFront(ok, t, ts);
        WriteAllFront(piece, t, ts);
        assert done + (piece(t) + WriteAll(piece, ts)) == (done + piece(t)) + WriteAll(piece, ts);
      }
  }

  lemma AllFront<T>(ok: T -> bool, t: T, ts: seq<T>)
    ensures All(ok, [t] + ts) <==> ok(t) && All(ok, ts)
  {
    if All(ok, [t] + ts) {
      assert ok(([t] + ts)[0]);
      forall k | 0 <= k < |ts| ensures ok(ts[k]) { assert ok(([t] + ts)[k + 1]); }
    }
  }

  lemma OutcomeEnd<S, T, B>(read: seq<S> -> Read<T>, ok: T -> bool, piece: T -> seq<B>, done: seq<B>, size: nat)
    ensures Outcome(read, ok, piece, [], done, size) == if |done| == size then Some(done) else None
  {
    assert done + [] == done;
  }
}
