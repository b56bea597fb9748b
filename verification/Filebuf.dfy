/**
 * A file written through a buffer. What has reached the file, followed by
 * what is still in the buffer, is everything that was appended.
 */
module Filebuf {
  import opened Common
  import opened Sequences

  type byte = x: int | 0 <= x < 256

  /** The file being written. Any write may fail, and then only some of its bytes arrive. */
  class Device {
    const fault: nat -> Option<nat>
    var written: seq<byte>
    var calls: nat

    constructor (fault: nat -> Option<nat>)
      ensures this.fault == fault && written == [] && calls == 0
    {
      this.fault, written, calls := fault, [], 0;
    }

    /** No write fails. */
    ghost predicate Faultless() { forall n :: fault(n) == None }

    method Put(data: seq<byte>) returns (ok: bool)
      modifies this
      ensures ok <==> fault(old(calls)) == None
      ensures ok ==> written == old(written) + data
      ensures old(written) <= written <= old(written) + data
    {
      var f := fault(calls);
      calls := calls + 1;
      if f == None {
        written := written + data;
        return true;
      }
      written := written + if f.value < |data| then data[..f.value] else data;
      ok := false;
    }
  }

  /** What a call comes to. `NoBuffer` is a call that needs a buffer where there is none, and the end of it all. */
  datatype Outcome = Done | Failed | NoBuffer

  class Filebuf {
    const dev: Device
    const size: nat
    /** A file that is not to be buffered has none. */
    const buffer: array?<byte>
    var pos: nat
    var failed: bool
    /** Everything that was appended. */
    ghost var log: seq<byte>

    constructor (dev: Device, size: nat, direct: bool)
      requires size > 0
      ensures this.dev == dev && this.size == size && (buffer == null <==> direct) && (!direct ==> fresh(buffer))
      ensures pos == 0 && !failed && log == dev.written && Valid()
    {
      this.dev, this.size := dev, size;
      if direct {
        buffer := null;
      } else {
        buffer := new byte[size];
      }
      pos, failed, log := 0, false, dev.written;
    }

    /** What is in the buffer. */
    ghost function Pending(): seq<byte>
      requires buffer != null ==> pos <= buffer.Length
      reads this, buffer
    {
      if buffer == null then [] else buffer[..pos]
    }

    /** As long as nothing has failed all that was appended is there, in order; afterwards a beginning of it. */
    ghost predicate Valid()
      reads this, dev, buffer
    {
      && 0 < size && (if buffer == null then pos == 0 else buffer.Length == size && pos <= size)
      && dev.written + Pending() <= log
      && (!failed ==> dev.written + Pending() == log)
    }

    /** Copies into the buffer. */
    method AddToCache(data: seq<byte>)
      requires Valid() && buffer != null && pos + |data| <= size && !failed
      modifies this`pos, this`log, buffer
      ensures Valid() && pos == old(pos) + |data| && log == old(log) + data
    {
      forall i | 0 <= i < |data| {
        buffer[pos + i] := data[i];
      }
      assert buffer[..pos + |data|] == old(buffer[..pos]) + data;
      Associative(dev.written, old(buffer[..pos]), data);
      pos := pos + |data|;
      log := log + data;
    }

    /** Hands the buffer to the file; after that it is empty in any case. */
    method FlushBuffer() returns (ok: bool)
      requires Valid()
      modifies this`pos, this`failed, dev
      ensures Valid() && pos == 0 && (failed <==> old(failed) || !ok)
      ensures ok ==> dev.written == old(dev.written) + old(Pending())
      ensures !failed ==> dev.written == log
      ensures old(pos) == 0 || dev.Faultless() ==> ok
    {
      ok := true;
      ghost var before, pending := dev.written, Pending();
      if pos > 0 {
        ok := dev.Put(buffer[..pos]);
        if !ok {
          failed := true;
        }
      }
      Shorter(before, dev.written, pending, log);
      pos := 0;
      assert Pending() == [] && dev.written + [] == dev.written;
    }

    /** Appends data of any length, flushing whenever the buffer is full. */
    method Write(data: seq<byte>) returns (ok: bool)
      requires Valid()
      modifies this`pos, this`failed, this`log, buffer, dev
      ensures Valid() && (ok <==> !failed)
      ensures old(failed) ==> failed && log == old(log) && dev.written == old(dev.written)
      ensures !old(failed) ==> log == old(log) + data && (dev.Faultless() ==> ok)
      ensures ok && buffer == null ==> dev.written == log
    {
      if failed {
        return false;
      }
      if buffer == null {
        ok := WriteDirect(data);
        return;
      }
      ok := WriteCached(data);
    }

    method WriteDirect(data: seq<byte>) returns (ok: bool)
      requires Valid() && !failed && buffer == null
      modifies this`failed, this`log, dev
      ensures Valid() && (ok <==> !failed) && log == old(log) + data
      ensures ok ==> dev.written == log
      ensures dev.Faultless() ==> ok
    {
      assert dev.written + [] == dev.written;
      ok := true;
      if |data| > 0 {
        ok := dev.Put(data);
        failed := !ok;
      }
      log := log + data;
      assert dev.written + [] == dev.written;
    }

    method WriteCached(data: seq<byte>) returns (ok: bool)
      requires Valid() && !failed && buffer != null
      modifies this`pos, this`failed, this`log, buffer, dev
      ensures Valid() && (ok <==> !failed) && log == old(log) + data
      ensures dev.Faultless() ==> ok
    {
      var buf := data;
      ghost var goal := log + data;
      while size - pos <= |buf|
        invariant Valid() && !failed && log + buf == goal
        decreases |buf|, pos
      {
        var space := size - pos;
        SplitAt(log, buf, space);
        AddToCache(buf[..space]);
        buf := buf[space..];
        ok := FlushBuffer();
        if !ok {
          log := goal;
          return;
        }
      }
      AddToCache(buf);
      ok := true;
    }

    /** Room for data in the buffer, which the caller fills in place. */
    method Reserve(data: seq<byte>) returns (r: Outcome)
      requires Valid()
      modifies this`pos, this`failed, this`log, buffer, dev
      ensures Answered(old(failed), old(log), r, data)
      ensures r == NoBuffer <==> !old(failed) && buffer == null && 0 < |data| <= size
      ensures r == Done ==> |data| <= size
      ensures !old(failed) && |data| <= size && dev.Faultless() ==> r != Failed
    {
      if failed {
        return Failed;
      }
      if |data| > size {
        failed := true;
        return Failed;
      }
      if size - pos <= |data| {
        var ok := FlushBuffer();
        if !ok {
          return Failed;
        }
      }
      if buffer == null {
        assert |data| == 0 ==> log + data == log;
        return if |data| == 0 then Done else NoBuffer;
      }
      AddToCache(data);
      r := Done;
    }

    /** What holds after a call with the data it was to append. */
    ghost predicate Answered(failedBefore: bool, logBefore: seq<byte>, r: Outcome, data: seq<byte>)
      reads this, dev, buffer
    {
      && Valid() && (r == Failed <==> failed) && (failedBefore ==> failed)
      && (r == Done ==> log == logBefore + data)
    }

    /** Appends formatted text, or fails if it cannot be formatted. */
    method Printf(formatted: Option<seq<byte>>) returns (r: Outcome)
      requires Valid()
      modifies this`pos, this`failed, this`log, buffer, dev
      ensures Answered(old(failed), old(log), r, if formatted.Some? then formatted.value else [])
      ensures r == NoBuffer <==> !old(failed) && buffer == null
      ensures r == Done ==> formatted.Some?
      ensures !old(failed) && formatted.Some? && dev.Faultless() ==> r != Failed
    {
      if failed {
        return Failed;
      }
      if buffer == null {
        return NoBuffer;
      }
      if formatted.None? {
        failed := true;
        return Failed;
      }
      var data := formatted.value;
      if |data| + 1 <= size - pos {
        AddToCache(data);
        return Done;
      }
      var ok := FlushBuffer();
      if !ok {
        return Failed;
      }
      if |data| + 1 <= size {
        AddToCache(data);
        return Done;
      }
      ok := Write(data);
      r := if ok then Done else Failed;
    }

    /** The file is complete exactly if nothing has ever failed. */
    method Commit() returns (ok: bool)
      requires Valid()
      modifies this`pos, this`failed, dev
      ensures old(failed) ==> !ok
      ensures ok ==> dev.written == log
      ensures !old(failed) && dev.Faultless() ==> ok
    {
      var flushed := FlushBuffer();
      ok := !failed;
    }
  }

  datatype Call = WriteCall(data: seq<byte>) | ReserveCall(data: seq<byte>) | PrintfCall(formatted: Option<seq<byte>>)

  function Data(c: Call): seq<byte> {
    match c
    case WriteCall(data) => data
    case ReserveCall(data) => data
    case PrintfCall(f) => if f.Some? then f.value else []
  }

  function AllData(cs: seq<Call>): seq<byte> {
    if cs == [] then [] else AllData(cs[..|cs| - 1]) + Data(cs[|cs| - 1])
  }

  /** A call that only a buffer can serve. */
  predicate NeedsBuffer(size: nat, c: Call) {
    match c
    case WriteCall(_) => false
    case ReserveCall(data) => 0 < |data| <= size
    case PrintfCall(_) => true
  }

  /** A call that succeeds as long as the disk does its part. */
  predicate Proper(direct: bool, size: nat, c: Call) {
    && !(direct && NeedsBuffer(size, c))
    && (c.ReserveCall? ==> |c.data| <= size)
    && (c.PrintfCall? ==> c.formatted.Some?)
  }

  /** One call. */
  method Invoke(f: Filebuf, c: Call) returns (r: Outcome)
    requires f.Valid()
    modifies f, f.buffer, f.dev
    ensures f.Answered(old(f.failed), old(f.log), r, Data(c))
    ensures r == NoBuffer <==> !old(f.failed) && f.buffer == null && NeedsBuffer(f.size, c)
    ensures r == Done ==> Proper(f.buffer == null, f.size, c)
    ensures !old(f.failed) && Proper(f.buffer == null, f.size, c) && f.dev.Faultless() ==> r == Done
  {
    match c {
      case WriteCall(data) =>
        var ok := f.Write(data);
        r := if ok then Done else Failed;
      case ReserveCall(data) => r := f.Reserve(data);
      case PrintfCall(formatted) => r := f.Printf(formatted);
    }
  }

  ghost predicate AllDone(rs: seq<Outcome>, n: nat) { n <= |rs| && forall k :: 0 <= k < n ==> rs[k] == Done }

  ghost predicate AllProper(direct: bool, size: nat, cs: seq<Call>, n: nat) {
    n <= |cs| && forall k :: 0 <= k < n ==> Proper(direct, size, cs[k])
  }

  /** Where a run stands after some calls; it ends early only at a call that finds no buffer. */
  ghost predicate Running(direct: bool, size: nat, faultless: bool, calls: seq<Call>, rs: seq<Outcome>) {
    && |rs| <= |calls|
    && (forall i :: 0 <= i < |rs| ==>
          (rs[i] == NoBuffer <==> AllDone(rs, i) && direct && NeedsBuffer(size, calls[i])))
    && (forall i, j :: 0 <= i < j < |rs| && rs[i] != Done ==> rs[j] == Failed)
    && (AllDone(rs, |rs|) ==> AllProper(direct, size, calls, |rs|))
    && (faultless && AllProper(direct, size, calls, |rs|) ==> AllDone(rs, |rs|))
  }

  lemma RunningNext(direct: bool, size: nat, faultless: bool, calls: seq<Call>, rs: seq<Outcome>, r: Outcome)
    requires Running(direct, size, faultless, calls, rs) && |rs| < |calls| && NoBuffer !in rs
    requires r == NoBuffer <==> AllDone(rs, |rs|) && direct && NeedsBuffer(size, calls[|rs|])
    requires r == Done ==> AllDone(rs, |rs|) && Proper(direct, size, calls[|rs|])
    requires faultless && AllDone(rs, |rs|) && Proper(direct, size, calls[|rs|]) ==> r == Done
    ensures Running(direct, size, faultless, calls, rs + [r])
    ensures AllDone(rs + [r], |rs| + 1) <==> r == Done
  {
    var now := rs + [r];
    assert forall i :: 0 <= i < |rs| ==> now[i] == rs[i];
    assert forall i :: 0 <= i <= |rs| ==> (AllDone(now, i) <==> AllDone(rs, i));
    assert now[|rs|] == r;
  }

  /**
   * Any calls, and a commit unless one found no buffer. If the commit succeeds
   * the file holds everything in order; a disk without faults makes it succeed
   * exactly for proper calls.
   */
  method WriteAll(f: Filebuf, calls: seq<Call>) returns (results: seq<Outcome>, ok: bool)
    requires f.Valid() && !f.failed
    modifies f, f.buffer, f.dev
    ensures Running(f.buffer == null, f.size, f.dev.Faultless(), calls, results)
    ensures |results| == |calls| || NoBuffer in results
    ensures ok ==> f.dev.written == old(f.log) + AllData(calls) && AllDone(results, |calls|)
    ensures f.dev.Faultless() ==> (ok <==> AllProper(f.buffer == null, f.size, calls, |calls|))
  {
    results := [];
    var i := 0;
    while i < |calls|
      invariant f.Valid() && i == |results| <= |calls| && NoBuffer !in results
      invariant Running(f.buffer == null, f.size, f.dev.Faultless(), calls, results)
      invariant !f.failed <==> AllDone(results, i)
      invariant !f.failed ==> f.log == old(f.log) + AllData(calls[..i])
    {
      assert calls[..i + 1][..i] == calls[..i];
      Associative(old(f.log), AllData(calls[..i]), Data(calls[i]));
      var r := Invoke(f, calls[i]);
      RunningNext(f.buffer == null, f.size, f.dev.Faultless(), calls, results, r);
      results := results + [r];
      i := i + 1;
      if r == NoBuffer {
        return results, false;
      }
    }
    assert calls[..|calls|] == calls;
    ok := f.Commit();
  }

  lemma SplitAt<T>(a: seq<T>, b: seq<T>, n: nat)
    requires n <= |b|
    ensures a + b == a + b[..n] + b[n..]
  {
    assert b == b[..n] + b[n..];
  }

  lemma Shorter<T>(a: seq<T>, b: seq<T>, data: seq<T>, log: seq<T>)
    ensures b <= a + data && a + data <= log ==> b <= log
  {}
}
