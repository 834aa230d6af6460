/**
 fs/pipe.c over device/ioqueue.c: one writer and one reader that take turns in any order, a ring buffer between them,
 and the ends that may be closed. One turn of the read or write loop runs with interrupts off and is one step.
 */
module Pipes {
  import opened Options
  import opened Words

  const BUFSIZE := 2048

  function NextPos(pos: nat): (r: nat)
    ensures pos < BUFSIZE ==> r < BUFSIZE
  {
    (pos + 1) % BUFSIZE
  }

  // ---- The ring ----

  function RingLength(head: nat, tail: nat): int {
    if head >= tail then head - tail else BUFSIZE - (tail - head)
  }

  function RingAt(tail: nat, i: nat): nat {
    (tail + i) % BUFSIZE
  }

  ghost function Ring(buf: seq<byte>, head: nat, tail: nat): seq<byte>
    requires |buf| == BUFSIZE && head < BUFSIZE && tail < BUFSIZE
  {
    seq(RingLength(head, tail), i requires 0 <= i < RingLength(head, tail) => buf[RingAt(tail, i)])
  }

  lemma RingEmptyOrFull(head: nat, tail: nat)
    requires head < BUFSIZE && tail < BUFSIZE
    ensures head == tail <==> RingLength(head, tail) == 0
    ensures NextPos(head) == tail <==> RingLength(head, tail) == BUFSIZE - 1
  {
  }

  lemma RingPut(buf: seq<byte>, head: nat, tail: nat, b: byte)
    requires |buf| == BUFSIZE && head < BUFSIZE && tail < BUFSIZE && NextPos(head) != tail
    ensures Ring(buf[head := b], NextPos(head), tail) == Ring(buf, head, tail) + [b]
  {
    var n := RingLength(head, tail);
    assert RingLength(NextPos(head), tail) == n + 1;
    assert RingAt(tail, n) == head;
    assert forall i: nat :: i < n ==> RingAt(tail, i) != head;
  }

  lemma RingGet(buf: seq<byte>, head: nat, tail: nat)
    requires |buf| == BUFSIZE && head < BUFSIZE && tail < BUFSIZE && head != tail
    ensures Ring(buf, head, tail) == [buf[tail]] + Ring(buf, head, NextPos(tail))
  {
    var n := RingLength(head, tail);
    assert RingLength(head, NextPos(tail)) == n - 1;
    forall i: nat | i < n - 1
      ensures RingAt(NextPos(tail), i) == RingAt(tail, i + 1)
    {
      RingShift(tail, i);
    }
    assert RingAt(tail, 0) == tail;
    var rest := Ring(buf, head, NextPos(tail));
    assert forall i: nat :: i < n - 1 ==> rest[i] == Ring(buf, head, tail)[i + 1];
  }

  lemma RingShift(tail: nat, i: nat)
    requires tail < BUFSIZE && i < BUFSIZE
    ensures RingAt(NextPos(tail), i) == RingAt(tail, i + 1)
  {
  }

  class IoQueue {
    const buf: array<byte>
    var head: nat
    var tail: nat
    /** Whether the writer, and whether the reader, is registered as sleeping. */
    var producer: bool
    var consumer: bool

    ghost predicate Valid()
      reads this
    {
      buf.Length == BUFSIZE && head < BUFSIZE && tail < BUFSIZE
    }

    ghost function Contents(): seq<byte>
      requires Valid()
      reads this, buf
    {
      Ring(buf[..], head, tail)
    }

    constructor ()
      ensures Valid() && fresh(buf) && Contents() == [] && !producer && !consumer
    {
      buf := new byte[BUFSIZE](_ => 0);
      head, tail, producer, consumer := 0, 0, false, false;
    }

    method Full() returns (r: bool)
      requires Valid()
      ensures r <==> |Contents()| == BUFSIZE - 1
    {
      RingEmptyOrFull(head, tail);
      r := NextPos(head) == tail;
    }

    method Empty() returns (r: bool)
      requires Valid()
      ensures r <==> Contents() == []
    {
      RingEmptyOrFull(head, tail);
      r := head == tail;
    }

    /** `ioq_length` */
    method Length() returns (r: nat)
      requires Valid()
      ensures r == |Contents()|
    {
      if head >= tail {
        r := head - tail;
      } else {
        r := BUFSIZE - (tail - head);
      }
    }

    /** `ioq_put_raw`: the byte goes to the end, and a sleeping reader is woken. */
    method Put(b: byte)
      requires Valid() && |Contents()| < BUFSIZE - 1
      modifies `head, `consumer, buf
      ensures Valid() && Contents() == old(Contents()) + [b] && !consumer
    {
      RingEmptyOrFull(head, tail);
      RingPut(buf[..], head, tail, b);
      buf[head] := b;
      assert buf[..] == old(buf[..])[head := b];
      head := NextPos(head);
      if consumer {
        consumer := false;
      }
    }

    /** `ioq_get_raw`: the oldest byte, and a sleeping writer is woken. */
    method Get() returns (b: byte)
      requires Valid() && Contents() != []
      modifies `tail, `producer
      ensures Valid() && old(Contents()) == [b] + Contents() && !producer
    {
      RingEmptyOrFull(head, tail);
      RingGet(buf[..], head, tail);
      b := buf[tail];
      tail := NextPos(tail);
      if producer {
        producer := false;
      }
    }
  }

  // ---- The protocol ----

  datatype Reading = NotReading | Reads(count: nat, done: seq<byte>, asleep: bool)

  datatype Writing = NotWriting | Writes(data: seq<byte>, next: nat, asleep: bool)

  ghost predicate EndsWith(s: seq<byte>, suffix: seq<byte>) {
    |suffix| <= |s| && s[|s| - |suffix|..] == suffix
  }

  lemma EndsWithMore(s: seq<byte>, suffix: seq<byte>, b: byte)
    requires EndsWith(s, suffix)
    ensures EndsWith(s + [b], suffix + [b])
  {
    assert (s + [b])[|s| - |suffix|..] == s[|s| - |suffix|..] + [b];
  }

  /** What a read call has so far are the last bytes taken. */
  ghost predicate ReadsOk(reader: Reading, got: seq<byte>) {
    reader.Reads? ==> |reader.done| <= reader.count && EndsWith(got, reader.done)
  }

  /** What a write call has put so far are the last bytes put. */
  ghost predicate WritesOk(writer: Writing, put: seq<byte>) {
    writer.Writes? ==> writer.next <= |writer.data| && EndsWith(put, writer.data[..writer.next])
  }

  datatype Event =
    | StartRead(count: nat)
    | StartWrite(data: seq<byte>)
    | ReadOn
    | WriteOn
    | Close(readEnd: bool, writeEnd: bool)

  datatype WriteResult = Going | Wrote(n: nat) | BrokenPipe

  function AwakeReader(r: Reading): Reading {
    if r.Reads? then r.(asleep := false) else r
  }

  function AwakeWriter(w: Writing): Writing {
    if w.Writes? then w.(asleep := false) else w
  }

  // ---- The pipe as its users see it ----

  datatype State = State(contents: seq<byte>, readers: nat, writers: nat, reader: Reading, writer: Writing,
                         put: seq<byte>, got: seq<byte>)

  /** What a call returns when it ends. */
  datatype Result = Nothing | ReadDone(bytes: seq<byte>) | WriteDone(n: nat) | Broken

  /** One turn: a side that is awake ends its call, moves a byte or goes to sleep; closing an end wakes both. */
  ghost predicate Turned(s: State, e: Event, r: Result, s': State) {
    match e
    case StartRead(count) =>
      r == Nothing && s' == if s.reader == NotReading then s.(reader := Reads(count, [], false)) else s
    case StartWrite(data) =>
      r == Nothing && s' == if s.writer == NotWriting then s.(writer := Writes(data, 0, false)) else s
    case ReadOn => if s.reader.Reads? && !s.reader.asleep then ReadTurn(s, r, s') else r == Nothing && s' == s
    case WriteOn => if s.writer.Writes? && !s.writer.asleep then WriteTurn(s, r, s') else r == Nothing && s' == s
    case Close(readEnd, writeEnd) =>
      && r == Nothing
      && s' == if (readEnd ==> s.readers > 0) && (writeEnd ==> s.writers > 0) then
                 s.(readers := s.readers - if readEnd then 1 else 0, writers := s.writers - if writeEnd then 1 else 0,
                    reader := AwakeReader(s.reader), writer := AwakeWriter(s.writer))
               else s
  }

  /** A read ends when it has all its bytes, or has some or can get none and the buffer is empty. */
  ghost predicate ReadTurn(s: State, r: Result, s': State)
    requires s.reader.Reads?
  {
    if |s.reader.done| >= s.reader.count || (s.contents == [] && (s.reader.done != [] || s.writers == 0)) then
      r == ReadDone(s.reader.done) && s' == s.(reader := NotReading)
    else
      && r == Nothing
      && s' == if s.contents == [] then s.(reader := s.reader.(asleep := true))
               else s.(contents := s.contents[1..], got := s.got + [s.contents[0]], writer := AwakeWriter(s.writer),
                       reader := s.reader.(done := s.reader.done + [s.contents[0]]))
  }

  /** A write ends when all its bytes are in, or when no read end is open. */
  ghost predicate WriteTurn(s: State, r: Result, s': State)
    requires s.writer.Writes?
  {
    if s.writer.next >= |s.writer.data| then r == WriteDone(|s.writer.data|) && s' == s.(writer := NotWriting)
    else if s.readers == 0 then r == Broken && s' == s.(writer := NotWriting)
    else
      && r == Nothing
      && var b := s.writer.data[s.writer.next];
         s' == if |s.contents| >= BUFSIZE - 1 then s.(writer := s.writer.(asleep := true))
               else s.(contents := s.contents + [b], put := s.put + [b], reader := AwakeReader(s.reader),
                       writer := s.writer.(next := s.writer.next + 1))
  }

  /** No byte is lost or out of order, and a side sleeps only while the other one can change that. */
  ghost predicate Sound(s: State) {
    && s.put == s.got + s.contents && |s.contents| < BUFSIZE
    && (s.reader.Reads? && s.reader.asleep ==> s.contents == [] && s.writers > 0)
    && (s.writer.Writes? && s.writer.asleep ==> |s.contents| == BUFSIZE - 1 && s.readers > 0)
  }

  ghost predicate Turns(trace: seq<State>, events: seq<Event>, results: seq<Result>, n: nat) {
    && n <= |events| && |results| == n && |trace| == n + 1
    && (forall i :: 0 <= i < n ==> Turned(trace[i], events[i], results[i], trace[i + 1]))
    && (forall i :: 0 <= i <= n ==> Sound(trace[i]))
  }

  lemma TurnsNext(trace: seq<State>, events: seq<Event>, results: seq<Result>, n: nat, r: Result, s: State)
    requires Turns(trace, events, results, n) && n < |events| && Turned(trace[n], events[n], r, s) && Sound(s)
    ensures Turns(trace + [s], events, results + [r], n + 1)
  {
  }

  /** The bytes the read calls returned, one call after the other. */
  ghost function Returned(results: seq<Result>): seq<byte> {
    if results == [] then []
    else
      var n := |results| - 1;
      Returned(results[..n]) + if results[n].ReadDone? then results[n].bytes else []
  }

  /** What the read call under way has so far. */
  ghost function Pending(s: State): seq<byte> {
    if s.reader.Reads? then s.reader.done else []
  }

  lemma ReturnedStep(s: State, e: Event, r: Result, s': State, before: seq<byte>, bytes: seq<byte>)
    requires Turned(s, e, r, s') && s.got == before + bytes + Pending(s)
    ensures s'.got == before + (bytes + if r.ReadDone? then r.bytes else []) + Pending(s')
  {
  }

  /** The read calls return every byte that was taken, each once and in order. */
  lemma {:induction false} AllReturned(trace: seq<State>, events: seq<Event>, results: seq<Result>, n: nat, m: nat)
    requires Turns(trace, events, results, n) && m <= n && Pending(trace[0]) == []
    ensures trace[m].got == trace[0].got + Returned(results[..m]) + Pending(trace[m])
  {
    if m > 0 {
      AllReturned(trace, events, results, n, m - 1);
      assert results[..m][..m - 1] == results[..m - 1];
      ReturnedStep(trace[m - 1], events[m - 1], results[m - 1], trace[m], trace[0].got, Returned(results[..m - 1]));
    }
  }

  class Pipe {
    const q: IoQueue
    var readers: nat
    var writers: nat
    var reader: Reading
    var writer: Writing
    /** Every byte put so far, and every byte taken. */
    ghost var put: seq<byte>
    ghost var got: seq<byte>

    /**
     Nothing is lost or reordered. A sleeping reader means an empty buffer with a write end open, a sleeping writer a
     full one with a read end open: whoever can change that will wake it.
     */
    ghost predicate Valid()
      reads this, q, q.buf
    {
      && q.Valid() && put == got + q.Contents()
      && (q.consumer <==> reader.Reads? && reader.asleep) && (q.producer <==> writer.Writes? && writer.asleep)
      && (q.consumer ==> q.Contents() == [] && writers > 0 && reader.done == [] && reader.count > 0)
      && (q.producer ==> |q.Contents()| == BUFSIZE - 1 && readers > 0)
      && ReadsOk(reader, got) && WritesOk(writer, put)
    }

    ghost function Now(): State
      requires Valid()
      reads this, q, q.buf
    {
      State(q.Contents(), readers, writers, reader, writer, put, got)
    }

    constructor (readers: nat, writers: nat)
      ensures Valid() && this.readers == readers && this.writers == writers && reader == NotReading
              && writer == NotWriting
      ensures fresh(q) && fresh(q.buf)
    {
      q := new IoQueue();
      this.readers, this.writers := readers, writers;
      reader, writer, put, got := NotReading, NotWriting, [], [];
    }

    method BeginRead(count: nat)
      requires Valid() && reader == NotReading
      modifies `reader
      ensures Valid() && reader == Reads(count, [], false)
    {
      reader := Reads(count, [], false);
    }

    method BeginWrite(data: seq<byte>)
      requires Valid() && writer == NotWriting
      modifies `writer
      ensures Valid() && writer == Writes(data, 0, false)
    {
      writer := Writes(data, 0, false);
    }

    /** The oldest byte goes to the reader, and a sleeping writer goes on. */
    method TakeByte()
      requires Valid() && reader.Reads? && !reader.asleep && |reader.done| < reader.count && q.Contents() != []
      modifies `reader, `writer, `got, q
      ensures Valid() && got == old(got) + [old(q.Contents())[0]] && q.Contents() == old(q.Contents())[1..]
      ensures reader == old(reader).(done := old(reader).done + [old(q.Contents())[0]])
              && writer == AwakeWriter(old(writer))
    {
      var b := q.Get();
      EndsWithMore(got, reader.done, b);
      reader := reader.(done := reader.done + [b]);
      if writer.Writes? {
        writer := writer.(asleep := false);
      }
      got := got + [b];
    }

    /** One turn of the loop of `pipe_read`; a result when the call ends. */
    method ReadStep() returns (r: Option<seq<byte>>)
      requires Valid() && reader.Reads? && !reader.asleep
      modifies `reader, `writer, `got, q
      ensures Valid() && put == old(put)
      ensures r.Some?
              ==> reader == NotReading && r.value == old(reader).done && got == old(got) && writer == old(writer)
      ensures r.Some? ==> q.Contents() == old(q.Contents())
      ensures r.Some? ==> |r.value| == old(reader).count || (q.Contents() == [] && (r.value != [] || writers == 0))
      ensures r.None? ==> reader.Reads? && |old(reader).done| < old(reader).count
      ensures r.None? && old(q.Contents()) != [] ==>
                && q.Contents() == old(q.Contents())[1..] && got == old(got) + [old(q.Contents())[0]]
                  && writer == AwakeWriter(old(writer))
                && reader == old(reader).(done := old(reader).done + [old(q.Contents())[0]])
      ensures r.None? && old(q.Contents()) == [] ==>
                && q.Contents() == [] && old(reader).done == [] && writers > 0
                && got == old(got) && reader == old(reader).(asleep := true) && writer == old(writer)
    {
      if |reader.done| >= reader.count {
        r := Some(reader.done);
        reader := NotReading;
        return;
      }
      var empty := q.Empty();
      if !empty {
        TakeByte();
        return None;
      }
      if |reader.done| > 0 || writers == 0 {
        r := Some(reader.done);
        reader := NotReading;
        return;
      }
      assert !q.consumer;
      q.consumer := true;
      reader := reader.(asleep := true);
      r := None;
    }

    /** The next byte goes into the buffer, and a sleeping reader goes on. */
    method PutByte()
      requires Valid() && writer.Writes? && !writer.asleep && writer.next < |writer.data|
               && |q.Contents()| < BUFSIZE - 1
      modifies `reader, `writer, `put, q, q.buf
      ensures Valid() && writer == old(writer).(next := old(writer).next + 1)
      ensures put == old(put) + [old(writer).data[old(writer).next]] && reader == AwakeReader(old(reader))
      ensures q.Contents() == old(q.Contents()) + [old(writer).data[old(writer).next]]
    {
      var b := writer.data[writer.next];
      q.Put(b);
      if reader.Reads? {
        reader := reader.(asleep := false);
      }
      EndsWithMore(put, writer.data[..writer.next], b);
      put := put + [b];
      assert writer.data[..writer.next + 1] == writer.data[..writer.next] + [b];
      writer := writer.(next := writer.next + 1);
    }

    /** One turn of the loop of `pipe_write`. */
    method WriteStep() returns (r: WriteResult)
      requires Valid() && writer.Writes? && !writer.asleep
      modifies `reader, `writer, `put, q, q.buf
      ensures Valid() && got == old(got)
      ensures r != Going ==> writer == NotWriting && put == old(put) && reader == old(reader)
      ensures r != Going ==> q.Contents() == old(q.Contents())
      ensures r.Wrote? <==> old(writer).next == |old(writer).data|
      ensures r.Wrote? ==> r.n == |old(writer).data| && EndsWith(put, old(writer).data)
      ensures r == BrokenPipe <==> old(writer).next < |old(writer).data| && readers == 0
      ensures r == Going && |old(q.Contents())| < BUFSIZE - 1 ==>
                && put == old(put) + [old(writer).data[old(writer).next]] && reader == AwakeReader(old(reader))
                && q.Contents() == old(q.Contents()) + [old(writer).data[old(writer).next]]
                && writer == old(writer).(next := old(writer).next + 1)
      ensures r == Going && |old(q.Contents())| == BUFSIZE - 1 ==>
                && put == old(put) && writer == old(writer).(asleep := true) && reader == old(reader)
                && q.Contents() == old(q.Contents())
    {
      if writer.next >= |writer.data| {
        assert writer.data[..writer.next] == writer.data;
        r := Wrote(writer.next);
        writer := NotWriting;
        return;
      }
      if readers == 0 {
        writer := NotWriting;
        return BrokenPipe;
      }
      var full := q.Full();
      if !full {
        PutByte();
      } else {
        assert !q.producer;
        q.producer := true;
        writer := writer.(asleep := true);
      }
      r := Going;
    }

    /** `pipe_release`: an end is closed and both sides look again. */
    method Release(readEnd: bool, writeEnd: bool)
      requires Valid() && (readEnd ==> readers > 0) && (writeEnd ==> writers > 0)
      modifies `readers, `writers, `reader, `writer, q
      ensures Valid() && put == old(put) && got == old(got) && !q.producer && !q.consumer
      ensures q.Contents() == old(q.Contents())
      ensures readers == old(readers) - (if readEnd then 1 else 0)
              && writers == old(writers) - (if writeEnd then 1 else 0)
      ensures reader == AwakeReader(old(reader)) && writer == AwakeWriter(old(writer))
    {
      if readEnd {
        readers := readers - 1;
      }
      if writeEnd {
        writers := writers - 1;
      }
      if q.producer {
        q.producer := false;
        writer := writer.(asleep := false);
      }
      if q.consumer {
        q.consumer := false;
        reader := reader.(asleep := false);
      }
    }

    /** One turn of either side, or the closing of an end. */
    method Step(e: Event) returns (r: Result)
      requires Valid()
      modifies this, q, q.buf
      ensures Valid() && Turned(old(Now()), e, r, Now())
    {
      r := Nothing;
      match e {
        case StartRead(count) =>
          if reader == NotReading {
            BeginRead(count);
          }
        case StartWrite(data) =>
          if writer == NotWriting {
            BeginWrite(data);
          }
        case ReadOn => r := Reader();
        case WriteOn => r := Writer();
        case Close(readEnd, writeEnd) =>
          if (readEnd ==> readers > 0) && (writeEnd ==> writers > 0) {
            Release(readEnd, writeEnd);
          }
      }
    }

    method Reader() returns (r: Result)
      requires Valid()
      modifies this, q
      ensures Valid() && Turned(old(Now()), ReadOn, r, Now())
    {
      r := Nothing;
      if reader.Reads? && !reader.asleep {
        var got := ReadStep();
        if got.Some? {
          r := ReadDone(got.value);
        }
      }
    }

    method Writer() returns (r: Result)
      requires Valid()
      modifies this, q, q.buf
      ensures Valid() && Turned(old(Now()), WriteOn, r, Now())
    {
      r := Nothing;
      if writer.Writes? && !writer.asleep {
        var w := WriteStep();
        r := match w case Going => Nothing case Wrote(n) => WriteDone(n) case BrokenPipe => Broken;
      }
    }

    /**
     Any interleaving, state by state: what each turn does and what the calls return. What was read is, in order, the
     beginning of what was written, the rest is in the buffer, and no wakeup is lost (`AllReturned` says that the
     calls return all that was taken).
     */
    method Interleave(events: seq<Event>) returns (results: seq<Result>, ghost trace: seq<State>)
      requires Valid()
      modifies this, q, q.buf
      ensures Valid() && Turns(trace, events, results, |events|)
      ensures trace[0] == old(Now()) && trace[|events|] == Now()
    {
      results, trace := [], [Now()];
      for i := 0 to |events|
        invariant Valid() && Turns(trace, events, results, i) && trace[0] == old(Now()) && trace[i] == Now()
      {
        var r := Step(events[i]);
        TurnsNext(trace, events, results, i, r, Now());
        results, trace := results + [r], trace + [Now()];
      }
    }

    // ---- Progress ----

    ghost function Unwritten(): nat
      reads this
    {
      if writer.Writes? && writer.next <= |writer.data| then |writer.data| - writer.next else 0
    }

    /** How far the two sides are from sleeping or being done, while no byte moves. */
    ghost function Restless(): nat
      reads this
    {
      (if writer == NotWriting then 0 else if writer.asleep then 1 else 2)
      + (if reader == NotReading then 2 else if reader.done != [] then 3 else if reader.asleep then 0 else 1)
    }

    predicate ReaderRuns()
      reads this
    {
      reader == NotReading || !reader.asleep
    }

    predicate WriterRuns()
      reads this
    {
      writer.Writes? && !writer.asleep
    }

    /** What has become of a write of `data` that started when `put0` had been put. */
    ghost predicate Underway(put0: seq<byte>, data: seq<byte>)
      reads this
    {
      if writer == NotWriting then put == put0 + data
      else writer.data == data && writer.next <= |data| && put == put0 + data[..writer.next]
    }

    /**
     With both ends open, a write of any length is finished and every byte read, in whatever order the two sides run:
     one of them always can, and none waits for ever.
     */
    method Transfer(data: seq<byte>, count: nat)
      requires Valid() && reader == NotReading && writer == NotWriting && readers > 0 && writers > 0 && count > 0
      modifies this, q, q.buf
      ensures Valid() && writer == NotWriting && q.Contents() == [] && put == got == old(put) + data
    {
      BeginWrite(data);
      while writer.Writes? || !QueueEmpty()
        invariant Valid() && readers > 0 && writers > 0 && Underway(old(put), data)
        invariant reader.Reads? ==> reader.count > 0
        decreases 2 * Unwritten() + |q.Contents()|, Restless()
      {
        assert ReaderRuns() || WriterRuns();
        if * {
          if ReaderRuns() {
            ReaderTurn(count, data, old(put));
          } else {
            WriterTurn(data, old(put));
          }
        } else if WriterRuns() {
          WriterTurn(data, old(put));
        } else {
          ReaderTurn(count, data, old(put));
        }
      }
    }

    predicate QueueEmpty()
      reads this, q
    {
      q.head == q.tail
    }

    method ReaderTurn(count: nat, ghost data: seq<byte>, ghost put0: seq<byte>)
      requires Valid() && ReaderRuns() && writers > 0 && count > 0 && Underway(put0, data)
      requires reader.Reads? ==> reader.count > 0
      modifies `reader, `writer, `got, q
      ensures Valid() && Underway(put0, data) && (reader.Reads? ==> reader.count > 0)
      ensures var before, after := old(2 * Unwritten() + |q.Contents()|), 2 * Unwritten() + |q.Contents()|;
              after < before || (after == before && Restless() < old(Restless()))
    {
      if reader == NotReading {
        BeginRead(count);
      } else {
        var r := ReadStep();
      }
    }

    method WriterTurn(ghost data: seq<byte>, ghost put0: seq<byte>)
      requires Valid() && WriterRuns() && readers > 0 && Underway(put0, data)
      requires reader.Reads? ==> reader.count > 0
      modifies `reader, `writer, `put, q, q.buf
      ensures Valid() && Underway(put0, data) && (reader.Reads? ==> reader.count > 0)
      ensures var before, after := old(2 * Unwritten() + |q.Contents()|), 2 * Unwritten() + |q.Contents()|;
              after < before || (after == before && Restless() < old(Restless()))
    {
      var r := WriteStep();
    }
  }
}
