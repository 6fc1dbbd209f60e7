/** Splitting the byte stream from the cache server into lines:
    `_process_data` and the receiving part of `_worker_inner`. */
module CacheStream {
  import opened Options

  newtype Byte = b: int | 0 <= b < 256
  type Bytes = seq<Byte>

  const CR: Byte := 13
  const LF: Byte := 10

  /** Length of the longest prefix without CR and LF. */
  function Plain(data: Bytes): (n: nat)
    ensures n <= |data|
    ensures forall i :: 0 <= i < n ==> data[i] != CR && data[i] != LF
    ensures n < |data| ==> data[n] == CR || data[n] == LF
  {
    if data == [] || data[0] == CR || data[0] == LF then 0 else 1 + Plain(data[1..])
  }

  /** `line_pattern.match`: a line without CR and LF, ended by LF or CR LF.  The
      result is the line and the number of bytes matched.  (Giving back bytes of
      the line does not help the pattern: none of them is a CR or LF.) */
  function MatchLine(data: Bytes): (r: Option<(Bytes, nat)>)
    ensures r.Some? ==> 0 < r.value.1 <= |data| && |r.value.0| < r.value.1
  {
    var n := Plain(data);
    if n < |data| && data[n] == LF then Some((data[..n], n + 1))
    else if n + 1 < |data| && data[n + 1] == LF then Some((data[..n], n + 2))
    else None
  }

  /** All lines matched from the start on. */
  ghost function Lines(data: Bytes): seq<Bytes> {
    match MatchLine(data)
    case None => []
    case Some((line, n)) => [line] + Lines(data[n..])
  }

  /** What is left after them. */
  ghost function Rest(data: Bytes): Bytes {
    match MatchLine(data)
    case None => data
    case Some((_, n)) => Rest(data[n..])
  }

  lemma {:induction false} PlainPrefix(a: Bytes, b: Bytes)
    ensures Plain(a) < |a| ==> Plain(a + b) == Plain(a)
    ensures Plain(a) == |a| ==> Plain(a + b) >= |a|
  {
    if a != [] && a[0] != CR && a[0] != LF {
      assert (a + b)[1..] == a[1..] + b;
      PlainPrefix(a[1..], b);
    }
  }

  /** More data does not change a line that was already matched. */
  lemma MatchStays(a: Bytes, b: Bytes)
    requires MatchLine(a).Some?
    ensures MatchLine(a + b) == MatchLine(a)
    ensures (a + b)[MatchLine(a).value.1..] == a[MatchLine(a).value.1..] + b
  {
    PlainPrefix(a, b);
    assert (a + b)[..Plain(a)] == a[..Plain(a)];
  }

  /** Lines of a stream received in two pieces: those of the first piece, then
      those of what was left of it followed by the second. */
  lemma {:induction false} LinesInPieces(a: Bytes, b: Bytes)
    ensures Lines(a + b) == Lines(a) + Lines(Rest(a) + b)
    ensures Rest(a + b) == Rest(Rest(a) + b)
    decreases |a|
  {
    if MatchLine(a).None? {
      assert Lines(a) == [] && Rest(a) == a;
      hide Lines, Rest;
      assert [] + Lines(a + b) == Lines(a + b);
    } else {
      var (line, n) := MatchLine(a).value;
      MatchStays(a, b);
      hide Plain, MatchLine;
      LinesInPieces(a[n..], b);
      LinesRegroup([line], Lines(a[n..]), Lines(Rest(a) + b));
    }
  }

  lemma LinesRegroup(a: seq<Bytes>, b: seq<Bytes>, c: seq<Bytes>)
    ensures a + (b + c) == a + b + c
  {
  }

  // ---- The remainder ----

  /** A CR that is not followed by LF, before some LF: no line ever matches it. */
  ghost predicate StrayAt(data: Bytes, i: int, k: int) {
    0 <= i && i + 1 < k < |data| && data[i] == CR && data[i + 1] != LF && data[k] == LF
  }

  ghost predicate Stray(data: Bytes) {
    exists i, k :: StrayAt(data, i, k)
  }

  /** The remainder holds a newline exactly if the data have a stray CR. */
  lemma {:induction false} RemainderHasNewlineIffStray(data: Bytes)
    ensures LF in Rest(data) <==> Stray(data)
    decreases |data|
  {
    var m := MatchLine(data);
    if m.None? {
      UnmatchedHasNewlineIffStray(data);
    } else {
      StrayAfterLine(data);
      RemainderHasNewlineIffStray(data[m.value.1..]);
    }
  }

  lemma UnmatchedHasNewlineIffStray(data: Bytes)
    requires MatchLine(data).None?
    ensures LF in data <==> Stray(data)
  {
    if LF in data {
      var k :| 0 <= k < |data| && data[k] == LF;
      assert StrayAt(data, Plain(data), k);
    }
  }

  /** A matched line holds no stray CR. */
  lemma StrayAfterLine(data: Bytes)
    requires MatchLine(data).Some?
    ensures Stray(data) <==> Stray(data[MatchLine(data).value.1..])
  {
    var n := MatchLine(data).value.1;
    var tail := data[n..];
    assert data[n - 1] == LF;
    assert forall i :: 0 <= i < n && data[i] == CR ==> data[i + 1] == LF;
    if Stray(data) {
      var i, k :| StrayAt(data, i, k);
      assert i >= n;
      assert StrayAt(tail, i - n, k - n);
    }
    if Stray(tail) {
      var i, k :| StrayAt(tail, i, k);
      assert StrayAt(data, i + n, k + n);
    }
  }

  lemma StrayStays(a: Bytes, b: Bytes)
    requires Stray(a)
    ensures Stray(a + b)
  {
    var i, k :| StrayAt(a, i, k);
    assert StrayAt(a + b, i, k);
  }

  /** The stray CR is left over, and no further data make it match. */
  lemma {:induction false} StrayBlocks(a: Bytes, b: Bytes)
    requires Stray(a)
    ensures Lines(a + b) == Lines(a) && LF in Rest(a)
    decreases |a|
  {
    RemainderHasNewlineIffStray(a);
    match MatchLine(a)
    case None =>
      var k :| 0 <= k < |a| && a[k] == LF;
      var n := Plain(a);
      assert a[n] == CR && n + 1 < |a| && a[n + 1] != LF;
      PlainPrefix(a, b);
    case Some((line, n)) =>
      StrayAfterLine(a);
      MatchStays(a, b);
      StrayBlocks(a[n..], b);
  }

  // ---- What the lines cause ----

  const SYNC: Bytes := [35, 115, 121, 110, 99, 35, 33]  // "#sync#!"

  predicate Contains(line: Bytes, part: Bytes) {
    exists i :: 0 <= i <= |line| && PartAt(line, part, i)
  }

  predicate PartAt(line: Bytes, part: Bytes, i: nat) {
    i <= |line| && part <= line[i..]
  }

  datatype Event = Synced | Message(line: Bytes)

  /** What decoding a line as UTF-8 and matching it as a message lead to. */
  datatype Form = IsMessage | IsOther | Undecodable

  type Reader = Bytes -> Form

  /** A line that makes `_process_data` raise: only sync lines are not decoded. */
  predicate Fails(line: Bytes, form: Reader) {
    !Contains(line, SYNC) && form(line) == Undecodable
  }

  function EventOf(line: Bytes, form: Reader): seq<Event> {
    if Contains(line, SYNC) then [Synced] else if form(line) == IsMessage then [Message(line)] else []
  }

  ghost function Events(lines: seq<Bytes>, form: Reader): seq<Event> {
    if lines == [] then [] else EventOf(lines[0], form) + Events(lines[1..], form)
  }

  lemma {:induction false} EventsConcat(a: seq<Bytes>, b: seq<Bytes>, form: Reader)
    ensures Events(a + b, form) == Events(a, form) + Events(b, form)
  {
    if a == [] {
      assert a + b == b;
    } else {
      assert (a + b)[1..] == a[1..] + b;
      EventsConcat(a[1..], b, form);
    }
  }

  predicate IsHandled(line: Bytes, form: Reader) {
    !Contains(line, SYNC) && form(line) == IsMessage
  }

  /** How often the line is handled, and how often it occurs. */
  ghost function Handled(events: seq<Event>, line: Bytes): nat {
    if events == [] then 0 else (if events[0] == Message(line) then 1 else 0) + Handled(events[1..], line)
  }

  ghost function Occurs(lines: seq<Bytes>, line: Bytes): nat {
    if lines == [] then 0 else (if lines[0] == line then 1 else 0) + Occurs(lines[1..], line)
  }

  lemma {:induction false} HandledConcat(a: seq<Event>, b: seq<Event>, line: Bytes)
    ensures Handled(a + b, line) == Handled(a, line) + Handled(b, line)
  {
    if a == [] {
      assert a + b == b;
    } else {
      assert (a + b)[1..] == a[1..] + b;
      HandledConcat(a[1..], b, line);
    }
  }

  /** Each message among the lines is handled as often as it occurs, and lines with the
      synchronization mark are not. */
  lemma {:induction false} HandledMeans(lines: seq<Bytes>, form: Reader, line: Bytes)
    ensures Handled(Events(lines, form), line) == if IsHandled(line, form) then Occurs(lines, line) else 0
  {
    if lines != [] {
      hide Contains;
      var event := EventOf(lines[0], form);
      HandledMeans(lines[1..], form, line);
      assert event != [] ==> event[1..] == [];
      HandledConcat(event, Events(lines[1..], form), line);
    }
  }

  /** The client is synchronized exactly if one of the lines holds that mark. */
  lemma {:induction false} SyncedMeans(lines: seq<Bytes>, form: Reader)
    ensures Synced in Events(lines, form) <==> exists i :: 0 <= i < |lines| && Contains(lines[i], SYNC)
  {
    if lines != [] {
      hide Contains;
      var later := lines[1..];
      SyncedMeans(later, form);
      assert forall i :: 0 < i < |lines| ==> lines[i] == later[i - 1];
      assert forall i :: 0 <= i < |later| ==> later[i] == lines[i + 1];
    }
  }

  /** What one call of `_process_data` does: the events up to the first line that
      fails, whether there is one, and otherwise the remainder. */
  ghost function Processed(data: Bytes, form: Reader): (seq<Event>, bool, Bytes) {
    match MatchLine(data)
    case None => ([], false, data)
    case Some((line, n)) =>
      if Fails(line, form) then ([], true, [])
      else
        var (events, failed, rest) := Processed(data[n..], form);
        (EventOf(line, form) + events, failed, rest)
  }

  ghost predicate AllDecode(lines: seq<Bytes>, form: Reader) {
    forall i :: 0 <= i < |lines| ==> !Fails(lines[i], form)
  }

  lemma {:induction false} ProcessedWithoutFailure(data: Bytes, form: Reader)
    ensures AllDecode(Lines(data), form) <==> !Processed(data, form).1
    ensures AllDecode(Lines(data), form) ==>
      Processed(data, form) == (Events(Lines(data), form), false, Rest(data))
    decreases |data|
  {
    hide Fails, EventOf;
    match MatchLine(data)
    case None =>
    case Some((line, n)) =>
      ProcessedWithoutFailure(data[n..], form);
      var lines := Lines(data);
      assert lines[0] == line && lines[1..] == Lines(data[n..]);
      assert forall i :: 1 <= i < |lines| ==> lines[i] == lines[1..][i - 1];
  }

  lemma NoLineWithoutNewline(data: Bytes, form: Reader)
    requires LF !in data
    ensures Lines(data) == [] && Rest(data) == data && Processed(data, form) == ([], false, data)
  {
  }

  ghost function Concat(chunks: seq<Bytes>): Bytes {
    if chunks == [] then [] else chunks[0] + Concat(chunks[1..])
  }

  /** The worker with `data` in its buffer and `chunks` still to arrive: the events
      it causes, and what is in the buffer in the end.  A failure drops the
      buffer; a newline left in it stops the receiving. */
  ghost function Worked(data: Bytes, chunks: seq<Bytes>, form: Reader): (seq<Event>, Bytes)
    decreases |chunks|
  {
    var (events, failed, rest) := Processed(data, form);
    if LF in rest || chunks == [] then (events, rest)
    else
      var (more, left) := Worked(rest + chunks[0], chunks[1..], form);
      (events + more, left)
  }

  // ---- The client ----

  class StreamClient {
    const form: Reader
    var handled: seq<Event>
    var synced: bool

    constructor (form: Reader)
      ensures this.form == form && handled == [] && synced
    {
      this.form, handled, synced := form, [], true;
    }

    /** `_process_data`: handles the whole lines and returns the remainder; raises
        at a line that cannot be decoded. */
    method ProcessData(data: Bytes) returns (raised: bool, rest: Bytes)
      modifies this
      ensures
        var (events, failed, left) := Processed(data, form);
        && handled == old(handled) + events && raised == failed
        && (synced <==> old(synced) || Synced in events)
        && rest == left
    {
      hide Plain, MatchLine, Contains;
      var i := 0;
      ghost var events: seq<Event> := [];
      ghost var all := Processed(data, form);
      assert data[0..] == data && events + all.0 == all.0;
      var m := MatchLine(data[i..]);
      while m.Some?
        invariant 0 <= i <= |data| && m == MatchLine(data[i..])
        invariant all == Prefixed(events, Processed(data[i..], form))
        invariant handled == old(handled) + events
        invariant synced <==> old(synced) || Synced in events
        decreases |data| - i
      {
        var line := m.value.0;
        ProcessedStep(data[i..], events, form);
        assert data[i..][m.value.1..] == data[i + m.value.1..];
        i := i + m.value.1;
        if Contains(line, SYNC) {
          synced := true;
          handled := handled + [Synced];
        } else {
          if form(line) == Undecodable {
            return true, [];
          }
          if form(line) == IsMessage {
            handled := handled + [Message(line)];
          }
        }
        events := events + EventOf(line, form);
        m := MatchLine(data[i..]);
      }
      assert events + [] == events;
      return false, data[i..];
    }

    /** The receiving part of `_worker_inner`, restarted by `_worker_thread` with an
        empty buffer whenever it raises, while the connection lasts: data are
        processed, then chunks are added until a newline arrives.  If a newline
        is left after processing, no further chunk is ever received: `stuck`. */
    method Receive(chunks: seq<Bytes>) returns (data: Bytes, stuck: bool)
      modifies this
      ensures handled == old(handled) + Worked([], chunks, form).0
      ensures data == Worked([], chunks, form).1
      ensures stuck <==> LF in data
    {
      hide Processed, Worked, Waiting, Arriving, After;
      data, stuck := [], false;
      var used := 0;
      ghost var all := Worked([], chunks, form);
      ghost var events: seq<Event> := [];
      assert chunks[0..] == chunks && old(handled) + events == old(handled);
      AfterNothing(all);
      while true
        invariant used <= |chunks|
        invariant all == After(events, Worked(data, chunks[used..], form))
        invariant handled == old(handled) + events
        decreases |chunks| - used
      {
        ghost var start := used;
        ghost var caused := Processed(data, form).0;
        WorkedStep(data, chunks[used..], events, form);
        assert old(handled) + (events + caused) == old(handled) + events + caused;
        var raised;
        raised, data := ProcessData(data);
        events := events + caused;
        stuck := LF in data;
        if stuck {
          break;
        }
        assert Arriving(data, chunks[used..], form) == Waiting(data, chunks[used..], form) by {
          ArrivingStep(data, chunks[used..], form);
        }
        while LF !in data && used < |chunks|
          invariant start <= used <= |chunks| && (LF in data ==> start < used)
          invariant handled == old(handled) + events
          invariant all == After(events, Arriving(data, chunks[used..], form))
          decreases |chunks| - used
        {
          assert chunks[used..][0] == chunks[used] && chunks[used..][1..] == chunks[used + 1..];
          ArrivingStep(data, chunks[used..], form);
          data, used := data + chunks[used], used + 1;
        }
        ArrivingStep(data, chunks[used..], form);
        if LF !in data {
          break;
        }
      }
      NothingArrives(data, chunks[used..], events, form);
    }
  }

  ghost function Prefixed(events: seq<Event>, r: (seq<Event>, bool, Bytes)): (seq<Event>, bool, Bytes) {
    (events + r.0, r.1, r.2)
  }

  ghost function After(events: seq<Event>, r: (seq<Event>, Bytes)): (seq<Event>, Bytes) {
    (events + r.0, r.1)
  }

  /** The worker after processing, with the remainder in its buffer. */
  ghost function Waiting(rest: Bytes, chunks: seq<Bytes>, form: Reader): (seq<Event>, Bytes) {
    if LF in rest || chunks == [] then ([], rest) else Worked(rest + chunks[0], chunks[1..], form)
  }

  /** The worker with `data` in its buffer while chunks are added. */
  ghost function Arriving(data: Bytes, chunks: seq<Bytes>, form: Reader): (seq<Event>, Bytes) {
    if LF in data then Worked(data, chunks, form) else Waiting(data, chunks, form)
  }

  lemma AfterNothing(r: (seq<Event>, Bytes))
    ensures After([], r) == r
  {
    assert [] + r.0 == r.0;
  }

  lemma ArrivingStep(data: Bytes, chunks: seq<Bytes>, form: Reader)
    ensures LF in data ==> Arriving(data, chunks, form) == Worked(data, chunks, form)
    ensures LF !in data ==> Arriving(data, chunks, form) == Waiting(data, chunks, form)
    ensures LF !in data && chunks != [] ==>
      Arriving(data, chunks, form) == Arriving(data + chunks[0], chunks[1..], form)
  {
    if LF !in data && chunks != [] && LF !in data + chunks[0] {
      QuietStep(data + chunks[0], chunks[1..], form);
    }
  }

  lemma NothingArrives(data: Bytes, chunks: seq<Bytes>, events: seq<Event>, form: Reader)
    requires LF in data || chunks == []
    ensures After(events, Waiting(data, chunks, form)) == (events, data)
  {
    assert events + [] == events;
  }

  lemma ProcessedStep(data: Bytes, events: seq<Event>, form: Reader)
    requires MatchLine(data).Some?
    ensures
      var (line, n) := MatchLine(data).value;
      Prefixed(events, Processed(data, form)) ==
        if Fails(line, form) then (events, true, [])
        else Prefixed(events + EventOf(line, form), Processed(data[n..], form))
  {
    hide Plain, MatchLine, Fails, EventOf;
    var (line, n) := MatchLine(data).value;
    var more := Processed(data[n..], form).0;
    assert events + EventOf(line, form) + more == events + (EventOf(line, form) + more);
    assert events + [] == events;
  }

  lemma WorkedStep(data: Bytes, chunks: seq<Bytes>, events: seq<Event>, form: Reader)
    ensures
      var (caused, failed, rest) := Processed(data, form);
      After(events, Worked(data, chunks, form)) == After(events + caused, Waiting(rest, chunks, form))
  {
    hide Processed;
    var (caused, failed, rest) := Processed(data, form);
    var more := Waiting(rest, chunks, form).0;
    assert events + caused + more == events + (caused + more);
    assert caused + [] == caused;
  }

  /** Without a newline there is nothing to process. */
  lemma QuietStep(data: Bytes, chunks: seq<Bytes>, form: Reader)
    requires LF !in data
    ensures Worked(data, chunks, form) == Waiting(data, chunks, form)
  {
    NoLineWithoutNewline(data, form);
    hide Processed;
    assert [] + Waiting(data, chunks, form).0 == Waiting(data, chunks, form).0;
  }

  // ---- How the stream is cut into chunks ----

  /** If every line of the stream can be decoded, the events are those of its lines,
      however it is cut; the worker gets stuck exactly if there is a stray CR. */
  lemma {:induction false} DecodableStream(data: Bytes, chunks: seq<Bytes>, form: Reader)
    requires AllDecode(Lines(data + Concat(chunks)), form)
    ensures
      var all, (events, left) := data + Concat(chunks), Worked(data, chunks, form);
      && events == Events(Lines(all), form)
      && (LF in left <==> Stray(all))
      && (LF !in left ==> left == Rest(all))
    decreases |chunks|
  {
    var c := Concat(chunks);
    LinesInPieces(data, c);
    EventsConcat(Lines(data), Lines(Rest(data) + c), form);
    assert AllDecode(Lines(data), form) by {
      assert forall i :: 0 <= i < |Lines(data)| ==> Lines(data)[i] == Lines(data + c)[i];
    }
    ProcessedWithoutFailure(data, form);
    RemainderHasNewlineIffStray(data);
    RemainderHasNewlineIffStray(data + c);
    hide Lines, Rest, Events, Processed, Stray, Fails;
    if LF in Rest(data) {
      StrayBlocks(data, c);
      StrayStays(data, c);
    } else if chunks == [] {
      assert data + [] == data;
    } else {
      var next := Rest(data) + chunks[0];
      assert next + Concat(chunks[1..]) == Rest(data) + c;
      RemainderHasNewlineIffStray(Rest(data) + c);
      assert AllDecode(Lines(Rest(data) + c), form) by {
        assert forall i :: 0 <= i < |Lines(Rest(data) + c)| ==>
          Lines(Rest(data) + c)[i] == Lines(data + c)[|Lines(data)| + i];
      }
      DecodableStream(next, chunks[1..], form);
    }
  }

  /** The data after the first line that fails. */
  ghost function AfterFailure(data: Bytes, form: Reader): (q: Bytes)
    requires Processed(data, form).1
    ensures TailOf(q, data) && |q| < |data|
  {
    var (line, n) := MatchLine(data).value;
    if Fails(line, form) then data[n..] else AfterFailure(data[n..], form)
  }

  ghost predicate TailOf(s: Bytes, q: Bytes) {
    |s| <= |q| && q[|q| - |s|..] == s
  }

  /** No tail of the data could be taken for one that starts with a line that
      causes anything. */
  ghost predicate Silent(q: Bytes, form: Reader) {
    forall s :: TailOf(s, q) && MatchLine(s).Some? ==> EventOf(MatchLine(s).value.0, form) == []
  }

  lemma TailDrops(s: Bytes, n: nat, q: Bytes)
    requires TailOf(s, q) && n <= |s|
    ensures TailOf(s[n..], q)
  {
  }

  lemma TailOfSum(a: Bytes, b: Bytes, c: Bytes)
    requires TailOf(b, a)
    ensures TailOf(b + c, a + c) && TailOf(c, a + c)
  {
    assert (a + c)[|a| - |b|..] == b + c && (a + c)[|a|..] == c;
  }

  lemma TailOfTail(a: Bytes, b: Bytes, q: Bytes)
    requires TailOf(a, b) && TailOf(b, q)
    ensures TailOf(a, q)
  {
  }

  /** One step of Processed and AfterFailure. */
  lemma ProcessedIs(data: Bytes, form: Reader)
    requires MatchLine(data).Some?
    ensures
      var (line, n) := MatchLine(data).value;
      var later := Processed(data[n..], form);
      Processed(data, form) ==
        if Fails(line, form) then ([], true, []) else (EventOf(line, form) + later.0, later.1, later.2)
    ensures
      var (line, n) := MatchLine(data).value;
      Processed(data, form).1 ==>
        AfterFailure(data, form) == if Fails(line, form) then data[n..] else AfterFailure(data[n..], form)
  {
    hide Plain, MatchLine, Fails, EventOf;
  }

  /** One step of Worked. */
  lemma WorkedIs(data: Bytes, chunks: seq<Bytes>, form: Reader)
    ensures
      var (events, _, rest) := Processed(data, form);
      Worked(data, chunks, form).0 ==
        events + if LF in rest || chunks == [] then [] else Worked(rest + chunks[0], chunks[1..], form).0
  {
    hide Processed;
  }

  lemma ConcatStep(rest: Bytes, chunks: seq<Bytes>)
    requires chunks != []
    ensures rest + chunks[0] + Concat(chunks[1..]) == rest + Concat(chunks)
  {
  }

  lemma {:induction false} FailureInPieces(a: Bytes, b: Bytes, form: Reader)
    ensures Processed(a, form).1 ==>
      && Processed(a + b, form).0 == Processed(a, form).0 && Processed(a + b, form).1
      && AfterFailure(a + b, form) == AfterFailure(a, form) + b
    ensures !Processed(a, form).1 ==>
      var rest := Processed(a, form).2 + b;
      && Processed(a + b, form).0 == Processed(a, form).0 + Processed(rest, form).0
      && Processed(a + b, form).1 == Processed(rest, form).1
      && (Processed(a + b, form).1 ==> AfterFailure(a + b, form) == AfterFailure(rest, form))
    decreases |a|
  {
    if MatchLine(a).None? {
      assert Processed(a, form) == ([], false, a);
      hide Processed, AfterFailure;
      assert [] + Processed(a + b, form).0 == Processed(a + b, form).0;
    } else {
      var (line, n) := MatchLine(a).value;
      MatchStays(a, b);
      ProcessedIs(a, form);
      ProcessedIs(a + b, form);
      FailureInPieces(a[n..], b, form);
      hide EventOf, Fails, MatchLine, Processed, AfterFailure;
      var rest := Processed(a[n..], form).2 + b;
      EventsRegroup(EventOf(line, form), Processed(a[n..], form).0, Processed(rest, form).0);
    }
  }

  lemma EventsRegroup(a: seq<Event>, b: seq<Event>, c: seq<Event>)
    ensures a + (b + c) == a + b + c
  {
  }

  lemma {:induction false} RemainderIsTail(data: Bytes, form: Reader)
    ensures TailOf(Processed(data, form).2, data)
    decreases |data|
  {
    if MatchLine(data).Some? {
      var (line, n) := MatchLine(data).value;
      RemainderIsTail(data[n..], form);
      ProcessedIs(data, form);
      hide MatchLine, Processed, Fails, EventOf;
      TailDrops(data, n, data);
      if !Fails(line, form) {
        TailOfTail(Processed(data[n..], form).2, data[n..], data);
      }
    }
  }

  lemma {:induction false} SilentPiece(q: Bytes, data: Bytes, more: Bytes, form: Reader)
    requires Silent(q, form) && TailOf(data + more, q)
    ensures Processed(data, form).0 == []
    decreases |data|
  {
    if MatchLine(data).Some? {
      var (line, n) := MatchLine(data).value;
      MatchStays(data, more);
      ProcessedIs(data, form);
      assert EventOf(line, form) == [];
      hide MatchLine, Processed, Silent, EventOf, Fails;
      TailDrops(data + more, n, q);
      SilentPiece(q, data[n..], more, form);
    }
  }

  lemma {:induction false} SilentCausesNothing(q: Bytes, data: Bytes, chunks: seq<Bytes>, form: Reader)
    requires Silent(q, form) && TailOf(data + Concat(chunks), q)
    ensures Worked(data, chunks, form).0 == []
    decreases |chunks|
  {
    hide Silent, Processed, Worked, Concat, TailOf;
    SilentPiece(q, data, Concat(chunks), form);
    RemainderIsTail(data, form);
    WorkedIs(data, chunks, form);
    var rest := Processed(data, form).2;
    if LF !in rest && chunks != [] {
      ConcatStep(rest, chunks);
      TailOfSum(data, rest, Concat(chunks));
      TailOfTail(rest + Concat(chunks), data + Concat(chunks), q);
      SilentCausesNothing(q, rest + chunks[0], chunks[1..], form);
    }
  }

  /** A stream with a failing line after which nothing could cause an event. */
  lemma {:induction false} FailingStream(data: Bytes, chunks: seq<Bytes>, form: Reader)
    requires Processed(data + Concat(chunks), form).1 && Silent(AfterFailure(data + Concat(chunks), form), form)
    ensures Worked(data, chunks, form).0 == Processed(data + Concat(chunks), form).0
    decreases |chunks|
  {
    hide Silent, Processed, Worked, Concat, TailOf, AfterFailure;
    var c := Concat(chunks);
    FailureInPieces(data, c, form);
    WorkedIs(data, chunks, form);
    var rest := Processed(data, form).2;
    if Processed(data, form).1 {
      FailureLeavesNothing(data, form);
      if chunks != [] {
        AfterFailureThenChunks(data, chunks, form);
      }
    } else if LF in rest {
      StuckDoesNotFail(data, c, form);
    } else if chunks == [] {
      NoChunks(data);
    } else {
      ConcatStep(rest, chunks);
      FailingStream(rest + chunks[0], chunks[1..], form);
    }
  }

  lemma AfterFailureThenChunks(data: Bytes, chunks: seq<Bytes>, form: Reader)
    requires Processed(data, form).1 && chunks != []
    requires Silent(AfterFailure(data, form) + Concat(chunks), form)
    ensures Worked([] + chunks[0], chunks[1..], form).0 == []
  {
    hide Silent, Processed, Worked, Concat, AfterFailure;
    var q, c := AfterFailure(data, form), Concat(chunks);
    TailOfSum(q, [], c);
    ConcatStep([], chunks);
    assert [] + c == c;
    SilentCausesNothing(q + c, [] + chunks[0], chunks[1..], form);
  }

  lemma NoChunks(data: Bytes)
    ensures data + Concat([]) == data
  {
  }

  lemma StuckDoesNotFail(data: Bytes, more: Bytes, form: Reader)
    requires !Processed(data, form).1 && LF in Processed(data, form).2
    ensures !Processed(data + more, form).1
  {
    ProcessedWithoutFailure(data, form);
    ProcessedWithoutFailure(data + more, form);
    RemainderHasNewlineIffStray(data);
    hide Processed, Lines, Rest, Stray;
    StrayBlocks(data, more);
  }

  lemma {:induction false} FailureLeavesNothing(data: Bytes, form: Reader)
    requires Processed(data, form).1
    ensures Processed(data, form).2 == []
    decreases |data|
  {
    var (line, n) := MatchLine(data).value;
    if !Fails(line, form) {
      FailureLeavesNothing(data[n..], form);
    }
  }

  lemma MatchPrefix(data: Bytes)
    requires MatchLine(data).Some?
    ensures MatchLine(data[..MatchLine(data).value.1]) == MatchLine(data)
  {
    var p, m := Plain(data), MatchLine(data).value.1;
    var a := data[..m];
    assert Plain(a) == p by {
      PlainPrefix(a, data[m..]);
      assert a + data[m..] == data;
    }
    assert a[..p] == data[..p];
  }

  lemma SplitAt(data: Bytes, n: nat, head: Bytes, q: Bytes)
    requires n <= |data| && data[n..] == head + q
    ensures data == data[..n] + head + q
  {
    assert data == data[..n] + data[n..];
  }

  /** The stream up to its first failing line. */
  lemma {:induction false} HeadFails(data: Bytes, form: Reader) returns (head: Bytes)
    requires Processed(data, form).1
    ensures data == head + AfterFailure(data, form)
    ensures Processed(head, form).1 && Processed(head, form).0 == Processed(data, form).0
    decreases |data|
  {
    var (line, n) := MatchLine(data).value;
    ProcessedIs(data, form);
    MatchPrefix(data);
    var one := data[..n];
    hide Fails, EventOf, Processed, AfterFailure;
    if Fails(line, form) {
      head := one;
      ProcessedIs(head, form);
      assert data == one + data[n..];
    } else {
      var later := HeadFails(data[n..], form);
      MatchStays(one, later);
      head := one + later;
      hide MatchLine;
      assert one[n..] + later == later;
      ProcessedIs(head, form);
      SplitAt(data, n, later, AfterFailure(data, form));
    }
  }

  /** Cut somewhere behind the failing line: the part after the cut is worked on
      as if it came first. */
  lemma CutBehindFailure(data: Bytes, s: Bytes, form: Reader) returns (first: Bytes)
    requires Processed(data, form).1 && TailOf(s, AfterFailure(data, form))
    ensures first + s == data
    ensures Worked([], [first, s], form).0 == Processed(data, form).0 + Processed(s, form).0
  {
    hide Processed, AfterFailure, Worked;
    var q := AfterFailure(data, form);
    var head := HeadFails(data, form);
    var middle := q[..|q| - |s|];
    assert q == middle + s;
    first := head + middle;
    hide TailOf;
    FailureInPieces(head, middle, form);
    assert head + (middle + s) == first + s;
    FailureLeavesNothing(first, form);
    TwoChunks(first, s, form);
  }

  lemma TwoChunks(first: Bytes, second: Bytes, form: Reader)
    requires Processed(first, form).1 && Processed(first, form).2 == []
    ensures Worked([], [first, second], form).0 == Processed(first, form).0 + Processed(second, form).0
  {
    var two, one, none := [first, second], [second], [];
    NoLineWithoutNewline([], form);
    hide Processed, Worked;
    assert two[1..] == one && one[1..] == none;
    assert [] + first == first && [] + second == second;
    WorkedIs([], two, form);
    WorkedIs(first, one, form);
    WorkedIs(second, none, form);
    assert [] + Worked(first, one, form).0 == Worked(first, one, form).0;
    assert Processed(second, form).0 + [] == Processed(second, form).0;
  }

  lemma OneChunk(data: Bytes, form: Reader)
    ensures Worked([], [data], form).0 == Processed(data, form).0 && Concat([data]) == data
  {
    NoLineWithoutNewline([], form);
    assert [data][1..] == [] && [] + data == data;
    hide Processed, Worked;
    WorkedIs([], [data], form);
    WorkedIs(data, [], form);
    assert [] + Worked(data, [], form).0 == Worked(data, [], form).0;
    assert Processed(data, form).0 + [] == Processed(data, form).0;
  }

  ghost predicate SameHowEverCut(data: Bytes, form: Reader) {
    forall chunks :: Concat(chunks) == data ==> Worked([], chunks, form).0 == Worked([], [data], form).0
  }

  /** Cutting the stream into chunks does not matter exactly if all its lines can be
      decoded, or nothing behind the first that cannot could cause an event. */
  lemma CutsDoNotMatterIff(data: Bytes, form: Reader)
    ensures SameHowEverCut(data, form) <==>
      AllDecode(Lines(data), form) || (Processed(data, form).1 && Silent(AfterFailure(data, form), form))
  {
    ProcessedWithoutFailure(data, form);
    OneChunk(data, form);
    hide Processed, Worked, AllDecode, Events, Lines, Rest, AfterFailure;
    if !Processed(data, form).1 {
      DecodableIsSame(data, form);
    } else if Silent(AfterFailure(data, form), form) {
      SilentIsSame(data, form);
    } else {
      var s :| TailOf(s, AfterFailure(data, form)) && MatchLine(s).Some? && EventOf(MatchLine(s).value.0, form) != [];
      hide Silent, TailOf;
      var first := CutBehindFailure(data, s, form);
      FirstLineCauses(s, form);
      ConcatTwo(first, s);
    }
  }

  lemma ConcatTwo(a: Bytes, b: Bytes)
    ensures Concat([a, b]) == a + b
  {
    assert [a, b][1..] == [b] && [b][1..] == [];
    assert Concat([b]) == b;
  }

  lemma DecodableIsSame(data: Bytes, form: Reader)
    requires AllDecode(Lines(data), form)
    ensures SameHowEverCut(data, form)
  {
    hide AllDecode, Lines, Worked, Concat;
    OneChunk(data, form);
    ProcessedWithoutFailure(data, form);
    forall chunks | Concat(chunks) == data ensures Worked([], chunks, form).0 == Worked([], [data], form).0 {
      assert [] + Concat(chunks) == data;
      DecodableStream([], chunks, form);
    }
  }

  lemma SilentIsSame(data: Bytes, form: Reader)
    requires Processed(data, form).1 && Silent(AfterFailure(data, form), form)
    ensures SameHowEverCut(data, form)
  {
    hide Processed, Worked, Concat, AfterFailure, Silent;
    OneChunk(data, form);
    forall chunks | Concat(chunks) == data ensures Worked([], chunks, form).0 == Worked([], [data], form).0 {
      assert [] + Concat(chunks) == data;
      FailingStream([], chunks, form);
    }
  }

  lemma FirstLineCauses(data: Bytes, form: Reader)
    requires MatchLine(data).Some? && EventOf(MatchLine(data).value.0, form) != []
    ensures Processed(data, form).0 != []
  {
  }

  /** For example, a message right behind a line that cannot be decoded is lost in
      one chunk and handled if it comes in the next. */
  lemma MessageBehindBadLineIsLost(bad: Bytes, good: Bytes, form: Reader)
    requires CR !in bad && LF !in bad && CR !in good && LF !in good
    requires Fails(bad, form) && EventOf(good, form) == [Message(good)] && !Fails(good, form)
    ensures
      var first, second := bad + [LF], good + [LF];
      Worked([], [first + second], form).0 == [] && Worked([], [first, second], form).0 == [Message(good)]
  {
    var first, second := bad + [LF], good + [LF];
    WholeLine(bad, second);
    WholeLine(bad, []);
    WholeLine(good, []);
    assert first + [] == first && second + [] == second;
    ProcessedIs(first + second, form);
    ProcessedIs(first, form);
    ProcessedIs(second, form);
    NoLineWithoutNewline([], form);
    hide Processed, Worked, Contains, EventOf, Fails, MatchLine;
    OneChunk(first + second, form);
    TwoChunks(first, second, form);
    assert [Message(good)] + [] == [Message(good)];
  }

  lemma WholeLine(line: Bytes, more: Bytes)
    requires CR !in line && LF !in line
    ensures MatchLine(line + [LF] + more) == Some((line, |line| + 1))
    ensures (line + [LF] + more)[|line| + 1..] == more
  {
    var data := line + [LF] + more;
    assert data[|line|] == LF;
    assert forall i :: 0 <= i < |line| ==> data[i] == line[i] && line[i] in line;
    assert data[..|line|] == line;
  }
}
