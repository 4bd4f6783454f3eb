/** The bounded SSE/NDJSON reader, the downstream budget tracker and the JSON byte counter.

    The reader pulls arbitrarily sized chunks; its meaning is given on the flat byte string. `ReadLine`
    and `NextItem` follow the source's control flow chunk by chunk; `FlatItem` only splits bytes. */
module StreamReader {

  import opened Wrappers
  import Text

  type Byte = Text.Byte
  type Bytes = seq<Byte>

  const NEWLINE: Byte := 10
  const CARRIAGE_RETURN: Byte := 13

  datatype Protocol = Sse | Ndjson

  /** `stream_chunk_max_bytes`, `stream_event_max_bytes`, `stream_max_events`, `response_body_max_bytes`. */
  datatype Limits = Limits(lineMax: nat, eventMax: nat, eventsMax: nat, totalMax: nat)

  datatype Failure = LineTooLong | EventTooLong | BodyTooLong | TooManyEvents | Upstream | NotUtf8

  datatype Outcome = Item(bytes: Bytes) | End | Failed(why: Failure)

  // ---------------------------------------------------------------- the flat byte string

  /** Length of the first line, newline included. */
  function LineLength(bytes: Bytes): (n: nat)
    ensures n <= |bytes| && (bytes != [] ==> 0 < n)
    ensures forall i :: 0 <= i < n - 1 ==> bytes[i] != NEWLINE
    ensures n < |bytes| ==> bytes[n - 1] == NEWLINE
  {
    if bytes == [] then 0
    else if bytes[0] == NEWLINE then 1
    else 1 + LineLength(bytes[1..])
  }

  function Lines(bytes: Bytes): seq<Bytes> {
    if bytes == [] then [] else var n := LineLength(bytes); [bytes[..n]] + Lines(bytes[n..])
  }

  predicate IsBlank(line: Bytes) {
    line == [NEWLINE] || line == [CARRIAGE_RETURN, NEWLINE]
  }

  /** Length of the first event: through its first blank line, or everything. */
  function EventLength(bytes: Bytes): (n: nat)
    ensures n <= |bytes| && (bytes != [] ==> 0 < n)
    decreases |bytes|
  {
    var n := LineLength(bytes);
    if n == |bytes| || IsBlank(bytes[..n]) then n else n + EventLength(bytes[n..])
  }

  function ItemLength(p: Protocol, bytes: Bytes): (n: nat)
    ensures n <= |bytes| && (bytes != [] ==> 0 < n)
  {
    if p.Sse? then EventLength(bytes) else LineLength(bytes)
  }

  predicate LinesWithin(bytes: Bytes, max: nat) {
    bytes == [] || (var n := LineLength(bytes); n <= max && LinesWithin(bytes[n..], max))
  }

  predicate EndsBlank(bytes: Bytes) {
    bytes != [] && (var n := LineLength(bytes); if n == |bytes| then IsBlank(bytes) else EndsBlank(bytes[n..]))
  }

  predicate EndsLine(bytes: Bytes) {
    bytes != [] && bytes[|bytes| - 1] == NEWLINE
  }

  /** The item's own terminator was read, so nothing further is needed to know it is complete. */
  predicate Terminated(p: Protocol, item: Bytes) {
    if p.Sse? then EndsBlank(item) else EndsLine(item)
  }

  /** What is left of the stream, and the running totals. `broken` streams end in an I/O error. */
  datatype Flat = Flat(rest: Bytes, broken: bool, used: nat, events: nat)

  predicate Admissible(p: Protocol, f: Flat, lim: Limits, utf8: Bytes -> bool, item: Bytes) {
    && LinesWithin(item, lim.lineMax)
    && |item| <= lim.eventMax
    && f.used + |item| <= lim.totalMax
    && f.events < lim.eventsMax
    && utf8(item)
    && (f.broken ==> Terminated(p, item))
  }

  function FlatItem(p: Protocol, f: Flat): Bytes {
    f.rest[..ItemLength(p, f.rest)]
  }

  predicate FlatYields(p: Protocol, f: Flat, lim: Limits, utf8: Bytes -> bool) {
    f.rest != [] && Admissible(p, f, lim, utf8, FlatItem(p, f))
  }

  function FlatAfter(p: Protocol, f: Flat): Flat {
    var n := ItemLength(p, f.rest);
    Flat(f.rest[n..], f.broken, f.used + n, f.events + 1)
  }

  // ---------------------------------------------------------------- the chunked reader

  function Concat(parts: seq<Bytes>): Bytes {
    if parts == [] then [] else parts[0] + Concat(parts[1..])
  }

  /** The buffered source hands out non-empty chunks, then signals its end. */
  datatype Reader = Reader(chunks: seq<Bytes>, broken: bool, used: nat, events: nat) {
    ghost predicate Valid() {
      forall i :: 0 <= i < |chunks| ==> chunks[i] != []
    }

    function Abstract(): Flat {
      Flat(Concat(chunks), broken, used, events)
    }

    function Consume(n: nat): (r: Reader)
      requires Valid() && chunks != [] && 0 < n <= |chunks[0]|
      ensures r.Valid() && Concat(r.chunks) == Concat(chunks)[n..]
    {
      var left := chunks[0][n..];
      assert Concat(chunks)[n..] == left + Concat(chunks[1..]);
      if left == [] then Reader(chunks[1..], broken, used + n, events)
      else
        assert ([left] + chunks[1..])[1..] == chunks[1..];
        Reader([left] + chunks[1..], broken, used + n, events)
    }
  }

  datatype Step = Step(outcome: Outcome, reader: Reader)

  function ReadLine(r: Reader, lim: Limits, limit: nat, line: Bytes): (s: Step)
    requires r.Valid()
    ensures s.reader.Valid() && |Concat(s.reader.chunks)| <= |Concat(r.chunks)|
    ensures s.outcome.Item? && line == [] ==> |Concat(s.reader.chunks)| < |Concat(r.chunks)|
    decreases |Concat(r.chunks)|
  {
    if r.chunks == [] then
      Step(if r.broken then Failed(Upstream) else if line == [] then End else Item(line), r)
    else
      var chunk := r.chunks[0];
      var take := LineLength(chunk);
      if |line| + take > limit then Step(Failed(LineTooLong), r)
      else if r.used + take > lim.totalMax then Step(Failed(BodyTooLong), r)
      else
        var r', line' := r.Consume(take), line + chunk[..take];
        if chunk[take - 1] == NEWLINE then Step(Item(line'), r') else ReadLine(r', lim, limit, line')
  }

  function FinishItem(r: Reader, lim: Limits, utf8: Bytes -> bool, item: Bytes): Step {
    if r.events + 1 > lim.eventsMax then Step(Failed(TooManyEvents), r)
    else Step(if utf8(item) then Item(item) else Failed(NotUtf8), r.(events := r.events + 1))
  }

  /** Collects lines into `event` until it is over. */
  function NextEvent(r: Reader, lim: Limits, utf8: Bytes -> bool, event: Bytes): (s: Step)
    requires r.Valid()
    ensures s.reader.Valid()
    decreases |Concat(r.chunks)|, 1
  {
    AfterRead(ReadLine(r, lim, lim.lineMax, []), lim, utf8, event)
  }

  function AfterRead(read: Step, lim: Limits, utf8: Bytes -> bool, event: Bytes): (s: Step)
    requires read.reader.Valid()
    ensures s.reader.Valid()
    decreases if read.outcome.Item? then |Concat(read.reader.chunks)| + 1 else 0, 0
  {
    match read.outcome
    case Failed(_) => read
    case End => if event == [] then read else FinishItem(read.reader, lim, utf8, event)
    case Item(line) =>
      if |event| + |line| > lim.eventMax then Step(Failed(EventTooLong), read.reader)
      else if IsBlank(line) then FinishItem(read.reader, lim, utf8, event + line)
      else NextEvent(read.reader, lim, utf8, event + line)
  }

  function NextItem(p: Protocol, r: Reader, lim: Limits, utf8: Bytes -> bool): (s: Step)
    requires r.Valid()
    ensures s.reader.Valid()
  {
    if p.Sse? then NextEvent(r, lim, utf8, [])
    else
      var read := ReadLine(r, lim, if lim.lineMax <= lim.eventMax then lim.lineMax else lim.eventMax, []);
      if read.outcome.Item? then FinishItem(read.reader, lim, utf8, read.outcome.bytes) else read
  }

  /** The reader object: buffers grown in loops, counters updated per call. */
  class BoundedStreamReader {
    var chunks: seq<Bytes>
    var responseBytes: nat
    var events: nat
    const broken: bool
    const limits: Limits
    const utf8: Bytes -> bool

    ghost function View(): Reader
      reads this
    {
      Reader(chunks, broken, responseBytes, events)
    }

    constructor (chunks: seq<Bytes>, broken: bool, limits: Limits, utf8: Bytes -> bool)
      ensures View() == Reader(chunks, broken, 0, 0) && this.limits == limits && this.utf8 == utf8
    {
      this.chunks, this.broken, this.limits, this.utf8 := chunks, broken, limits, utf8;
      responseBytes, events := 0, 0;
    }

    method ReadBoundedLine(limit: nat) returns (o: Outcome)
      requires View().Valid()
      modifies this
      ensures Step(o, View()) == ReadLine(old(View()), limits, limit, [])
    {
      var line: Bytes := [];
      while true
        invariant View().Valid()
        invariant ReadLine(View(), limits, limit, line) == ReadLine(old(View()), limits, limit, [])
        decreases |Concat(chunks)|
      {
        if chunks == [] {
          return if broken then Failed(Upstream) else if line == [] then End else Item(line);
        }
        var available := chunks[0];
        var take := LineLength(available);
        if |line| + take > limit {
          return Failed(LineTooLong);
        }
        if responseBytes + take > limits.totalMax {
          return Failed(BodyTooLong);
        }
        var ended := available[take - 1] == NEWLINE;
        line := line + available[..take];
        var after := Reader(chunks, broken, responseBytes, events).Consume(take);
        chunks, responseBytes := after.chunks, after.used;
        if ended {
          return Item(line);
        }
      }
    }

    method FinishEvent() returns (ok: bool)
      modifies this
      ensures ok == (old(events) + 1 <= limits.eventsMax)
      ensures View() == if ok then old(View()).(events := old(events) + 1) else old(View())
    {
      ok := events + 1 <= limits.eventsMax;
      if ok {
        events := events + 1;
      }
    }

    method NextSseEvent() returns (o: Outcome)
      requires View().Valid()
      modifies this
      ensures Step(o, View()) == NextItem(Sse, old(View()), limits, utf8)
    {
      var event: Bytes := [];
      while true
        invariant View().Valid()
        invariant NextEvent(View(), limits, utf8, event) == NextEvent(old(View()), limits, utf8, [])
        decreases |Concat(chunks)|
      {
        o := ReadBoundedLine(limits.lineMax);
        if o.Failed? || (o.End? && event == []) {
          return;
        }
        if o.Item? {
          if |event| + |o.bytes| > limits.eventMax {
            return Failed(EventTooLong);
          }
          event := event + o.bytes;
        }
        if o.End? || IsBlank(o.bytes) {
          var ok := FinishEvent();
          return if !ok then Failed(TooManyEvents) else if utf8(event) then Item(event) else Failed(NotUtf8);
        }
      }
    }

    method NextNdjsonLine() returns (o: Outcome)
      requires View().Valid()
      modifies this
      ensures Step(o, View()) == NextItem(Ndjson, old(View()), limits, utf8)
    {
      o := ReadBoundedLine(if limits.lineMax <= limits.eventMax then limits.lineMax else limits.eventMax);
      if o.Item? {
        var ok := FinishEvent();
        o := if !ok then Failed(TooManyEvents) else if utf8(o.bytes) then o else Failed(NotUtf8);
      }
    }
  }

  // ---------------------------------------------------------------- chunking does not matter

  lemma {:induction false} LineLengthConcat(a: Bytes, b: Bytes)
    requires a != []
    ensures if EndsLine(a[..LineLength(a)]) then LineLength(a + b) == LineLength(a)
            else LineLength(a) == |a| && LineLength(a + b) == |a| + LineLength(b)
  {
    assert (a + b)[1..] == a[1..] + b;
    if a[0] != NEWLINE && |a| > 1 {
      LineLengthConcat(a[1..], b);
      assert a[..LineLength(a)][1..] == a[1..][..LineLength(a[1..])];
    } else if a[0] != NEWLINE {
      assert a[1..] + b == b;
    }
  }

  lemma LineLengthPrefix(bytes: Bytes, n: nat)
    requires LineLength(bytes) <= n <= |bytes| && 0 < n
    ensures LineLength(bytes[..n]) == LineLength(bytes)
  {
    LineLengthConcat(bytes[..n], bytes[n..]);
    assert bytes[..n] + bytes[n..] == bytes;
  }

  /** Step `s` is what reading one line of `f` means when `line` was already collected. */
  ghost predicate LineSpec(f: Flat, lim: Limits, limit: nat, line: Bytes, s: Step) {
    var n := LineLength(f.rest);
    && !s.outcome.End?
    && (s.outcome.Item? <==>
          |line| + n <= limit && f.used + n <= lim.totalMax && (f.broken ==> EndsLine(f.rest[..n])))
    && (s.outcome.Item? ==>
          s.outcome.bytes == line + f.rest[..n]
            && s.reader.Abstract() == Flat(f.rest[n..], f.broken, f.used + n, f.events))
  }

  lemma Rejoined(event: Bytes, item: Bytes, m: nat)
    requires m <= |item|
    ensures event + item[..m] + item[m..] == event + item && |event + item[..m]| + |item[m..]| == |event| + |item|
  {
  }

  lemma LineSpecShift(f: Flat, k: nat, lim: Limits, limit: nat, line: Bytes, s: Step)
    requires 0 < k < |f.rest| && LineLength(f.rest) == k + LineLength(f.rest[k..])
    requires LineSpec(Flat(f.rest[k..], f.broken, f.used + k, f.events), lim, limit, line + f.rest[..k], s)
    ensures LineSpec(f, lim, limit, line, s)
  {
    var n := LineLength(f.rest);
    Rejoined(line, f.rest[..n], k);
    assert f.rest[..n][..k] == f.rest[..k] && f.rest[..n][k..] == f.rest[k..][..n - k];
    assert f.rest[n..] == f.rest[k..][n - k..];
  }

  /** The first chunk settles the line: it breaks a budget, holds the newline, or is the last. */
  lemma FirstChunkSettles(r: Reader, lim: Limits, limit: nat, line: Bytes)
    requires r.Valid() && r.chunks != []
    requires var take := LineLength(r.chunks[0]);
      |line| + take > limit || r.used + take > lim.totalMax || r.chunks[0][take - 1] == NEWLINE || |r.chunks| == 1
    ensures LineSpec(r.Abstract(), lim, limit, line, ReadLine(r, lim, limit, line))
  {
    var flat, chunk := Concat(r.chunks), r.chunks[0];
    LineLengthConcat(chunk, Concat(r.chunks[1..]));
    assert flat[..LineLength(chunk)] == chunk[..LineLength(chunk)];
    if |r.chunks| == 1 {
      assert flat == chunk;
    }
  }

  /** A first chunk without a newline is consumed whole. */
  lemma WholeChunkConsumed(r: Reader)
    requires r.Valid() && |r.chunks| > 1 && r.chunks[0][LineLength(r.chunks[0]) - 1] != NEWLINE
    ensures var take, flat := LineLength(r.chunks[0]), Concat(r.chunks);
      && r.Consume(take).Valid() && r.Consume(take).chunks == r.chunks[1..]
      && 0 < take < |flat| && flat[..take] == r.chunks[0] && flat[take..] == Concat(r.chunks[1..])
      && r.Consume(take).Abstract() == Flat(flat[take..], r.broken, r.used + take, r.events)
  {
    var take, flat := LineLength(r.chunks[0]), Concat(r.chunks);
    assert take == |r.chunks[0]|;
    assert flat == r.chunks[0] + Concat(r.chunks[1..]);
  }

  predicate Continues(r: Reader, lim: Limits, limit: nat, line: Bytes)
    requires r.Valid() && r.chunks != []
  {
    var take := LineLength(r.chunks[0]);
    |r.chunks| > 1 && r.chunks[0][take - 1] != NEWLINE && |line| + take <= limit && r.used + take <= lim.totalMax
  }

  lemma ReadLineContinues(r: Reader, lim: Limits, limit: nat, line: Bytes)
    requires r.Valid() && r.chunks != [] && Continues(r, lim, limit, line)
    ensures ReadLine(r, lim, limit, line)
         == ReadLine(r.Consume(LineLength(r.chunks[0])), lim, limit, line + r.chunks[0])
  {
    assert r.chunks[0][..LineLength(r.chunks[0])] == r.chunks[0];
  }

  lemma SpecOverChunk(r: Reader, lim: Limits, limit: nat, line: Bytes, read: Step)
    requires r.Valid() && r.chunks != [] && Continues(r, lim, limit, line)
    requires LineSpec(r.Consume(LineLength(r.chunks[0])).Abstract(), lim, limit, line + r.chunks[0], read)
    ensures LineSpec(r.Abstract(), lim, limit, line, read)
  {
    WholeChunkConsumed(r);
    LineLengthConcat(r.chunks[0], Concat(r.chunks[1..]));
    LineSpecShift(r.Abstract(), LineLength(r.chunks[0]), lim, limit, line, read);
  }

  /** One line of the flat string, whatever the chunk boundaries inside it. */
  lemma {:induction false} ReadLineIsFlat(r: Reader, lim: Limits, limit: nat, line: Bytes)
    requires r.Valid() && r.chunks != []
    ensures LineSpec(r.Abstract(), lim, limit, line, ReadLine(r, lim, limit, line))
    decreases |Concat(r.chunks)|
  {
    if Continues(r, lim, limit, line) {
      WholeChunkConsumed(r);
      ReadLineContinues(r, lim, limit, line);
      var r' := r.Consume(LineLength(r.chunks[0]));
      ReadLineIsFlat(r', lim, limit, line + r.chunks[0]);
      SpecOverChunk(r, lim, limit, line, ReadLine(r', lim, limit, line + r.chunks[0]));
    } else {
      FirstChunkSettles(r, lim, limit, line);
    }
  }

  /** `LineSpec` for a line of its own. */
  ghost predicate FreshLine(f: Flat, lim: Limits, limit: nat, read: Step) {
    var n := LineLength(f.rest);
    && !read.outcome.End?
    && (read.outcome.Item? <==> n <= limit && f.used + n <= lim.totalMax && (f.broken ==> EndsLine(f.rest[..n])))
    && (read.outcome.Item? ==> read.outcome.bytes == f.rest[..n])
    && (read.outcome.Item? ==> read.reader.Abstract() == Flat(f.rest[n..], f.broken, f.used + n, f.events))
  }

  lemma FreshLineIsFlat(r: Reader, lim: Limits, limit: nat)
    requires r.Valid() && r.chunks != []
    ensures FreshLine(r.Abstract(), lim, limit, ReadLine(r, lim, limit, []))
  {
    ReadLineIsFlat(r, lim, limit, []);
    assert [] + Concat(r.chunks)[..LineLength(Concat(r.chunks))] == Concat(r.chunks)[..LineLength(Concat(r.chunks))];
  }

  /** The first event is its first line followed by the first event of the rest, unless it is over. */
  lemma EventUnfolds(bytes: Bytes)
    requires bytes != []
    ensures var n, m := EventLength(bytes), LineLength(bytes);
      && m <= n
      && LineLength(bytes[..n]) == m
      && bytes[..n][..m] == bytes[..m] && bytes[..n][m..] == bytes[m..][..n - m]
  {
    LineLengthPrefix(bytes, EventLength(bytes));
  }

  /** Step `s` is what reading `item`, the rest of an event, means when `event` was already collected. */
  ghost predicate ItemSpec(f: Flat, item: Bytes, after: Flat, lim: Limits, utf8: Bytes -> bool, event: Bytes, s: Step) {
    && !s.outcome.End?
    && (s.outcome.Item? <==>
          && LinesWithin(item, lim.lineMax) && |event| + |item| <= lim.eventMax && f.used + |item| <= lim.totalMax
          && f.events < lim.eventsMax && utf8(event + item) && (f.broken ==> EndsBlank(item)))
    && (s.outcome.Item? ==> s.outcome.bytes == event + item && s.reader.Abstract() == after)
  }

  ghost predicate EventSpec(f: Flat, lim: Limits, utf8: Bytes -> bool, event: Bytes, s: Step) {
    ItemSpec(f, f.rest[..EventLength(f.rest)], FlatAfter(Sse, f), lim, utf8, event, s)
  }

  lemma ItemUnfolds(item: Bytes, m: nat, max: nat)
    requires LineLength(item) == m < |item|
    ensures LinesWithin(item, max) <==> m <= max && LinesWithin(item[m..], max)
    ensures EndsBlank(item) <==> EndsBlank(item[m..])
  {
  }

  lemma ItemSpecShift(f: Flat, f': Flat, item: Bytes, m: nat, after: Flat, lim: Limits, utf8: Bytes -> bool,
                      event: Bytes, s: Step)
    requires LineLength(item) == m < |item| && m <= lim.lineMax && f' == Flat(f'.rest, f.broken, f.used + m, f.events)
    requires ItemSpec(f', item[m..], after, lim, utf8, event + item[..m], s)
    ensures ItemSpec(f, item, after, lim, utf8, event, s)
  {
    ItemUnfolds(item, m, lim.lineMax);
    Rejoined(event, item, m);
  }

  lemma AfterShift(f: Flat)
    requires f.rest != [] && LineLength(f.rest) < EventLength(f.rest)
    ensures var m := LineLength(f.rest);
      FlatAfter(Sse, Flat(f.rest[m..], f.broken, f.used + m, f.events)) == FlatAfter(Sse, f)
  {
    var m, n := LineLength(f.rest), EventLength(f.rest);
    assert EventLength(f.rest[m..]) == n - m;
    assert f.rest[m..][n - m..] == f.rest[n..];
  }

  lemma EventSpecShift(f: Flat, lim: Limits, utf8: Bytes -> bool, event: Bytes, s: Step)
    requires f.rest != [] && LineLength(f.rest) < EventLength(f.rest) && LineLength(f.rest) <= lim.lineMax
    requires var m := LineLength(f.rest);
      EventSpec(Flat(f.rest[m..], f.broken, f.used + m, f.events), lim, utf8, event + f.rest[..m], s)
    ensures EventSpec(f, lim, utf8, event, s)
  {
    var m, n := LineLength(f.rest), EventLength(f.rest);
    var f' := Flat(f.rest[m..], f.broken, f.used + m, f.events);
    EventUnfolds(f.rest);
    AfterShift(f);
    assert EventLength(f'.rest) == n - m && f.rest[..n][m..] == f'.rest[..n - m];
    ItemSpecShift(f, f', f.rest[..n], m, FlatAfter(Sse, f), lim, utf8, event, s);
  }

  lemma LoneLine(line: Bytes, max: nat)
    requires line != [] && LineLength(line) == |line|
    ensures (LinesWithin(line, max) <==> |line| <= max) && (EndsBlank(line) <==> IsBlank(line))
    ensures Lines(line) == [line]
  {
    assert line[|line|..] == [] && line[..|line|] == line;
  }

  lemma EmptyReader(r: Reader)
    requires r.Valid() && Concat(r.chunks) == []
    ensures r.chunks == []
  {
  }

  /** The event is over after one more line, by a blank line or by the end of the stream. */
  lemma LastLineIsFlat(f: Flat, lim: Limits, utf8: Bytes -> bool, event: Bytes, read: Step)
    requires f.rest != [] && FreshLine(f, lim, lim.lineMax, read) && read.reader.Valid()
    requires EventLength(f.rest) == LineLength(f.rest)
    ensures EventSpec(f, lim, utf8, event, AfterRead(read, lim, utf8, event))
  {
    var line := f.rest[..LineLength(f.rest)];
    EventUnfolds(f.rest);
    LoneLine(line, lim.lineMax);
    if read.outcome.Item? && !IsBlank(line) {
      EmptyReader(read.reader);
      var over := Step(if f.broken then Failed(Upstream) else End, read.reader);
      assert ReadLine(read.reader, lim, lim.lineMax, []) == over;
      assert NextEvent(read.reader, lim, utf8, event + line) == AfterRead(over, lim, utf8, event + line);
    }
  }

  /** One event of the flat string, after `event` has been collected. */
  lemma {:induction false} NextEventIsFlat(r: Reader, lim: Limits, utf8: Bytes -> bool, event: Bytes)
    requires r.Valid() && r.chunks != []
    ensures EventSpec(r.Abstract(), lim, utf8, event, NextEvent(r, lim, utf8, event))
    decreases |Concat(r.chunks)|, 1
  {
    FreshLineIsFlat(r, lim, lim.lineMax);
    AfterReadIsFlat(r.Abstract(), lim, utf8, event, ReadLine(r, lim, lim.lineMax, []));
  }

  lemma {:induction false} AfterReadIsFlat(f: Flat, lim: Limits, utf8: Bytes -> bool, event: Bytes, read: Step)
    requires f.rest != [] && FreshLine(f, lim, lim.lineMax, read) && read.reader.Valid()
    ensures EventSpec(f, lim, utf8, event, AfterRead(read, lim, utf8, event))
    decreases |f.rest|, 0
  {
    var n, m := EventLength(f.rest), LineLength(f.rest);
    EventUnfolds(f.rest);
    if m == n {
      LastLineIsFlat(f, lim, utf8, event, read);
    } else if read.outcome.Item? && |event| + m <= lim.eventMax {
      NextEventIsFlat(read.reader, lim, utf8, event + f.rest[..m]);
      EventSpecShift(f, lim, utf8, event, NextEvent(read.reader, lim, utf8, event + f.rest[..m]));
    }
  }

  lemma NextLineIsFlat(r: Reader, lim: Limits, utf8: Bytes -> bool)
    requires r.Valid() && r.chunks != []
    ensures var f, s := r.Abstract(), NextItem(Ndjson, r, lim, utf8);
      && !s.outcome.End?
      && (s.outcome.Item? <==> FlatYields(Ndjson, f, lim, utf8))
      && (s.outcome.Item? ==> s.outcome.bytes == FlatItem(Ndjson, f) && s.reader.Abstract() == FlatAfter(Ndjson, f))
  {
    var f := r.Abstract();
    FreshLineIsFlat(r, lim, if lim.lineMax <= lim.eventMax then lim.lineMax else lim.eventMax);
    LineLengthPrefix(f.rest, LineLength(f.rest));
    LoneLine(FlatItem(Ndjson, f), lim.lineMax);
  }

  lemma DrainedItem(p: Protocol, r: Reader, lim: Limits, utf8: Bytes -> bool)
    requires r.chunks == []
    ensures NextItem(p, r, lim, utf8).outcome == if r.broken then Failed(Upstream) else End
  {
    var over := Step(if r.broken then Failed(Upstream) else End, r);
    assert ReadLine(r, lim, lim.lineMax, []) == over;
    assert NextEvent(r, lim, utf8, []) == AfterRead(over, lim, utf8, []);
  }

  /** The refinement: from any chunking, one call of the reader does what splitting the flat string
      does, and fails exactly when the flat item breaks a budget or the stream breaks. */
  lemma NextItemIsFlat(p: Protocol, r: Reader, lim: Limits, utf8: Bytes -> bool)
    requires r.Valid()
    ensures var f, s := r.Abstract(), NextItem(p, r, lim, utf8);
      && (s.outcome.End? <==> f.rest == [] && !f.broken)
      && (s.outcome.Item? <==> FlatYields(p, f, lim, utf8))
      && (s.outcome.Item? ==> s.outcome.bytes == FlatItem(p, f) && s.reader.Abstract() == FlatAfter(p, f))
  {
    var f := r.Abstract();
    if f.rest == [] {
      EmptyReader(r);
      DrainedItem(p, r, lim, utf8);
    } else if p.Sse? {
      NextEventIsFlat(r, lim, utf8, []);
      assert [] + FlatItem(p, f) == FlatItem(p, f);
    } else {
      NextLineIsFlat(r, lim, utf8);
    }
  }

  datatype Run = Run(items: seq<Bytes>, completed: bool)

  /** Calls the reader until it reports the end or an error. */
  function Drain(p: Protocol, r: Reader, lim: Limits, utf8: Bytes -> bool): Run
    requires r.Valid()
    decreases |Concat(r.chunks)|
  {
    NextItemIsFlat(p, r, lim, utf8);
    var s := NextItem(p, r, lim, utf8);
    match s.outcome
    case End => Run([], true)
    case Failed(_) => Run([], false)
    case Item(bytes) =>
      var rest := Drain(p, s.reader, lim, utf8);
      Run([bytes] + rest.items, rest.completed)
  }

  /** The simple reading: cut items off the flat string while they are admissible. */
  function FlatDrain(p: Protocol, f: Flat, lim: Limits, utf8: Bytes -> bool): Run
    decreases |f.rest|
  {
    if !FlatYields(p, f, lim, utf8) then Run([], f.rest == [] && !f.broken)
    else
      var rest := FlatDrain(p, FlatAfter(p, f), lim, utf8);
      Run([FlatItem(p, f)] + rest.items, rest.completed)
  }

  lemma {:induction false} DrainIsFlat(p: Protocol, r: Reader, lim: Limits, utf8: Bytes -> bool)
    requires r.Valid()
    ensures Drain(p, r, lim, utf8) == FlatDrain(p, r.Abstract(), lim, utf8)
    decreases |Concat(r.chunks)|
  {
    NextItemIsFlat(p, r, lim, utf8);
    var s := NextItem(p, r, lim, utf8);
    if s.outcome.Item? {
      DrainIsFlat(p, s.reader, lim, utf8);
    }
  }

  /** Two chunkings of one byte stream give the same items in the same order, and both end the same way. */
  lemma ChunkingIsInvisible(p: Protocol, a: seq<Bytes>, b: seq<Bytes>, broken: bool, lim: Limits, utf8: Bytes -> bool)
    requires Reader(a, broken, 0, 0).Valid() && Reader(b, broken, 0, 0).Valid() && Concat(a) == Concat(b)
    ensures Drain(p, Reader(a, broken, 0, 0), lim, utf8) == Drain(p, Reader(b, broken, 0, 0), lim, utf8)
  {
    DrainIsFlat(p, Reader(a, broken, 0, 0), lim, utf8);
    DrainIsFlat(p, Reader(b, broken, 0, 0), lim, utf8);
  }

  // ---------------------------------------------------------------- what a run delivers

  /** Every item of the byte string, budgets aside. */
  function Split(p: Protocol, bytes: Bytes): seq<Bytes>
    decreases |bytes|
  {
    if bytes == [] then [] else var n := ItemLength(p, bytes); [bytes[..n]] + Split(p, bytes[n..])
  }

  /** `run` is the items of `f.rest` up to the first inadmissible one, and is complete exactly when
      there is none and the stream did not break. */
  ghost predicate Cuts(p: Protocol, f: Flat, lim: Limits, utf8: Bytes -> bool, run: Run) {
    var all, k := Split(p, f.rest), |run.items|;
    && k <= |all| && run.items == all[..k]
    && (run.completed <==> k == |all| && !f.broken)
    && (k < |all| ==>
          !Admissible(p, Flat([], f.broken, f.used + |Concat(run.items)|, f.events + k), lim, utf8, all[k]))
  }

  lemma CutsShift(p: Protocol, f: Flat, lim: Limits, utf8: Bytes -> bool, later: Run)
    requires f.rest != [] && Cuts(p, FlatAfter(p, f), lim, utf8, later)
    ensures Cuts(p, f, lim, utf8, Run([FlatItem(p, f)] + later.items, later.completed))
  {
    var items, all := [FlatItem(p, f)] + later.items, Split(p, f.rest);
    assert items[1..] == later.items;
    assert all == [FlatItem(p, f)] + Split(p, FlatAfter(p, f).rest);
  }

  lemma {:induction false} DrainCutsTheString(p: Protocol, f: Flat, lim: Limits, utf8: Bytes -> bool)
    ensures Cuts(p, f, lim, utf8, FlatDrain(p, f, lim, utf8))
    decreases |f.rest|
  {
    if FlatYields(p, f, lim, utf8) {
      DrainCutsTheString(p, FlatAfter(p, f), lim, utf8);
      CutsShift(p, f, lim, utf8, FlatDrain(p, FlatAfter(p, f), lim, utf8));
    } else if f.rest != [] {
      assert Split(p, f.rest)[0] == FlatItem(p, f);
    }
  }

  /** The items are a prefix of the stream, all of it when the run completes, and keep every budget. */
  ghost predicate KeepsBudgets(f: Flat, lim: Limits, utf8: Bytes -> bool, run: Run) {
    && Concat(run.items) <= f.rest
    && (run.completed ==> Concat(run.items) == f.rest)
    && f.used + |Concat(run.items)| <= lim.totalMax
    && f.events + |run.items| <= lim.eventsMax
    && (forall i | 0 <= i < |run.items| ::
          LinesWithin(run.items[i], lim.lineMax) && |run.items[i]| <= lim.eventMax && utf8(run.items[i]))
  }

  lemma BudgetsShift(p: Protocol, f: Flat, lim: Limits, utf8: Bytes -> bool, later: Run)
    requires f.rest != [] && Admissible(p, f, lim, utf8, FlatItem(p, f))
    requires KeepsBudgets(FlatAfter(p, f), lim, utf8, later)
    ensures KeepsBudgets(f, lim, utf8, Run([FlatItem(p, f)] + later.items, later.completed))
  {
    var items, n := [FlatItem(p, f)] + later.items, ItemLength(p, f.rest);
    assert items[1..] == later.items;
    assert f.rest == f.rest[..n] + f.rest[n..];
  }

  lemma {:induction false} DrainKeepsBudgets(p: Protocol, f: Flat, lim: Limits, utf8: Bytes -> bool)
    requires f.used <= lim.totalMax && f.events <= lim.eventsMax
    ensures KeepsBudgets(f, lim, utf8, FlatDrain(p, f, lim, utf8))
    decreases |f.rest|
  {
    if FlatYields(p, f, lim, utf8) {
      DrainKeepsBudgets(p, FlatAfter(p, f), lim, utf8);
      BudgetsShift(p, f, lim, utf8, FlatDrain(p, FlatAfter(p, f), lim, utf8));
    }
  }

  ghost predicate BlankOnlyLast(lines: seq<Bytes>) {
    forall i | 0 <= i < |lines| - 1 :: !IsBlank(lines[i])
  }

  lemma BlankOnlyLastCons(line: Bytes, lines: seq<Bytes>)
    requires BlankOnlyLast(lines) && (lines == [] || !IsBlank(line))
    ensures BlankOnlyLast([line] + lines)
  {
  }

  lemma {:induction false} BlankLineEnds(bytes: Bytes)
    requires bytes != []
    ensures BlankOnlyLast(Lines(bytes[..EventLength(bytes)]))
    ensures EndsBlank(bytes[..EventLength(bytes)]) || EventLength(bytes) == |bytes|
    decreases |bytes|
  {
    var n, m := EventLength(bytes), LineLength(bytes);
    EventUnfolds(bytes);
    if m == n {
      LoneLine(bytes[..n], 0);
    } else {
      BlankLineEnds(bytes[m..]);
      BlankOnlyLastCons(bytes[..m], Lines(bytes[m..][..n - m]));
    }
  }

  /** `EndsBlank` says that the last line is blank. */
  lemma {:induction false} EndsBlankIsLastLine(bytes: Bytes)
    requires bytes != []
    ensures |Lines(bytes)| > 0 && (EndsBlank(bytes) <==> IsBlank(Lines(bytes)[|Lines(bytes)| - 1]))
    decreases |bytes|
  {
    var n := LineLength(bytes);
    if n == |bytes| {
      LoneLine(bytes, 0);
    } else {
      EndsBlankIsLastLine(bytes[n..]);
    }
  }

  /** A blank line occurs only as the last line of an event, and an event whose last line is not blank is
      the rest of the stream. */
  lemma BlankLineEndsTheEvent(bytes: Bytes)
    requires bytes != []
    ensures var lines := Lines(bytes[..EventLength(bytes)]);
      BlankOnlyLast(lines) && |lines| > 0 && (IsBlank(lines[|lines| - 1]) || EventLength(bytes) == |bytes|)
  {
    BlankLineEnds(bytes);
    EndsBlankIsLastLine(bytes[..EventLength(bytes)]);
  }

  /** The budget on lines is a budget on every line. */
  lemma {:induction false} LinesWithinEach(bytes: Bytes, max: nat)
    ensures LinesWithin(bytes, max) <==> forall i | 0 <= i < |Lines(bytes)| :: |Lines(bytes)[i]| <= max
    decreases |bytes|
  {
    if bytes != [] {
      var n := LineLength(bytes);
      LinesWithinEach(bytes[n..], max);
      assert forall i | 0 < i < |Lines(bytes)| :: Lines(bytes)[i] == Lines(bytes[n..])[i - 1];
      assert forall i | 0 <= i < |Lines(bytes[n..])| :: Lines(bytes[n..])[i] == Lines(bytes)[i + 1];
      assert Lines(bytes)[0] == bytes[..n];
    }
  }

  // ---------------------------------------------------------------- the downstream tracker

  datatype Totals = Totals(used: nat, events: nat)

  datatype Observed = Observed(refused: Option<Failure>, totals: Totals)

  function Observe(t: Totals, lim: Limits, chunk: Bytes): Observed {
    if |chunk| > lim.eventMax then Observed(Some(EventTooLong), t)
    else if !LinesWithin(chunk, lim.lineMax) then Observed(Some(LineTooLong), t)
    else if t.used + |chunk| > lim.totalMax then Observed(Some(BodyTooLong), t)
    else
      var counted := t.(used := t.used + |chunk|);
      if t.events + 1 > lim.eventsMax then Observed(Some(TooManyEvents), counted)
      else Observed(None, counted.(events := t.events + 1))
  }

  class StreamBudgetTracker {
    const limits: Limits
    var responseBytes: nat
    var events: nat

    ghost function View(): Totals
      reads this
    {
      Totals(responseBytes, events)
    }

    constructor (limits: Limits)
      ensures this.limits == limits && View() == Totals(0, 0)
    {
      this.limits, responseBytes, events := limits, 0, 0;
    }

    method ObserveChunk(chunk: Bytes) returns (refused: Option<Failure>)
      modifies this
      ensures Observed(refused, View()) == Observe(old(View()), limits, chunk)
    {
      if |chunk| > limits.eventMax {
        return Some(EventTooLong);
      }
      var rest := chunk;
      while rest != []
        invariant LinesWithin(chunk, limits.lineMax) <==> LinesWithin(rest, limits.lineMax)
        decreases |rest|
      {
        var n := LineLength(rest);
        if n > limits.lineMax {
          return Some(LineTooLong);
        }
        rest := rest[n..];
      }
      if responseBytes + |chunk| > limits.totalMax {
        return Some(BodyTooLong);
      }
      responseBytes := responseBytes + |chunk|;
      if events + 1 > limits.eventsMax {
        return Some(TooManyEvents);
      }
      events := events + 1;
      return None;
    }
  }

  /** Feeds items to the tracker until one is refused. */
  function ObserveAll(t: Totals, lim: Limits, items: seq<Bytes>): Observed
    decreases |items|
  {
    if items == [] then Observed(None, t)
    else
      var o := Observe(t, lim, items[0]);
      if o.refused.Some? then o else ObserveAll(o.totals, lim, items[1..])
  }

  ghost predicate Tracked(t: Totals, lim: Limits, items: seq<Bytes>) {
    ObserveAll(t, lim, items) == Observed(None, Totals(t.used + |Concat(items)|, t.events + |items|))
  }

  lemma TrackedShift(p: Protocol, f: Flat, lim: Limits, utf8: Bytes -> bool, item: Bytes, later: seq<Bytes>)
    requires Admissible(p, f, lim, utf8, item) && Tracked(Totals(f.used + |item|, f.events + 1), lim, later)
    ensures Tracked(Totals(f.used, f.events), lim, [item] + later)
  {
    assert ([item] + later)[1..] == later;
  }

  /** Whatever the reader emits, the tracker accepts item by item, with the reader's own totals. */
  lemma {:induction false} TrackerAgrees(p: Protocol, f: Flat, lim: Limits, utf8: Bytes -> bool)
    ensures Tracked(Totals(f.used, f.events), lim, FlatDrain(p, f, lim, utf8).items)
    decreases |f.rest|
  {
    if FlatYields(p, f, lim, utf8) {
      TrackerAgrees(p, FlatAfter(p, f), lim, utf8);
      TrackedShift(p, f, lim, utf8, FlatItem(p, f), FlatDrain(p, FlatAfter(p, f), lim, utf8).items);
    }
  }

  // ---------------------------------------------------------------- the JSON byte counter

  /** Counts the bytes a serializer writes, in whatever pieces, against a limit. */
  class BoundedWriteCounter {
    const limit: nat
    var written: nat

    constructor (limit: nat)
      ensures this.limit == limit && written == 0
    {
      this.limit, written := limit, 0;
    }

    method Write(bytes: Bytes) returns (ok: bool)
      modifies this
      ensures ok == (old(written) + |bytes| <= limit)
      ensures written == if ok then old(written) + |bytes| else old(written)
    {
      ok := written + |bytes| <= limit;
      if ok {
        written := written + |bytes|;
      }
    }
  }

  /** Serializing in pieces succeeds exactly when the whole document fits, and counts all of it. */
  method ValidateJson(pieces: seq<Bytes>, bufferedMax: nat, bodyMax: nat) returns (ok: bool)
    ensures ok <==> |Concat(pieces)| <= bufferedMax && |Concat(pieces)| <= bodyMax
  {
    var counter := new BoundedWriteCounter(if bufferedMax <= bodyMax then bufferedMax else bodyMax);
    var rest := pieces;
    while rest != []
      invariant |Concat(pieces)| == counter.written + |Concat(rest)| && counter.written <= counter.limit
      decreases |rest|
    {
      ok := counter.Write(rest[0]);
      if !ok {
        return;
      }
      rest := rest[1..];
    }
    return true;
  }
}
