/** Which error the bounded stream reader reports, and exactly when that depends on chunking. */
module StreamErrors {

  import opened Wrappers
  import opened StreamReader

  // ---------------------------------------------------------------- one line

  /** The line budget breaks inside a line, but the body budget would break before it does: a chunk that ends
      in between shows only the second. */
  predicate LineAmbiguous(f: Flat, lim: Limits, limit: nat) {
    0 < limit < LineLength(f.rest) && lim.totalMax < f.used + limit
  }

  /** What reading one line of the flat string reports, if it fails. */
  function LineFailure(f: Flat, lim: Limits, limit: nat): Option<Failure> {
    var n := LineLength(f.rest);
    if n > limit then Some(LineTooLong)
    else if f.used + n > lim.totalMax then Some(BodyTooLong)
    else if f.broken && !EndsLine(f.rest[..n]) then Some(Upstream)
    else None
  }

  ghost predicate Reports(o: Outcome, failure: Option<Failure>) {
    if o.Failed? then failure == Some(o.why) else failure.None?
  }

  lemma ChunkSettlesKind(r: Reader, lim: Limits, limit: nat, line: Bytes)
    requires r.Valid() && r.chunks != [] && |line| <= limit && !Continues(r, lim, limit, line)
    requires !LineAmbiguous(r.Abstract(), lim, limit - |line|)
    ensures Reports(ReadLine(r, lim, limit, line).outcome, LineFailure(r.Abstract(), lim, limit - |line|))
  {
    var flat, chunk := Concat(r.chunks), r.chunks[0];
    LineLengthConcat(chunk, Concat(r.chunks[1..]));
    assert flat[..LineLength(chunk)] == chunk[..LineLength(chunk)];
    if |r.chunks| == 1 {
      assert flat == chunk;
      if chunk[LineLength(chunk) - 1] != NEWLINE {
        assert r.Consume(LineLength(chunk)).chunks == [];
      }
    }
  }

  lemma FailureShifts(f: Flat, f': Flat, k: nat, lim: Limits, limit: nat)
    requires 0 < k < |f.rest| && k <= limit && LineLength(f.rest) == k + LineLength(f.rest[k..])
    requires f' == Flat(f.rest[k..], f.broken, f.used + k, f.events)
    ensures LineFailure(f', lim, limit - k) == LineFailure(f, lim, limit)
    ensures LineAmbiguous(f', lim, limit - k) ==> LineAmbiguous(f, lim, limit)
  {
    var n := LineLength(f.rest);
    assert f.rest[..n][k..] == f'.rest[..n - k];
  }

  /** Outside the ambiguous lines the kind is a function of the flat string. */
  lemma {:induction false} LineKind(r: Reader, lim: Limits, limit: nat, line: Bytes)
    requires r.Valid() && r.chunks != [] && |line| <= limit
    requires !LineAmbiguous(r.Abstract(), lim, limit - |line|)
    ensures Reports(ReadLine(r, lim, limit, line).outcome, LineFailure(r.Abstract(), lim, limit - |line|))
    decreases |Concat(r.chunks)|
  {
    if Continues(r, lim, limit, line) {
      var take := LineLength(r.chunks[0]);
      WholeChunkConsumed(r);
      LineLengthConcat(r.chunks[0], Concat(r.chunks[1..]));
      FailureShifts(r.Abstract(), r.Consume(take).Abstract(), take, lim, limit - |line|);
      ReadLineContinues(r, lim, limit, line);
      LineKind(r.Consume(take), lim, limit, line + r.chunks[0]);
    } else {
      ChunkSettlesKind(r, lim, limit, line);
    }
  }

  function Whole(f: Flat): Reader {
    Reader(if f.rest == [] then [] else [f.rest], f.broken, f.used, f.events)
  }

  function Cut(f: Flat, k: nat): Reader
    requires 0 < k < |f.rest|
  {
    Reader([f.rest[..k], f.rest[k..]], f.broken, f.used, f.events)
  }

  lemma ChunkingsOf(f: Flat, k: nat)
    requires 0 < k < |f.rest|
    ensures Whole(f).Valid() && Whole(f).Abstract() == f
    ensures Cut(f, k).Valid() && Cut(f, k).Abstract() == f
  {
    assert Concat([f.rest]) == f.rest + Concat([]);
    assert Concat([f.rest[k..]]) == f.rest[k..] + Concat([]);
    assert [f.rest[..k], f.rest[k..]][1..] == [f.rest[k..]];
  }

  /** On an ambiguous line two chunkings of the same bytes report different kinds. */
  lemma AmbiguousLine(f: Flat, lim: Limits, limit: nat)
    requires LineAmbiguous(f, lim, limit)
    ensures Whole(f).Valid() && Cut(f, limit).Valid()
    ensures ReadLine(Whole(f), lim, limit, []).outcome == Failed(LineTooLong)
    ensures ReadLine(Cut(f, limit), lim, limit, []).outcome == Failed(BodyTooLong)
  {
    ChunkingsOf(f, limit);
    LineLengthConcat(f.rest[..limit], f.rest[limit..]);
    assert f.rest[..limit] + f.rest[limit..] == f.rest;
  }

  // ---------------------------------------------------------------- one event

  function AfterLine(f: Flat): Flat {
    var n := LineLength(f.rest);
    Flat(f.rest[n..], f.broken, f.used + n, f.events)
  }

  /** The line is read and collected, and the event goes on after it. */
  predicate GoesOn(f: Flat, lim: Limits, collected: nat) {
    var n := LineLength(f.rest);
    n < |f.rest| && !IsBlank(f.rest[..n]) && n <= lim.lineMax && f.used + n <= lim.totalMax
      && collected + n <= lim.eventMax
  }

  /** The first line of the event that fails is ambiguous. */
  predicate EventAmbiguous(f: Flat, lim: Limits, collected: nat)
    decreases |f.rest|
  {
    f.rest != [] &&
    (LineAmbiguous(f, lim, lim.lineMax) ||
     (GoesOn(f, lim, collected) && EventAmbiguous(AfterLine(f), lim, collected + LineLength(f.rest))))
  }

  function FinishFailure(events: nat, lim: Limits, utf8: Bytes -> bool, item: Bytes): Option<Failure> {
    if events + 1 > lim.eventsMax then Some(TooManyEvents) else if utf8(item) then None else Some(NotUtf8)
  }

  function EventFailure(f: Flat, lim: Limits, utf8: Bytes -> bool, event: Bytes): Option<Failure>
    decreases |f.rest|
  {
    if f.rest == [] then
      if f.broken then Some(Upstream) else if event == [] then None else FinishFailure(f.events, lim, utf8, event)
    else
      var line := f.rest[..LineLength(f.rest)];
      if LineFailure(f, lim, lim.lineMax).Some? then LineFailure(f, lim, lim.lineMax)
      else if |event| + |line| > lim.eventMax then Some(EventTooLong)
      else if IsBlank(line) then FinishFailure(f.events, lim, utf8, event + line)
      else EventFailure(AfterLine(f), lim, utf8, event + line)
  }

  lemma {:induction false} EventKind(r: Reader, lim: Limits, utf8: Bytes -> bool, event: Bytes)
    requires r.Valid() && !EventAmbiguous(r.Abstract(), lim, |event|)
    ensures Reports(NextEvent(r, lim, utf8, event).outcome, EventFailure(r.Abstract(), lim, utf8, event))
    decreases |Concat(r.chunks)|
  {
    var f, read := r.Abstract(), ReadLine(r, lim, lim.lineMax, []);
    if f.rest == [] {
      EmptyReader(r);
      assert read == Step(if r.broken then Failed(Upstream) else End, r);
      assert NextEvent(r, lim, utf8, event) == AfterRead(read, lim, utf8, event);
    } else {
      FreshLineIsFlat(r, lim, lim.lineMax);
      LineKind(r, lim, lim.lineMax, []);
      EventKindAfter(f, lim, utf8, event, read);
    }
  }

  lemma {:induction false} EventKindAfter(f: Flat, lim: Limits, utf8: Bytes -> bool, event: Bytes, read: Step)
    requires f.rest != [] && !EventAmbiguous(f, lim, |event|) && read.reader.Valid()
    requires FreshLine(f, lim, lim.lineMax, read) && Reports(read.outcome, LineFailure(f, lim, lim.lineMax))
    ensures Reports(AfterRead(read, lim, utf8, event).outcome, EventFailure(f, lim, utf8, event))
    decreases |f.rest|, 0
  {
    if read.outcome.Item? && |event| + |read.outcome.bytes| <= lim.eventMax && !IsBlank(read.outcome.bytes) {
      assert read.reader.Abstract() == AfterLine(f);
      EventKind(read.reader, lim, utf8, event + read.outcome.bytes);
    }
  }

  lemma WholeGoesOn(f: Flat, lim: Limits, utf8: Bytes -> bool, event: Bytes)
    requires GoesOn(f, lim, |event|)
    ensures Whole(f).Valid() && Whole(AfterLine(f)).Valid()
    ensures NextEvent(Whole(f), lim, utf8, event) ==
            NextEvent(Whole(AfterLine(f)), lim, utf8, event + f.rest[..LineLength(f.rest)])
  {
    var r, n := Whole(f), LineLength(f.rest);
    assert r.Consume(n).chunks == [f.rest[n..]];
    assert ReadLine(r, lim, lim.lineMax, []) == Step(Item([] + f.rest[..n]), Whole(AfterLine(f)));
    assert [] + f.rest[..n] == f.rest[..n];
  }

  lemma CutGoesOn(f: Flat, k: nat, lim: Limits, utf8: Bytes -> bool, event: Bytes)
    requires GoesOn(f, lim, |event|) && LineLength(f.rest) < k < |f.rest|
    ensures Cut(f, k).Valid() && Cut(AfterLine(f), k - LineLength(f.rest)).Valid()
    ensures NextEvent(Cut(f, k), lim, utf8, event) ==
            NextEvent(Cut(AfterLine(f), k - LineLength(f.rest)), lim, utf8, event + f.rest[..LineLength(f.rest)])
  {
    var r, n := Cut(f, k), LineLength(f.rest);
    LineLengthPrefix(f.rest, k);
    assert f.rest[..k][n..] == f.rest[n..][..k - n] && f.rest[k..] == f.rest[n..][k - n..];
    assert r.Consume(n).chunks == [f.rest[..k][n..], f.rest[k..]];
    assert f.rest[..k][..n] == f.rest[..n];
    assert ReadLine(r, lim, lim.lineMax, []) == Step(Item([] + f.rest[..n]), Cut(AfterLine(f), k - n));
    assert [] + f.rest[..n] == f.rest[..n];
  }

  lemma FailedLineFailsEvent(r: Reader, lim: Limits, utf8: Bytes -> bool, event: Bytes, why: Failure)
    requires r.Valid() && ReadLine(r, lim, lim.lineMax, []).outcome == Failed(why)
    ensures NextEvent(r, lim, utf8, event).outcome == Failed(why)
  {
  }

  /** The two chunkings disagree on the event. */
  ghost predicate Disagree(f: Flat, k: nat, lim: Limits, utf8: Bytes -> bool, event: Bytes) {
    && 0 < k < |f.rest| && Whole(f).Valid() && Cut(f, k).Valid()
    && NextEvent(Whole(f), lim, utf8, event).outcome == Failed(LineTooLong)
    && NextEvent(Cut(f, k), lim, utf8, event).outcome == Failed(BodyTooLong)
  }

  lemma DisagreeShifts(f: Flat, k: nat, lim: Limits, utf8: Bytes -> bool, event: Bytes)
    requires GoesOn(f, lim, |event|) && LineLength(f.rest) < k < |f.rest|
    requires Disagree(AfterLine(f), k - LineLength(f.rest), lim, utf8, event + f.rest[..LineLength(f.rest)])
    ensures Disagree(f, k, lim, utf8, event)
  {
    WholeGoesOn(f, lim, utf8, event);
    CutGoesOn(f, k, lim, utf8, event);
  }

  lemma AmbiguousFirstLine(f: Flat, lim: Limits, utf8: Bytes -> bool, event: Bytes)
    requires LineAmbiguous(f, lim, lim.lineMax)
    ensures Disagree(f, lim.lineMax, lim, utf8, event)
  {
    AmbiguousLine(f, lim, lim.lineMax);
    FailedLineFailsEvent(Whole(f), lim, utf8, event, LineTooLong);
    FailedLineFailsEvent(Cut(f, lim.lineMax), lim, utf8, event, BodyTooLong);
  }

  /** There is a place to cut the stream so that the ambiguous line shows its other kind. */
  lemma {:induction false} AmbiguousEvent(f: Flat, lim: Limits, utf8: Bytes -> bool, event: Bytes, collected: nat)
    returns (k: nat)
    requires collected == |event| && EventAmbiguous(f, lim, collected)
    ensures Disagree(f, k, lim, utf8, event)
    decreases |f.rest|
  {
    if LineAmbiguous(f, lim, lim.lineMax) {
      AmbiguousFirstLine(f, lim, utf8, event);
      k := lim.lineMax;
    } else {
      var n := LineLength(f.rest);
      var later := AmbiguousEvent(AfterLine(f), lim, utf8, event + f.rest[..n], collected + n);
      k := n + later;
      DisagreeShifts(f, k, lim, utf8, event);
    }
  }

  // ---------------------------------------------------------------- one item

  function LineLimit(lim: Limits): nat {
    if lim.lineMax <= lim.eventMax then lim.lineMax else lim.eventMax
  }

  /** A guard on the flat string and the budgets alone. */
  predicate Ambiguous(p: Protocol, f: Flat, lim: Limits) {
    if p.Sse? then EventAmbiguous(f, lim, 0) else LineAmbiguous(f, lim, LineLimit(lim))
  }

  function ItemFailure(p: Protocol, f: Flat, lim: Limits, utf8: Bytes -> bool): Option<Failure> {
    if p.Sse? then EventFailure(f, lim, utf8, [])
    else if f.rest == [] then (if f.broken then Some(Upstream) else None)
    else if LineFailure(f, lim, LineLimit(lim)).Some? then LineFailure(f, lim, LineLimit(lim))
    else FinishFailure(f.events, lim, utf8, FlatItem(p, f))
  }

  /** Unless the item is ambiguous, success and the kind of failure are read off the flat string. */
  lemma ItemKind(p: Protocol, r: Reader, lim: Limits, utf8: Bytes -> bool)
    requires r.Valid() && !Ambiguous(p, r.Abstract(), lim)
    ensures Reports(NextItem(p, r, lim, utf8).outcome, ItemFailure(p, r.Abstract(), lim, utf8))
  {
    if p.Sse? {
      EventKind(r, lim, utf8, []);
    } else if r.Abstract().rest == [] {
      EmptyReader(r);
    } else {
      FreshLineIsFlat(r, lim, LineLimit(lim));
      LineKind(r, lim, LineLimit(lim), []);
    }
  }

  /** Every chunking of the stream gives the same outcome, the kind of failure included. */
  ghost predicate KindSettled(p: Protocol, f: Flat, lim: Limits, utf8: Bytes -> bool) {
    forall a: Reader, b: Reader | a.Valid() && b.Valid() && a.Abstract() == f && b.Abstract() == f ::
      NextItem(p, a, lim, utf8).outcome == NextItem(p, b, lim, utf8).outcome
  }

  /** There is a place to cut the stream so that the item fails otherwise than uncut. */
  lemma AmbiguousCut(p: Protocol, f: Flat, lim: Limits, utf8: Bytes -> bool) returns (k: nat)
    requires Ambiguous(p, f, lim)
    ensures 0 < k < |f.rest| && Whole(f).Valid() && Cut(f, k).Valid()
    ensures NextItem(p, Whole(f), lim, utf8).outcome == Failed(LineTooLong)
    ensures NextItem(p, Cut(f, k), lim, utf8).outcome == Failed(BodyTooLong)
  {
    if p.Sse? {
      k := AmbiguousEvent(f, lim, utf8, [], 0);
    } else {
      k := LineLimit(lim);
      AmbiguousLine(f, lim, k);
    }
  }

  lemma AmbiguousItem(p: Protocol, f: Flat, lim: Limits, utf8: Bytes -> bool) returns (a: Reader, b: Reader)
    requires Ambiguous(p, f, lim)
    ensures a.Valid() && b.Valid() && a.Abstract() == f && b.Abstract() == f
    ensures NextItem(p, a, lim, utf8).outcome == Failed(LineTooLong)
    ensures NextItem(p, b, lim, utf8).outcome == Failed(BodyTooLong)
  {
    var k := AmbiguousCut(p, f, lim, utf8);
    ChunkingsOf(f, k);
    a, b := Whole(f), Cut(f, k);
  }

  /** The kind of error depends on chunking if and only if the item is ambiguous. */
  lemma ErrorKindExactly(p: Protocol, f: Flat, lim: Limits, utf8: Bytes -> bool)
    ensures KindSettled(p, f, lim, utf8) <==> !Ambiguous(p, f, lim)
  {
    if Ambiguous(p, f, lim) {
      var a, b := AmbiguousItem(p, f, lim, utf8);
    } else {
      forall a: Reader, b: Reader | a.Valid() && b.Valid() && a.Abstract() == f && b.Abstract() == f
        ensures NextItem(p, a, lim, utf8).outcome == NextItem(p, b, lim, utf8).outcome
      {
        ItemKind(p, a, lim, utf8);
        ItemKind(p, b, lim, utf8);
        NextItemIsFlat(p, a, lim, utf8);
        NextItemIsFlat(p, b, lim, utf8);
      }
    }
  }

  // ---------------------------------------------------------------- a whole run

  /** The outcome that ends a run of calls. */
  function DrainEnd(p: Protocol, r: Reader, lim: Limits, utf8: Bytes -> bool): (o: Outcome)
    requires r.Valid()
    ensures !o.Item? && (o.End? <==> Drain(p, r, lim, utf8).completed)
    decreases |Concat(r.chunks)|
  {
    NextItemIsFlat(p, r, lim, utf8);
    var s := NextItem(p, r, lim, utf8);
    if s.outcome.Item? then DrainEnd(p, s.reader, lim, utf8) else s.outcome
  }

  /** The stream from its first inadmissible item on. */
  function FirstRefused(p: Protocol, f: Flat, lim: Limits, utf8: Bytes -> bool): (g: Flat)
    ensures |g.rest| <= |f.rest| && !FlatYields(p, g, lim, utf8)
    decreases |f.rest|
  {
    if FlatYields(p, f, lim, utf8) then FirstRefused(p, FlatAfter(p, f), lim, utf8) else f
  }

  /** At most one cut is left, the one before `last`. */
  predicate KeepsLast(chunks: seq<Bytes>, last: Bytes) {
    if |Concat(chunks)| > |last| then |chunks| == 2 && chunks[1] == last else |chunks| <= 1
  }

  lemma ConsumeKeeps(r: Reader, n: nat, last: Bytes)
    requires r.Valid() && r.chunks != [] && 0 < n <= |r.chunks[0]| && KeepsLast(r.chunks, last)
    ensures KeepsLast(r.Consume(n).chunks, last)
  {
    if |r.chunks| == 2 {
      assert Concat(r.chunks[1..]) == last + Concat(r.chunks[1..][1..]);
    }
  }

  lemma {:induction false} LineKeeps(r: Reader, lim: Limits, limit: nat, line: Bytes, last: Bytes)
    requires r.Valid() && KeepsLast(r.chunks, last)
    ensures KeepsLast(ReadLine(r, lim, limit, line).reader.chunks, last)
    decreases |Concat(r.chunks)|
  {
    if r.chunks != [] {
      var take := LineLength(r.chunks[0]);
      ConsumeKeeps(r, take, last);
      LineKeeps(r.Consume(take), lim, limit, line + r.chunks[0][..take], last);
    }
  }

  lemma {:induction false} EventKeeps(r: Reader, lim: Limits, utf8: Bytes -> bool, event: Bytes, last: Bytes)
    requires r.Valid() && KeepsLast(r.chunks, last)
    ensures KeepsLast(NextEvent(r, lim, utf8, event).reader.chunks, last)
    decreases |Concat(r.chunks)|
  {
    var read := ReadLine(r, lim, lim.lineMax, []);
    LineKeeps(r, lim, lim.lineMax, [], last);
    if read.outcome.Item? {
      EventKeeps(read.reader, lim, utf8, event + read.outcome.bytes, last);
    }
  }

  lemma ItemKeeps(p: Protocol, r: Reader, lim: Limits, utf8: Bytes -> bool, last: Bytes)
    requires r.Valid() && KeepsLast(r.chunks, last)
    ensures KeepsLast(NextItem(p, r, lim, utf8).reader.chunks, last)
  {
    EventKeeps(r, lim, utf8, [], last);
    LineKeeps(r, lim, LineLimit(lim), [], last);
  }

  /** A run comes to its first inadmissible item and ends as that does. */
  lemma {:induction false} DrainStops(p: Protocol, r: Reader, lim: Limits, utf8: Bytes -> bool, last: Bytes)
    returns (r': Reader)
    requires r.Valid()
    ensures r'.Valid() && r'.Abstract() == FirstRefused(p, r.Abstract(), lim, utf8)
    ensures DrainEnd(p, r, lim, utf8) == NextItem(p, r', lim, utf8).outcome
    ensures KeepsLast(r.chunks, last) ==> KeepsLast(r'.chunks, last)
    decreases |Concat(r.chunks)|
  {
    NextItemIsFlat(p, r, lim, utf8);
    var s := NextItem(p, r, lim, utf8);
    if s.outcome.Item? {
      if KeepsLast(r.chunks, last) {
        ItemKeeps(p, r, lim, utf8, last);
      }
      r' := DrainStops(p, s.reader, lim, utf8, last);
    } else {
      r' := r;
    }
  }

  lemma KeptIsWhole(r: Reader, last: Bytes)
    requires r.Valid() && KeepsLast(r.chunks, last) && |Concat(r.chunks)| <= |last|
    ensures r == Whole(r.Abstract())
  {
    if r.chunks != [] {
      assert r.chunks == [r.chunks[0]] && Concat(r.chunks[1..]) == [];
      assert Concat(r.chunks) == r.chunks[0];
    }
  }

  lemma KeptIsCut(r: Reader, last: Bytes)
    requires r.Valid() && KeepsLast(r.chunks, last) && |Concat(r.chunks)| > |last| > 0
    ensures r == Cut(r.Abstract(), |Concat(r.chunks)| - |last|)
  {
    assert Concat(r.chunks[1..]) == last + Concat(r.chunks[1..][1..]);
    assert Concat(r.chunks) == r.chunks[0] + last;
    assert r.chunks == [r.chunks[0], last];
  }

  lemma WholeStops(p: Protocol, f: Flat, g: Flat, lim: Limits, utf8: Bytes -> bool)
    requires g == FirstRefused(p, f, lim, utf8) && Whole(f).Valid() && Whole(f).Abstract() == f
    ensures Whole(g).Valid() && DrainEnd(p, Whole(f), lim, utf8) == NextItem(p, Whole(g), lim, utf8).outcome
  {
    var r := DrainStops(p, Whole(f), lim, utf8, f.rest);
    KeptIsWhole(r, f.rest);
  }

  lemma CutStops(p: Protocol, f: Flat, at: nat, g: Flat, k: nat, lim: Limits, utf8: Bytes -> bool)
    requires g == FirstRefused(p, f, lim, utf8) && 0 < k < |g.rest| && at == |f.rest| - |g.rest| + k
    requires Cut(f, at).Valid() && Cut(f, at).Abstract() == f
    ensures Cut(g, k).Valid() && DrainEnd(p, Cut(f, at), lim, utf8) == NextItem(p, Cut(g, k), lim, utf8).outcome
  {
    var r := DrainStops(p, Cut(f, at), lim, utf8, f.rest[at..]);
    KeptIsCut(r, f.rest[at..]);
  }

  /** If the first inadmissible item is ambiguous, two chunkings of the stream end their runs differently. */
  lemma AmbiguousRun(p: Protocol, f: Flat, lim: Limits, utf8: Bytes -> bool) returns (a: Reader, b: Reader)
    requires Ambiguous(p, FirstRefused(p, f, lim, utf8), lim)
    ensures a.Valid() && b.Valid() && a.Abstract() == f && b.Abstract() == f
    ensures DrainEnd(p, a, lim, utf8) == Failed(LineTooLong)
    ensures DrainEnd(p, b, lim, utf8) == Failed(BodyTooLong)
  {
    var g := FirstRefused(p, f, lim, utf8);
    var k := AmbiguousCut(p, g, lim, utf8);
    var at := |f.rest| - |g.rest| + k;
    ChunkingsOf(f, at);
    WholeStops(p, f, g, lim, utf8);
    CutStops(p, f, at, g, k, lim, utf8);
    a, b := Whole(f), Cut(f, at);
  }

  /** Every chunking of the stream ends its run the same way, the kind of failure included. */
  ghost predicate RunSettled(p: Protocol, f: Flat, lim: Limits, utf8: Bytes -> bool) {
    forall a: Reader, b: Reader | a.Valid() && b.Valid() && a.Abstract() == f && b.Abstract() == f ::
      DrainEnd(p, a, lim, utf8) == DrainEnd(p, b, lim, utf8)
  }

  /** How a whole run ends depends on chunking if and only if its first inadmissible item is ambiguous. */
  lemma RunKindExactly(p: Protocol, f: Flat, lim: Limits, utf8: Bytes -> bool)
    ensures RunSettled(p, f, lim, utf8) <==> !Ambiguous(p, FirstRefused(p, f, lim, utf8), lim)
  {
    var g := FirstRefused(p, f, lim, utf8);
    if Ambiguous(p, g, lim) {
      var a, b := AmbiguousRun(p, f, lim, utf8);
    } else {
      ErrorKindExactly(p, g, lim, utf8);
      forall a: Reader, b: Reader | a.Valid() && b.Valid() && a.Abstract() == f && b.Abstract() == f
        ensures DrainEnd(p, a, lim, utf8) == DrainEnd(p, b, lim, utf8)
      {
        var a' := DrainStops(p, a, lim, utf8, []);
        var b' := DrainStops(p, b, lim, utf8, []);
      }
    }
  }

  /** Four bytes without a newline under a line budget of two and a body budget of one. */
  lemma AmbiguousExample(utf8: Bytes -> bool)
    ensures var lim := Limits(2, 9, 9, 1);
      && Ambiguous(Sse, Flat([97, 97, 97, 97], false, 0, 0), lim)
      && Ambiguous(Ndjson, Flat([97, 97, 97, 97], false, 0, 0), lim)
      && NextItem(Ndjson, Reader([[97, 97, 97, 97]], false, 0, 0), lim, utf8).outcome == Failed(LineTooLong)
      && NextItem(Ndjson, Reader([[97, 97], [97, 97]], false, 0, 0), lim, utf8).outcome == Failed(BodyTooLong)
  {
    var bytes: Bytes := [97, 97, 97, 97];
    assert LineLength(bytes) == 4;
    assert LineLength([97, 97]) == 2;
  }
}
