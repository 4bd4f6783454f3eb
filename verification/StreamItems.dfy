/** The items of a stream, said of its bytes alone: 10 is the line feed and 13 the carriage return. */
module StreamItems {

  import opened Wrappers
  import opened StreamReader

  /** The bytes end in an empty line, of either line ending: they are 10 or 13 10, or end in 10 10 or 10 13 10. */
  predicate EndsEvent(b: Bytes) {
    var n := |b|;
    && n >= 1 && b[n - 1] == 10
    && (n == 1 || b[n - 2] == 10 || (b[n - 2] == 13 && (n == 2 || b[n - 3] == 10)))
  }

  predicate EndsItem(p: Protocol, b: Bytes) {
    if p.Sse? then EndsEvent(b) else b != [] && b[|b| - 1] == 10
  }

  /** The first `n` bytes are the shortest non-empty beginning that ends an item, or everything if none does. */
  ghost predicate IsFirstItem(p: Protocol, bytes: Bytes, n: nat) {
    && 0 < n <= |bytes| && (EndsItem(p, bytes[..n]) || n == |bytes|)
    && forall k | 0 < k < n :: !EndsItem(p, bytes[..k])
  }

  lemma LineIsFirst(bytes: Bytes)
    requires bytes != []
    ensures IsFirstItem(Ndjson, bytes, LineLength(bytes))
  {
  }

  /** Within one line only a blank line ends an event. */
  lemma LineEndsEvent(line: Bytes)
    requires line != [] && forall i | 0 <= i < |line| - 1 :: line[i] != 10
    ensures EndsEvent(line) <==> IsBlank(line)
  {
  }

  /** After a line, what ends an event is decided by the bytes that follow it. */
  lemma EndsEventShifts(line: Bytes, rest: Bytes)
    requires line != [] && line[|line| - 1] == 10 && rest != []
    ensures EndsEvent(line + rest) <==> EndsEvent(rest)
  {
    var b := line + rest;
    assert forall i | 0 <= i < |rest| :: b[|line| + i] == rest[i];
    assert b[|line| - 1] == 10;
  }

  lemma WithinFirstLine(bytes: Bytes, k: nat)
    requires 0 < k <= LineLength(bytes)
    ensures EndsEvent(bytes[..k]) <==> IsBlank(bytes[..k])
    ensures IsBlank(bytes[..k]) ==> k == LineLength(bytes)
  {
    LineEndsEvent(bytes[..k]);
    assert bytes[..k][k - 1] == bytes[k - 1];
  }

  lemma PastFirstLine(bytes: Bytes, m: nat, k: nat)
    requires m == LineLength(bytes) && m < k <= |bytes|
    ensures EndsEvent(bytes[..k]) <==> EndsEvent(bytes[m..][..k - m])
  {
    assert bytes[..k] == bytes[..m] + bytes[m..][..k - m];
    EndsEventShifts(bytes[..m], bytes[m..][..k - m]);
  }

  lemma {:induction false} EventIsFirst(bytes: Bytes)
    requires bytes != []
    ensures IsFirstItem(Sse, bytes, EventLength(bytes))
    decreases |bytes|
  {
    var m, n := LineLength(bytes), EventLength(bytes);
    if m == |bytes| || IsBlank(bytes[..m]) {
      forall k | 0 < k <= n ensures EndsEvent(bytes[..k]) ==> k == n {
        WithinFirstLine(bytes, k);
      }
      WithinFirstLine(bytes, n);
    } else {
      EventIsFirst(bytes[m..]);
      FirstAfterLine(bytes, m, n);
    }
  }

  lemma FirstAfterLine(bytes: Bytes, m: nat, n: nat)
    requires m == LineLength(bytes) && m < n <= |bytes| && !IsBlank(bytes[..m]) && IsFirstItem(Sse, bytes[m..], n - m)
    ensures IsFirstItem(Sse, bytes, n)
  {
    PastFirstLine(bytes, m, n);
    forall k | 0 < k < n ensures !EndsEvent(bytes[..k]) {
      if k <= m {
        WithinFirstLine(bytes, k);
      } else {
        PastFirstLine(bytes, m, k);
        assert !EndsItem(Sse, bytes[m..][..k - m]);
      }
    }
  }

  /** An item is exactly the shortest beginning of the stream that ends one, or the rest of the stream. */
  lemma ItemIsFirst(p: Protocol, bytes: Bytes, n: nat)
    requires bytes != []
    ensures n == ItemLength(p, bytes) <==> IsFirstItem(p, bytes, n)
  {
    if p.Sse? {
      EventIsFirst(bytes);
    } else {
      LineIsFirst(bytes);
    }
  }

  lemma {:induction false} EndsBlankExactly(bytes: Bytes)
    ensures EndsBlank(bytes) <==> EndsEvent(bytes)
    decreases |bytes|
  {
    var m := LineLength(bytes);
    if 0 < m == |bytes| {
      LineEndsEvent(bytes);
    } else if bytes != [] {
      EndsBlankExactly(bytes[m..]);
      PastFirstLine(bytes, m, |bytes|);
      assert bytes[..|bytes|] == bytes && bytes[m..][..|bytes| - m] == bytes[m..];
    }
  }

  /** Bytes are known to be a complete item exactly when they end one. */
  lemma TerminatedExactly(p: Protocol, bytes: Bytes)
    ensures Terminated(p, bytes) <==> EndsItem(p, bytes)
  {
    EndsBlankExactly(bytes);
  }

  /** What one call of the reader yields, from any chunks, is the first item of the bytes; of a stream that breaks off,
      only one that has ended. */
  lemma YieldsFirstItem(p: Protocol, r: Reader, lim: Limits, utf8: Bytes -> bool)
    requires r.Valid() && NextItem(p, r, lim, utf8).outcome.Item?
    ensures var bytes, item := Concat(r.chunks), NextItem(p, r, lim, utf8).outcome.bytes;
      IsFirstItem(p, bytes, |item|) && item == bytes[..|item|] && (r.broken ==> EndsItem(p, item))
  {
    NextItemIsFlat(p, r, lim, utf8);
    ItemIsFirst(p, Concat(r.chunks), ItemLength(p, Concat(r.chunks)));
    TerminatedExactly(p, FlatItem(p, r.Abstract()));
  }
}
