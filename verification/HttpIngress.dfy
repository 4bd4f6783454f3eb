/** HTTP/1.1 request ingress: bounded head, then authorization, then bounded body (sections 3, 5 and 6.3 of RFC 9112).

    Decoding UTF-8 and the authorization decision are parameters. */
module HttpIngress {

  import opened Wrappers
  import Text

  const USIZE_MAX: nat := Text.U64_MAX
  const CRLF: string := "\r\n"

  datatype Failure = TooLarge | Truncated | Io | NotUtf8 | BadMethod | BadTarget | BadVersion | Folded | BadHeader
                   | Duplicate | TransferEncoding | NoHost | BadLength | BodyTooLarge | Forbidden

  // ---------------------------------------------------------------- splitting

  predicate CrlfAt(s: string, i: nat) {
    i + 1 < |s| && s[i] == '\r' && s[i + 1] == '\n'
  }

  ghost predicate NoCrlf(s: string) {
    forall i: nat :: !CrlfAt(s, i)
  }

  /** Where the first line ends: at its line break, or at the end. */
  function FindCrlf(s: string): (n: nat)
    ensures n <= |s| && (n < |s| ==> CrlfAt(s, n))
    ensures forall i: nat | i < n :: !CrlfAt(s, i)
  {
    if |s| < 2 then |s|
    else if CrlfAt(s, 0) then 0
    else
      var n := FindCrlf(s[1..]);
      assert forall i: nat | 0 < i :: CrlfAt(s, i) == CrlfAt(s[1..], i - 1);
      n + 1
  }

  function Lines(s: string): (r: seq<string>)
    ensures r != []
  {
    var n := FindCrlf(s);
    if n == |s| then [s] else [s[..n]] + Lines(s[n + 2..])
  }

  function Find(s: string, c: char): (n: nat)
    ensures n <= |s| && (n < |s| ==> s[n] == c) && c !in s[..n]
  {
    if s == [] || s[0] == c then 0
    else
      var n := Find(s[1..], c);
      assert s[..n + 1] == [s[0]] + s[1..][..n];
      n + 1
  }

  function Words(s: string): seq<string> {
    var n := Find(s, ' ');
    if n == |s| then [s] else [s[..n]] + Words(s[n + 1..])
  }

  // ---------------------------------------------------------------- parsing

  predicate IsTokenChar(c: char) {
    || 'a' <= c <= 'z' || 'A' <= c <= 'Z' || '0' <= c <= '9' || '#' <= c <= '\''
    || c in {'!', '*', '+', '-', '.', '^', '_', '`', '|', '~'}
  }

  predicate IsToken(s: string) {
    s != "" && forall c :: c in s ==> IsTokenChar(c)
  }

  function LowerChar(c: char): (r: char)
    ensures 65 <= c as int <= 90 ==> r as int == c as int + 32
    ensures !(65 <= c as int <= 90) ==> r == c
  {
    if 'A' <= c <= 'Z' then c - 'A' + 'a' else c
  }

  function Lower(s: string): (t: string)
    ensures |t| == |s| && forall i | 0 <= i < |s| :: t[i] == LowerChar(s[i])
  {
    if s == "" then "" else [LowerChar(s[0])] + Lower(s[1..])
  }

  type Headers = map<string, string>

  datatype Head = Head(verb: string, target: string, headers: Headers, length: nat)

  function ParseRequestLine(line: string): Result<(string, string), Failure> {
    var words := Words(line);
    if !IsToken(words[0]) then Err(BadMethod)
    else if |words| < 2 || words[1] == "" then Err(BadTarget)
    else if |words| != 3 || words[2] != "HTTP/1.1" then Err(BadVersion)
    else Ok((words[0], words[1]))
  }

  function AddHeader(headers: Headers, line: string): Result<Headers, Failure> {
    if line == "" then Ok(headers)
    else if line[0] == ' ' || line[0] == '\t' then Err(Folded)
    else
      var n := Find(line, ':');
      if n == |line| || !IsToken(line[..n]) then Err(BadHeader)
      else
        var name := Lower(line[..n]);
        if name in headers then Err(Duplicate) else Ok(headers[name := Text.Trim(line[n + 1..])])
  }

  function AddHeaders(headers: Headers, lines: seq<string>): Result<Headers, Failure>
    decreases |lines|
  {
    if lines == [] then Ok(headers)
    else
      var headers' :- AddHeader(headers, lines[0]);
      AddHeaders(headers', lines[1..])
  }

  function ParseContentLength(value: string): Result<nat, Failure> {
    if value == "" || !Text.AllDigits(value) || Text.Value(value) > USIZE_MAX then Err(BadLength)
    else Ok(Text.Value(value))
  }

  function ContentLength(headers: Headers): Result<nat, Failure> {
    if "content-length" in headers then ParseContentLength(headers["content-length"]) else Ok(0)
  }

  function ParseHead(text: string, bodyMax: nat): Result<Head, Failure> {
    ParseLines(Lines(text), bodyMax)
  }

  function ParseLines(lines: seq<string>, bodyMax: nat): Result<Head, Failure>
    requires lines != []
  {
    var request :- ParseRequestLine(lines[0]);
    var headers :- AddHeaders(map[], lines[1..]);
    if "transfer-encoding" in headers then Err(TransferEncoding)
    else if "host" !in headers || headers["host"] == "" then Err(NoHost)
    else
      var length :- ContentLength(headers);
      if length > bodyMax then Err(BodyTooLarge) else Ok(Head(request.0, request.1, headers, length))
  }

  // ---------------------------------------------------------------- accepted heads

  ghost predicate HeaderSound(name: string, value: string) {
    IsToken(name) && Lower(name) == name && Text.Trim(value) == value && NoCrlf(value)
  }

  /** What every accepted head is. */
  ghost predicate Accepted(h: Head, bodyMax: nat) {
    && IsToken(h.verb)
    && h.target != "" && ' ' !in h.target && NoCrlf(h.target)
    && (forall name | name in h.headers :: HeaderSound(name, h.headers[name]))
    && "transfer-encoding" !in h.headers
    && "host" in h.headers && h.headers["host"] != ""
    && ContentLength(h.headers) == Ok(h.length) && h.length <= bodyMax
  }

  lemma SliceNoCrlf(s: string, from: nat, to: nat)
    requires NoCrlf(s) && from <= to <= |s|
    ensures NoCrlf(s[from..to])
  {
    forall i: nat ensures !CrlfAt(s[from..to], i) {
      assert !CrlfAt(s, from + i);
    }
  }

  lemma {:induction false} LinesNoCrlf(s: string)
    ensures forall line | line in Lines(s) :: NoCrlf(line)
  {
    var n := FindCrlf(s);
    if n < |s| {
      LinesNoCrlf(s[n + 2..]);
      forall i: nat ensures !CrlfAt(s[..n], i) {
        assert i < n ==> !CrlfAt(s, i);
      }
    } else {
      assert NoCrlf(s);
    }
  }

  lemma LowerTwice(s: string)
    ensures Lower(Lower(s)) == Lower(s)
    ensures IsToken(s) ==> IsToken(Lower(s))
  {
    if IsToken(s) {
      forall c | c in Lower(s) ensures IsTokenChar(c) {
        var i :| 0 <= i < |s| && Lower(s)[i] == c;
        assert s[i] in s;
      }
    }
  }

  lemma AddHeaderSound(headers: Headers, line: string)
    requires NoCrlf(line) && AddHeader(headers, line).Ok?
    requires forall name | name in headers :: HeaderSound(name, headers[name])
    ensures var r := AddHeader(headers, line).value; forall name | name in r :: HeaderSound(name, r[name])
  {
    if line != "" {
      var n := Find(line, ':');
      LowerTwice(line[..n]);
      var value := line[n + 1..];
      SliceNoCrlf(line, n + 1, |line|);
      assert line[n + 1..|line|] == value;
      var from, to := Text.TrimKeepsMiddle(value);
      SliceNoCrlf(value, from, to);
    }
  }

  lemma {:induction false} AddHeadersSound(headers: Headers, lines: seq<string>)
    requires (forall line | line in lines :: NoCrlf(line)) && AddHeaders(headers, lines).Ok?
    requires forall name | name in headers :: HeaderSound(name, headers[name])
    ensures var r := AddHeaders(headers, lines).value; forall name | name in r :: HeaderSound(name, r[name])
    decreases |lines|
  {
    if lines != [] {
      AddHeaderSound(headers, lines[0]);
      AddHeadersSound(AddHeader(headers, lines[0]).value, lines[1..]);
    }
  }

  lemma RequestLineSound(line: string)
    requires NoCrlf(line) && ParseRequestLine(line).Ok?
    ensures var request := ParseRequestLine(line).value;
      IsToken(request.0) && request.1 != "" && ' ' !in request.1 && NoCrlf(request.1)
  {
    var n := Find(line, ' ');
    assert n < |line|;
    var rest := line[n + 1..];
    var m := Find(rest, ' ');
    assert Words(line)[1] == Words(rest)[0];
    SliceNoCrlf(line, n + 1, n + 1 + m);
    assert line[n + 1..n + 1 + m] == rest[..m];
  }

  lemma ParsedIsAccepted(text: string, bodyMax: nat)
    requires ParseHead(text, bodyMax).Ok?
    ensures Accepted(ParseHead(text, bodyMax).value, bodyMax)
  {
    var lines := Lines(text);
    LinesNoCrlf(text);
    RequestLineSound(lines[0]);
    AddHeadersSound(map[], lines[1..]);
  }

  // ---------------------------------------------------------------- the canonical form

  function HeaderLine(headers: Headers, name: string): string
    requires name in headers
  {
    name + ":" + headers[name]
  }

  function PrintHeaders(headers: Headers, names: seq<string>): string
    requires forall name | name in names :: name in headers
  {
    if names == [] then "" else HeaderLine(headers, names[0]) + CRLF + PrintHeaders(headers, names[1..])
  }

  function RequestLine(h: Head): string {
    h.verb + " " + h.target + " " + "HTTP/1.1"
  }

  /** The head written out with its headers in the order `names`. */
  function Print(h: Head, names: seq<string>): string
    requires forall name | name in names :: name in h.headers
  {
    RequestLine(h) + CRLF + PrintHeaders(h.headers, names) + CRLF
  }

  /** Every header name, once. */
  ghost predicate IsListing(names: seq<string>, headers: Headers) {
    && (forall name :: name in names <==> name in headers)
    && (forall i, j | 0 <= i < j < |names| :: names[i] != names[j])
  }

  lemma LinesCons(line: string, rest: string)
    requires NoCrlf(line)
    ensures Lines(line + CRLF + rest) == [line] + Lines(rest)
  {
    var s := line + CRLF + rest;
    assert CrlfAt(s, |line|);
    forall i: nat | i < |line| ensures !CrlfAt(s, i) {
      assert !CrlfAt(line, i);
    }
    assert FindCrlf(s) == |line|;
    assert s[..|line|] == line && s[|line| + 2..] == rest;
  }

  lemma FindsFirst(before: string, c: char, after: string)
    requires c !in before
    ensures Find(before + [c] + after, c) == |before|
  {
    var s := before + [c] + after;
    var n := Find(s, c);
    assert s[|before|] == c;
    assert forall i | 0 <= i < |before| :: s[i] == before[i];
  }

  lemma WordsCons(word: string, rest: string)
    requires ' ' !in word
    ensures Words(word + " " + rest) == [word] + Words(rest)
  {
    var s := word + " " + rest;
    FindsFirst(word, ' ', rest);
    assert s[..|word|] == word && s[|word| + 1..] == rest;
  }

  lemma VersionIsOneWord()
    ensures Words("HTTP/1.1") == ["HTTP/1.1"]
  {
    assert ' ' !in "HTTP/1.1";
    assert Find("HTTP/1.1", ' ') == 8;
  }

  lemma ThreeWords(a: string, b: string, c: string)
    requires ' ' !in a && ' ' !in b && Words(c) == [c]
    ensures Words(a + " " + b + " " + c) == [a, b, c]
  {
    assert a + " " + b + " " + c == a + " " + (b + " " + c);
    WordsCons(a, b + " " + c);
    WordsCons(b, c);
  }

  lemma RequestLineParses(h: Head)
    requires IsToken(h.verb) && h.target != "" && ' ' !in h.target && NoCrlf(h.target)
    ensures ParseRequestLine(RequestLine(h)) == Ok((h.verb, h.target)) && NoCrlf(RequestLine(h))
  {
    assert ' ' !in h.verb;
    VersionIsOneWord();
    ThreeWords(h.verb, h.target, "HTTP/1.1");
    RequestLineNoCrlf(h);
  }

  lemma RequestLineNoCrlf(h: Head)
    requires IsToken(h.verb) && NoCrlf(h.target)
    ensures NoCrlf(RequestLine(h))
  {
    var line := RequestLine(h);
    var a, b := |h.verb|, |h.verb| + 1 + |h.target|;
    forall i: nat ensures !CrlfAt(line, i) {
      if i < a {
        assert line[i] == h.verb[i] && h.verb[i] in h.verb;
      } else if a < i && i + 1 < b {
        assert !CrlfAt(h.target, i - a - 1);
      } else if b < i && i < |line| {
        assert line[i] == "HTTP/1.1"[i - b - 1];
      }
    }
  }

  lemma HeaderLineAdds(headers: Headers, all: Headers, name: string)
    requires name in all && HeaderSound(name, all[name]) && name !in headers
    ensures AddHeader(headers, HeaderLine(all, name)) == Ok(headers[name := all[name]])
    ensures NoCrlf(HeaderLine(all, name))
  {
    var line, value := HeaderLine(all, name), all[name];
    assert line[0] == name[0] && name[0] in name;
    assert ':' !in name;
    FindsFirst(name, ':', value);
    assert line[..|name|] == name && line[|name| + 1..] == value;
    forall i: nat ensures !CrlfAt(line, i) {
      if i < |name| {
        assert line[i] == name[i] && name[i] in name;
      } else if i > |name| {
        assert !CrlfAt(value, i - |name| - 1);
      }
    }
  }

  /** The headers of `all` named in `names`. */
  function Restrict(all: Headers, names: seq<string>): Headers
    requires forall name | name in names :: name in all
  {
    map name | name in names :: all[name]
  }

  lemma NoHeadersParse(headers: Headers)
    ensures AddHeaders(headers, Lines(CRLF)) == Ok(headers)
  {
    LinesCons("", "");
    assert "" + CRLF + "" == CRLF;
    assert Lines(CRLF) == ["", ""];
    assert ["", ""][1..] == [""] && [""][1..] == [];
  }

  lemma AddHeadersCons(headers: Headers, line: string, lines: seq<string>, headers': Headers)
    requires AddHeader(headers, line) == Ok(headers')
    ensures AddHeaders(headers, [line] + lines) == AddHeaders(headers', lines)
  {
    assert ([line] + lines)[1..] == lines;
  }

  lemma RestrictCons(headers: Headers, all: Headers, names: seq<string>)
    requires names != [] && forall name | name in names :: name in all
    ensures headers[names[0] := all[names[0]]] + Restrict(all, names[1..]) == headers + Restrict(all, names)
  {
    assert names == [names[0]] + names[1..];
  }

  lemma RestrictAll(all: Headers, names: seq<string>)
    requires IsListing(names, all)
    ensures map[] + Restrict(all, names) == all
  {
  }

  lemma {:induction false} HeadersParse(headers: Headers, all: Headers, names: seq<string>)
    requires forall name | name in names :: name in all && HeaderSound(name, all[name]) && name !in headers
    requires forall i, j | 0 <= i < j < |names| :: names[i] != names[j]
    ensures AddHeaders(headers, Lines(PrintHeaders(all, names) + CRLF)) == Ok(headers + Restrict(all, names))
    decreases |names|
  {
    if names == [] {
      NoHeadersParse(headers);
      assert PrintHeaders(all, names) + CRLF == CRLF;
      assert headers + Restrict(all, names) == headers;
    } else {
      var name, tail := names[0], PrintHeaders(all, names[1..]) + CRLF;
      var headers' := headers[name := all[name]];
      HeaderLineAdds(headers, all, name);
      LinesCons(HeaderLine(all, name), tail);
      assert PrintHeaders(all, names) + CRLF == HeaderLine(all, name) + CRLF + tail;
      AddHeadersCons(headers, HeaderLine(all, name), Lines(tail), headers');
      HeadersParse(headers', all, names[1..]);
      RestrictCons(headers, all, names);
    }
  }

  lemma LinesParse(h: Head, line: string, rest: seq<string>, bodyMax: nat)
    requires Accepted(h, bodyMax) && ParseRequestLine(line) == Ok((h.verb, h.target))
      && AddHeaders(map[], rest) == Ok(h.headers)
    ensures ParseLines([line] + rest, bodyMax) == Ok(h)
  {
    assert ([line] + rest)[1..] == rest;
  }

  lemma PrintLines(h: Head, names: seq<string>, tail: string)
    requires forall name | name in names :: name in h.headers
    requires tail == PrintHeaders(h.headers, names) + CRLF && NoCrlf(RequestLine(h))
    ensures Lines(Print(h, names)) == [RequestLine(h)] + Lines(tail)
  {
    LinesCons(RequestLine(h), tail);
    assert Print(h, names) == RequestLine(h) + CRLF + tail;
  }

  lemma ListedHeadersParse(h: Head, names: seq<string>, bodyMax: nat)
    requires Accepted(h, bodyMax) && IsListing(names, h.headers)
    ensures AddHeaders(map[], Lines(PrintHeaders(h.headers, names) + CRLF)) == Ok(h.headers)
  {
    HeadersParse(map[], h.headers, names);
    RestrictAll(h.headers, names);
  }

  lemma PrintParses(h: Head, names: seq<string>, bodyMax: nat)
    requires Accepted(h, bodyMax) && IsListing(names, h.headers)
    ensures ParseHead(Print(h, names), bodyMax) == Ok(h)
  {
    var tail := PrintHeaders(h.headers, names) + CRLF;
    RequestLineParses(h);
    PrintLines(h, names, tail);
    ListedHeadersParse(h, names, bodyMax);
    LinesParse(h, RequestLine(h), Lines(tail), bodyMax);
  }

  /** Printing an accepted head, with its headers in any order, and parsing it again gives the same head. */
  lemma AcceptedHeadsReparse(text: string, names: seq<string>, bodyMax: nat)
    requires ParseHead(text, bodyMax).Ok? && IsListing(names, ParseHead(text, bodyMax).value.headers)
    ensures ParseHead(Print(ParseHead(text, bodyMax).value, names), bodyMax) == ParseHead(text, bodyMax)
  {
    ParsedIsAccepted(text, bodyMax);
    PrintParses(ParseHead(text, bodyMax).value, names, bodyMax);
  }

  // ---------------------------------------------------------------- the connection

  type Bytes = seq<Text.Byte>

  const HEAD_END: Bytes := [13, 10, 13, 10]

  predicate EndsHead(bytes: Bytes) {
    |bytes| >= 4 && bytes[|bytes| - 4..] == HEAD_END
  }

  /** `n` is the length of the shortest prefix that ends a head. */
  ghost predicate IsHeadEnd(input: Bytes, n: nat) {
    n <= |input| && EndsHead(input[..n]) && forall k | 0 <= k < n :: !EndsHead(input[..k])
  }

  datatype Limits = Limits(headerMax: nat, bodyMax: nat)

  datatype Request = Request(head: Head, body: Bytes)

  type Decoder = Bytes -> Option<string>

  function Decoded(decode: Decoder, bytes: Bytes, bodyMax: nat): Result<Head, Failure> {
    match decode(bytes)
    case None => Err(NotUtf8)
    case Some(text) => ParseHead(text, bodyMax)
  }

  method ParseHeaderLines(lines: seq<string>) returns (r: Result<Headers, Failure>)
    ensures r == AddHeaders(map[], lines)
  {
    var headers: Headers := map[];
    for i := 0 to |lines|
      invariant AddHeaders(headers, lines[i..]) == AddHeaders(map[], lines)
    {
      assert lines[i..][1..] == lines[i + 1..];
      var added := AddHeader(headers, lines[i]);
      if added.Err? {
        return added;
      }
      headers := added.value;
    }
    return Ok(headers);
  }

  /** An accepted connection: the bytes still to come, after which it ends or, if `broken`, fails. */
  class AcceptedStream {
    var rest: Bytes
    const broken: bool

    constructor (input: Bytes, broken: bool)
      ensures rest == input && this.broken == broken
    {
      rest, this.broken := input, broken;
    }

    /** Takes exactly the shortest prefix that ends in a blank line, if that is within the budget. */
    method ReadHead(headerMax: nat) returns (r: Result<Bytes, Failure>)
      modifies this
      ensures r.Ok? ==> IsHeadEnd(old(rest), |r.value|) && |r.value| <= headerMax && r.value + rest == old(rest)
      ensures r.Err? ==> forall n | 0 <= n <= headerMax :: !IsHeadEnd(old(rest), n)
      ensures r == Err(TooLarge) <==> r.Err? && headerMax <= |old(rest)|
      ensures r == Err(TooLarge) ==> rest == old(rest)[headerMax..]
      ensures r.Err? && r.error != TooLarge ==> rest == [] && r.error == if broken then Io else Truncated
    {
      var bytes: Bytes := [];
      while !EndsHead(bytes)
        invariant bytes + rest == old(rest) && |bytes| <= headerMax
        invariant forall k | 0 <= k < |bytes| :: !EndsHead(old(rest)[..k])
        decreases |rest|
      {
        assert bytes == old(rest)[..|bytes|];
        if |bytes| == headerMax {
          assert rest == old(rest)[headerMax..];
          return Err(TooLarge);
        }
        if rest == [] {
          return Err(if broken then Io else Truncated);
        }
        bytes, rest := bytes + [rest[0]], rest[1..];
      }
      assert bytes == old(rest)[..|bytes|];
      return Ok(bytes);
    }

    /** Head, then authorization, then body: no byte after the head is taken unless the request is authorized. */
    method ReadAuthorizedRequest(limits: Limits, decode: Decoder, authorize: Head -> bool)
      returns (r: Result<Request, Failure>)
      modifies this
      ensures r.Ok? ==> exists n: nat ::
                && IsHeadEnd(old(rest), n) && n <= limits.headerMax
                && Decoded(decode, old(rest)[..n], limits.bodyMax) == Ok(r.value.head) && authorize(r.value.head)
                && |r.value.body| == r.value.head.length <= limits.bodyMax
                && old(rest) == old(rest)[..n] + r.value.body + rest
      ensures forall n: nat | IsHeadEnd(old(rest), n) && n <= limits.headerMax ::
                var head := Decoded(decode, old(rest)[..n], limits.bodyMax);
                && (head.Err? ==> r == Err(head.error) && rest == old(rest)[n..])
                && (head.Ok? && !authorize(head.value) ==> r == Err(Forbidden) && rest == old(rest)[n..])
                && (head.Ok? && authorize(head.value) ==>
                      if n + head.value.length <= |old(rest)| then r.Ok? else r == Err(Truncated) && rest == [])
      ensures (forall n | 0 <= n <= limits.headerMax :: !IsHeadEnd(old(rest), n)) ==>
                if limits.headerMax <= |old(rest)| then r == Err(TooLarge) && rest == old(rest)[limits.headerMax..]
                else r == Err(if broken then Io else Truncated) && rest == []
    {
      var read := ReadHead(limits.headerMax);
      if read.Err? {
        return Err(read.error);
      }
      ghost var n := |read.value|;
      assert read.value == old(rest)[..n] && rest == old(rest)[n..] && n <= limits.headerMax;
      forall m: nat | IsHeadEnd(old(rest), m) ensures m == n {
        HeadEndUnique(old(rest), m, n);
      }
      var head := Decoded(decode, read.value, limits.bodyMax);
      if head.Err? {
        return Err(head.error);
      }
      if !authorize(head.value) {
        return Err(Forbidden);
      }
      if |rest| < head.value.length {
        rest := [];
        return Err(Truncated);
      }
      LengthFits(read.value, decode, limits.bodyMax);
      var body := rest[..head.value.length];
      rest := rest[head.value.length..];
      return Ok(Request(head.value, body));
    }
  }

  lemma HeadEndUnique(input: Bytes, m: nat, n: nat)
    requires IsHeadEnd(input, m) && IsHeadEnd(input, n)
    ensures m == n
  {
  }

  lemma LengthFits(bytes: Bytes, decode: Decoder, bodyMax: nat)
    requires Decoded(decode, bytes, bodyMax).Ok?
    ensures Decoded(decode, bytes, bodyMax).value.length <= bodyMax
  {
  }

  // ---------------------------------------------------------------- the canonical form on the wire

  type Encoder = char -> Bytes

  /** Line breaks are single bytes that occur in no other character, as in UTF-8. */
  ghost predicate BreaksLines(encode: Encoder) {
    && encode('\r') == [13] && encode('\n') == [10]
    && forall c | c != '\r' && c != '\n' :: encode(c) != [] && 13 !in encode(c) && 10 !in encode(c)
  }

  function Encoded(encode: Encoder, text: string): Bytes {
    if text == "" then [] else encode(text[0]) + Encoded(encode, text[1..])
  }

  lemma {:induction false} EncodedAppend(encode: Encoder, a: string, b: string)
    ensures Encoded(encode, a + b) == Encoded(encode, a) + Encoded(encode, b)
  {
    if a == "" {
      assert a + b == b;
    } else {
      assert (a + b)[1..] == a[1..] + b;
      EncodedAppend(encode, a[1..], b);
    }
  }

  /** Longer prefixes have longer encodings. */
  lemma PrefixGrows(encode: Encoder, text: string, i: nat, j: nat)
    requires BreaksLines(encode) && i < j <= |text|
    ensures |Encoded(encode, text[..i])| + |encode(text[i])| <= |Encoded(encode, text[..j])| && encode(text[i]) != []
  {
    assert text[..j] == text[..i] + ([text[i]] + text[i + 1..j]);
    EncodedAppend(encode, text[..i], [text[i]] + text[i + 1..j]);
    assert ([text[i]] + text[i + 1..j])[1..] == text[i + 1..j];
  }

  /** A line-break byte is where its character is encoded. */
  lemma {:induction false} BreakByteAt(encode: Encoder, text: string, q: nat) returns (j: nat)
    requires BreaksLines(encode) && q < |Encoded(encode, text)| && Encoded(encode, text)[q] in {13, 10}
    ensures j < |text| && |Encoded(encode, text[..j])| == q
    ensures text[j] == if Encoded(encode, text)[q] == 13 then '\r' else '\n'
  {
    var first := encode(text[0]);
    if q < |first| {
      assert first[q] in first;
      j := 0;
      assert text[..0] == "";
    } else {
      var k := BreakByteAt(encode, text[1..], q - |first|);
      j := k + 1;
      assert text[..j] == [text[0]] + text[1..][..k];
      assert text[..j][1..] == text[1..][..k];
    }
  }

  /** Consecutive line-break bytes come from consecutive characters. */
  lemma NextBreak(encode: Encoder, text: string, i: nat, j: nat, q: nat)
    requires BreaksLines(encode) && i < |text| && j < |text| && text[i] in {'\r', '\n'}
    requires |Encoded(encode, text[..i])| == q && |Encoded(encode, text[..j])| == q + 1
    ensures j == i + 1
  {
    assert |encode(text[i])| == 1;
    if j < i {
      PrefixGrows(encode, text, j, i);
    } else if j == i {
    } else if i + 1 < j {
      PrefixGrows(encode, text, i + 1, j);
      PrefixGrows(encode, text, i, i + 1);
    }
  }

  /** Where a head ends on the wire, two line breaks end in the text. */
  lemma HeadEndInText(encode: Encoder, text: string, k: nat) returns (j: nat)
    requires BreaksLines(encode) && k <= |Encoded(encode, text)| && EndsHead(Encoded(encode, text)[..k])
    ensures CrlfAt(text, j) && CrlfAt(text, j + 2) && |Encoded(encode, text[..j])| == k - 4
  {
    var bytes := Encoded(encode, text);
    assert bytes[..k][k - 4..] == bytes[k - 4..k];
    assert bytes[k - 4..k][0] == 13 && bytes[k - 4..k][1] == 10 && bytes[k - 4..k][2] == 13 && bytes[k - 4..k][3] == 10;
    j := BreakByteAt(encode, text, k - 4);
    var b := BreakByteAt(encode, text, k - 3);
    var c := BreakByteAt(encode, text, k - 2);
    var d := BreakByteAt(encode, text, k - 1);
    NextBreak(encode, text, j, b, k - 4);
    NextBreak(encode, text, b, c, k - 3);
    NextBreak(encode, text, c, d, k - 2);
  }

  /** In a line that is not empty, and what follows it, two line breaks in a row are in what follows. */
  lemma BreaksAfterLine(line: string, rest: string, j: nat)
    requires NoCrlf(line) && (rest != "" ==> |rest| >= 2 && !(CrlfAt(rest, 0) && |rest| > 2))
    requires CrlfAt(line + CRLF + rest, j) && CrlfAt(line + CRLF + rest, j + 2)
    ensures (rest == CRLF && j == |line|)
      || (j >= |line| + 2 && CrlfAt(rest, j - |line| - 2) && CrlfAt(rest, j - |line|))
  {
    var s := line + CRLF + rest;
    assert forall i: nat | i < |line| :: CrlfAt(s, i) == CrlfAt(line, i);
    assert forall i: nat | i >= |line| + 2 :: CrlfAt(s, i) == CrlfAt(rest, i - |line| - 2);
  }

  lemma {:induction false} HeadersEndOnce(headers: Headers, names: seq<string>, line: string, j: nat)
    requires forall name | name in names :: name in headers && HeaderSound(name, headers[name])
    requires NoCrlf(line)
    requires var text := line + CRLF + (PrintHeaders(headers, names) + CRLF); CrlfAt(text, j) && CrlfAt(text, j + 2)
    ensures j + 4 == |line + CRLF + (PrintHeaders(headers, names) + CRLF)|
    decreases |names|
  {
    var rest := PrintHeaders(headers, names) + CRLF;
    if names == [] {
      assert rest == CRLF;
      BreaksAfterLine(line, rest, j);
    } else {
      var next, tail := HeaderLine(headers, names[0]), PrintHeaders(headers, names[1..]) + CRLF;
      assert rest == next + CRLF + tail;
      HeaderLineAdds(map[], headers, names[0]);
      assert rest[0] == names[0][0] && names[0][0] in names[0];
      BreaksAfterLine(line, rest, j);
      HeadersEndOnce(headers, names[1..], next, j - |line| - 2);
    }
  }

  /** A printed head has two line breaks in a row at its end and nowhere else. */
  lemma PrintEndsOnce(h: Head, names: seq<string>, bodyMax: nat, j: nat)
    requires Accepted(h, bodyMax) && IsListing(names, h.headers)
    requires CrlfAt(Print(h, names), j) && CrlfAt(Print(h, names), j + 2)
    ensures j + 4 == |Print(h, names)|
  {
    RequestLineNoCrlf(h);
    assert Print(h, names) == RequestLine(h) + CRLF + (PrintHeaders(h.headers, names) + CRLF);
    HeadersEndOnce(h.headers, names, RequestLine(h), j);
  }

  lemma {:induction false} PrintedHeadersEnd(headers: Headers, names: seq<string>)
    requires forall name | name in names :: name in headers
    ensures var s := CRLF + PrintHeaders(headers, names) + CRLF; s[|s| - 4..] == CRLF + CRLF
  {
    if names != [] {
      PrintedHeadersEnd(headers, names[1..]);
      var tail := CRLF + PrintHeaders(headers, names[1..]) + CRLF;
      assert CRLF + PrintHeaders(headers, names) + CRLF == CRLF + HeaderLine(headers, names[0]) + tail;
    }
  }

  lemma EncodedBreaks(encode: Encoder)
    requires BreaksLines(encode)
    ensures Encoded(encode, CRLF + CRLF) == [13, 10, 13, 10]
  {
    assert CRLF[1..] == "\n" && "\n"[1..] == "";
    assert Encoded(encode, "\n") == [10];
    assert Encoded(encode, CRLF) == [13, 10];
    EncodedAppend(encode, CRLF, CRLF);
  }

  /** Two line breaks at the end of a text are the last four bytes of its encoding. */
  lemma EncodedEnds(encode: Encoder, text: string)
    requires BreaksLines(encode) && |text| >= 4 && text[|text| - 4..] == CRLF + CRLF
    ensures Encoded(encode, text) == Encoded(encode, text[..|text| - 4]) + [13, 10, 13, 10]
    ensures EndsHead(Encoded(encode, text))
  {
    var front := text[..|text| - 4];
    assert text == front + (CRLF + CRLF);
    EncodedAppend(encode, front, CRLF + CRLF);
    EncodedBreaks(encode);
  }

  /** A head ends nowhere in the encoding of a printed head but at its end. */
  lemma EndsOnlyAtEnd(h: Head, names: seq<string>, bodyMax: nat, encode: Encoder, k: nat)
    requires Accepted(h, bodyMax) && IsListing(names, h.headers) && BreaksLines(encode)
    requires var bytes := Encoded(encode, Print(h, names)); k <= |bytes| && EndsHead(bytes[..k])
    ensures k == |Encoded(encode, Print(h, names))|
  {
    var text := Print(h, names);
    var j := HeadEndInText(encode, text, k);
    PrintEndsOnce(h, names, bodyMax, j);
    assert text[j..] == CRLF + CRLF;
    EncodedEnds(encode, text);
  }

  lemma PrintEnds(h: Head, names: seq<string>)
    requires forall name | name in names :: name in h.headers
    ensures var text := Print(h, names); |text| >= 4 && text[|text| - 4..] == CRLF + CRLF
  {
    PrintedHeadersEnd(h.headers, names);
    var tail := CRLF + PrintHeaders(h.headers, names) + CRLF;
    assert Print(h, names) == RequestLine(h) + tail;
    assert (RequestLine(h) + tail)[|RequestLine(h) + tail| - 4..] == tail[|tail| - 4..];
  }

  lemma HeadEndStays(bytes: Bytes, following: Bytes)
    requires IsHeadEnd(bytes, |bytes|)
    ensures IsHeadEnd(bytes + following, |bytes|)
  {
    assert forall k | 0 <= k <= |bytes| :: (bytes + following)[..k] == bytes[..k];
  }

  /**
   * Whatever follows it on the wire, an encoded canonical head is taken whole and nothing more,
   * and parses to the same head.
   */
  lemma PrintedHeadIsRead(h: Head, names: seq<string>, bodyMax: nat,
                          encode: Encoder, decode: Decoder, following: Bytes)
    requires Accepted(h, bodyMax) && IsListing(names, h.headers) && BreaksLines(encode)
    requires decode(Encoded(encode, Print(h, names))) == Some(Print(h, names))
    ensures var bytes := Encoded(encode, Print(h, names));
      IsHeadEnd(bytes + following, |bytes|) && Decoded(decode, bytes, bodyMax) == Ok(h)
  {
    var bytes := Encoded(encode, Print(h, names));
    PrintParses(h, names, bodyMax);
    assert EndsHead(bytes[..|bytes|]) by {
      PrintEnds(h, names);
      EncodedEnds(encode, Print(h, names));
      assert bytes[..|bytes|] == bytes;
    }
    forall k | 0 <= k < |bytes| ensures !EndsHead(bytes[..k]) {
      if EndsHead(bytes[..k]) {
        EndsOnlyAtEnd(h, names, bodyMax, encode, k);
      }
    }
    HeadEndStays(bytes, following);
  }
}
