/** Which texts are request heads, said of the text: the request line and the header lines, one by one. */
module HttpHeads {

  import opened Wrappers
  import opened HttpIngress
  import Text

  /** The characters of a token are the visible ones that are not delimiters (section 5.6.2 of RFC 9110). */
  lemma TokenCharsExactly(c: char)
    ensures IsTokenChar(c) <==>
            '!' <= c <= '~' &&
            c !in {'"', '(', ')', ',', '/', ':', ';', '<', '=', '>', '?', '@', '[', '\\', ']', '{', '}'}
  {
  }

  // ---------------------------------------------------------------- header lines

  /** A token, a colon, and a value. */
  predicate IsField(line: string) {
    Find(line, ':') < |line| && IsToken(line[..Find(line, ':')])
  }

  function NameOf(line: string): string {
    Lower(line[..Find(line, ':')])
  }

  function ValueOf(line: string): string
    requires IsField(line)
  {
    Text.Trim(line[Find(line, ':') + 1..])
  }

  ghost predicate NamesDiffer(lines: seq<string>) {
    forall i, j | 0 <= i < j < |lines| && lines[i] != "" && lines[j] != "" :: NameOf(lines[i]) != NameOf(lines[j])
  }

  ghost predicate NamesNew(known: Headers, lines: seq<string>) {
    forall i | 0 <= i < |lines| && lines[i] != "" :: NameOf(lines[i]) !in known
  }

  ghost predicate AllFields(lines: seq<string>) {
    forall i | 0 <= i < |lines| && lines[i] != "" :: IsField(lines[i])
  }

  /** `headers` is `known` and what the lines say. */
  ghost predicate Adds(known: Headers, lines: seq<string>, headers: Headers)
    requires AllFields(lines)
  {
    && (forall name | name in known :: name in headers && headers[name] == known[name])
    && (forall i | 0 <= i < |lines| && lines[i] != "" ::
          NameOf(lines[i]) in headers && headers[NameOf(lines[i])] == ValueOf(lines[i]))
    && (forall name | name in headers && name !in known ::
          exists i :: 0 <= i < |lines| && lines[i] != "" && NameOf(lines[i]) == name)
  }

  lemma OneLine(known: Headers, line: string)
    ensures line == "" ==> AddHeader(known, line) == Ok(known)
    ensures line != "" ==> (AddHeader(known, line).Ok? <==> IsField(line) && NameOf(line) !in known)
    ensures line != "" && AddHeader(known, line).Ok? ==>
              AddHeader(known, line).value == known[NameOf(line) := ValueOf(line)]
    ensures AddHeader(known, line) == Err(Folded) <==> line != "" && line[0] in {' ', '\t'}
    ensures AddHeader(known, line) == Err(BadHeader) <==> line != "" && line[0] !in {' ', '\t'} && !IsField(line)
    ensures AddHeader(known, line) == Err(Duplicate) <==> line != "" && IsField(line) && NameOf(line) in known
  {
    if line != "" && IsField(line) {
      assert line[..Find(line, ':')][0] in line[..Find(line, ':')];
    }
  }

  lemma FitsCons(known: Headers, known': Headers, lines: seq<string>)
    requires lines != [] && AddHeader(known, lines[0]) == Ok(known')
    ensures AllFields(lines) && NamesDiffer(lines) && NamesNew(known, lines) <==>
            AllFields(lines[1..]) && NamesDiffer(lines[1..]) && NamesNew(known', lines[1..])
  {
    var rest := lines[1..];
    OneLine(known, lines[0]);
    assert forall i | 0 <= i < |rest| :: rest[i] == lines[i + 1];
    if AllFields(rest) && NamesDiffer(rest) && NamesNew(known', rest) {
      forall i | 0 <= i < |lines| && lines[i] != "" ensures IsField(lines[i]) && NameOf(lines[i]) !in known {
        assert i > 0 ==> lines[i] == rest[i - 1];
      }
      forall i, j | 0 <= i < j < |lines| && lines[i] != "" && lines[j] != ""
        ensures NameOf(lines[i]) != NameOf(lines[j])
      {
        assert lines[j] == rest[j - 1];
        assert i > 0 ==> lines[i] == rest[i - 1];
      }
    }
  }

  lemma AddsCons(known: Headers, known': Headers, lines: seq<string>, headers: Headers)
    requires lines != [] && AddHeader(known, lines[0]) == Ok(known') && AllFields(lines)
    requires AllFields(lines[1..]) && Adds(known', lines[1..], headers)
    ensures Adds(known, lines, headers)
  {
    var rest := lines[1..];
    OneLine(known, lines[0]);
    forall i | 0 <= i < |lines| && lines[i] != ""
      ensures NameOf(lines[i]) in headers && headers[NameOf(lines[i])] == ValueOf(lines[i])
    {
      assert i > 0 ==> lines[i] == rest[i - 1];
    }
    forall name | name in headers && name !in known
      ensures exists i :: 0 <= i < |lines| && lines[i] != "" && NameOf(lines[i]) == name
    {
      if name !in known' {
        var i :| 0 <= i < |rest| && rest[i] != "" && NameOf(rest[i]) == name;
        assert lines[i + 1] == rest[i];
      }
    }
  }

  /** Header lines are taken exactly when each is a field or empty and no name occurs twice, and then give what they
      say. */
  lemma {:induction false} HeadersExactly(known: Headers, lines: seq<string>)
    ensures AddHeaders(known, lines).Ok? <==> AllFields(lines) && NamesDiffer(lines) && NamesNew(known, lines)
    ensures AddHeaders(known, lines).Ok? ==> Adds(known, lines, AddHeaders(known, lines).value)
    decreases |lines|
  {
    if lines != [] {
      OneLine(known, lines[0]);
      var added := AddHeader(known, lines[0]);
      if added.Ok? {
        HeadersExactly(added.value, lines[1..]);
        FitsCons(known, added.value, lines);
        if AddHeaders(added.value, lines[1..]).Ok? {
          AddsCons(known, added.value, lines, AddHeaders(known, lines).value);
        }
      }
    }
  }

  lemma AddsUnique(lines: seq<string>, a: Headers, b: Headers)
    requires AllFields(lines) && Adds(map[], lines, a) && Adds(map[], lines, b)
    ensures a == b
  {
    forall name | name in a ensures name in b && b[name] == a[name] {
      var i :| 0 <= i < |lines| && lines[i] != "" && NameOf(lines[i]) == name;
    }
    forall name | name in b ensures name in a {
      var i :| 0 <= i < |lines| && lines[i] != "" && NameOf(lines[i]) == name;
    }
  }

  // ---------------------------------------------------------------- the request line

  lemma SplitsAtSpace(s: string, n: nat)
    requires n < |s| && s[n] == ' '
    ensures s == s[..n] + " " + s[n + 1..]
  {
  }

  lemma FirstWord(s: string, words: seq<string>, rest: seq<string>) returns (tail: string)
    requires |words| == 1 && Words(s) == words + rest && rest != []
    ensures s == words[0] + " " + tail && Words(tail) == rest && ' ' !in words[0]
  {
    var n := Find(s, ' ');
    assert n < |s|;
    tail := s[n + 1..];
    SplitsAtSpace(s, n);
    assert Words(s)[0] == s[..n] && Words(s)[1..] == Words(tail);
    assert (words + rest)[1..] == rest;
  }

  lemma JoinsThree(line: string, a: string, b: string, c: string)
    requires Words(line) == [a, b, c]
    ensures line == a + " " + b + " " + c && ' ' !in b
  {
    assert [a, b, c] == [a] + [b, c] && [b, c] == [b] + [c];
    var rest := FirstWord(line, [a], [b, c]);
    var last := FirstWord(rest, [b], [c]);
    LoneWord(last);
    SpacesJoin(a, b, c);
  }

  lemma SpacesJoin(a: string, b: string, c: string)
    ensures a + " " + (b + " " + c) == a + " " + b + " " + c
  {
  }

  lemma ParsedLine(line: string, verb: string, target: string)
    requires ParseRequestLine(line) == Ok((verb, target))
    ensures Words(line) == [verb, target, "HTTP/1.1"] && IsToken(verb) && target != ""
  {
  }

  lemma WrittenLine(line: string, verb: string, target: string)
    requires line == verb + " " + target + " " + "HTTP/1.1" && IsToken(verb) && target != "" && ' ' !in target
    ensures ParseRequestLine(line) == Ok((verb, target))
  {
    assert ' ' !in verb;
    VersionIsOneWord();
    ThreeWords(verb, target, "HTTP/1.1");
  }

  /** A request line is a token, a target without spaces and the version, with one space between. */
  lemma RequestLineExactly(line: string, verb: string, target: string)
    ensures ParseRequestLine(line) == Ok((verb, target)) <==>
            line == verb + " " + target + " " + "HTTP/1.1" && IsToken(verb) && target != "" && ' ' !in target
  {
    if ParseRequestLine(line) == Ok((verb, target)) {
      ParsedLine(line, verb, target);
      JoinsThree(line, verb, target, "HTTP/1.1");
    } else if line == verb + " " + target + " " + "HTTP/1.1" && IsToken(verb) && target != "" && ' ' !in target {
      WrittenLine(line, verb, target);
    }
  }

  /** The method is looked at first, then the target, then the version. */
  lemma RefusedLine(line: string)
    ensures var n := Find(line, ' ');
      && (ParseRequestLine(line) == Err(BadMethod) <==> !IsToken(line[..n]))
      && (ParseRequestLine(line) == Err(BadTarget) <==>
          IsToken(line[..n]) && (n == |line| || n + 1 == |line| || line[n + 1] == ' '))
      && (ParseRequestLine(line).Err? ==> ParseRequestLine(line).error in {BadMethod, BadTarget, BadVersion})
  {
    var n := Find(line, ' ');
    if n < |line| {
      var rest := line[n + 1..];
      assert Words(line) == [line[..n]] + Words(rest);
      assert Words(rest)[0] == rest[..Find(rest, ' ')];
      assert rest != "" ==> rest[0] == line[n + 1];
    }
  }

  lemma LoneWord(s: string)
    requires |Words(s)| == 1
    ensures Words(s) == [s]
  {
  }

  // ---------------------------------------------------------------- whole heads

  /** The number a content length says, zero without one. */
  predicate SaysLength(headers: Headers, length: nat) {
    if "content-length" in headers then
      var text := headers["content-length"];
      text != "" && Text.AllDigits(text) && Text.Value(text) == length <= USIZE_MAX
    else length == 0
  }

  lemma LengthExactly(headers: Headers, length: nat)
    ensures ContentLength(headers) == Ok(length) <==> SaysLength(headers, length)
  {
  }

  /** The lines of a request head: what a text must be for the head `h` to be read from it. */
  ghost predicate IsHead(lines: seq<string>, h: Head, bodyMax: nat) {
    && lines != [] && lines[0] == h.verb + " " + h.target + " " + "HTTP/1.1"
    && IsToken(h.verb) && h.target != "" && ' ' !in h.target
    && AllFields(lines[1..]) && NamesDiffer(lines[1..]) && Adds(map[], lines[1..], h.headers)
    && "transfer-encoding" !in h.headers && "host" in h.headers && h.headers["host"] != ""
    && SaysLength(h.headers, h.length) && h.length <= bodyMax
  }

  lemma HeadersAre(lines: seq<string>, headers: Headers)
    ensures AddHeaders(map[], lines) == Ok(headers) <==>
            AllFields(lines) && NamesDiffer(lines) && Adds(map[], lines, headers)
  {
    HeadersExactly(map[], lines);
    if AllFields(lines) && NamesDiffer(lines) && Adds(map[], lines, headers) {
      AddsUnique(lines, AddHeaders(map[], lines).value, headers);
    }
  }

  lemma PartsParse(lines: seq<string>, bodyMax: nat, h: Head)
    requires lines != []
    ensures ParseLines(lines, bodyMax) == Ok(h) <==>
            && ParseRequestLine(lines[0]) == Ok((h.verb, h.target))
            && AddHeaders(map[], lines[1..]) == Ok(h.headers)
            && "transfer-encoding" !in h.headers && "host" in h.headers && h.headers["host"] != ""
            && ContentLength(h.headers) == Ok(h.length) && h.length <= bodyMax
  {
  }

  /** A head is read from a text exactly if its lines are that head. */
  lemma ParsedExactly(text: string, bodyMax: nat, h: Head)
    ensures ParseHead(text, bodyMax) == Ok(h) <==> IsHead(Lines(text), h, bodyMax)
  {
    var lines := Lines(text);
    PartsParse(lines, bodyMax, h);
    RequestLineExactly(lines[0], h.verb, h.target);
    HeadersAre(lines[1..], h.headers);
    LengthExactly(h.headers, h.length);
  }

  function Join(lines: seq<string>): string
    requires lines != []
  {
    if |lines| == 1 then lines[0] else lines[0] + CRLF + Join(lines[1..])
  }

  /** The lines are the pieces of the text between its line breaks. */
  lemma {:induction false} LinesExactly(text: string)
    ensures Join(Lines(text)) == text
  {
    var n := FindCrlf(text);
    if n < |text| {
      LinesExactly(text[n + 2..]);
      assert Lines(text)[1..] == Lines(text[n + 2..]);
      assert text == text[..n] + CRLF + text[n + 2..];
    }
  }
}
