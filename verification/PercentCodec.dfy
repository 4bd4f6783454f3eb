/** Percent-encoding of query text, on bytes. */
module PercentCodec {

  import opened Wrappers
  import Text

  type Byte = Text.Byte

  const PERCENT: Byte := 0x25
  const PLUS: Byte := 0x2B
  const SPACE: Byte := 0x20

  /** Letters, digits and `-`, `.`, `_`, `~`: the unreserved characters of section 2.3 of RFC 3986. */
  predicate IsUnreserved(b: Byte) {
    0x41 <= b <= 0x5A || 0x61 <= b <= 0x7A || 0x30 <= b <= 0x39 || b == 0x2D || b == 0x2E || b == 0x5F || b == 0x7E
  }

  function HexDigit(n: nat): Byte
    requires n < 16
  {
    if n < 10 then 0x30 + n else 0x61 + n - 10
  }

  function HexValue(b: Byte): Option<nat> {
    if 0x30 <= b <= 0x39 then Some(b - 0x30)
    else if 0x41 <= b <= 0x46 then Some(b - 0x41 + 10)
    else if 0x61 <= b <= 0x66 then Some(b - 0x61 + 10)
    else None
  }

  function EncodeByte(b: Byte): seq<Byte> {
    if IsUnreserved(b) then [b]
    else if b == SPACE then [PERCENT, 0x32, 0x30]
    else [PERCENT, HexDigit(b / 16), HexDigit(b % 16)]
  }

  function Encode(s: seq<Byte>): seq<Byte> {
    if s == [] then [] else EncodeByte(s[0]) + Encode(s[1..])
  }

  /** A percent sign followed by two hexadecimal digits. */
  predicate StartsTriple(s: seq<Byte>) {
    |s| > 2 && s[0] == PERCENT && HexValue(s[1]).Some? && HexValue(s[2]).Some?
  }

  function Decode(s: seq<Byte>): seq<Byte> {
    if s == [] then []
    else if StartsTriple(s) then [TripleValue(s)] + Decode(s[3..])
    else [if s[0] == PLUS then SPACE else s[0]] + Decode(s[1..])
  }

  lemma Append(r: seq<Byte>, x: seq<Byte>, rest: seq<Byte>)
    ensures r + (x + rest) == r + x + rest
  {
  }

  method PercentEncodeQuery(s: seq<Byte>) returns (r: seq<Byte>)
    ensures r == Encode(s)
  {
    r := [];
    for i := 0 to |s|
      invariant r + Encode(s[i..]) == Encode(s)
    {
      assert s[i..][1..] == s[i + 1..];
      Append(r, EncodeByte(s[i]), Encode(s[i + 1..]));
      if IsUnreserved(s[i]) {
        r := r + [s[i]];
      } else if s[i] == SPACE {
        r := r + [PERCENT, 0x32, 0x30];
      } else {
        r := r + [PERCENT, HexDigit(s[i] / 16), HexDigit(s[i] % 16)];
      }
    }
  }

  /** What replacing malformed UTF-8 does to bytes; text, as UTF-8, is what it leaves alone. */
  type Lossy = seq<Byte> -> seq<Byte>

  /** The decoded query text. */
  function DecodeQuery(s: seq<Byte>, lossy: Lossy): seq<Byte> {
    lossy(Decode(s))
  }

  lemma DecodeAt(s: seq<Byte>, i: nat)
    requires i < |s|
    ensures StartsTriple(s[i..]) <==>
            i + 2 < |s| && s[i] == PERCENT && HexValue(s[i + 1]).Some? && HexValue(s[i + 2]).Some?
    ensures Decode(s[i..]) ==
            if StartsTriple(s[i..]) then [TripleValue(s[i..])] + Decode(s[i + 3..])
            else [if s[i] == PLUS then SPACE else s[i]] + Decode(s[i + 1..])
  {
    assert s[i..][1..] == s[i + 1..];
    if StartsTriple(s[i..]) {
      assert s[i..][3..] == s[i + 3..];
    }
  }

  method PercentDecodeQuery(s: seq<Byte>, lossy: Lossy) returns (text: seq<Byte>)
    ensures text == DecodeQuery(s, lossy)
  {
    var r: seq<Byte> := [];
    var i := 0;
    while i < |s|
      invariant i <= |s| && r + Decode(s[i..]) == Decode(s)
    {
      DecodeAt(s, i);
      if s[i] == PERCENT && i + 2 < |s| {
        var hi, lo := HexValue(s[i + 1]), HexValue(s[i + 2]);
        if hi.Some? && lo.Some? {
          Append(r, [hi.value * 16 + lo.value], Decode(s[i + 3..]));
          r := r + [hi.value * 16 + lo.value];
          i := i + 3;
          continue;
        }
      }
      Append(r, [if s[i] == PLUS then SPACE else s[i]], Decode(s[i + 1..]));
      r := r + [if s[i] == PLUS then SPACE else s[i]];
      i := i + 1;
    }
    assert s[i..] == [] && r == Decode(s);
    text := lossy(r);
  }

  lemma EncodedByteDecodes(b: Byte, rest: seq<Byte>)
    ensures Decode(EncodeByte(b) + rest) == [b] + Decode(rest)
  {
    var s := EncodeByte(b) + rest;
    if IsUnreserved(b) {
      assert s[1..] == rest;
    } else {
      assert s[3..] == rest;
      assert HexValue(s[1]) == Some(b / 16) && HexValue(s[2]) == Some(b % 16);
    }
  }

  /** Decoding inverts encoding on every byte string. */
  lemma {:induction false} DecodeInvertsEncode(s: seq<Byte>)
    ensures Decode(Encode(s)) == s
  {
    if s != [] {
      EncodedByteDecodes(s[0], Encode(s[1..]));
      DecodeInvertsEncode(s[1..]);
    }
  }

  /** A query is decoded to the text it encodes. */
  lemma QueryRoundTrip(text: seq<Byte>, lossy: Lossy)
    requires lossy(text) == text
    ensures DecodeQuery(Encode(text), lossy) == text
  {
    DecodeInvertsEncode(text);
  }

  predicate IsLowerHex(b: Byte) {
    0x30 <= b <= 0x39 || 0x61 <= b <= 0x66
  }

  /** Unreserved bytes and well-formed lower-case triples, and nothing else. */
  predicate Canonical(s: seq<Byte>) {
    s == [] ||
    (IsUnreserved(s[0]) && Canonical(s[1..])) ||
    (|s| > 2 && s[0] == PERCENT && IsLowerHex(s[1]) && IsLowerHex(s[2]) && Canonical(s[3..]))
  }

  lemma {:induction false} EncodingIsCanonical(s: seq<Byte>)
    ensures Canonical(Encode(s)) && PLUS !in Encode(s) && SPACE !in Encode(s)
  {
    if s != [] {
      var rest := Encode(s[1..]);
      EncodingIsCanonical(s[1..]);
      if IsUnreserved(s[0]) {
        assert Encode(s)[1..] == rest;
      } else {
        assert Encode(s)[3..] == rest;
      }
    }
  }

  /** No triple stands for an unreserved byte. */
  predicate Minimal(s: seq<Byte>) {
    s == [] ||
    (if StartsTriple(s) then !IsUnreserved(TripleValue(s)) && Minimal(s[3..]) else Minimal(s[1..]))
  }

  function TripleValue(s: seq<Byte>): Byte
    requires StartsTriple(s)
  {
    HexValue(s[1]).value * 16 + HexValue(s[2]).value
  }

  lemma EncodeCons(b: Byte, rest: seq<Byte>)
    ensures Encode([b] + rest) == EncodeByte(b) + Encode(rest)
  {
    assert ([b] + rest)[1..] == rest;
  }

  /** A lower-case triple is re-encoded as itself exactly when its byte is not unreserved. */
  lemma TripleEncodes(s: seq<Byte>)
    requires StartsTriple(s) && IsLowerHex(s[1]) && IsLowerHex(s[2])
    ensures if IsUnreserved(TripleValue(s)) then EncodeByte(TripleValue(s))[0] != s[0]
      else EncodeByte(TripleValue(s)) == s[..3]
  {
    var b := TripleValue(s);
    assert b / 16 == HexValue(s[1]).value && b % 16 == HexValue(s[2]).value;
  }

  lemma SameHead(head: seq<Byte>, a: seq<Byte>, b: seq<Byte>)
    ensures head + a == head + b <==> a == b
  {
    assert (head + a)[|head|..] == a && (head + b)[|head|..] == b;
  }

  /** The canonical texts that are encodings are exactly the minimal ones. */
  lemma {:induction false} EncodeInvertsDecode(s: seq<Byte>)
    requires Canonical(s)
    ensures Encode(Decode(s)) == s <==> Minimal(s)
    decreases |s|
  {
    if s != [] {
      if IsUnreserved(s[0]) {
        EncodeInvertsDecode(s[1..]);
        EncodeCons(s[0], Decode(s[1..]));
        assert s == [s[0]] + s[1..];
        SameHead([s[0]], Encode(Decode(s[1..])), s[1..]);
      } else {
        var rest := s[3..];
        EncodeInvertsDecode(rest);
        EncodeCons(TripleValue(s), Decode(rest));
        TripleEncodes(s);
        assert s == s[..3] + rest;
        SameHead(s[..3], Encode(Decode(rest)), rest);
      }
    }
  }

  /** The value of a hexadecimal digit of either case. */
  predicate IsHex(b: Byte, value: nat) {
    || (48 <= b <= 57 && value == b - 48)
    || (65 <= b <= 70 && value == b - 55)
    || (97 <= b <= 102 && value == b - 87)
  }

  lemma HexExactly(b: Byte, value: nat)
    ensures HexValue(b) == Some(value) <==> IsHex(b, value)
  {
  }

  /** A percent sign (37) with two hexadecimal digits, of either case, is one byte. */
  lemma TripleDecodes(s: seq<Byte>, high: nat, low: nat)
    requires |s| > 2 && s[0] == 37 && IsHex(s[1], high) && IsHex(s[2], low)
    ensures high * 16 + low < 256 && Decode(s) == [high * 16 + low] + Decode(s[3..])
  {
    HexExactly(s[1], high);
    HexExactly(s[2], low);
  }

  /** A plus sign (43) is a space (32), and a byte that begins no triple is itself. */
  lemma OtherBytesDecode(s: seq<Byte>)
    requires s != [] && (s[0] == 37 && |s| > 2 ==> !(exists high, low :: IsHex(s[1], high) && IsHex(s[2], low)))
    ensures Decode(s) == [if s[0] == 43 then 32 else s[0]] + Decode(s[1..])
  {
    if StartsTriple(s) {
      HexExactly(s[1], HexValue(s[1]).value);
      HexExactly(s[2], HexValue(s[2]).value);
    }
  }

  /** A byte is encoded as itself exactly if it is an ASCII letter or digit, a hyphen, dot, underscore or tilde. */
  lemma UnreservedExactly(b: Byte)
    ensures EncodeByte(b) == [b] <==>
            || (b < 128 && 'A' <= b as char <= 'Z') || (b < 128 && 'a' <= b as char <= 'z')
            || (b < 128 && '0' <= b as char <= '9') || (b < 128 && b as char in {'-', '.', '_', '~'})
  {
  }
}
