/** Percent-encoding (section 2.1 of RFC 3986), splitting and decimal numbers: the text layer of
    lci-core/src/node.rs. */
module PercentText {
  import opened Wrappers
  import opened Utf8

  // ---------------------------------------------------------------- percent-encoding

  predicate IsControl(c: char) {
    Scalar(c) < 0x20 || 0x7F <= Scalar(c) < 0xA0
  }

  predicate Escaped(c: char, specials: set<char>) {
    c == '%' || IsControl(c) || c in specials
  }

  function Hex(n: int): char
    requires 0 <= n < 16
  {
    if n < 10 then ('0' as int + n) as char else ('A' as int + (n - 10)) as char
  }

  function EscapeBytes(bs: seq<byte>): string {
    if bs == [] then "" else ['%', Hex(bs[0] / 16), Hex(bs[0] % 16)] + EscapeBytes(bs[1..])
  }

  function EncodeChar(c: char, specials: set<char>): string {
    if Escaped(c, specials) then EscapeBytes(Bytes(c)) else [c]
  }

  function Encode(value: string, specials: set<char>): string {
    if value == "" then "" else EncodeChar(value[0], specials) + Encode(value[1..], specials)
  }

  function HexValue(c: char): Option<nat> {
    if '0' <= c <= '9' then Some(c as int - '0' as int)
    else if 'A' <= c <= 'F' then Some(c as int - 'A' as int + 10)
    else if 'a' <= c <= 'f' then Some(c as int - 'a' as int + 10)
    else None
  }

  /** Two characters read as one byte in base 16; a leading plus sign is taken as one. */
  function HexByte(hi: char, lo: char): (r: Option<byte>) {
    var low :- HexValue(lo);
    if hi == '+' then Some(low)
    else
      var high :- HexValue(hi);
      Some(high * 16 + low)
  }

  function DecodeBytes(value: string): Option<seq<byte>> {
    if value == "" then Some([])
    else if value[0] == '%' then
      if |value| < 3 then None
      else
        var b :- HexByte(value[1], value[2]);
        var rest :- DecodeBytes(value[3..]);
        Some([b] + rest)
    else
      var rest :- DecodeBytes(value[1..]);
      Some(Bytes(value[0]) + rest)
  }

  function Decode(value: string): Option<string> {
    var bytes :- DecodeBytes(value);
    FromUtf8(bytes)
  }

  method EscapeText(bytes: seq<byte>) returns (out: string)
    ensures out == EscapeBytes(bytes)
  {
    out := "";
    for j := 0 to |bytes|
      invariant out + EscapeBytes(bytes[j..]) == EscapeBytes(bytes)
    {
      assert bytes[j..][1..] == bytes[j + 1..];
      out := out + ['%', Hex(bytes[j] / 16), Hex(bytes[j] % 16)];
    }
  }

  lemma EncodeUnfold(value: string, i: nat, out: string, specials: set<char>)
    requires i < |value|
    ensures out + Encode(value[i..], specials)
         == out + EncodeChar(value[i], specials) + Encode(value[i + 1..], specials)
  {
  }

  method EncodeText(value: string, specials: set<char>) returns (out: string)
    ensures out == Encode(value, specials)
  {
    out := "";
    for i := 0 to |value|
      invariant out + Encode(value[i..], specials) == Encode(value, specials)
    {
      var c := value[i];
      EncodeUnfold(value, i, out, specials);
      if Escaped(c, specials) {
        var escape := EscapeText(Bytes(c));
        out := out + escape;
      } else {
        out := out + [c];
      }
    }
  }

  function After(out: seq<byte>, rest: Option<seq<byte>>): (r: Option<seq<byte>>)
    ensures out == [] ==> r == rest
  {
    if rest.None? then None
    else
      assert [] + rest.value == rest.value;
      Some(out + rest.value)
  }

  method DecodeText(value: string) returns (r: Option<string>)
    ensures r == Decode(value)
  {
    var out: seq<byte> := [];
    var i := 0;
    assert value[0..] == value;
    while i < |value|
      invariant 0 <= i <= |value|
      invariant DecodeBytes(value) == After(out, DecodeBytes(value[i..]))
    {
      ghost var rest := value[i..];
      if value[i] == '%' {
        if |value| - i < 3 { return None; }
        assert rest[3..] == value[i + 3..] && rest[1] == value[i + 1] && rest[2] == value[i + 2];
        var b := HexByte(value[i + 1], value[i + 2]);
        if b.None? { return None; }
        AfterAfter(out, [b.value], DecodeBytes(value[i + 3..]));
        out := out + [b.value];
        i := i + 3;
      } else {
        assert rest[1..] == value[i + 1..];
        AfterAfter(out, Bytes(value[i]), DecodeBytes(value[i + 1..]));
        out := out + Bytes(value[i]);
        i := i + 1;
      }
    }
    assert DecodeBytes(value[i..]) == Some([]);
    assert out + [] == out;
    r := FromUtf8(out);
  }

  lemma AfterAfter(xs: seq<byte>, ys: seq<byte>, rest: Option<seq<byte>>)
    ensures After(xs, After(ys, rest)) == After(xs + ys, rest)
  {
    if rest.Some? { assert xs + (ys + rest.value) == xs + ys + rest.value; }
  }

  lemma HexRoundTrip(b: byte)
    ensures HexByte(Hex(b / 16), Hex(b % 16)) == Some(b)
  {
  }

  lemma {:induction false} EscapesDecode(bs: seq<byte>, rest: string)
    ensures DecodeBytes(EscapeBytes(bs) + rest) == After(bs, DecodeBytes(rest))
  {
    if bs == [] {
      assert EscapeBytes(bs) + rest == rest;
    } else {
      var s := EscapeBytes(bs) + rest;
      HexRoundTrip(bs[0]);
      EscapesDecode(bs[1..], rest);
      assert s[3..] == EscapeBytes(bs[1..]) + rest;
      assert s[0] == '%' && s[1] == Hex(bs[0] / 16) && s[2] == Hex(bs[0] % 16);
      AfterAfter([bs[0]], bs[1..], DecodeBytes(rest));
      assert [bs[0]] + bs[1..] == bs;
    }
  }

  lemma {:induction false} EncodedBytes(value: string, specials: set<char>)
    ensures DecodeBytes(Encode(value, specials)) == Some(BytesOf(value))
  {
    if value != "" {
      var c, rest := value[0], Encode(value[1..], specials);
      EncodedBytes(value[1..], specials);
      if Escaped(c, specials) {
        EscapesDecode(Bytes(c), rest);
      } else {
        assert ([c] + rest)[1..] == rest;
      }
    }
  }

  /** Decoding undoes encoding, whatever was escaped. */
  lemma DecodeEncode(value: string, specials: set<char>)
    ensures Decode(Encode(value, specials)) == Some(value)
  {
    EncodedBytes(value, specials);
    RoundTrip(value);
  }

  predicate Separator(c: char) {
    c == '@' || c == '#' || c == '~' || c == '/' || c == ':' || c == ' '
  }

  lemma {:induction false} EscapesHoldNoSeparator(bs: seq<byte>, c: char)
    requires Separator(c)
    ensures c !in EscapeBytes(bs)
  {
    if bs != [] { EscapesHoldNoSeparator(bs[1..], c); }
  }

  /** A separator is in the encoded text exactly when it is in the text and is not escaped. */
  lemma {:induction false} SeparatorInEncoded(value: string, specials: set<char>, c: char)
    requires Separator(c)
    ensures c in Encode(value, specials) <==> c in value && c !in specials
  {
    if value != "" {
      SeparatorInEncoded(value[1..], specials, c);
      EscapesHoldNoSeparator(Bytes(value[0]), c);
      assert c in value <==> c == value[0] || c in value[1..];
    }
  }

  lemma EncodedEmpty(value: string, specials: set<char>)
    ensures Encode(value, specials) == "" <==> value == ""
  {
  }

  /** Escaping one character more changes nothing where it does not occur. */
  lemma {:induction false} ExtraSpecialUnused(value: string, specials: set<char>, c: char)
    requires c !in value
    ensures Encode(value, specials + {c}) == Encode(value, specials)
  {
    if value != "" {
      assert c !in value[1..];
      ExtraSpecialUnused(value[1..], specials, c);
    }
  }

  // ---------------------------------------------------------------- splitting and joining

  /** The text before and after the first `sep`. */
  function SplitOnce(s: string, sep: string): (r: Option<(string, string)>)
    ensures r.Some? ==> |r.value.1| + |sep| <= |s|
  {
    if |s| < |sep| then None
    else if s[..|sep|] == sep then Some(("", s[|sep|..]))
    else if s == "" then None
    else
      var (head, tail) :- SplitOnce(s[1..], sep);
      Some(([s[0]] + head, tail))
  }

  /** The text before and after the last `c`. */
  function RSplitOnce(s: string, c: char): Option<(string, string)> {
    if s == "" then None
    else if s[|s| - 1] == c then Some((s[..|s| - 1], ""))
    else
      var (head, tail) :- RSplitOnce(s[..|s| - 1], c);
      Some((head, tail + [s[|s| - 1]]))
  }

  function Split(s: string, sep: string): seq<string>
    requires sep != ""
    decreases |s|
  {
    match SplitOnce(s, sep)
    case None => [s]
    case Some((head, tail)) => [head] + Split(tail, sep)
  }

  function Join(parts: seq<string>, sep: string): string {
    if parts == [] then ""
    else if |parts| == 1 then parts[0]
    else parts[0] + sep + Join(parts[1..], sep)
  }

  lemma {:induction false} SplitOnceAt(head: string, sep: string, tail: string)
    requires sep != "" && sep[0] !in head
    ensures SplitOnce(head + sep + tail, sep) == Some((head, tail))
  {
    var s := head + sep + tail;
    if head == "" {
      assert s[..|sep|] == sep && s[|sep|..] == tail;
    } else {
      assert s[..|sep|][0] == head[0];
      assert s[1..] == head[1..] + sep + tail;
      SplitOnceAt(head[1..], sep, tail);
      assert [s[0]] + head[1..] == head;
    }
  }

  lemma {:induction false} SplitOnceNone(s: string, sep: string)
    requires sep != "" && sep[0] !in s
    ensures SplitOnce(s, sep) == None
  {
    if |s| >= |sep| {
      assert s[..|sep|][0] == s[0];
      SplitOnceNone(s[1..], sep);
    }
  }

  lemma {:induction false} RSplitOnceAt(head: string, c: char, tail: string)
    requires c !in tail
    ensures RSplitOnce(head + [c] + tail, c) == Some((head, tail))
    decreases |tail|
  {
    var s := head + [c] + tail;
    if tail == "" {
      assert s[..|s| - 1] == head;
    } else {
      var front := tail[..|tail| - 1];
      assert s[..|s| - 1] == head + [c] + front && s[|s| - 1] == tail[|tail| - 1];
      RSplitOnceAt(head, c, front);
      assert front + [tail[|tail| - 1]] == tail;
    }
  }

  lemma {:induction false} RSplitOnceNone(s: string, c: char)
    requires c !in s
    ensures RSplitOnce(s, c) == None
  {
    if s != "" { RSplitOnceNone(s[..|s| - 1], c); }
  }

  lemma {:induction false} SplitJoin(parts: seq<string>, sep: string)
    requires sep != "" && parts != [] && forall p <- parts :: sep[0] !in p
    ensures Split(Join(parts, sep), sep) == parts
  {
    if |parts| == 1 {
      SplitOnceNone(parts[0], sep);
    } else {
      SplitOnceAt(parts[0], sep, Join(parts[1..], sep));
      SplitJoin(parts[1..], sep);
    }
  }

  lemma {:induction false} AbsentFromJoin(parts: seq<string>, sep: string, c: char)
    requires c !in sep && forall p <- parts :: c !in p
    ensures c !in Join(parts, sep)
  {
    if |parts| > 1 { AbsentFromJoin(parts[1..], sep, c); }
  }

  // ---------------------------------------------------------------- decimal numbers

  function Decimal(n: nat): string {
    if n < 10 then [('0' as int + n) as char] else Decimal(n / 10) + [('0' as int + n % 10) as char]
  }

  function Digits(s: string): Option<nat> {
    if s == "" then Some(0)
    else
      var high :- Digits(s[..|s| - 1]);
      var c := s[|s| - 1];
      if '0' <= c <= '9' then Some(high * 10 + (c as int - '0' as int)) else None
  }

  /** An unsigned number below `bound`: digits after an optional plus sign. */
  function ParseNat(s: string, bound: nat): (r: Option<nat>)
    ensures r.Some? ==> r.value < bound
  {
    var digits := if s != "" && s[0] == '+' then s[1..] else s;
    if digits == "" then None
    else
      var n :- Digits(digits);
      if n < bound then Some(n) else None
  }

  lemma {:induction false} DigitsOfDecimal(n: nat)
    ensures Digits(Decimal(n)) == Some(n)
    ensures forall c <- Decimal(n) :: '0' <= c <= '9'
    ensures Decimal(n) != ""
  {
    if n >= 10 {
      DigitsOfDecimal(n / 10);
      assert Decimal(n)[..|Decimal(n)| - 1] == Decimal(n / 10);
    }
  }

  lemma {:induction false} ParseDecimal(n: nat, bound: nat)
    requires n < bound
    ensures ParseNat(Decimal(n), bound) == Some(n)
    ensures forall c <- Decimal(n) :: '0' <= c <= '9'
  {
    DigitsOfDecimal(n);
    assert Decimal(n)[0] in Decimal(n);
  }
}
