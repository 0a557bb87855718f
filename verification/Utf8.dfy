/** The UTF-8 form of a string and its strict inverse (section 3 of RFC 3629). */
module Utf8 {
  import opened Wrappers

  type byte = b: int | 0 <= b < 0x100

  function Scalar(c: char): int {
    c as int
  }

  /** The bytes of one character. */
  function Bytes(c: char): (bs: seq<byte>)
    ensures 1 <= |bs| <= 4
  {
    var n := Scalar(c);
    if n < 0x80 then [n]
    else if n < 0x800 then [0xC0 + n / 64, 0x80 + n % 64]
    else if n < 0x10000 then [0xE0 + n / 4096, 0x80 + n / 64 % 64, 0x80 + n % 64]
    else [0xF0 + n / 262144, 0x80 + n / 4096 % 64, 0x80 + n / 64 % 64, 0x80 + n % 64]
  }

  function BytesOf(s: string): seq<byte> {
    if s == "" then [] else Bytes(s[0]) + BytesOf(s[1..])
  }

  predicate Tail(b: byte) {
    0x80 <= b < 0xC0
  }

  /** The value read so far, with the six bits of one more tail byte. */
  function Join(high: int, tail: int): int {
    high * 64 + (tail - 0x80)
  }

  /** The first character of `bs` and how many bytes it takes: overlong forms, surrogates and
      values past U+10FFFF are refused. */
  function First(bs: seq<byte>): (r: Option<(char, nat)>)
    ensures r.Some? ==> 1 <= r.value.1 <= |bs|
  {
    if |bs| == 0 then None
    else if bs[0] < 0x80 then Some((bs[0] as char, 1))
    else if 0xC2 <= bs[0] < 0xE0 && |bs| >= 2 && Tail(bs[1]) then
      Some((Join(bs[0] - 0xC0, bs[1]) as char, 2))
    else if 0xE0 <= bs[0] < 0xF0 && |bs| >= 3 && Tail(bs[1]) && Tail(bs[2])
         && (bs[0] == 0xE0 ==> 0xA0 <= bs[1]) && (bs[0] == 0xED ==> bs[1] < 0xA0) then
      Some((Join(Join(bs[0] - 0xE0, bs[1]), bs[2]) as char, 3))
    else if 0xF0 <= bs[0] < 0xF5 && |bs| >= 4 && Tail(bs[1]) && Tail(bs[2]) && Tail(bs[3])
         && (bs[0] == 0xF0 ==> 0x90 <= bs[1]) && (bs[0] == 0xF4 ==> bs[1] < 0x90) then
      Some((Join(Join(Join(bs[0] - 0xF0, bs[1]), bs[2]), bs[3]) as char, 4))
    else None
  }

  function FromUtf8(bs: seq<byte>): Option<string>
    decreases |bs|
  {
    if bs == [] then Some("")
    else
      var (c, k) :- First(bs);
      var rest :- FromUtf8(bs[k..]);
      Some([c] + rest)
  }

  lemma LeadDigits(n: int)
    requires 0 <= n
    ensures n / 4096 == n / 64 / 64 && n / 262144 == n / 64 / 64 / 64
  {
  }

  lemma FirstOfBytes(c: char, rest: seq<byte>)
    ensures First(Bytes(c) + rest) == Some((c, |Bytes(c)|))
  {
    var n := Scalar(c);
    LeadDigits(n);
  }

  /** Decoding the bytes of a string gives the string. */
  lemma {:induction false} RoundTrip(s: string)
    ensures FromUtf8(BytesOf(s)) == Some(s)
  {
    if s != "" {
      FirstOfBytes(s[0], BytesOf(s[1..]));
      assert BytesOf(s)[|Bytes(s[0])|..] == BytesOf(s[1..]);
      RoundTrip(s[1..]);
      assert [s[0]] + s[1..] == s;
    }
  }
}
