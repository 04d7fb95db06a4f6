/** Percent-decoding as ECMAScript's `decodeURIComponent` does it (the
    Decode operation with an empty reserved set, section 2.1 of RFC 3986
    for the `%XY` form, UTF-8 for escaped octets above 0x7F), and its
    inverse `encodeURIComponent`. Characters are Unicode scalar values. */
module Percent {
  import opened Wrappers

  predicate IsHexDigit(c: char) {
    '0' <= c <= '9' || 'a' <= c <= 'f' || 'A' <= c <= 'F'
  }

  function HexValue(c: char): (n: nat)
    requires IsHexDigit(c)
    ensures n < 16
  {
    if '0' <= c <= '9' then c as int - '0' as int
    else if 'a' <= c <= 'f' then c as int - 'a' as int + 10
    else c as int - 'A' as int + 10
  }

  /** The upper-case hex digit `encodeURIComponent` writes for `n`. */
  function HexDigit(n: nat): (c: char)
    requires n < 16
    ensures IsHexDigit(c) && HexValue(c) == n
    ensures '0' <= c <= '9' || 'A' <= c <= 'F'
  {
    if n < 10 then ('0' as int + n) as char else ('A' as int + n - 10) as char
  }

  /** The lower-case hex digit for `n`. Section 2.1 of RFC 3986 makes the
      case of an escape's digits insignificant, and `decodeURIComponent`
      reads these as it reads the upper-case ones. */
  function LowerHexDigit(n: nat): (c: char)
    requires n < 16
    ensures IsHexDigit(c) && HexValue(c) == n
    ensures '0' <= c <= '9' || 'a' <= c <= 'f'
    ensures n >= 10 ==> c != HexDigit(n)
  {
    if n < 10 then ('0' as int + n) as char else ('a' as int + n - 10) as char
  }

  /** The octet written `%XY` at the front of `s`, if well formed. */
  function LeadingOctet(s: string): (r: Option<nat>)
    ensures r.Some? ==> |s| >= 3 && r.value < 256
    ensures r.Some? <==> |s| >= 3 && s[0] == '%' && IsHexDigit(s[1]) && IsHexDigit(s[2])
  {
    if |s| >= 3 && s[0] == '%' && IsHexDigit(s[1]) && IsHexDigit(s[2])
    then Some(16 * HexValue(s[1]) + HexValue(s[2]))
    else None
  }

  /** The escape in the `m`-th three-character slot of `s`. */
  function EscapeAt(s: string, m: nat): Option<nat>
    requires 3 * m <= |s|
  {
    LeadingOctet(s[3 * m..])
  }

  /** `n` escaped octets at the front of `s`: reading succeeds exactly when
      each of the first `n` slots holds a well-formed escape, and octet `m`
      is the one in slot `m`. */
  function LeadingOctets(s: string, n: nat): (r: Option<seq<nat>>)
    ensures r.Some? <==> 3 * n <= |s| && forall m :: 0 <= m < n ==> EscapeAt(s, m).Some?
    ensures r.Some? ==> |r.value| == n
    ensures r.Some? ==> forall m :: 0 <= m < n ==> EscapeAt(s, m) == Some(r.value[m]) && r.value[m] < 256
  {
    if n == 0 then Some([])
    else
      assert EscapeAt(s, 0) == LeadingOctet(s);
      assert forall m :: 1 <= m < n && 3 * m <= |s| ==> EscapeAt(s, m) == EscapeAt(s[3..], m - 1);
      assert forall m :: 0 <= m < n - 1 && 3 * m + 3 <= |s| ==> EscapeAt(s[3..], m) == EscapeAt(s, m + 1);
      match LeadingOctet(s)
      case None => None
      case Some(b) =>
        match LeadingOctets(s[3..], n - 1)
        case None => None
        case Some(bs) => Some([b] + bs)
  }

  /** How many octets the UTF-8 sequence led by `b` has; 0 when `b` cannot
      lead one (a continuation octet, or more than four leading one-bits). */
  function SequenceLength(b: nat): nat {
    if b < 0x80 then 1
    else if 0xC0 <= b < 0xE0 then 2
    else if 0xE0 <= b < 0xF0 then 3
    else if 0xF0 <= b < 0xF8 then 4
    else 0
  }

  predicate IsContinuation(b: nat) {
    0x80 <= b < 0xC0
  }

  /** The scalar value a lead octet and its continuations spell. */
  function CodePoint(bs: seq<nat>): int
    requires 1 <= |bs| <= 4
  {
    var b: seq<int> := bs;
    if |b| == 1 then b[0]
    else if |b| == 2 then (b[0] - 0xC0) * 64 + (b[1] - 0x80)
    else if |b| == 3 then ((b[0] - 0xE0) * 64 + (b[1] - 0x80)) * 64 + (b[2] - 0x80)
    else (((b[0] - 0xF0) * 64 + (b[1] - 0x80)) * 64 + (b[2] - 0x80)) * 64 + (b[3] - 0x80)
  }

  /** One UTF-8 sequence as a character: the continuations must be
      continuation octets and the value must be neither overlong, nor a
      surrogate, nor above U+10FFFF. */
  function DecodeSequence(bs: seq<nat>): (r: Option<char>)
    requires 1 <= |bs| <= 4 && SequenceLength(bs[0]) == |bs|
    requires forall i :: 0 <= i < |bs| ==> bs[i] < 256
  {
    if exists i :: 1 <= i < |bs| && !IsContinuation(bs[i]) then None
    else
      var cp := CodePoint(bs);
      if |bs| == 1 then Some(cp as char)
      else if |bs| == 2 && 0x80 <= cp then Some(cp as char)
      else if |bs| == 3 && 0x800 <= cp && !(0xD800 <= cp < 0xE000) then Some(cp as char)
      else if |bs| == 4 && 0x10000 <= cp < 0x110000 then Some(cp as char)
      else None
  }

  function Prepend(c: char, rest: Option<string>): Option<string> {
    match rest
    case None => None
    case Some(t) => Some([c] + t)
  }

  /** `decodeURIComponent`; None where it throws a URIError. */
  function Decode(s: string): (r: Option<string>)
    ensures r.Some? ==> |r.value| <= |s|
    decreases |s|
  {
    if s == [] then Some([])
    else if s[0] != '%' then Prepend(s[0], Decode(s[1..]))
    else match LeadingOctet(s)
      case None => None
      case Some(b) =>
        var n := SequenceLength(b);
        if n == 0 then None
        else match LeadingOctets(s, n)
          case None => None
          case Some(bs) =>
            match DecodeSequence(bs)
            case None => None
            case Some(c) => Prepend(c, Decode(s[3 * n..]))
  }

  /** The characters `encodeURIComponent` leaves alone. */
  predicate IsUnreserved(c: char) {
    || 'A' <= c <= 'Z' || 'a' <= c <= 'z' || '0' <= c <= '9'
    || c == '-' || c == '_' || c == '.' || c == '!' || c == '~'
    || c == '*' || c == '\'' || c == '(' || c == ')'
  }

  /** The UTF-8 octets of a scalar value. */
  function Utf8(c: char): (bs: seq<nat>)
    ensures 1 <= |bs| <= 4 && SequenceLength(bs[0]) == |bs|
    ensures forall i :: 0 <= i < |bs| ==> bs[i] < 256
  {
    var cp := c as int;
    if cp < 0x80 then [cp]
    else if cp < 0x800 then [0xC0 + cp / 64, 0x80 + cp % 64]
    else if cp < 0x10000 then [0xE0 + cp / 64 / 64, 0x80 + cp / 64 % 64, 0x80 + cp % 64]
    else [0xF0 + cp / 64 / 64 / 64, 0x80 + cp / 64 / 64 % 64, 0x80 + cp / 64 % 64, 0x80 + cp % 64]
  }

  /** `%XY` for each octet, upper-case hex. */
  function EscapeOctets(bs: seq<nat>): (s: string)
    requires forall i :: 0 <= i < |bs| ==> bs[i] < 256
    ensures |s| == 3 * |bs|
  {
    if bs == [] then []
    else ['%', HexDigit(bs[0] / 16), HexDigit(bs[0] % 16)] + EscapeOctets(bs[1..])
  }

  function EncodeChar(c: char): string {
    if IsUnreserved(c) then [c] else EscapeOctets(Utf8(c))
  }

  /** `encodeURIComponent`. */
  function Encode(s: string): (r: string)
    ensures |s| <= |r| <= 12 * |s|
    ensures (forall k :: 0 <= k < |s| ==> IsUnreserved(s[k])) ==> r == s
  {
    if s == [] then [] else EncodeChar(s[0]) + Encode(s[1..])
  }

  /** Decoding the UTF-8 octets of a character gives the character back. */
  lemma Utf8RoundTrip(c: char)
    ensures DecodeSequence(Utf8(c)) == Some(c)
  {
    var cp := c as int;
    var bs := Utf8(c);
    if cp < 0x80 {
    } else if cp < 0x800 {
      assert CodePoint(bs) == cp;
    } else if cp < 0x10000 {
      assert CodePoint(bs) == cp;
    } else {
      assert CodePoint(bs) == cp;
    }
  }

  /** One escaped octet reads back as itself. */
  lemma EscapedOctet(b: nat, s: string)
    requires b < 256
    requires |s| >= 3 && s[..3] == ['%', HexDigit(b / 16), HexDigit(b % 16)]
    ensures LeadingOctet(s) == Some(b)
  {
    assert s[0] == '%' && s[1] == HexDigit(b / 16) && s[2] == HexDigit(b % 16);
  }

  /** An octet escaped with lower-case digits reads back as itself too:
      `%2f` is read as `/`, exactly as `%2F` is. */
  lemma EscapedOctetLower(b: nat, s: string)
    requires b < 256
    requires |s| >= 3 && s[..3] == ['%', LowerHexDigit(b / 16), LowerHexDigit(b % 16)]
    ensures LeadingOctet(s) == Some(b)
  {
    assert s[0] == '%' && s[1] == LowerHexDigit(b / 16) && s[2] == LowerHexDigit(b % 16);
  }

  /** Escaped octets read back as the same octets. */
  lemma {:induction false} LeadingOctetsOfEscaped(bs: seq<nat>, rest: string)
    requires forall i :: 0 <= i < |bs| ==> bs[i] < 256
    ensures LeadingOctets(EscapeOctets(bs) + rest, |bs|) == Some(bs)
    ensures (EscapeOctets(bs) + rest)[3 * |bs|..] == rest
  {
    if bs != [] {
      var head := ['%', HexDigit(bs[0] / 16), HexDigit(bs[0] % 16)];
      var tail := EscapeOctets(bs[1..]) + rest;
      var s := EscapeOctets(bs) + rest;
      assert s == head + tail;
      assert s[..3] == head && s[3..] == tail;
      LeadingOctetsOfEscaped(bs[1..], rest);
      EscapedOctet(bs[0], s);
      assert [bs[0]] + bs[1..] == bs;
    }
  }

  /** Decoding the encoding of one character yields that character, then
      whatever the rest decodes to. */
  lemma DecodeEncodeChar(c: char, rest: string)
    ensures Decode(EncodeChar(c) + rest) == Prepend(c, Decode(rest))
  {
    var s := EncodeChar(c) + rest;
    if IsUnreserved(c) {
      assert s[0] == c && s[1..] == rest;
    } else {
      var bs := Utf8(c);
      LeadingOctetsOfEscaped(bs, rest);
      Utf8RoundTrip(c);
      assert s[0] == '%';
    }
  }

  /** Round trip: `decodeURIComponent(encodeURIComponent(s)) == s`. */
  lemma {:induction false} DecodeEncode(s: string)
    ensures Decode(Encode(s)) == Some(s)
  {
    if s != [] {
      DecodeEncode(s[1..]);
      DecodeEncodeChar(s[0], Encode(s[1..]));
      assert [s[0]] + s[1..] == s;
    }
  }

  /** Text without `%` decodes to itself. */
  lemma {:induction false} DecodePlain(s: string)
    requires '%' !in s
    ensures Decode(s) == Some(s)
  {
    if s != [] {
      assert '%' !in s[1..];
      DecodePlain(s[1..]);
      assert [s[0]] + s[1..] == s;
    }
  }

  /** Encoded text holds only unreserved characters, `%` and hex digits;
      in particular no `/` and no `?`. */
  lemma {:induction false} EncodeAlphabet(s: string)
    ensures forall c :: c in Encode(s) ==> IsUnreserved(c) || c == '%'
  {
    if s != [] {
      EncodeAlphabet(s[1..]);
      EscapeAlphabet(Utf8(s[0]));
    }
  }

  lemma {:induction false} EscapeAlphabet(bs: seq<nat>)
    requires forall i :: 0 <= i < |bs| ==> bs[i] < 256
    ensures forall c :: c in EscapeOctets(bs) ==> IsUnreserved(c) || c == '%'
  {
    if bs != [] {
      EscapeAlphabet(bs[1..]);
    }
  }

  /** The escape slot that covers the `%` in `a + "%" + b`, where `%`
      followed by `b` is malformed, does not hold an escape: either the slot
      starts at that `%`, or the `%` stands where a hex digit must. */
  lemma BadEscapeSlot(a: string, b: string)
    requires LeadingOctet("%" + b).None?
    ensures EscapeAt(a + "%" + b, |a| / 3).None?
  {
    var s := a + "%" + b;
    var t := s[3 * (|a| / 3)..];
    if |a| % 3 == 0 {
      assert t == "%" + b;
    } else {
      assert t[|a| % 3] == '%';
    }
  }

  /** Escapes read from the front of `a + "%" + b` all lie inside `a`. */
  lemma SlotsBeforeBadEscape(a: string, b: string, n: nat)
    requires LeadingOctet("%" + b).None?
    requires LeadingOctets(a + "%" + b, n).Some?
    ensures 3 * n <= |a|
  {
    BadEscapeSlot(a, b);
  }

  /** A `%` not followed by two hex digits makes the whole decode fail,
      wherever it stands. */
  lemma {:induction false} DecodeRejectsBadEscape(a: string, b: string)
    requires LeadingOctet("%" + b).None?
    ensures Decode(a + "%" + b) == None
    decreases |a|
  {
    var s := a + "%" + b;
    if a == [] {
      assert s == "%" + b;
    } else if a[0] != '%' {
      assert s[1..] == a[1..] + "%" + b;
      DecodeRejectsBadEscape(a[1..], b);
    } else if LeadingOctet(s).Some? {
      var n := SequenceLength(LeadingOctet(s).value);
      if n != 0 && LeadingOctets(s, n).Some? {
        SlotsBeforeBadEscape(a, b, n);
        assert s[3 * n..] == a[3 * n..] + "%" + b;
        DecodeRejectsBadEscape(a[3 * n..], b);
      }
    }
  }
}
