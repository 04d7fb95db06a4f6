/** `extractStaticPayloadParameters` (src/worker.js:24-37): three
    unanchored, leftmost regular-expression searches over the text of a
    script, written out as scanners.
      token:\s*['"]([^'"]+)['"]      u:\s*['"]([^'"]+)['"]      v:\s*(\d+)
    Greedy `\s*`, `[^'"]+` and `\d+` never profit from backtracking here
    (the character after a shorter run still belongs to the run's class,
    which the next item rejects), so each item takes its longest run. */
module Credentials {
  import opened Wrappers
  import opened Text

  /** The three values the handler needs: token, user id and version. */
  datatype Credentials = Credentials(token: string, u: string, v: nat)

  /** ECMAScript `\s`: the WhiteSpace and LineTerminator code points. */
  predicate IsSpace(c: char) {
    var n := c as int;
    || n == 0x09 || n == 0x0A || n == 0x0B || n == 0x0C || n == 0x0D || n == 0x20
    || n == 0xA0 || n == 0x1680 || 0x2000 <= n <= 0x200A || n == 0x2028 || n == 0x2029
    || n == 0x202F || n == 0x205F || n == 0x3000 || n == 0xFEFF
  }

  predicate IsQuote(c: char) {
    c == '\'' || c == '"'
  }

  predicate IsNotQuote(c: char) {
    !IsQuote(c)
  }

  /** ECMAScript `\d`. */
  predicate IsDigit(c: char) {
    '0' <= c <= '9'
  }

  /** The end of the longest run, from `i`, of characters satisfying `p`. */
  function RunEnd(s: string, i: nat, p: char -> bool): (j: nat)
    requires i <= |s|
    ensures i <= j <= |s|
    ensures forall k :: i <= k < j ==> p(s[k])
    ensures j == |s| || !p(s[j])
    decreases |s| - i
  {
    if i == |s| || !p(s[i]) then i else RunEnd(s, i + 1, p)
  }

  /** What follows `key\s*`: `['"]([^'"]+)['"]` or `(\d+)`. */
  datatype Shape = Quoted | Digits

  /** The capture of `key\s*<shape>` when the pattern matches at `i`. */
  function CaptureAt(s: string, key: string, shape: Shape, i: nat): (r: Option<string>)
    ensures r.Some? ==> OccursAt(s, key, i) && |r.value| > 0
    ensures r.Some? && shape == Quoted ==> forall k :: 0 <= k < |r.value| ==> !IsQuote(r.value[k])
    ensures r.Some? && shape == Digits ==> forall k :: 0 <= k < |r.value| ==> IsDigit(r.value[k])
  {
    if !OccursAt(s, key, i) then None
    else
      var j := RunEnd(s, i + |key|, IsSpace);
      match shape
      case Quoted =>
        if j < |s| && IsQuote(s[j]) then
          var e := RunEnd(s, j + 1, IsNotQuote);
          if j + 1 < e < |s| then Some(s[j + 1..e]) else None
        else None
      case Digits =>
        var e := RunEnd(s, j, IsDigit);
        if j < e then Some(s[j..e]) else None
  }

  /** The regular expression `key\s*['"]([^'"]+)['"]` matches at `i`:
      the key, a run of white space up to `j`, a quote at `j`, a non-empty
      run of non-quotes, and a quote at `e`; `cap` is the text between the
      quotes. */
  ghost predicate QuotedMatch(s: string, key: string, i: nat, j: nat, e: nat, cap: string) {
    && OccursAt(s, key, i)
    && i + |key| <= j && j + 1 < e < |s|
    && (forall k :: i + |key| <= k < j ==> IsSpace(s[k]))
    && IsQuote(s[j])
    && (forall k :: j < k < e ==> !IsQuote(s[k]))
    && IsQuote(s[e])
    && cap == s[j + 1..e]
  }

  /** The regular expression `key\s*(\d+)` matches at `i` with the digits
      from `j` to `e` captured: the key, a run of white space up to `j`, and
      the longest run of digits from `j`, which the greedy `\d+` takes. */
  ghost predicate DigitsMatch(s: string, key: string, i: nat, j: nat, e: nat, cap: string) {
    && OccursAt(s, key, i)
    && i + |key| <= j < e <= |s|
    && (forall k :: i + |key| <= k < j ==> IsSpace(s[k]))
    && (forall k :: j <= k < e ==> IsDigit(s[k]))
    && (e == |s| || !IsDigit(s[e]))
    && cap == s[j..e]
  }

  /** Where the quoted scanner stops: the end of the white space and the
      end of the quoted text. */
  lemma QuotedCaptureMatches(s: string, key: string, i: nat, cap: string) returns (j: nat, e: nat)
    requires CaptureAt(s, key, Quoted, i) == Some(cap)
    ensures QuotedMatch(s, key, i, j, e, cap)
  {
    j := RunEnd(s, i + |key|, IsSpace);
    e := RunEnd(s, j + 1, IsNotQuote);
  }

  lemma QuotedMatchCaptures(s: string, key: string, i: nat, j: nat, e: nat, cap: string)
    requires QuotedMatch(s, key, i, j, e, cap)
    ensures CaptureAt(s, key, Quoted, i) == Some(cap)
  {
    assert !IsSpace(s[j]);
    RunEndAt(s, i + |key|, IsSpace, j);
    RunEndAt(s, j + 1, IsNotQuote, e);
  }

  /** The quoted scanner captures exactly what the regular expression does. */
  lemma CaptureAtQuoted(s: string, key: string, i: nat, cap: string)
    ensures CaptureAt(s, key, Quoted, i) == Some(cap)
            <==> exists j: nat, e: nat :: QuotedMatch(s, key, i, j, e, cap)
  {
    if CaptureAt(s, key, Quoted, i) == Some(cap) {
      var j, e := QuotedCaptureMatches(s, key, i, cap);
    }
    if exists j: nat, e: nat :: QuotedMatch(s, key, i, j, e, cap) {
      var j: nat, e: nat :| QuotedMatch(s, key, i, j, e, cap);
      QuotedMatchCaptures(s, key, i, j, e, cap);
    }
  }

  /** Where the digits scanner stops: the end of the white space and the
      end of the digits. */
  lemma DigitsCaptureMatches(s: string, key: string, i: nat, cap: string) returns (j: nat, e: nat)
    requires CaptureAt(s, key, Digits, i) == Some(cap)
    ensures DigitsMatch(s, key, i, j, e, cap)
  {
    j := RunEnd(s, i + |key|, IsSpace);
    e := RunEnd(s, j, IsDigit);
  }

  lemma DigitsMatchCaptures(s: string, key: string, i: nat, j: nat, e: nat, cap: string)
    requires DigitsMatch(s, key, i, j, e, cap)
    ensures CaptureAt(s, key, Digits, i) == Some(cap)
  {
    assert !IsSpace(s[j]);
    RunEndAt(s, i + |key|, IsSpace, j);
    RunEndAt(s, j, IsDigit, e);
  }

  /** The digits scanner captures exactly what the regular expression does. */
  lemma CaptureAtDigits(s: string, key: string, i: nat, cap: string)
    ensures CaptureAt(s, key, Digits, i) == Some(cap)
            <==> exists j: nat, e: nat :: DigitsMatch(s, key, i, j, e, cap)
  {
    if CaptureAt(s, key, Digits, i) == Some(cap) {
      var j, e := DigitsCaptureMatches(s, key, i, cap);
    }
    if exists j: nat, e: nat :: DigitsMatch(s, key, i, j, e, cap) {
      var j: nat, e: nat :| DigitsMatch(s, key, i, j, e, cap);
      DigitsMatchCaptures(s, key, i, j, e, cap);
    }
  }

  /** A match: where it starts and what it captured. */
  datatype Match = Match(at: nat, capture: string)

  /** `m` is the leftmost match of the pattern in `s`. */
  ghost predicate IsLeftmost(s: string, key: string, shape: Shape, m: Match) {
    && CaptureAt(s, key, shape, m.at) == Some(m.capture)
    && forall i: nat :: i < m.at ==> CaptureAt(s, key, shape, i).None?
  }

  /** The pattern matches nowhere in `s`. */
  ghost predicate NoMatch(s: string, key: string, shape: Shape) {
    forall i: nat :: CaptureAt(s, key, shape, i).None?
  }

  /** The leftmost match starting at or after `from`. */
  function SearchFrom(s: string, key: string, shape: Shape, from: nat): (r: Option<Match>)
    ensures r.Some? ==> from <= r.value.at && CaptureAt(s, key, shape, r.value.at) == Some(r.value.capture)
    ensures r.Some? ==> forall i: nat :: from <= i < r.value.at ==> CaptureAt(s, key, shape, i).None?
    ensures r.None? ==> forall i: nat :: from <= i ==> CaptureAt(s, key, shape, i).None?
    decreases |s| - from
  {
    if |s| < from then None
    else match CaptureAt(s, key, shape, from)
      case Some(c) => Some(Match(from, c))
      case None => if from == |s| then None else SearchFrom(s, key, shape, from + 1)
  }

  /** `String.prototype.match` with a non-global pattern. */
  function Search(s: string, key: string, shape: Shape): (r: Option<Match>)
    ensures r.Some? ==> IsLeftmost(s, key, shape, r.value)
    ensures r.None? <==> NoMatch(s, key, shape)
  {
    SearchFrom(s, key, shape, 0)
  }

  function DigitValue(c: char): nat
    requires IsDigit(c)
  {
    c as int - '0' as int
  }

  function Pow10(n: nat): (p: nat)
    ensures p >= 1
  {
    if n == 0 then 1 else 10 * Pow10(n - 1)
  }

  /** `parseInt(ds, 10)` on a run of decimal digits: a number below ten to
      the number of digits, and zero for a run of zeros. */
  function DecimalValue(ds: string): (n: nat)
    requires forall k :: 0 <= k < |ds| ==> IsDigit(ds[k])
    ensures n < Pow10(|ds|)
    ensures (forall k :: 0 <= k < |ds| ==> ds[k] == '0') ==> n == 0
  {
    if ds == [] then 0 else DecimalValue(ds[..|ds| - 1]) * 10 + DigitValue(ds[|ds| - 1])
  }

  const TokenKey: string := "token:"
  const UserKey: string := "u:"
  const VersionKey: string := "v:"

  /** All three values or none: each is the capture of the leftmost match
      of its pattern, and the version is the number its digits denote. */
  function ExtractStaticParameters(js: string): (r: Option<Credentials>)
    ensures r.None? <==> NoMatch(js, TokenKey, Quoted) || NoMatch(js, UserKey, Quoted)
                         || NoMatch(js, VersionKey, Digits)
    ensures r.Some? ==> |r.value.token| > 0 && |r.value.u| > 0
    ensures r.Some? ==> forall k :: 0 <= k < |r.value.token| ==> !IsQuote(r.value.token[k])
    ensures r.Some? ==> forall k :: 0 <= k < |r.value.u| ==> !IsQuote(r.value.u[k])
    ensures r.Some? ==> Search(js, TokenKey, Quoted).Some? && Search(js, TokenKey, Quoted).value.capture == r.value.token
    ensures r.Some? ==> Search(js, UserKey, Quoted).Some? && Search(js, UserKey, Quoted).value.capture == r.value.u
    ensures r.Some? ==> Search(js, VersionKey, Digits).Some?
                        && DecimalValue(Search(js, VersionKey, Digits).value.capture) == r.value.v
  {
    var token := Search(js, TokenKey, Quoted);
    var user := Search(js, UserKey, Quoted);
    var version := Search(js, VersionKey, Digits);
    if token.None? || user.None? || version.None? then None
    else
      var digits := version.value.capture;
      assert CaptureAt(js, VersionKey, Digits, version.value.at) == Some(digits);
      Some(Credentials(token.value.capture, user.value.capture, DecimalValue(digits)))
  }

  function DigitChar(d: nat): (c: char)
    requires d < 10
    ensures IsDigit(c) && DigitValue(c) == d
  {
    ('0' as int + d) as char
  }

  /** The decimal numeral of `n`, as the script would spell the version. */
  function DecimalText(n: nat): (ds: string)
    ensures |ds| > 0
    ensures forall k :: 0 <= k < |ds| ==> IsDigit(ds[k])
  {
    if n < 10 then [DigitChar(n)] else DecimalText(n / 10) + [DigitChar(n % 10)]
  }

  /** `parseInt` reads back the number a numeral spells. */
  lemma {:induction false} DecimalRoundTrip(n: nat)
    ensures DecimalValue(DecimalText(n)) == n
  {
    var ds := DecimalText(n);
    if n >= 10 {
      DecimalRoundTrip(n / 10);
      assert ds[..|ds| - 1] == DecimalText(n / 10);
    }
  }

  /** Read from the front, a digit run is positional: its first digit
      counts ten to the number of digits after it. With the empty run
      worth 0 this fixes the value of every run. */
  lemma {:induction false} DecimalValuePrepend(d: char, ds: string)
    requires IsDigit(d) && forall k :: 0 <= k < |ds| ==> IsDigit(ds[k])
    ensures DecimalValue([d] + ds) == DigitValue(d) * Pow10(|ds|) + DecimalValue(ds)
    decreases |ds|
  {
    if ds != [] {
      var s := [d] + ds;
      var init := ds[..|ds| - 1];
      var last := DigitValue(ds[|ds| - 1]);
      var a, p, v := DigitValue(d), Pow10(|init|), DecimalValue(init);
      assert DecimalValue([d] + init) == a * p + v by {
        DecimalValuePrepend(d, init);
      }
      assert DecimalValue(s) == DecimalValue([d] + init) * 10 + last by {
        assert s[..|s| - 1] == [d] + init;
        assert s[|s| - 1] == ds[|ds| - 1];
      }
      calc {
        DecimalValue(s);
        DecimalValue([d] + init) * 10 + last;
        (a * p + v) * 10 + last;
        { ShiftDigit(a, p, v, last); }
        a * (p * 10) + (v * 10 + last);
        { assert Pow10(|ds|) == p * 10; }
        a * Pow10(|ds|) + (v * 10 + last);
        { assert DecimalValue(ds) == v * 10 + last; }
        a * Pow10(|ds|) + DecimalValue(ds);
      }
    }
  }

  /** One more digit on the right: the number so far is worth ten times
      as much. */
  lemma ShiftDigit(a: nat, p: nat, v: nat, last: nat)
    ensures (a * p + v) * 10 + last == a * (p * 10) + (v * 10 + last)
  {
  }

  /** `parseInt` ignores leading zeros: `"07"` is 7. */
  lemma DecimalLeadingZero(ds: string)
    requires forall k :: 0 <= k < |ds| ==> IsDigit(ds[k])
    ensures DecimalValue(['0'] + ds) == DecimalValue(ds)
  {
    assert DecimalValue(['0'] + ds) == 0 * Pow10(|ds|) + DecimalValue(ds) by {
      DecimalValuePrepend('0', ds);
    }
  }

  /** `RunEnd` stops exactly at the end of a run. */
  lemma RunEndAt(s: string, i: nat, p: char -> bool, e: nat)
    requires i <= e <= |s|
    requires forall k :: i <= k < e ==> p(s[k])
    requires e == |s| || !p(s[e])
    ensures RunEnd(s, i, p) == e
  {
  }

  /** A match at `at` with no occurrence of the key before it is the
      leftmost match. */
  lemma SearchFinds(s: string, key: string, shape: Shape, at: nat, capture: string)
    requires CaptureAt(s, key, shape, at) == Some(capture)
    requires forall i: nat :: i < at ==> !OccursAt(s, key, i)
    ensures Search(s, key, shape) == Some(Match(at, capture))
  {
  }

  /** Values the three patterns can carry back unchanged: non-empty, and
      free of quotes and of the `:` that every key ends with. */
  predicate Renderable(c: Credentials) {
    && |c.token| > 0 && |c.u| > 0
    && (forall k :: 0 <= k < |c.token| ==> !IsQuote(c.token[k]) && c.token[k] != ':')
    && (forall k :: 0 <= k < |c.u| ==> !IsQuote(c.u[k]) && c.u[k] != ':')
  }

  /** The three values as a script would declare them:
      `token: "T", u: "U", v: N`. */
  function Render(c: Credentials): string {
    "token: \"" + c.token + "\", u: \"" + c.u + "\", v: " + DecimalText(c.v)
  }

  lemma RenderedToken(c: Credentials)
    requires Renderable(c)
    ensures Search(Render(c), TokenKey, Quoted) == Some(Match(0, c.token))
  {
    var s := Render(c);
    var e := 8 + |c.token|;
    assert s[..6] == TokenKey;
    assert OccursAt(s, TokenKey, 0);
    assert s[6] == ' ' && s[7] == '"';
    RunEndAt(s, 6, IsSpace, 7);
    assert s[8..e] == c.token;
    assert s[e] == '"';
    RunEndAt(s, 8, IsNotQuote, e);
    SearchFinds(s, TokenKey, Quoted, 0, c.token);
  }

  lemma RenderedUserCapture(c: Credentials)
    requires Renderable(c)
    ensures CaptureAt(Render(c), UserKey, Quoted, 11 + |c.token|) == Some(c.u)
  {
    var s := Render(c);
    var at := 11 + |c.token|;
    var e := at + 4 + |c.u|;
    assert s[at..at + 2] == UserKey;
    assert s[at + 2] == ' ' && s[at + 3] == '"';
    RunEndAt(s, at + 2, IsSpace, at + 3);
    assert s[at + 4..e] == c.u;
    assert s[e] == '"';
    RunEndAt(s, at + 4, IsNotQuote, e);
  }

  lemma RenderedUserFirst(c: Credentials)
    requires Renderable(c)
    ensures forall i: nat :: i < 11 + |c.token| ==> !OccursAt(Render(c), UserKey, i)
  {
    var s := Render(c);
    var t := c.token;
    forall i: nat | i < 11 + |t|
      ensures !OccursAt(s, UserKey, i)
    {
      assert s[i..i + 2] == [s[i], s[i + 1]];
      if i < 7 {
        assert s[i + 1] == "token: \""[i + 1];
        assert s[i] == "token: \""[i];
      } else if i < 7 + |t| {
        assert s[i + 1] == t[i + 1 - 8];
      } else {
        assert s[i + 1] == "\", u"[i + 1 - 8 - |t|];
      }
      assert s[i] != 'u' || s[i + 1] != ':';
    }
  }

  lemma RenderedUser(c: Credentials)
    requires Renderable(c)
    ensures Search(Render(c), UserKey, Quoted) == Some(Match(11 + |c.token|, c.u))
  {
    RenderedUserCapture(c);
    RenderedUserFirst(c);
    SearchFinds(Render(c), UserKey, Quoted, 11 + |c.token|, c.u);
  }

  lemma RenderedVersionCapture(c: Credentials)
    requires Renderable(c)
    ensures CaptureAt(Render(c), VersionKey, Digits, 18 + |c.token| + |c.u|) == Some(DecimalText(c.v))
  {
    var s := Render(c);
    var ds := DecimalText(c.v);
    var at := 18 + |c.token| + |c.u|;
    assert s[at..at + 2] == VersionKey;
    assert s[at + 2] == ' ' && s[at + 3] == ds[0];
    assert s[at + 3..] == ds;
    assert !IsSpace(ds[0]);
    RunEndAt(s, at + 2, IsSpace, at + 3);
    assert forall k :: at + 3 <= k < |s| ==> s[k] == ds[k - at - 3];
    RunEndAt(s, at + 3, IsDigit, |s|);
    assert s[at + 3..|s|] == ds;
  }

  lemma RenderedVersionFirst(c: Credentials)
    requires Renderable(c)
    ensures forall i: nat :: i < 18 + |c.token| + |c.u| ==> !OccursAt(Render(c), VersionKey, i)
  {
    var s := Render(c);
    var t := c.token;
    var u := c.u;
    forall i: nat | i < 18 + |t| + |u|
      ensures !OccursAt(s, VersionKey, i)
    {
      assert s[i..i + 2] == [s[i], s[i + 1]];
      if i < 7 {
        assert s[i + 1] == "token: \""[i + 1];
      } else if i < 7 + |t| {
        assert s[i + 1] == t[i + 1 - 8];
      } else if i < 14 + |t| {
        assert s[i + 1] == "\", u: \""[i + 1 - 8 - |t|];
        if i == 11 + |t| {
          assert s[i] == 'u';
        }
      } else if i < 14 + |t| + |u| {
        assert s[i + 1] == u[i + 1 - 15 - |t|];
      } else {
        assert s[i + 1] == "\", v"[i + 1 - 15 - |t| - |u|];
      }
      assert s[i] != 'v' || s[i + 1] != ':';
    }
  }

  lemma RenderedVersion(c: Credentials)
    requires Renderable(c)
    ensures Search(Render(c), VersionKey, Digits) == Some(Match(18 + |c.token| + |c.u|, DecimalText(c.v)))
  {
    RenderedVersionCapture(c);
    RenderedVersionFirst(c);
    SearchFinds(Render(c), VersionKey, Digits, 18 + |c.token| + |c.u|, DecimalText(c.v));
  }

  /** Round trip: the extractor reads back the values of a script that
      declares them, so long as they are non-empty and free of quotes and
      colons. */
  lemma ExtractRendered(c: Credentials)
    requires Renderable(c)
    ensures ExtractStaticParameters(Render(c)) == Some(c)
  {
    RenderedToken(c);
    RenderedUser(c);
    RenderedVersion(c);
    DecimalRoundTrip(c.v);
  }
}
