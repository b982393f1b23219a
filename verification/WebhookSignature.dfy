/** VerifyWebhookSignature: the header's timestamp and its list of signatures. */
module WebhookSignature {
  import opened Prelude

  type Bytes = seq<int>

  datatype Headers = Headers(id: string, timestamp: string, signature: string)

  datatype Outcome =
    | Accepted | NoSecret | MissingHeaders | BadTimestamp | OutOfWindow | BadSecret | NoMatch

  const TWO_63: int := 0x8000_0000_0000_0000
  const TWO_64: int := 0x1_0000_0000_0000_0000
  const TOLERANCE: int := 300

  // ----- strconv.ParseInt(s, 10, 64) -----

  predicate IsDigit(c: char) { '0' <= c <= '9' }

  predicate AllDigits(s: string) { forall i :: 0 <= i < |s| ==> IsDigit(s[i]) }

  function Decimal(s: string): int
    requires AllDigits(s)
    decreases |s|
  {
    if s == "" then 0 else Decimal(s[..|s| - 1]) * 10 + (s[|s| - 1] - '0') as int
  }

  /** An optional sign and at least one digit, within int64. */
  function ParseInt(s: string): Option<int> {
    var signed := s != "" && (s[0] == '+' || s[0] == '-');
    var digits := if signed then s[1..] else s;
    if digits == "" || !AllDigits(digits) then None
    else
      var value: int := if signed && s[0] == '-' then -Decimal(digits) else Decimal(digits);
      if -TWO_63 <= value < TWO_63 then Some(value) else None
  }

  /** The decimal digits of a number, without leading zeros. */
  function Digits(n: nat): string {
    if n < 10 then ['0' + n as char] else Digits(n / 10) + ['0' + (n % 10) as char]
  }

  function Zeros(k: nat): string { seq(k, _ => '0') }

  lemma {:induction false} DigitsRead(n: nat, k: nat)
    ensures AllDigits(Zeros(k) + Digits(n)) && Digits(n) != "" && Decimal(Zeros(k) + Digits(n)) == n
  {
    var s := Zeros(k) + Digits(n);
    if n < 10 {
      ZerosRead(k);
      assert s[..|s| - 1] == Zeros(k);
    } else {
      DigitsRead(n / 10, k);
      assert s[..|s| - 1] == Zeros(k) + Digits(n / 10);
      assert forall i :: 0 <= i < |s| - 1 ==> s[i] == s[..|s| - 1][i];
    }
  }

  lemma {:induction false} ZerosRead(k: nat)
    ensures AllDigits(Zeros(k)) && Decimal(Zeros(k)) == 0
  {
    if k > 0 {
      ZerosRead(k - 1);
      assert Zeros(k)[..k - 1] == Zeros(k - 1);
    }
  }

  /** Every string of digits is a number's digits behind some zeros. */
  lemma {:induction false} ReadDigits(s: string) returns (k: nat)
    requires s != "" && AllDigits(s)
    ensures Decimal(s) >= 0 && s == Zeros(k) + Digits(Decimal(s))
    decreases |s|
  {
    var init, d := s[..|s| - 1], (s[|s| - 1] - '0') as int;
    assert s == init + [s[|s| - 1]] && s[|s| - 1] == '0' + d as char;
    if init == "" {
      k := 0;
      assert Decimal(init) == 0;
      assert Zeros(0) == "";
    } else {
      assert AllDigits(init);
      var j := ReadDigits(init);
      if Decimal(init) == 0 {
        k := j + 1;
        assert Digits(0) == "0" && Zeros(j + 1) == Zeros(j) + "0";
      } else {
        k := j;
        assert Decimal(s) / 10 == Decimal(init) && Decimal(s) % 10 == d;
      }
    }
  }

  /** A string spells a number: an optional sign, then zeros, then its digits. */
  ghost predicate SpellsInt(s: string, v: int) {
    exists k :: SpellsWith(s, v, k)
  }

  ghost predicate SpellsWith(s: string, v: int, k: nat) {
    || (v >= 0 && (s == Zeros(k) + Digits(v) || s == "+" + (Zeros(k) + Digits(v))))
    || (v <= 0 && s == "-" + (Zeros(k) + Digits(-v)))
  }

  /** The timestamp is read exactly if it spells an int64, and then as that number. */
  lemma ParsesExactly(s: string, v: int)
    ensures ParseInt(s) == Some(v) <==> -TWO_63 <= v < TWO_63 && SpellsInt(s, v)
  {
    if ParseInt(s) == Some(v) {
      var signed := s[0] == '+' || s[0] == '-';
      var digits := if signed then s[1..] else s;
      var k := ReadDigits(digits);
      assert signed ==> s == [s[0]] + digits;
      assert SpellsWith(s, v, k);
    }
    if -TWO_63 <= v < TWO_63 && SpellsInt(s, v) {
      var k :| SpellsWith(s, v, k);
      SpelledIsRead(s, v, k);
    }
  }

  /** What a sign in front of digits does. */
  lemma SignedIsRead(digits: string)
    requires digits != "" && AllDigits(digits) && 0 <= Decimal(digits) < TWO_63
    ensures ParseInt(digits) == Some(Decimal(digits)) && ParseInt("+" + digits) == Some(Decimal(digits))
  {
    assert IsDigit(digits[0]) && digits[0] != '+' && digits[0] != '-';
    assert ("+" + digits)[1..] == digits;
  }

  lemma NegatedIsRead(digits: string)
    requires digits != "" && AllDigits(digits) && 0 <= Decimal(digits) <= TWO_63
    ensures ParseInt("-" + digits) == Some(-Decimal(digits))
  {
    assert ("-" + digits)[1..] == digits;
  }

  lemma SpelledIsRead(s: string, v: int, k: nat)
    requires -TWO_63 <= v < TWO_63 && SpellsWith(s, v, k)
    ensures ParseInt(s) == Some(v)
  {
    if v >= 0 {
      DigitsRead(v, k);
      SignedIsRead(Zeros(k) + Digits(v));
    }
    if v <= 0 {
      DigitsRead(-v, k);
      NegatedIsRead(Zeros(k) + Digits(-v));
    }
  }

  // ----- The timestamp window -----

  /** int64 subtraction, wrapping. */
  function WrappingSub(a: int, b: int): int {
    var d := (a - b) % TWO_64;
    if d < TWO_63 then d else d - TWO_64
  }

  function Abs(x: int): int { if x < 0 then -x else x }

  predicate InWindow(now: int, ts: int) { Abs(WrappingSub(now, ts)) <= TOLERANCE }

  /** Wrapping never lets a timestamp in: the test is the true distance, for every int64 timestamp. */
  lemma WindowIsTheTrueDistance(now: int, ts: int)
    requires 0 <= now <= TWO_63 - 301 && -TWO_63 <= ts < TWO_63
    ensures InWindow(now, ts) <==> -300 <= now - ts <= 300
  {
    assert -TWO_63 < now - ts <= TWO_64 - 301;
    if now - ts < 0 {
      assert (now - ts) % TWO_64 == now - ts + TWO_64;
    }
  }

  /** The bound on the clock is exact: one second later, some timestamp is wrongly let in. */
  lemma ClockBoundIsExact(now: int)
    requires 0 <= now < TWO_63
    ensures now <= TWO_63 - 301 <==>
            forall ts :: -TWO_63 <= ts < TWO_63 ==> (InWindow(now, ts) <==> Abs(now - ts) <= TOLERANCE)
  {
    if now <= TWO_63 - 301 {
      forall ts | -TWO_63 <= ts < TWO_63 ensures InWindow(now, ts) <==> Abs(now - ts) <= TOLERANCE {
        WindowIsTheTrueDistance(now, ts);
      }
    } else {
      assert InWindow(now, -TWO_63);
    }
  }

  // ----- The signature list -----

  /** strings.Split(s, sep) for a one-character separator. */
  function Split(s: string, sep: char): seq<string> {
    if s == "" then [""]
    else if s[0] == sep then [""] + Split(s[1..], sep)
    else
      var rest := Split(s[1..], sep);
      [[s[0]] + rest[0]] + rest[1..]
  }

  /** strings.SplitN(s, ",", 2): around the first comma, if there is one. */
  function SplitAtComma(s: string): Option<(string, string)> {
    if s == "" then None
    else if s[0] == ',' then Some(("", s[1..]))
    else
      match SplitAtComma(s[1..])
      case None => None
      case Some((before, after)) => Some(([s[0]] + before, after))
  }

  lemma {:induction false} CommaSplits(s: string)
    ensures match SplitAtComma(s)
            case None => ',' !in s
            case Some((before, after)) => s == before + "," + after && ',' !in before
  {
    if s != "" && s[0] != ',' {
      CommaSplits(s[1..]);
      assert s == [s[0]] + s[1..];
    }
  }

  /** A maximal separator-free stretch of the string, possibly empty. */
  ghost predicate ElementAt(s: string, sep: char, p: string, i: int, j: int) {
    && 0 <= i <= j <= |s| && s[i..j] == p && sep !in p
    && (i == 0 || s[i - 1] == sep) && (j == |s| || s[j] == sep)
  }

  ghost predicate Element(s: string, sep: char, p: string) {
    exists i, j :: ElementAt(s, sep, p, i, j)
  }

  lemma {:induction false} FirstElement(s: string, sep: char)
    ensures var first := Split(s, sep)[0]; ElementAt(s, sep, first, 0, |first|)
  {
    if s != "" && s[0] != sep {
      FirstElement(s[1..], sep);
      var rest := Split(s[1..], sep)[0];
      assert s[0..|rest| + 1] == [s[0]] + s[1..][0..|rest|];
      assert |rest| + 1 == |s| || s[|rest| + 1] == s[1..][|rest|];
    }
  }

  lemma FirstElementIsUnique(s: string, sep: char, p: string, j: int)
    requires ElementAt(s, sep, p, 0, j)
    ensures p == Split(s, sep)[0]
  {
    FirstElement(s, sep);
    var first := Split(s, sep)[0];
    assert |p| == j && s[0..|p|] == p && s[0..|first|] == first;
    assert forall k :: 0 <= k < |p| ==> p[k] == s[k] && s[k] != sep;
    assert forall k :: 0 <= k < |first| ==> first[k] == s[k] && s[k] != sep;
  }

  ghost predicate LaterElement(s: string, sep: char, p: string) {
    exists i, j :: 0 < i && ElementAt(s, sep, p, i, j)
  }

  lemma Shift(s: string, sep: char, p: string, i: int, j: int)
    requires s != "" && 0 <= i && (i > 0 || s[0] == sep)
    ensures ElementAt(s[1..], sep, p, i, j) <==> ElementAt(s, sep, p, i + 1, j + 1)
  {
    if 0 <= i <= j < |s| {
      assert s[1..][i..j] == s[i + 1..j + 1];
    }
  }

  lemma {:induction false} LaterPieces(s: string, sep: char, p: string)
    ensures p in Split(s, sep)[1..] <==> LaterElement(s, sep, p)
  {
    if s != "" {
      var t := s[1..];
      var pieces := Split(t, sep);
      LaterPieces(t, sep, p);
      assert p in pieces <==> p == pieces[0] || p in pieces[1..] by {
        assert pieces == [pieces[0]] + pieces[1..];
      }
      if LaterElement(t, sep, p) {
        var i, j :| 0 < i && ElementAt(t, sep, p, i, j);
        Shift(s, sep, p, i, j);
        assert LaterElement(s, sep, p);
      }
      if LaterElement(s, sep, p) {
        var i, j :| 0 < i && ElementAt(s, sep, p, i, j);
        Shift(s, sep, p, i - 1, j - 1);
        if i > 1 {
          assert LaterElement(t, sep, p);
        } else {
          FirstElementIsUnique(t, sep, p, j - 1);
        }
      }
      if s[0] == sep {
        assert Split(s, sep)[1..] == pieces;
        FirstElement(t, sep);
        Shift(s, sep, pieces[0], 0, |pieces[0]|);
        assert LaterElement(s, sep, pieces[0]);
      } else {
        assert Split(s, sep)[1..] == pieces[1..];
      }
    }
  }

  /** Splitting yields exactly the elements. */
  lemma SplitYieldsElements(s: string, sep: char, p: string)
    ensures p in Split(s, sep) <==> Element(s, sep, p)
  {
    var pieces := Split(s, sep);
    assert pieces == [pieces[0]] + pieces[1..];
    FirstElement(s, sep);
    LaterPieces(s, sep, p);
    if i, j :| ElementAt(s, sep, p, i, j) {
      if i == 0 { FirstElementIsUnique(s, sep, p, j); } else { assert LaterElement(s, sep, p); }
    }
  }

  // ----- The verifier -----

  /** The secret with its optional prefix removed. */
  function BareSecret(secret: string): string {
    if "whsec_" <= secret then secret[6..] else secret
  }

  function SignedContent(headers: Headers, payload: string): string {
    headers.id + "." + headers.timestamp + "." + payload
  }

  /** Some space-separated element of the header is exactly "v1," followed by the MAC. */
  ghost predicate Signed(signature: string, expected: string) {
    Element(signature, ' ', "v1," + expected)
  }

  lemma {:induction false} FirstCommaIsUnique(before: string, after: string)
    requires ',' !in before
    ensures SplitAtComma(before + "," + after) == Some((before, after))
  {
    var s := before + "," + after;
    if before == "" {
      assert s[1..] == after;
    } else {
      assert s[1..] == before[1..] + "," + after;
      FirstCommaIsUnique(before[1..], after);
      assert before == [before[0]] + before[1..];
    }
  }

  lemma VersionedMatch(piece: string, expected: string)
    ensures SplitAtComma(piece) == Some(("v1", expected)) <==> piece == "v1," + expected
  {
    CommaSplits(piece);
    FirstCommaIsUnique("v1", expected);
    assert "v1" + "," + expected == "v1," + expected;
  }

  predicate Complete(secret: string, headers: Headers) {
    secret != "" && headers.id != "" && headers.signature != "" && headers.timestamp != ""
  }

  /** The loop over the elements of the header. */
  method AnySignature(signature: string, expected: string) returns (found: bool)
    ensures found <==> Signed(signature, expected)
  {
    var pieces := Split(signature, ' ');
    SplitYieldsElements(signature, ' ', "v1," + expected);
    for k := 0 to |pieces|
      invariant ("v1," + expected) !in pieces[..k]
    {
      VersionedMatch(pieces[k], expected);
      assert pieces[..k + 1] == pieces[..k] + [pieces[k]];
      var parts := SplitAtComma(pieces[k]);
      if parts.None? {
        continue;
      }
      if parts.value.0 == "v1" && parts.value.1 == expected {
        return true;
      }
    }
    assert pieces[..|pieces|] == pieces;
    found := false;
  }

  /** Base64 decoding of the secret and the keyed hash are the library's: `decode` and `mac`. */
  method VerifyWebhookSignature(
    secret: string, decode: string -> Option<Bytes>, mac: (Bytes, string) -> string,
    headers: Headers, payload: string, now: int) returns (outcome: Outcome)
    ensures outcome == NoSecret <==> secret == ""
    ensures outcome == MissingHeaders <==>
              secret != "" && (headers.id == "" || headers.signature == "" || headers.timestamp == "")
    ensures outcome == BadTimestamp <==> Complete(secret, headers) && ParseInt(headers.timestamp).None?
    ensures outcome == OutOfWindow <==>
              && Complete(secret, headers)
              && ParseInt(headers.timestamp).Some? && !InWindow(now, ParseInt(headers.timestamp).value)
    ensures outcome == Accepted <==>
              && Complete(secret, headers)
              && ParseInt(headers.timestamp).Some? && InWindow(now, ParseInt(headers.timestamp).value)
              && var bare := if |secret| >= 6 && secret[..6] == "whsec_" then secret[6..] else secret;
              && decode(bare).Some?
              && Signed(headers.signature,
                        mac(decode(bare).value, headers.id + "." + headers.timestamp + "." + payload))
  {
    if secret == "" {
      return NoSecret;
    }
    if headers.id == "" || headers.signature == "" || headers.timestamp == "" {
      return MissingHeaders;
    }
    var ts := ParseInt(headers.timestamp);
    if ts.None? {
      return BadTimestamp;
    }
    if Abs(WrappingSub(now, ts.value)) > TOLERANCE {
      return OutOfWindow;
    }
    var key := decode(BareSecret(secret));
    if key.None? {
      return BadSecret;
    }
    var found := AnySignature(headers.signature, mac(key.value, SignedContent(headers, payload)));
    outcome := if found then Accepted else NoMatch;
  }
}
