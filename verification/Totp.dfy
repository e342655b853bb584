/** Time-based one-time passwords: section 5.3 of RFC 4226 for the code of a counter, section 5.2 of
    RFC 6238 for accepting it. */
module Totp {
  import opened Bytes
  import opened IsoText
  import opened Times

  const DIGITS := 6
  const PERIOD_SECONDS := 30
  const TOLERANCE_STEPS := 1

  type Secret = nat

  /** An HMAC-SHA-1 output. */
  type Digest = d: Bytes | |d| == 20 witness seq(20, i => 0)

  type Hmac = (Secret, nat) -> Digest

  /** The time step an instant lies in. */
  function CounterAt(moment: nat): nat {
    moment / (PERIOD_SECONDS * SECOND)
  }

  /** Steps are thirty seconds long and counted from the epoch. */
  lemma StepsAreThirtySeconds(moment: nat)
    ensures CounterAt(moment) * (30 * SECOND) <= moment < (CounterAt(moment) + 1) * (30 * SECOND)
  {
  }

  function Word(d: Digest, offset: nat): nat
    requires offset < 16
  {
    d[offset] as int * 0x100_0000 + d[offset + 1] as int * 0x1_0000
    + d[offset + 2] as int * 0x100 + d[offset + 3] as int
  }

  function Offset(d: Digest): nat {
    d[19] as int % 16
  }

  /** The code of a counter: four bytes at the dynamic offset, sign bit masked, last six decimals. */
  function CodeFor(hmac: Hmac, secret: Secret, counter: nat): string {
    var d := hmac(secret, counter);
    Digits(Word(d, Offset(d)) % 0x8000_0000 % Power10(DIGITS), DIGITS)
  }

  /** The truncation as RFC 4226 writes it, byte by byte with the first one masked. */
  function DynamicTruncation(d: Digest): nat {
    var o := Offset(d);
    d[o] as int % 128 * 0x100_0000 + d[o + 1] as int * 0x1_0000 + d[o + 2] as int * 0x100 + d[o + 3] as int
  }

  lemma MaskIsStandard(d: Digest)
    ensures Word(d, Offset(d)) % 0x8000_0000 == DynamicTruncation(d)
  {
    var o := Offset(d);
    var first := d[o] as int;
    assert first == first / 128 * 128 + first % 128;
    assert Word(d, o) == first / 128 * 0x8000_0000 + DynamicTruncation(d);
  }

  /** Every code is six decimal digits that read as the standard's truncated value modulo a million. */
  lemma CodeIsStandard(hmac: Hmac, secret: Secret, counter: nat)
    ensures var code := CodeFor(hmac, secret, counter);
            && |code| == 6
            && (forall i :: 0 <= i < |code| ==> IsDigit(code[i]))
            && Value(code) == DynamicTruncation(hmac(secret, counter)) % 1_000_000
  {
    var d := hmac(secret, counter);
    MaskIsStandard(d);
    assert Power10(6) == 1_000_000 by {
      assert Power10(2) == 100 && Power10(4) == 10_000;
    }
    DigitsReadBack(DynamicTruncation(d) % Power10(DIGITS), DIGITS);
  }

  // ---------------------------------------------------------------- accepting a code

  /** Python's tests of a character: white space and digit, both over all of Unicode. */
  datatype Charset = Charset(space: char -> bool, digit: char -> bool)

  ghost predicate Sane(cs: Charset) {
    cs.space(' ') && forall c :: IsDigit(c) ==> cs.digit(c) && !cs.space(c)
  }

  function StripLeft(cs: Charset, text: string): string {
    if text != "" && cs.space(text[0]) then StripLeft(cs, text[1..]) else text
  }

  function StripRight(cs: Charset, text: string): string {
    if text != "" && cs.space(text[|text| - 1]) then StripRight(cs, text[..|text| - 1]) else text
  }

  function WithoutBlanks(text: string): string {
    if text == "" then "" else (if text[0] == ' ' then "" else [text[0]]) + WithoutBlanks(text[1..])
  }

  function Clean(cs: Charset, code: string): string {
    WithoutBlanks(StripRight(cs, StripLeft(cs, code)))
  }

  predicate AllDigits(cs: Charset, text: string) {
    text != "" && forall i :: 0 <= i < |text| ==> cs.digit(text[i])
  }

  predicate Ascii(text: string) {
    forall i :: 0 <= i < |text| ==> text[i] < 128 as char
  }

  /** Raised is the exception the comparison throws on text outside ASCII. */
  datatype Answer = Invalid | Matched(counter: nat) | Raised

  /** The search over candidate counters, skipping those already used. */
  function FirstMatch(hmac: Hmac, secret: Secret, submitted: string, last: nat, candidate: int, end: int): Answer
    decreases end - candidate
  {
    if candidate > end then Invalid
    else if candidate <= last then FirstMatch(hmac, secret, submitted, last, candidate + 1, end)
    else if !Ascii(submitted) then Raised
    else if CodeFor(hmac, secret, candidate) == submitted then Matched(candidate)
    else FirstMatch(hmac, secret, submitted, last, candidate + 1, end)
  }

  function Verify(hmac: Hmac, cs: Charset, secret: Secret, code: string, last: nat, moment: nat): Answer {
    var submitted, current := Clean(cs, code), CounterAt(moment);
    if !AllDigits(cs, submitted) then Invalid
    else FirstMatch(hmac, secret, submitted, last, current - TOLERANCE_STEPS, current + TOLERANCE_STEPS)
  }

  /** A counter a submitted code may stand for: within one step of now and not used before. */
  predicate Acceptable(hmac: Hmac, secret: Secret, submitted: string, last: nat, current: nat, c: nat) {
    current - TOLERANCE_STEPS <= c <= current + TOLERANCE_STEPS && c > last && CodeFor(hmac, secret, c) == submitted
  }

  lemma {:induction false} FirstMatchIsFirst(hmac: Hmac, secret: Secret, submitted: string, last: nat,
                                             candidate: int, end: int)
    requires Ascii(submitted)
    ensures var found := FirstMatch(hmac, secret, submitted, last, candidate, end);
            && found != Raised
            && (found.Matched? ==> candidate <= found.counter <= end && found.counter > last
                                   && CodeFor(hmac, secret, found.counter) == submitted)
            && (forall c: nat :: candidate <= c <= end && c > last && CodeFor(hmac, secret, c) == submitted ==>
                  found.Matched? && found.counter <= c)
    decreases end - candidate
  {
    if candidate <= end {
      FirstMatchIsFirst(hmac, secret, submitted, last, candidate + 1, end);
    }
  }

  lemma {:induction false} FirstMatchRaises(hmac: Hmac, secret: Secret, submitted: string, last: nat,
                                            candidate: int, end: int)
    requires !Ascii(submitted)
    ensures FirstMatch(hmac, secret, submitted, last, candidate, end)
            == if end > last && candidate <= end then Raised else Invalid
    decreases end - candidate
  {
    if candidate <= end {
      FirstMatchRaises(hmac, secret, submitted, last, candidate + 1, end);
    }
  }

  /** A matched counter was not used before. */
  lemma MatchedIsNew(hmac: Hmac, cs: Charset, secret: Secret, code: string, last: nat, moment: nat)
    ensures var answer := Verify(hmac, cs, secret, code, last, moment); answer.Matched? ==> answer.counter > last
  {
    var submitted, current := Clean(cs, code), CounterAt(moment);
    if Ascii(submitted) {
      FirstMatchIsFirst(hmac, secret, submitted, last, current - TOLERANCE_STEPS, current + TOLERANCE_STEPS);
    } else {
      FirstMatchRaises(hmac, secret, submitted, last, current - TOLERANCE_STEPS, current + TOLERANCE_STEPS);
    }
  }

  /** The answer is the smallest acceptable counter of the cleaned code, and there is one if there is
      one. Digits outside ASCII raise an exception instead of being refused, exactly while some step of
      the window is unused. */
  lemma VerifyExactly(hmac: Hmac, cs: Charset, secret: Secret, code: string, last: nat, moment: nat)
    requires Sane(cs)
    ensures var answer := Verify(hmac, cs, secret, code, last, moment);
            var submitted, current := Clean(cs, code), CounterAt(moment);
            && (answer.Matched? ==> Acceptable(hmac, secret, submitted, last, current, answer.counter))
            && (forall c: nat :: Acceptable(hmac, secret, submitted, last, current, c) ==>
                  answer.Matched? && answer.counter <= c)
            && (answer.Raised? <==> AllDigits(cs, submitted) && !Ascii(submitted) && last <= current)
  {
    var submitted, current := Clean(cs, code), CounterAt(moment);
    if Ascii(submitted) {
      FirstMatchIsFirst(hmac, secret, submitted, last, current - TOLERANCE_STEPS, current + TOLERANCE_STEPS);
    } else {
      FirstMatchRaises(hmac, secret, submitted, last, current - TOLERANCE_STEPS, current + TOLERANCE_STEPS);
    }
    forall c: nat | Acceptable(hmac, secret, submitted, last, current, c)
      ensures AllDigits(cs, submitted) && Ascii(submitted)
    {
      CodeIsStandard(hmac, secret, c);
    }
  }

  lemma {:induction false} DigitsAreClean(cs: Charset, code: string)
    requires Sane(cs) && forall i :: 0 <= i < |code| ==> IsDigit(code[i])
    ensures WithoutBlanks(code) == code && Clean(cs, code) == code
    decreases |code|
  {
    if code != "" {
      DigitsAreClean(cs, code[1..]);
      assert code == [code[0]] + code[1..];
    }
  }

  /** The code a generator shows for the current step is accepted, unless that step was used. */
  lemma CurrentCodeIsAccepted(hmac: Hmac, cs: Charset, secret: Secret, last: nat, moment: nat)
    requires Sane(cs) && last < CounterAt(moment)
    ensures var answer := Verify(hmac, cs, secret, CodeFor(hmac, secret, CounterAt(moment)), last, moment);
            answer.Matched? && last < answer.counter <= CounterAt(moment)
  {
    var code := CodeFor(hmac, secret, CounterAt(moment));
    CodeIsStandard(hmac, secret, CounterAt(moment));
    DigitsAreClean(cs, code);
    VerifyExactly(hmac, cs, secret, code, last, moment);
    assert Acceptable(hmac, secret, code, last, CounterAt(moment), CounterAt(moment));
  }

  /** A full-width digit one, a code no generator shows, is such a text. */
  lemma FullWidthDigitRaises(hmac: Hmac, cs: Charset, secret: Secret, moment: nat)
    requires Sane(cs) && cs.digit('\U{FF11}') && !cs.space('\U{FF11}')
    ensures Verify(hmac, cs, secret, "\U{FF11}", 0, moment) == Raised
  {
    var code := "\U{FF11}";
    assert WithoutBlanks(code[1..]) == "" && Clean(cs, code) == code;
    assert code[0] >= 128 as char;
    VerifyExactly(hmac, cs, secret, code, 0, moment);
  }
}
