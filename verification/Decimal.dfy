/**
 * The front end's exact decimal arithmetic on strings (frontend/src/lib/decimal.ts).
 * Numbers are unbounded integers here: JavaScript's double precision is not modelled.
 */
module Decimal {
  import opened Prelude
  import opened Text
  import Money

  predicate IsDigit(c: char) { '0' <= c <= '9' }

  function DigitValue(c: char): (r: nat)
    requires IsDigit(c)
    ensures r < 10
  {
    c as int - '0' as int
  }

  function DigitChar(d: nat): (c: char)
    requires d < 10
    ensures IsDigit(c) && DigitValue(c) == d
  {
    ('0' as int + d) as char
  }

  predicate AllDigits(s: string) {
    forall i :: 0 <= i < |s| ==> IsDigit(s[i])
  }

  /** Number(s) of a digit string; the empty string counts as 0, as in JavaScript. */
  function Value(s: string): nat
    requires AllDigits(s)
  {
    if s == "" then 0 else 10 * Value(s[..|s| - 1]) + DigitValue(s[|s| - 1])
  }

  /** String(n). */
  function Digits(n: nat): (r: string)
    ensures r != "" && AllDigits(r)
    ensures |r| > 1 ==> r[0] != '0'
    ensures r == "0" <==> n == 0
  {
    if n < 10 then [DigitChar(n)] else Digits(n / 10) + [DigitChar(n % 10)]
  }

  lemma {:induction false} ValueOfDigits(n: nat)
    ensures Value(Digits(n)) == n
  {
    if n >= 10 {
      ValueOfDigits(n / 10);
      assert Digits(n)[..|Digits(n)| - 1] == Digits(n / 10);
    }
  }

  /** Printing a digit string's value gives the string back, unless it has a superfluous zero. */
  lemma {:induction false} DigitsOfValue(s: string)
    requires s != "" && AllDigits(s) && (|s| > 1 ==> s[0] != '0')
    ensures Digits(Value(s)) == s
  {
    var front, last := s[..|s| - 1], s[|s| - 1];
    assert s == front + [last];
    if front != "" {
      DigitsOfValue(front);
      assert front != "0" by { assert front[0] == s[0]; }
      AppendDigit(Value(front), DigitValue(last));
    }
  }

  lemma AppendDigit(n: nat, d: nat)
    requires n > 0 && d < 10
    ensures Digits(10 * n + d) == Digits(n) + [DigitChar(d)]
  {
    assert (10 * n + d) / 10 == n && (10 * n + d) % 10 == d;
  }

  /** How far `\d+` reaches from position i. */
  function RunEnd(s: string, i: nat): (r: nat)
    requires i <= |s|
    ensures i <= r <= |s| && forall k :: i <= k < r ==> IsDigit(s[k])
    ensures r < |s| ==> !IsDigit(s[r])
    decreases |s| - i
  {
    if i < |s| && IsDigit(s[i]) then RunEnd(s, i + 1) else i
  }

  /** `(?:\.(\d{0,k}))?$` after the whole part: nothing, or a point and at most k digits. */
  predicate IsTail(rest: string, places: nat) {
    rest == "" || (rest[0] == '.' && |rest| <= places + 1 && AllDigits(rest[1..]))
  }

  function Zeros(n: nat): (r: string)
    ensures |r| == n && AllDigits(r)
  {
    seq(n, _ => '0')
  }

  /** The fraction padded with zeros to the full number of places. */
  function Fraction(rest: string, places: nat): (r: string)
    requires IsTail(rest, places)
    ensures |r| == places && AllDigits(r)
  {
    var fraction := if rest == "" then "" else rest[1..];
    (fraction + Zeros(places))[..places]
  }

  /** Number(whole) shifted past the places, plus the padded fraction. */
  function Scaled(whole: string, rest: string, places: nat): nat
    requires AllDigits(whole) && IsTail(rest, places)
  {
    if places == 2 then Value(whole) * 100 + Value(Fraction(rest, places))
    else Value(whole) * 1000 + Value(Fraction(rest, places))
  }

  /** An unsigned decimal with at most `places` places (two or three), in units of its last place. */
  function ParseUnsigned(body: string, places: nat): Option<nat> {
    var whole, rest := body[..RunEnd(body, 0)], body[RunEnd(body, 0)..];
    if whole != "" && IsTail(rest, places)
    then Some(Scaled(whole, rest, places))
    else None
  }

  function ToCents(value: string): Option<int> {
    var raw := Trim(value);
    var minus := raw != "" && raw[0] == '-';
    Signed(minus, ParseUnsigned(if minus then raw[1..] else raw, 2))
  }

  function Signed(minus: bool, parsed: Option<nat>): Option<int> {
    match parsed
    case None => None
    case Some(n) => if minus then Some(0 - n as int) else Some(n as int)
  }

  function Abs(n: int): nat { if n < 0 then -n else n }

  /** padStart(2, '0') of a number below one hundred. */
  function TwoDigits(n: nat): (r: string)
    requires n < 100
    ensures |r| == 2 && AllDigits(r)
  {
    [DigitChar(n / 10), DigitChar(n % 10)]
  }

  function Form(minus: bool, whole: string, fraction: string): string {
    (if minus then "-" else "") + whole + "." + fraction
  }

  function FromCents(cents: int): string {
    Form(cents < 0, Digits(Abs(cents) / 100), TwoDigits(Abs(cents) % 100))
  }

  // --- round trips -------------------------------------------------------------------------

  lemma ValueOfTwo(s: string)
    requires |s| == 2 && AllDigits(s)
    ensures Value(s) == 10 * DigitValue(s[0]) + DigitValue(s[1])
    ensures Value(s) < 100 && TwoDigits(Value(s)) == s
  {
    assert s[..1] == [s[0]];
    assert Value([s[0]]) == DigitValue(s[0]) by { assert [s[0]][..0] == ""; }
    assert s == [s[0], s[1]];
  }

  lemma ParseSplit(whole: string, rest: string, places: nat)
    requires whole != "" && AllDigits(whole) && IsTail(rest, places)
    ensures ParseUnsigned(whole + rest, places) == Some(Scaled(whole, rest, places))
  {
    var body := whole + rest;
    assert RunEnd(body, 0) == |whole| by {
      assert forall k :: 0 <= k < |whole| ==> body[k] == whole[k];
      assert rest != "" ==> body[|whole|] == rest[0];
    }
    assert body[..|whole|] == whole && body[|whole|..] == rest;
  }

  lemma PlainFraction(fraction: string)
    requires |fraction| == 2 && AllDigits(fraction)
    ensures IsTail("." + fraction, 2) && Fraction("." + fraction, 2) == fraction
  {
    var rest := "." + fraction;
    assert rest[1..] == fraction;
    assert (fraction + Zeros(2))[..2] == fraction;
  }

  lemma ParsePlain(whole: string, fraction: string)
    requires whole != "" && AllDigits(whole) && |fraction| == 2 && AllDigits(fraction)
    ensures ParseUnsigned(whole + ("." + fraction), 2) == Some(Value(whole) * 100 + Value(fraction))
  {
    hide Value, Fraction, ParseUnsigned, RunEnd;
    PlainFraction(fraction);
    ParseSplit(whole, "." + fraction, 2);
  }

  lemma TwoDigitsValue(n: nat)
    requires n < 100
    ensures Value(TwoDigits(n)) == n
  {
    ValueOfTwo(TwoDigits(n));
  }

  lemma FormParts(minus: bool, whole: string, fraction: string)
    requires whole != "" && AllDigits(whole) && |fraction| == 2 && AllDigits(fraction)
    ensures
      var s := Form(minus, whole, fraction);
      && s != "" && (s[0] == '-' <==> minus)
      && !IsSpace(s[0]) && !IsSpace(s[|s| - 1])
      && (if minus then s[1..] else s) == whole + ("." + fraction)
  {
    var s := Form(minus, whole, fraction);
    assert s[|s| - 1] == fraction[1];
    assert s[0] == if minus then '-' else whole[0];
  }

  /** Any sign, whole part and two-digit fraction read as the amount they spell. */
  lemma ReadForm(minus: bool, whole: string, fraction: string)
    requires whole != "" && AllDigits(whole) && |fraction| == 2 && AllDigits(fraction)
    ensures ToCents(Form(minus, whole, fraction)) == Signed(minus, Some(Value(whole) * 100 + Value(fraction)))
  {
    FormParts(minus, whole, fraction);
    TrimKeeps(Form(minus, whole, fraction));
    ParsePlain(whole, fraction);
  }

  /** What is printed reads back as the same amount, for every integer. */
  lemma PrintThenRead(cents: int)
    ensures ToCents(FromCents(cents)) == Some(cents)
  {
    hide ToCents, Value, Form, Digits, TwoDigits;
    var n: nat, m: nat := Abs(cents) / 100, Abs(cents) % 100;
    assert n * 100 + m == Abs(cents) && m < 100;
    ValueOfDigits(n);
    TwoDigitsValue(m);
    ReadForm(cents < 0, Digits(n), TwoDigits(m));
  }

  /**
   * The printed form: a minus only for a negative amount, no superfluous leading zero,
   * exactly two decimal places.
   */
  predicate Canonical(minus: bool, whole: string, fraction: string) {
    && whole != "" && AllDigits(whole) && (|whole| > 1 ==> whole[0] != '0')
    && |fraction| == 2 && AllDigits(fraction)
    && !(minus && whole == "0" && fraction == "00")
  }

  ghost predicate IsCanonical(s: string) {
    exists minus: bool, whole: string, fraction: string ::
      Canonical(minus, whole, fraction) && s == Form(minus, whole, fraction)
  }

  lemma PrintedIsCanonical(cents: int)
    ensures IsCanonical(FromCents(cents))
  {
    assert Canonical(cents < 0, Digits(Abs(cents) / 100), TwoDigits(Abs(cents) % 100));
  }

  /** Whatever spelling was accepted, re-printing it is canonical and keeps its value. */
  lemma Reprinting(s: string)
    requires ToCents(s).Some?
    ensures IsCanonical(FromCents(ToCents(s).value))
    ensures ToCents(FromCents(ToCents(s).value)) == ToCents(s)
  {
    PrintedIsCanonical(ToCents(s).value);
    PrintThenRead(ToCents(s).value);
  }

  lemma SplitHundreds(w: nat, f: nat)
    requires f < 100
    ensures (w * 100 + f) / 100 == w && (w * 100 + f) % 100 == f
  {
  }

  lemma PrintSplit(minus: bool, w: nat, f: nat)
    requires f < 100 && (minus ==> w > 0 || f > 0)
    ensures FromCents(if minus then -(w * 100 + f) else w * 100 + f) == Form(minus, Digits(w), TwoDigits(f))
  {
    SplitHundreds(w, f);
  }

  lemma ZeroSpelling(whole: string, fraction: string)
    requires whole != "" && AllDigits(whole) && (|whole| > 1 ==> whole[0] != '0')
    requires |fraction| == 2 && AllDigits(fraction)
    requires Value(whole) == 0 && Value(fraction) == 0
    ensures whole == "0" && fraction == "00"
  {
    DigitsOfValue(whole);
    ValueOfTwo(fraction);
  }

  lemma ReprintForm(minus: bool, whole: string, fraction: string, w: nat, f: nat)
    requires whole == Digits(w) && f < 100 && fraction == TwoDigits(f) && (minus ==> w > 0 || f > 0)
    ensures FromCents(Signed(minus, Some(w * 100 + f)).value) == Form(minus, whole, fraction)
  {
    PrintSplit(minus, w, f);
  }

  /** The parts of a canonical string are the parts its value prints as. */
  lemma CanonicalParts(minus: bool, whole: string, fraction: string)
    requires Canonical(minus, whole, fraction)
    ensures Digits(Value(whole)) == whole && Value(fraction) < 100 && TwoDigits(Value(fraction)) == fraction
    ensures minus ==> Value(whole) > 0 || Value(fraction) > 0
  {
    DigitsOfValue(whole);
    ValueOfTwo(fraction);
    if Value(whole) == 0 && Value(fraction) == 0 {
      ZeroSpelling(whole, fraction);
    }
  }

  lemma PartsPrintBack(minus: bool, whole: string, fraction: string, w: nat, f: nat)
    requires Canonical(minus, whole, fraction) && w == Value(whole) && f == Value(fraction)
    ensures FromCents(Signed(minus, Some(w * 100 + f)).value) == Form(minus, whole, fraction)
  {
    assert whole == Digits(w) && f < 100 && fraction == TwoDigits(f) && (minus ==> w > 0 || f > 0) by {
      CanonicalParts(minus, whole, fraction);
    }
    ReprintForm(minus, whole, fraction, w, f);
  }

  /** A canonical string is accepted and printed back unchanged: printing is a bijection onto these strings. */
  lemma ReadThenPrint(s: string)
    requires IsCanonical(s)
    ensures ToCents(s).Some? && FromCents(ToCents(s).value) == s
  {
    hide ToCents, FromCents, Value;
    var minus: bool, whole: string, fraction: string :|
      Canonical(minus, whole, fraction) && s == Form(minus, whole, fraction);
    ReadForm(minus, whole, fraction);
    PartsPrintBack(minus, whole, fraction, Value(whole), Value(fraction));
  }

  // --- line totals -------------------------------------------------------------------------

  /** Math.round of a value given in thousandths: ties go towards plus infinity. */
  function MathRound(milli: int): int { (milli + 500) / 1000 }

  function LineOf(milli: nat, price: int): int { MathRound(milli * price) }

  function LineCents(quantity: string, unitPrice: string): Option<int> {
    match (ParseUnsigned(Trim(quantity), 3), ToCents(unitPrice))
    case (Some(milli), Some(price)) => Some(LineOf(milli, price))
    case _ => None
  }

  /** A negative amount ending in exactly half a cent. */
  predicate NegativeTie(x: int) { x < 0 && x % 1000 == 500 }

  /**
   * The form shows the line total the server will compute exactly when the product is not a
   * negative amount ending in half a cent; for every price the server accepts they agree.
   */
  lemma LineAgreesWithServer(milli: nat, price: int)
    ensures LineOf(milli, price) == RoundHalfUp(milli * price) <==> !NegativeTie(milli * price)
    ensures price >= 0 ==> LineOf(milli, price) == Money.LineTotal(milli, price)
  {
    RoundingsDiffer(milli * price);
    assert price >= 0 ==> milli * price >= 0;
  }

  /** The same for what is typed into the form, wherever both strings are accepted. */
  lemma TypedLineAgreesWithServer(quantity: string, unitPrice: string)
    ensures LineCents(quantity, unitPrice).Some? <==> ParseUnsigned(Trim(quantity), 3).Some? && ToCents(unitPrice).Some?
    ensures LineCents(quantity, unitPrice).Some? ==>
      var milli, price := ParseUnsigned(Trim(quantity), 3).value, ToCents(unitPrice).value;
      && (LineCents(quantity, unitPrice) == Some(RoundHalfUp(milli * price)) <==> !NegativeTie(milli * price))
      && (price >= 0 ==> LineCents(quantity, unitPrice) == Some(Money.LineTotal(milli, price)))
  {
    hide ParseUnsigned, ToCents, LineOf, RoundHalfUp;
    if LineCents(quantity, unitPrice).Some? {
      LineAgreesWithServer(ParseUnsigned(Trim(quantity), 3).value, ToCents(unitPrice).value);
    }
  }

  lemma RoundingsDiffer(x: int)
    ensures MathRound(x) == RoundHalfUp(x) <==> !NegativeTie(x)
  {
  }

  /** The disagreement is real: half of a negative cent rounds to 0 in the form, to -1 on the server. */
  lemma NegativeTieDisagrees()
    ensures LineCents("0.5", FromCents(-1)) == Some(0)
    ensures RoundHalfUp(500 * -1) == -1
  {
    HalfIs500();
    PrintThenRead(-1);
  }

  lemma HalfIs500()
    ensures ParseUnsigned(Trim("0.5"), 3) == Some(500)
  {
    TrimKeeps("0.5");
    assert "0.5" == "0" + ".5";
    ParseSplit("0", ".5", 3);
    assert ".5"[1..] == "5";
    assert ("5" + Zeros(3))[..3] == "500";
    assert Value("0") == 0 by { assert "0"[..0] == ""; }
    assert Value("5") == 5 by { assert "5"[..0] == ""; }
    assert Value("50") == 50 by { assert "50"[..1] == "5"; }
    assert Value("500") == 500 by { assert "500"[..2] == "50"; }
  }

  // --- what the form accepts -----------------------------------------------------------------

  /** Nothing, a point, or a point and one or two digits. */
  predicate IsCentsTail(tail: string) {
    || tail == ""
    || (tail[0] == '.' && |tail| <= 3 && AllDigits(tail[1..]))
  }

  /** The cents a tail stands for: a single digit counts tens. */
  function TailCents(tail: string): nat
    requires IsCentsTail(tail)
  {
    if |tail| <= 1 then 0
    else if |tail| == 2 then 10 * DigitValue(tail[1])
    else 10 * DigitValue(tail[1]) + DigitValue(tail[2])
  }

  lemma TailValue(tail: string)
    requires IsCentsTail(tail)
    ensures IsTail(tail, 2) && Value(Fraction(tail, 2)) == TailCents(tail)
  {
    var digits := Fraction(tail, 2);
    assert tail != "" ==> forall i :: 1 <= i < |tail| ==> tail[i] == tail[1..][i - 1];
    ValueOfTwo(digits);
    assert |tail| <= 1 ==> digits == "00";
    assert |tail| == 2 ==> digits == [tail[1], '0'];
    assert |tail| == 3 ==> digits == [tail[1], tail[2]];
  }

  /** Every accepted spelling, and the amount it is read as. */
  ghost predicate Spells(s: string, minus: bool, whole: string, tail: string, cents: int) {
    && whole != "" && AllDigits(whole) && IsCentsTail(tail)
    && Trim(s) == (if minus then "-" else "") + whole + tail
    && cents == (if minus then -1 else 1) * (Value(whole) * 100 + TailCents(tail))
  }

  lemma ReadSpelling(s: string, minus: bool, whole: string, tail: string, cents: int)
    requires Spells(s, minus, whole, tail, cents)
    ensures ToCents(s) == Some(cents)
  {
    hide Value, Fraction, RunEnd, ParseUnsigned, TailCents;
    var raw := Trim(s);
    assert raw[0] == if minus then '-' else whole[0];
    assert (if minus then raw[1..] else raw) == whole + tail;
    TailValue(tail);
    ParseSplit(whole, tail, 2);
  }

  lemma ParsedParts(body: string)
    requires ParseUnsigned(body, 2).Some?
    ensures
      var whole, tail := body[..RunEnd(body, 0)], body[RunEnd(body, 0)..];
      body == whole + tail && whole != "" && AllDigits(whole) && IsCentsTail(tail)
  {
    hide Value, Fraction, Scaled;
  }

  lemma SpellingOf(s: string) returns (minus: bool, whole: string, tail: string, cents: int)
    requires ToCents(s).Some?
    ensures Spells(s, minus, whole, tail, cents)
  {
    hide Value, TailCents, ParseUnsigned, RunEnd, Trim, IsCentsTail, AllDigits;
    var raw := Trim(s);
    minus := raw != "" && raw[0] == '-';
    var body := if minus then raw[1..] else raw;
    ParsedParts(body);
    whole, tail := body[..RunEnd(body, 0)], body[RunEnd(body, 0)..];
    assert raw == (if minus then "-" else "") + whole + tail;
    cents := (if minus then -1 else 1) * (Value(whole) * 100 + TailCents(tail));
  }

  /** A string is accepted exactly when it is an optional minus, digits, and at most two decimal places. */
  lemma AcceptedIff(s: string)
    ensures
      ToCents(s).Some?
      <==> exists minus: bool, whole: string, tail: string, cents: int :: Spells(s, minus, whole, tail, cents)
  {
    hide ToCents, Spells;
    if ToCents(s).Some? {
      var minus, whole, tail, cents := SpellingOf(s);
    }
    forall minus: bool, whole: string, tail: string, cents: int | Spells(s, minus, whole, tail, cents)
      ensures ToCents(s).Some?
    {
      ReadSpelling(s, minus, whole, tail, cents);
    }
  }

  lemma ReadsTwelveAndAHalf()
    ensures ToCents("12.5") == Some(1250)
  {
    hide ToCents, Trim;
    TrimKeeps("12.5");
    assert Value("1") == 1 by { assert "1"[..0] == ""; }
    assert Value("12") == 12 by { assert "12"[..1] == "1"; }
    assert ".5"[1..] == "5";
    assert "12.5" == "" + "12" + ".5";
    ReadSpelling("12.5", false, "12", ".5", 1250);
  }

  /** Twelve and a half, read and printed. */
  lemma TwelveAndAHalf()
    ensures ToCents("12.5") == Some(1250) && FromCents(1250) == "12.50"
  {
    hide ToCents;
    ReadsTwelveAndAHalf();
    assert Digits(12) == "12" by { assert Digits(1) == "1"; }
    assert TwoDigits(50) == "50";
    assert Form(false, "12", "50") == "12.50";
  }
}
