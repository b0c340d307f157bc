/**
 * Grounding: an answer is accepted only when every cited value is the one the query returned, and
 * every other numeral in its prose comes from the result.
 */
module Grounding {
  import opened Wrappers
  import opened Decimals
  import opened Rounding

  datatype Value = Null | Bool(b: bool) | Num(number: Decimal) | Text(text: string)

  type Row = map<string, Value>

  datatype Evidence = Evidence(rowIndex: nat, field: string, value: Value)

  type Claim = seq<Evidence>

  datatype Span = Span(start: nat, end: nat)

  /**
   * The regular expressions and `str`: where prose has numerals, the digit runs inside a text, and
   * whether the text either side of a numeral reads as a row count or as a rank.
   */
  datatype Reading = Reading(
    proseNumerals: string -> seq<Span>,
    fragments: string -> seq<string>,
    countWording: (string, string) -> bool,
    rankWording: (string, string) -> bool,
    show: Value -> string)

  ghost predicate SpansWithin(reading: Reading, answer: string) {
    forall i :: 0 <= i < |reading.proseNumerals(answer)| ==>
      reading.proseNumerals(answer)[i].start <= reading.proseNumerals(answer)[i].end <= |answer|
  }

  datatype GroundingError =
    | ClaimsOnEmptyResult
    | MissingClaims
    | EvidenceRowOutOfRange
    | EvidenceFieldMissing
    | EvidenceValueMismatch
    | UnsupportedNumericClaim

  // ---------------------------------------------------------------------------------------------
  // Numbers in text

  predicate IsSpace(c: char) {
    c == ' ' || c == '\t' || c == '\n' || c == '\r'
  }

  function StripLeft(s: string): string {
    if s != "" && IsSpace(s[0]) then StripLeft(s[1..]) else s
  }

  function StripRight(s: string): string {
    if s != "" && IsSpace(s[|s| - 1]) then StripRight(s[..|s| - 1]) else s
  }

  function WithoutCommas(s: string): string {
    if s == "" then "" else (if s[0] == ',' then "" else [s[0]]) + WithoutCommas(s[1..])
  }

  predicate DigitsAndCommas(s: string) {
    s != "" && forall i :: 0 <= i < |s| ==> IsDigit(s[i]) || s[i] == ','
  }

  lemma {:induction false} WithoutCommasIsDigits(s: string)
    requires forall i :: 0 <= i < |s| ==> IsDigit(s[i]) || s[i] == ','
    ensures AllDigits(WithoutCommas(s))
  {
    if s != "" {
      WithoutCommasIsDigits(s[1..]);
    }
  }

  /** What follows the first point of a text, as `raw.partition(".")` gives it. */
  function FractionOf(s: string): string {
    var p := Find(s, '.');
    if p == |s| then "" else s[p + 1..]
  }

  function WholeOf(s: string): string {
    s[..Find(s, '.')]
  }

  /** Digits with separators, and a fraction when there is a point. */
  predicate NumeralShape(s: string) {
    && DigitsAndCommas(WholeOf(s))
    && AllDigits(FractionOf(s))
    && (Find(s, '.') < |s| ==> FractionOf(s) != "")
  }

  function Unsigned(s: string): string {
    if s != "" && (s[0] == '-' || s[0] == '+') then s[1..] else s
  }

  function Plain(s: string): string {
    if s != "" && s[0] == '$' then s[1..] else s
  }

  /** A number written with an optional sign, currency sign, separators and decimals. */
  function ParseNumber(text: string): Option<Decimal> {
    var s := StripRight(StripLeft(text));
    var body := Plain(Unsigned(s));
    if !NumeralShape(body) then None
    else
      WithoutCommasIsDigits(WholeOf(body));
      var digits := WithoutCommas(WholeOf(body)) + FractionOf(body);
      if digits == "" then None
      else Some(Decimal(s[0] == '-', NatOf(digits), 0 - |FractionOf(body)|))
  }

  function NormalizedNumber(v: Value): Option<Decimal> {
    match v
    case Null => None
    case Bool(_) => None
    case Num(d) => Some(Normalize(d))
    case Text(t) =>
      var n := ParseNumber(t);
      if n.None? then None else Some(Normalize(n.value))
  }

  // ---------------------------------------------------------------------------------------------
  // What number a text is

  /** The parts of a written number: its whole part has digits and separators, its fraction digits only. */
  datatype Spelling = Spelling(sign: string, currency: string, whole: string, fraction: string)

  predicate IsSpelling(p: Spelling) {
    && (p.sign == "" || p.sign == "-" || p.sign == "+")
    && (p.currency == "" || p.currency == "$")
    && p.whole != "" && (forall i :: 0 <= i < |p.whole| ==> '0' <= p.whole[i] <= '9' || p.whole[i] == ',')
    && (forall i :: 0 <= i < |p.fraction| ==> '0' <= p.fraction[i] <= '9')
    && (p.fraction != "" || exists i :: 0 <= i < |p.whole| && IsDigit(p.whole[i]))
  }

  function Body(p: Spelling): string {
    p.whole + if p.fraction == "" then "" else "." + p.fraction
  }

  predicate AllSpace(s: string) {
    forall i :: 0 <= i < |s| ==> IsSpace(s[i])
  }

  /** The text is this number, between blanks. */
  ghost predicate IsSpelled(text: string, before: string, p: Spelling, after: string) {
    && AllSpace(before) && AllSpace(after) && IsSpelling(p)
    && text == before + (p.sign + p.currency + Body(p)) + after
  }

  /** The digits, as many of them behind the point as the fraction has, and negative after a minus only. */
  function Amount(p: Spelling): real
    requires IsSpelling(p)
  {
    WithoutCommasIsDigits(p.whole);
    var size := NatOf(WithoutCommas(p.whole) + p.fraction) as real / Ten(|p.fraction|) as real;
    if p.sign == "-" then 0.0 - size else size
  }

  lemma {:induction false} StripBlanks(before: string, core: string, after: string)
    requires AllSpace(before) && AllSpace(after) && core != "" && !IsSpace(core[0]) && !IsSpace(core[|core| - 1])
    ensures StripRight(StripLeft(before + core + after)) == core
  {
    var s := before + core + after;
    if before != "" {
      assert s[1..] == before[1..] + core + after;
      StripBlanks(before[1..], core, after);
    } else if after != "" {
      var n := |after| - 1;
      assert s == core + after && StripLeft(s) == s;
      assert s[..|s| - 1] == core + after[..n] && before + core + after[..n] == core + after[..n];
      StripBlanks(before, core, after[..n]);
      assert StripLeft(core + after[..n]) == core + after[..n];
    } else {
      assert s == core;
    }
  }

  lemma {:induction false} BodyReads(p: Spelling)
    requires IsSpelling(p)
    ensures NumeralShape(Body(p)) && WholeOf(Body(p)) == p.whole && FractionOf(Body(p)) == p.fraction
    ensures Body(p) != "" && Solid(Body(p)[0]) && Solid(Body(p)[|Body(p)| - 1])
  {
    var body := Body(p);
    FindFirst(p.whole, '.', p.fraction);
    if p.fraction != "" {
      assert body == p.whole + ['.'] + p.fraction;
      assert body[|p.whole|..] == "." + p.fraction;
      assert body[|p.whole| + 1..] == p.fraction;
    } else {
      assert body == p.whole;
    }
  }

  lemma {:induction false} SignOff(sign: string, rest: string)
    requires sign == "" || sign == "-" || sign == "+"
    requires rest != "" && rest[0] != '-' && rest[0] != '+'
    ensures Unsigned(sign + rest) == rest && ((sign + rest)[0] == '-' <==> sign == "-")
  {
    if sign == "" {
      assert sign + rest == rest;
    } else {
      assert (sign + rest)[1..] == rest;
    }
  }

  lemma {:induction false} CurrencyOff(currency: string, rest: string)
    requires (currency == "" || currency == "$") && rest != "" && rest[0] != '$'
    ensures Plain(currency + rest) == rest
  {
    if currency == "" {
      assert currency + rest == rest;
    } else {
      assert (currency + rest)[1..] == rest;
    }
  }

  predicate Solid(c: char) {
    IsDigit(c) || c == ','
  }

  lemma {:induction false} SolidIsPlain(c: char)
    ensures Solid(c) ==> c != '-' && c != '+' && c != '$'
    ensures Solid(c) || c == '-' || c == '+' || c == '$' ==> !IsSpace(c)
  {
  }

  lemma {:induction false} CoreReads(sign: string, currency: string, body: string)
    requires (sign == "" || sign == "-" || sign == "+") && (currency == "" || currency == "$")
    requires body != "" && Solid(body[0]) && Solid(body[|body| - 1])
    ensures var core := sign + currency + body;
      && Plain(Unsigned(core)) == body && core != ""
      && (core[0] == '-' <==> sign == "-") && !IsSpace(core[0]) && !IsSpace(core[|core| - 1])
  {
    hide *;
    var rest := currency + body;
    var core := sign + currency + body;
    assert core == sign + rest;
    forall c: char {
      SolidIsPlain(c);
    }
    assert rest[0] == '$' || rest[0] == body[0];
    assert core[0] == '-' || core[0] == '+' || core[0] == rest[0];
    assert core[|core| - 1] == body[|body| - 1];
    CurrencyOff(currency, body);
    SignOff(sign, rest);
  }

  lemma {:induction false} SomeDigit(whole: string)
    requires DigitsAndCommas(whole)
    ensures WithoutCommas(whole) != "" <==> exists i :: 0 <= i < |whole| && IsDigit(whole[i])
  {
    if |whole| > 1 {
      SomeDigit(whole[1..]);
      assert forall i :: 0 < i < |whole| ==> whole[i] == whole[1..][i - 1];
    }
  }

  /** A written number is read as its amount, with exactly as many decimals as it shows. */
  lemma {:induction false} SpelledReads(text: string, before: string, p: Spelling, after: string)
    requires IsSpelled(text, before, p, after)
    ensures ParseNumber(text).Some? && D(ParseNumber(text).value) == Amount(p)
    ensures ParseNumber(text).value.exponent == 0 - |p.fraction|
  {
    BodyReads(p);
    SpellingParts(p);
    CoreReads(p.sign, p.currency, Body(p));
    hide *;
    var core := p.sign + p.currency + Body(p);
    SpelledIs(text, before, p, after);
    StripBlanks(before, core, after);
    CoreParses(text, core, p);
    AmountIs(p);
  }

  lemma {:induction false} SpelledIs(text: string, before: string, p: Spelling, after: string)
    requires IsSpelled(text, before, p, after)
    ensures AllSpace(before) && AllSpace(after) && IsSpelling(p)
    ensures text == before + (p.sign + p.currency + Body(p)) + after
  {
  }

  lemma {:induction false} SpellingParts(p: Spelling)
    requires IsSpelling(p)
    ensures (p.sign == "" || p.sign == "-" || p.sign == "+") && (p.currency == "" || p.currency == "$")
    ensures WithoutCommas(p.whole) + p.fraction != "" && AllDigits(WithoutCommas(p.whole) + p.fraction)
  {
    SomeDigit(p.whole);
    WithoutCommasIsDigits(p.whole);
  }

  lemma {:induction false} AmountIs(p: Spelling)
    requires IsSpelling(p) && AllDigits(WithoutCommas(p.whole) + p.fraction)
    ensures D(Decimal(p.sign == "-", NatOf(WithoutCommas(p.whole) + p.fraction), 0 - |p.fraction|)) == Amount(p)
  {
    Scaled(p.sign == "-", NatOf(WithoutCommas(p.whole) + p.fraction), |p.fraction|);
    hide D, NatOf, WithoutCommas, IsSpelling, Ten;
  }

  lemma {:induction false} CoreParses(text: string, core: string, p: Spelling)
    requires IsSpelling(p) && core != "" && StripRight(StripLeft(text)) == core && Plain(Unsigned(core)) == Body(p)
    requires NumeralShape(Body(p)) && WholeOf(Body(p)) == p.whole && FractionOf(Body(p)) == p.fraction
    requires WithoutCommas(p.whole) + p.fraction != "" && AllDigits(WithoutCommas(p.whole) + p.fraction)
    ensures ParseNumber(text)
         == Some(Decimal(core[0] == '-', NatOf(WithoutCommas(p.whole) + p.fraction), 0 - |p.fraction|))
  {
    hide NumeralShape, WholeOf, FractionOf, Plain, Unsigned, Body, DigitsAndCommas, StripLeft, StripRight, NatOf,
      WithoutCommas, IsSpelling;
  }

  lemma {:induction false} Scaled(negative: bool, n: nat, places: nat)
    ensures var size := n as real / Ten(places) as real;
      D(Decimal(negative, n, 0 - places)) == if negative then 0.0 - size else size
  {
    Pow10Add(0 - places, places);
    assert Pow10(0) == 1.0;
    hide Pow10, Ten;
    var t, x, c := Ten(places) as real, Pow10(0 - places), n as real;
    assert t * x == 1.0;
    assert c * x == c / t by {
      assert (c / t) * t == c;
      ScaleTwice(c / t, t, x);
    }
    assert Signed(Decimal(negative, n, 0 - places)) as real == if negative then 0.0 - c else c;
    assert (0.0 - c) * x == 0.0 - c * x;
  }

  lemma {:induction false} StripParts(s: string) returns (before: string, after: string)
    ensures AllSpace(before) && AllSpace(after) && s == before + StripRight(StripLeft(s)) + after
  {
    if s == "" {
      before, after := "", "";
    } else if IsSpace(s[0]) {
      var b, a := StripParts(s[1..]);
      before, after := [s[0]] + b, a;
    } else {
      before := "";
      after := StripEnd(s);
    }
  }

  lemma {:induction false} StripEnd(s: string) returns (after: string)
    ensures AllSpace(after) && s == StripRight(s) + after
  {
    if s != "" && IsSpace(s[|s| - 1]) {
      var a := StripEnd(s[..|s| - 1]);
      after := a + [s[|s| - 1]];
    } else {
      after := "";
    }
  }

  /** And nothing else is read as a number. */
  lemma {:induction false} OnlySpelledReads(text: string) returns (before: string, p: Spelling, after: string)
    requires ParseNumber(text).Some?
    ensures IsSpelled(text, before, p, after)
  {
    before, after := StripParts(text);
    var s := StripRight(StripLeft(text));
    p := SpellingOf(s);
    hide StripRight, StripLeft, Body, IsSpelling;
  }

  lemma {:induction false} SpellingOf(s: string) returns (p: Spelling)
    requires var body := Plain(Unsigned(s)); NumeralShape(body) && WithoutCommas(WholeOf(body)) + FractionOf(body) != ""
    ensures IsSpelling(p) && s == p.sign + p.currency + Body(p)
  {
    var rest := Unsigned(s);
    var body := Plain(rest);
    var sign := if s != "" && (s[0] == '-' || s[0] == '+') then [s[0]] else "";
    var currency := if rest != "" && rest[0] == '$' then "$" else "";
    p := Spelling(sign, currency, WholeOf(body), FractionOf(body));
    SignSplits(s);
    CurrencySplits(rest);
    BodyParts(body);
    hide Body, NumeralShape, WholeOf, FractionOf, WithoutCommas, Unsigned, Plain, IsSpelling, DigitsAndCommas;
    IsSpelledBody(p);
    BodyIs(p, body);
    assert sign + (currency + body) == sign + currency + body;
  }

  lemma {:induction false} SignSplits(s: string)
    ensures s == (if s != "" && (s[0] == '-' || s[0] == '+') then [s[0]] else "") + Unsigned(s)
  {
  }

  lemma {:induction false} CurrencySplits(s: string)
    ensures s == (if s != "" && s[0] == '$' then "$" else "") + Plain(s)
  {
  }

  lemma {:induction false} IsSpelledBody(p: Spelling)
    requires (p.sign == "" || p.sign == "-" || p.sign == "+") && (p.currency == "" || p.currency == "$")
    requires DigitsAndCommas(p.whole) && AllDigits(p.fraction) && WithoutCommas(p.whole) + p.fraction != ""
    ensures IsSpelling(p)
  {
    SomeDigit(p.whole);
    hide WithoutCommas;
  }

  lemma {:induction false} BodyIs(p: Spelling, body: string)
    requires body == p.whole + if p.fraction == "" then "" else "." + p.fraction
    ensures body == Body(p)
  {
  }

  lemma {:induction false} BodyParts(body: string)
    requires NumeralShape(body)
    ensures body == WholeOf(body) + if FractionOf(body) == "" then "" else "." + FractionOf(body)
    ensures DigitsAndCommas(WholeOf(body)) && AllDigits(FractionOf(body))
  {
    var i := Find(body, '.');
    assert i < |body| ==> body[i] == '.';
    assert body[..|body|] == body;
    hide Find, DigitsAndCommas, AllDigits;
  }

  /** Python's `==` on two values at least one of which is no number: a truth value equals 1 or 0. */
  predicate SameValue(a: Value, b: Value) {
    match (a, b)
    case (Bool(x), Num(d)) => D(d) == if x then 1.0 else 0.0
    case (Num(d), Bool(x)) => D(d) == if x then 1.0 else 0.0
    case (Num(x), Num(y)) => D(x) == D(y)
    case _ => a == b
  }

  predicate ValuesEqual(reading: Reading, expected: Value, actual: Value) {
    var e, a := NormalizedNumber(expected), NormalizedNumber(actual);
    if e.Some? && a.Some? then D(e.value) == D(a.value)
    else if expected.Text? && !actual.Text? then expected.text == reading.show(actual)
    else SameValue(expected, actual)
  }

  /** The value of a decimal: what Python's `==` compares. */
  function D(d: Decimal): real {
    Decimals.Value(d)
  }

  // ---------------------------------------------------------------------------------------------
  // What a result supports

  function CellNumbers(rows: seq<Row>): set<Decimal> {
    set r, k | 0 <= r < |rows| && k in rows[r] && NormalizedNumber(rows[r][k]).Some? ::
      NormalizedNumber(rows[r][k]).value
  }

  function TextNumbers(reading: Reading, rows: seq<Row>): set<Decimal> {
    set r, k, f |
      0 <= r < |rows| && k in rows[r] && rows[r][k].Text? && f in reading.fragments(rows[r][k].text)
      && NormalizedNumber(Text(f)).Some? :: NormalizedNumber(Text(f)).value
  }

  function Supported(reading: Reading, rows: seq<Row>): set<Decimal> {
    CellNumbers(rows) + TextNumbers(reading, rows)
  }

  predicate IsSupported(supported: set<Decimal>, number: Decimal) {
    exists v :: v in supported && D(v) == D(number)
  }

  /** Whether some supported value with more decimals, rounded as written, gives this numeral. */
  predicate IsRoundedForm(supported: set<Decimal>, number: Decimal, places: nat) {
    places > 0 && exists v ::
      v in supported && 0 - v.exponent > places && D(Quantize(v, places)) == D(number)
  }

  function IntegerOf(number: Decimal): Option<int> {
    if number.exponent >= 0 then Some(Signed(number) * Ten(number.exponent)) else None
  }

  /** The text before a numeral, as far as it is looked at. */
  function Left(answer: string, span: Span): (left: string)
    requires span.start <= span.end <= |answer|
    ensures |left| == (if span.start <= 80 then span.start else 80) && left == answer[span.start - |left|..span.start]
  {
    answer[(if span.start < 80 then 0 else span.start - 80)..span.start]
  }

  /** And the text behind it. */
  function Right(answer: string, span: Span): (right: string)
    requires span.start <= span.end <= |answer|
    ensures |right| == (if |answer| - span.end <= 40 then |answer| - span.end else 40)
    ensures right == answer[span.end..span.end + |right|]
  {
    answer[span.end..if span.end + 40 < |answer| then span.end + 40 else |answer|]
  }

  /** A row count in count wording, or a rank within the rows in rank wording. */
  predicate IsStructural(reading: Reading, number: Decimal, answer: string, span: Span, rowCount: nat)
    requires span.start <= span.end <= |answer|
  {
    var n := IntegerOf(number);
    && n.Some?
    && var left, right := Left(answer, span), Right(answer, span);
       || (n.value == rowCount && reading.countWording(left, right))
       || (1 <= n.value <= rowCount && reading.rankWording(left, right))
  }

  function Raw(answer: string, span: Span): string
    requires span.start <= span.end <= |answer|
  {
    answer[span.start..span.end]
  }

  predicate NumeralAccepted(reading: Reading, answer: string, span: Span, supported: set<Decimal>, rowCount: nat)
    requires span.start <= span.end <= |answer|
  {
    var raw := Raw(answer, span);
    var number := NormalizedNumber(Text(raw));
    || number.None?
    || IsSupported(supported, number.value)
    || IsRoundedForm(supported, number.value, |FractionOf(raw)|)
    || IsStructural(reading, number.value, answer, span, rowCount)
  }

  // ---------------------------------------------------------------------------------------------
  // Validation

  function EvidenceError(reading: Reading, rows: seq<Row>, e: Evidence): (r: Option<GroundingError>)
    ensures r != Some(ClaimsOnEmptyResult) && r != Some(MissingClaims) && r != Some(UnsupportedNumericClaim)
    ensures r == Some(EvidenceRowOutOfRange) <==> e.rowIndex >= |rows|
    ensures r == Some(EvidenceFieldMissing) <==> e.rowIndex < |rows| && e.field !in rows[e.rowIndex]
  {
    if e.rowIndex >= |rows| then Some(EvidenceRowOutOfRange)
    else if e.field !in rows[e.rowIndex] then Some(EvidenceFieldMissing)
    else if !ValuesEqual(reading, e.value, rows[e.rowIndex][e.field]) then Some(EvidenceValueMismatch)
    else None
  }

  ghost predicate EvidenceHolds(reading: Reading, claims: seq<Claim>, rows: seq<Row>) {
    forall c, e :: 0 <= c < |claims| && 0 <= e < |claims[c]| ==> EvidenceError(reading, rows, claims[c][e]).None?
  }

  ghost predicate ProseHolds(reading: Reading, answer: string, rows: seq<Row>)
    requires SpansWithin(reading, answer)
  {
    var spans := reading.proseNumerals(answer);
    forall i :: 0 <= i < |spans| ==>
      NumeralAccepted(reading, answer, spans[i], Supported(reading, rows), |rows|)
  }

  /** What is wrong with citation `e` of claim `c`, every citation before it being borne out. */
  ghost predicate FirstBad(reading: Reading, claims: seq<Claim>, rows: seq<Row>, c: int, e: int, error: GroundingError) {
    && 0 <= c < |claims| && 0 <= e < |claims[c]|
    && EvidenceError(reading, rows, claims[c][e]) == Some(error)
    && (forall i, j :: 0 <= i < c && 0 <= j < |claims[i]| ==> EvidenceError(reading, rows, claims[i][j]).None?)
    && forall j :: 0 <= j < e ==> EvidenceError(reading, rows, claims[c][j]).None?
  }

  /** What is wrong with the first citation the result does not bear out, if there is one. */
  method CheckEvidence(reading: Reading, claims: seq<Claim>, rows: seq<Row>) returns (bad: Option<GroundingError>)
    ensures bad.None? <==> EvidenceHolds(reading, claims, rows)
    ensures bad.Some? ==> exists c, e :: FirstBad(reading, claims, rows, c, e, bad.value)
  {
    hide EvidenceError;
    for c := 0 to |claims|
      invariant forall i, e :: 0 <= i < c && 0 <= e < |claims[i]| ==>
        EvidenceError(reading, rows, claims[i][e]).None?
    {
      for e := 0 to |claims[c]|
        invariant forall j :: 0 <= j < e ==> EvidenceError(reading, rows, claims[c][j]).None?
      {
        bad := EvidenceError(reading, rows, claims[c][e]);
        if bad.Some? {
          assert FirstBad(reading, claims, rows, c, e, bad.value);
          return;
        }
      }
    }
    bad := None;
  }

  /** Whether every numeral of the prose is accepted. */
  method CheckProse(reading: Reading, answer: string, rows: seq<Row>) returns (accepted: bool)
    requires SpansWithin(reading, answer)
    ensures accepted <==> ProseHolds(reading, answer, rows)
  {
    hide NumeralAccepted, Supported;
    var supported := Supported(reading, rows);
    var spans := reading.proseNumerals(answer);
    for i := 0 to |spans|
      invariant forall j :: 0 <= j < i ==> NumeralAccepted(reading, answer, spans[j], supported, |rows|)
    {
      if !NumeralAccepted(reading, answer, spans[i], supported, |rows|) {
        return false;
      }
    }
    return true;
  }

  /** Accepted exactly when claims and rows go together, all evidence holds, and all prose numerals do. */
  method Validate(reading: Reading, answer: string, claims: seq<Claim>, rows: seq<Row>)
    returns (r: Result<seq<Claim>, GroundingError>)
    requires SpansWithin(reading, answer)
    ensures r.Ok? <==>
      && (rows == [] <==> claims == [])
      && EvidenceHolds(reading, claims, rows)
      && ProseHolds(reading, answer, rows)
    ensures r.Ok? ==> r.value == claims
    ensures r == Err(ClaimsOnEmptyResult) <==> rows == [] && claims != []
    ensures r == Err(MissingClaims) <==> rows != [] && claims == []
    ensures r.Err? && (rows == [] <==> claims == []) ==>
      if EvidenceHolds(reading, claims, rows) then r.error == UnsupportedNumericClaim
      else exists c, e :: FirstBad(reading, claims, rows, c, e, r.error)
  {
    hide EvidenceHolds, ProseHolds;
    if rows == [] && claims != [] {
      return Err(ClaimsOnEmptyResult);
    }
    if rows != [] && claims == [] {
      return Err(MissingClaims);
    }
    var bad := CheckEvidence(reading, claims, rows);
    if bad.Some? {
      return Err(bad.value);
    }
    var accepted := CheckProse(reading, answer, rows);
    return if accepted then Ok(claims) else Err(UnsupportedNumericClaim);
  }

  // ---------------------------------------------------------------------------------------------
  // What acceptance means

  /** Where a number of the result comes from. */
  ghost predicate ComesFromResult(reading: Reading, rows: seq<Row>, v: Decimal) {
    exists r, k :: 0 <= r < |rows| && k in rows[r] &&
      (|| NormalizedNumber(rows[r][k]) == Some(v)
       || (rows[r][k].Text? && exists f ::
             f in reading.fragments(rows[r][k].text) && NormalizedNumber(Text(f)) == Some(v)))
  }

  lemma {:induction false} SupportedComesFromResult(reading: Reading, rows: seq<Row>, v: Decimal)
    ensures v in Supported(reading, rows) <==> ComesFromResult(reading, rows, v)
  {
    hide NormalizedNumber;
    if v in CellNumbers(rows) {
      var r, k :| 0 <= r < |rows| && k in rows[r] && NormalizedNumber(rows[r][k]) == Some(v);
    } else if v in TextNumbers(reading, rows) {
      var r, k, f :| 0 <= r < |rows| && k in rows[r] && rows[r][k].Text?
        && f in reading.fragments(rows[r][k].text) && NormalizedNumber(Text(f)) == Some(v);
    }
  }

  predicate IsInteger(x: real, n: int) {
    x == n as real
  }

  /** A numeral as the scan of the prose finds it: digits with separators, perhaps negative, perhaps with decimals. */
  predicate ProseShape(raw: string) {
    && raw != ""
    && var body := if raw[0] == '-' then raw[1..] else raw;
       body != "" && IsDigit(body[0]) && NumeralShape(body)
  }

  ghost predicate ScansNumerals(reading: Reading, answer: string)
    requires SpansWithin(reading, answer)
  {
    forall i :: 0 <= i < |reading.proseNumerals(answer)| ==> ProseShape(Raw(answer, reading.proseNumerals(answer)[i]))
  }

  /** The amount `x`, with `places` decimals, is the rounding half up of `v`, which has more of them. */
  ghost predicate RoundsTo(v: Decimal, x: real, places: nat) {
    && 0 - v.exponent > places
    && (x == 0.0 || v.negative == (x < 0.0))
    && Abs(x) - Unit(places) / 2.0 <= Abs(D(v)) < Abs(x) + Unit(places) / 2.0
  }

  lemma {:induction false} RoundsToAmount(v: Decimal, written: Decimal, places: nat)
    ensures RoundsToDecimal(v, written, places) <==> RoundsTo(v, D(written), places)
  {
    Magnitude(written);
    SameSide(written);
    if written.coefficient == 0 {
      ZeroValue(written);
    } else {
      var c, x := written.coefficient as real, Pow10(written.exponent);
      hide Pow10, Unit;
      assert c * x > 0.0;
    }
    hide Decimals.Value, Unit;
  }

  ghost predicate RoundsToDecimal(v: Decimal, written: Decimal, places: nat) {
    && 0 - v.exponent > places
    && (written.coefficient == 0 || v.negative == written.negative)
    && HoldsNearest(written, v, places)
  }

  /** What may stand in an accepted answer, as an amount and in its wording; nothing else is let through. */
  ghost predicate Grounded(reading: Reading, answer: string, span: Span, rows: seq<Row>, p: Spelling)
    requires span.start <= span.end <= |answer| && IsSpelling(p)
  {
    var x, places := Amount(p), |p.fraction|;
    var left, right := Left(answer, span), Right(answer, span);
    || (exists v :: ComesFromResult(reading, rows, v) && D(v) == x)
    || (places > 0 && exists v :: ComesFromResult(reading, rows, v) && RoundsTo(v, x, places))
    || (IsInteger(x, |rows|) && reading.countWording(left, right))
    || ((exists rank :: 1 <= rank <= |rows| && IsInteger(x, rank)) && reading.rankWording(left, right))
  }

  lemma {:induction false} IntegerValue(d: Decimal)
    requires d.exponent >= 0
    ensures D(d) == (Signed(d) * Ten(d.exponent)) as real
  {
    Pow10Add(0, d.exponent);
    assert Pow10(0) == 1.0;
    hide Pow10, Ten, Signed;
    ScaledReal(Signed(d), Ten(d.exponent), 1.0);
  }

  /** A normalized number has an integral value exactly when its exponent says so. */
  lemma {:induction false} IntegerOfExactly(number: Decimal, n: int)
    requires IsNormal(number)
    ensures IsInteger(D(number), n) <==> IntegerOf(number) == Some(n)
  {
    if number.exponent >= 0 {
      IntegerValue(number);
    } else {
      NormalDecimalsAreNeeded(number, 0, n);
      assert Pow10(0) == 1.0 && Unit(0) == 1.0;
      hide Pow10, IsNormal, Decimals.Value;
      assert n as real * Unit(0) == n as real;
    }
  }

  lemma {:induction false} StructuralExactly(
    reading: Reading, number: Decimal, answer: string, span: Span, rowCount: nat)
    requires span.start <= span.end <= |answer| && IsNormal(number)
    ensures IsStructural(reading, number, answer, span, rowCount) <==>
      var left, right := Left(answer, span), Right(answer, span);
      || (IsInteger(D(number), rowCount) && reading.countWording(left, right))
      || ((exists rank :: 1 <= rank <= rowCount && IsInteger(D(number), rank)) && reading.rankWording(left, right))
  {
    hide IsInteger, IsNormal, D, IntegerOf;
    IntegerOfExactly(number, rowCount);
    var n := IntegerOf(number);
    if n.Some? {
      IntegerOfExactly(number, n.value);
    }
    forall rank: int ensures IsInteger(D(number), rank) <==> n == Some(rank) {
      IntegerOfExactly(number, rank);
    }
  }

  lemma {:induction false} FractionShown(raw: string, p: Spelling)
    requires IsSpelled(raw, "", p, "")
    ensures FractionOf(raw) == p.fraction
  {
    SpelledIs(raw, "", p, "");
    NoPointBefore(p);
    BodyShown(p);
    hide *;
    FractionBehind(p.sign + p.currency + p.whole, p.fraction);
    assert raw == p.sign + p.currency + Body(p);
  }

  lemma {:induction false} BodyShown(p: Spelling)
    ensures p.sign + p.currency + Body(p)
         == p.sign + p.currency + p.whole + if p.fraction == "" then "" else ['.'] + p.fraction
  {
  }

  lemma {:induction false} NoPointBefore(p: Spelling)
    requires IsSpelling(p)
    ensures '.' !in p.sign + p.currency + p.whole
  {
    assert '.' !in p.sign && '.' !in p.currency && '.' !in p.whole;
  }

  lemma {:induction false} FractionBehind(head: string, fraction: string)
    requires '.' !in head
    ensures FractionOf(head + if fraction == "" then "" else ['.'] + fraction) == fraction
  {
    FindFirst(head, '.', fraction);
    hide Find;
    if fraction != "" {
      var raw := head + ['.'] + fraction;
      assert head + (['.'] + fraction) == raw;
      assert raw[|head| + 1..] == fraction;
    } else {
      assert head + "" == head;
    }
  }

  /** A numeral is let through exactly when its amount is grounded. */
  lemma {:induction false} NumeralAcceptedExactly(reading: Reading, answer: string, span: Span, rows: seq<Row>, p: Spelling)
    requires span.start <= span.end <= |answer| && IsSpelled(Raw(answer, span), "", p, "")
    ensures NumeralAccepted(reading, answer, span, Supported(reading, rows), |rows|)
       <==> Grounded(reading, answer, span, rows, p)
  {
    var raw := Raw(answer, span);
    SpelledReads(raw, "", p, "");
    FractionShown(raw, p);
    var written, places := ParseNumber(raw).value, |p.fraction|;
    var number, supported := Normalize(written), Supported(reading, rows);
    assert NormalizedNumber(Text(raw)) == Some(number);
    NormalizeKeepsValue(written);
    StructuralExactly(reading, number, answer, span, |rows|);
    RoundedExactly(reading, rows, number, places, written);
    SupportedExactly(reading, rows, number);
    hide Supported, NormalizedNumber, FractionOf, ParseNumber, ComesFromResult, RoundsTo, IsStructural, IsRoundedForm,
      IsSupported, Decimals.Value, Normalize, Raw, Left, Right, IsInteger, IsSpelled, Amount, IsSpelling;
  }

  lemma {:induction false} SupportedExactly(reading: Reading, rows: seq<Row>, number: Decimal)
    ensures IsSupported(Supported(reading, rows), number)
       <==> exists v :: ComesFromResult(reading, rows, v) && D(v) == D(number)
  {
    hide Supported, ComesFromResult, D;
    forall v ensures v in Supported(reading, rows) <==> ComesFromResult(reading, rows, v) {
      SupportedComesFromResult(reading, rows, v);
    }
  }

  lemma {:induction false} RoundedExactly(
    reading: Reading, rows: seq<Row>, number: Decimal, places: nat, written: Decimal)
    requires written.exponent == 0 - places && number == Normalize(written)
    ensures IsRoundedForm(Supported(reading, rows), number, places) <==>
      places > 0 && exists v :: ComesFromResult(reading, rows, v) && RoundsTo(v, D(written), places)
  {
    hide Supported, ComesFromResult, RoundsTo, IsRoundedForm, Normalize;
    if places > 0 {
      RoundingAcceptedExactly(Supported(reading, rows), number, places, written);
    } else {
      NoPlacesNoRounding(Supported(reading, rows), number);
    }
    forall v ensures v in Supported(reading, rows) <==> ComesFromResult(reading, rows, v) {
      SupportedComesFromResult(reading, rows, v);
    }
  }

  lemma {:induction false} NoPlacesNoRounding(supported: set<Decimal>, number: Decimal)
    ensures !IsRoundedForm(supported, number, 0)
  {
  }

  /** A figure let through as a rounding is within half a unit of its last written place. */
  lemma {:induction false} RoundedWithinHalf(v: Decimal, x: real, places: nat)
    requires RoundsTo(v, x, places)
    ensures Abs(x - D(v)) <= Unit(places) / 2.0
  {
    SameSide(v);
    hide Decimals.Value, Unit;
  }

  /**
   * The bound on an accepted answer, in both directions. Every cited value is the result's own, and
   * every numeral of the prose is a number of the result, a rounding of one with more decimals to
   * the places written, the row count in count wording, or a rank among the rows in rank wording.
   */
  lemma {:induction false} AcceptedAnswerIsGrounded(reading: Reading, answer: string, claims: seq<Claim>, rows: seq<Row>)
    requires SpansWithin(reading, answer) && ScansNumerals(reading, answer)
    ensures EvidenceHolds(reading, claims, rows) <==>
      forall c, e :: 0 <= c < |claims| && 0 <= e < |claims[c]| ==> Cites(reading, rows, claims[c][e])
    ensures ProseHolds(reading, answer, rows) <==>
      forall i :: 0 <= i < |reading.proseNumerals(answer)| ==>
        GroundedAt(reading, answer, reading.proseNumerals(answer)[i], rows)
  {
    forall c, e | 0 <= c < |claims| && 0 <= e < |claims[c]|
      ensures EvidenceError(reading, rows, claims[c][e]).None? <==> Cites(reading, rows, claims[c][e])
    {
    }
    var spans := reading.proseNumerals(answer);
    hide NumeralAccepted, IsSpelled, Grounded, ValuesEqual, Supported, ProseShape, EvidenceError, Cites;
    forall i | 0 <= i < |spans|
      ensures NumeralAccepted(reading, answer, spans[i], Supported(reading, rows), |rows|)
         <==> GroundedAt(reading, answer, spans[i], rows)
    {
      var p := ProseSpelling(Raw(answer, spans[i]));
      forall q | IsSpelled(Raw(answer, spans[i]), "", q, "")
        ensures NumeralAccepted(reading, answer, spans[i], Supported(reading, rows), |rows|)
           <==> Grounded(reading, answer, spans[i], rows, q)
      {
        NumeralAcceptedExactly(reading, answer, spans[i], rows, q);
      }
    }
  }

  predicate Cites(reading: Reading, rows: seq<Row>, cited: Evidence) {
    && cited.rowIndex < |rows| && cited.field in rows[cited.rowIndex]
    && ValuesEqual(reading, cited.value, rows[cited.rowIndex][cited.field])
  }

  ghost predicate GroundedAt(reading: Reading, answer: string, span: Span, rows: seq<Row>)
    requires span.start <= span.end <= |answer|
  {
    exists p :: IsSpelled(Raw(answer, span), "", p, "") && Grounded(reading, answer, span, rows, p)
  }

  /** The value is this amount: a number of that value, or a text that is one written out. */
  ghost predicate IsAmount(v: Value, x: real) {
    || (v.Num? && D(v.number) == x)
    || (v.Text? && exists before, p, after :: IsSpelled(v.text, before, p, after) && Amount(p) == x)
  }

  /** What counts as a number is exactly what is one or is written as one, and it counts as its amount. */
  lemma {:induction false} NumberExactly(v: Value)
    ensures NormalizedNumber(v).Some? <==> exists x :: IsAmount(v, x)
    ensures forall x :: IsAmount(v, x) ==> NormalizedNumber(v).Some? && D(NormalizedNumber(v).value) == x
    ensures NormalizedNumber(v).Some? ==> IsNormal(NormalizedNumber(v).value)
  {
    match v
    case Num(d) =>
      NormalizeKeepsValue(d);
      assert IsAmount(v, D(d));
    case Text(t) =>
      if ParseNumber(t).Some? {
        NormalizeKeepsValue(ParseNumber(t).value);
        var before, p, after := OnlySpelledReads(t);
        hide IsSpelled, ParseNumber, D, Amount, Normalize, IsNormal;
        assert IsAmount(v, Amount(p));
      }
      forall before, p, after | IsSpelled(t, before, p, after)
        ensures ParseNumber(t).Some? && D(ParseNumber(t).value) == Amount(p)
      {
        SpelledReads(t, before, p, after);
      }
      hide ParseNumber, IsSpelled, D, Amount, Normalize, IsNormal;
    case _ =>
  }

  /** Cited numbers are compared by amount, however either is written. */
  lemma {:induction false} NumbersCompareByValue(reading: Reading, e: Value, a: Value, x: real, y: real)
    requires IsAmount(e, x) && IsAmount(a, y)
    ensures ValuesEqual(reading, e, a) <==> x == y
  {
    NumberExactly(e);
    NumberExactly(a);
    hide IsAmount, NormalizedNumber, D;
  }

  ghost predicate NoAmount(v: Value) {
    forall x :: !IsAmount(v, x)
  }

  /**
   * Any other citation is compared as it is: a text with a text, or with what any other value is shown
   * as; nothing with nothing; a truth value with itself, or with one or zero.
   */
  lemma {:induction false} OthersCompareAsTheyAre(reading: Reading, e: Value, a: Value)
    requires NoAmount(e) || NoAmount(a)
    ensures e.Text? && a.Text? ==> (ValuesEqual(reading, e, a) <==> e.text == a.text)
    ensures e.Text? && !a.Text? ==> (ValuesEqual(reading, e, a) <==> e.text == reading.show(a))
    ensures !e.Text? && a.Text? ==> !ValuesEqual(reading, e, a)
    ensures e.Null? && !a.Text? ==> (ValuesEqual(reading, e, a) <==> a.Null?)
    ensures e.Bool? && a.Bool? ==> (ValuesEqual(reading, e, a) <==> e.b == a.b)
    ensures e.Bool? && a.Num? ==> (ValuesEqual(reading, e, a) <==> D(a.number) == if e.b then 1.0 else 0.0)
    ensures e.Num? && a.Bool? ==> (ValuesEqual(reading, e, a) <==> D(e.number) == if a.b then 1.0 else 0.0)
    ensures (e.Bool? || e.Num?) && a.Null? ==> !ValuesEqual(reading, e, a)
  {
    NumberExactly(e);
    NumberExactly(a);
    if e.Num? {
      assert IsAmount(e, D(e.number));
    }
    if a.Num? {
      assert IsAmount(a, D(a.number));
    }
    hide IsAmount, D, Normalize, ParseNumber;
  }

  // ---------------------------------------------------------------------------------------------
  // Rounding, exactly

  lemma {:induction false} FindPastFirst(s: string, c: char)
    requires s != "" && s[0] != c
    ensures Find(s, c) == 1 + Find(s[1..], c)
  {
  }

  lemma {:induction false} KeepsFirstDigit(s: string)
    requires s != "" && IsDigit(s[0])
    ensures WithoutCommas(s) != ""
  {
  }

  lemma {:induction false} BodyOf(raw: string)
    requires ProseShape(raw)
    ensures var body := if raw[0] == '-' then raw[1..] else raw;
      && body != "" && IsDigit(body[0]) && NumeralShape(body)
      && Plain(Unsigned(raw)) == body && FractionOf(raw) == FractionOf(body)
      && !IsSpace(raw[0]) && raw[|raw| - 1] == body[|body| - 1]
  {
    hide NumeralShape, Find;
    if raw[0] == '-' {
      FindPastFirst(raw, '.');
    }
  }

  /** A scanned numeral is always a written number. */
  lemma {:induction false} ProseSpelling(raw: string) returns (p: Spelling)
    requires ProseShape(raw)
    ensures IsSpelled(raw, "", p, "")
  {
    BodyOf(raw);
    var body := if raw[0] == '-' then raw[1..] else raw;
    WholeStartsWithDigit(body);
    KeepsFirstDigit(WholeOf(body));
    hide *;
    p := SpellingOf(raw);
    SpelledAlone(raw, p);
  }

  lemma {:induction false} SpelledAlone(raw: string, p: Spelling)
    requires IsSpelling(p) && raw == p.sign + p.currency + Body(p)
    ensures IsSpelled(raw, "", p, "")
  {
    hide IsSpelling, Body;
    assert raw == "" + raw + "";
  }

  lemma {:induction false} WholeStartsWithDigit(body: string)
    requires body != "" && IsDigit(body[0])
    ensures WholeOf(body) != "" && IsDigit(WholeOf(body)[0])
  {
  }

  /**
   * A numeral written with decimals is let through as a rounding exactly when some number of the
   * result with more decimals rounds to it half up: within its half-open interval, and of its sign
   * unless it is a zero.
   */
  lemma {:induction false} RoundingAcceptedExactly(supported: set<Decimal>, number: Decimal, places: nat, written: Decimal)
    requires places > 0 && written.exponent == 0 - places && number == Normalize(written)
    ensures IsRoundedForm(supported, number, places) <==> exists v :: v in supported && RoundsTo(v, D(written), places)
  {
    NormalizeKeepsValue(written);
    forall v | v in supported && 0 - v.exponent > places
      ensures D(Quantize(v, places)) == D(number) <==> RoundsTo(v, D(written), places)
    {
      RoundsToExactly(v, written, places);
      RoundsToAmount(v, written, places);
    }
    hide Normalize, HoldsNearest, Decimals.Value, Quantize, RoundsToDecimal, D;
  }

  lemma {:induction false} RoundsToExactly(v: Decimal, written: Decimal, places: nat)
    requires written.exponent == 0 - places && 0 - v.exponent > places
    ensures D(Quantize(v, places)) == D(written) <==> RoundsToDecimal(v, written, places)
  {
    var q := Quantize(v, places);
    QuantizeIsNearest(v, places);
    if written.coefficient == 0 {
      ZeroRoundsExactly(v, written, places);
    } else {
      hide HoldsNearest, Quantize;
      if D(q) == D(written) {
        SameUnitsSameDecimal(q, written, places);
      }
      if RoundsToDecimal(v, written, places) {
        NearestIsQuantized(v, places, written);
      }
    }
  }

  lemma {:induction false} ZeroRoundsExactly(v: Decimal, written: Decimal, places: nat)
    requires written.exponent == 0 - places && 0 - v.exponent > places && written.coefficient == 0
    ensures D(Quantize(v, places)) == D(written) <==> RoundsToDecimal(v, written, places)
  {
    var q, zero := Quantize(v, places), Decimal(v.negative, 0, 0 - places);
    QuantizeIsNearest(v, places);
    ZeroValue(written);
    ZeroValue(zero);
    hide Decimals.Value, Quantize, Unit;
    if RoundsToDecimal(v, written, places) {
      NearestIsQuantized(v, places, zero);
    }
  }

  /** Two decimals with the same exponent and value are the same, unless they are zero. */
  lemma {:induction false} SameUnitsSameDecimal(a: Decimal, b: Decimal, places: nat)
    requires a.exponent == b.exponent == 0 - places && D(a) == D(b) && b.coefficient > 0
    ensures a == b
  {
    var x := Pow10(0 - places);
    hide Pow10;
    Distribute(Signed(a) as real, Signed(b) as real, x);
    var gap := Signed(a) as real - Signed(b) as real;
    assert gap * x == 0.0;
    if gap > 0.0 {
      ScaleStrictOrder(0.0, gap, x);
    } else if gap < 0.0 {
      ScaleStrictOrder(gap, 0.0, x);
    }
    assert Signed(a) == Signed(b);
  }
}
