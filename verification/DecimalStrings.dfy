/** Decimal amounts as strings: parsing to raw units, printing raw units, and scaling. */
module DecimalStrings {
  import opened Arithmetic
  import opened Outcomes

  datatype AmountError = InvalidDecimal | TooManyFractionDigits | NotAnInteger

  // ---------------------------------------------------------------- digits

  predicate Digit(c: char) { '0' <= c <= '9' }

  predicate AllDigits(s: string) { forall c :: c in s ==> Digit(c) }

  function DigitValue(c: char): nat
    requires Digit(c)
  {
    c as nat - '0' as nat
  }

  function Val(s: string): nat
    requires AllDigits(s)
  {
    if s == "" then 0 else
      assert forall c :: c in s[..|s| - 1] ==> c in s;
      10 * Val(s[..|s| - 1]) + DigitValue(s[|s| - 1])
  }

  function DigitChar(d: nat): (c: char)
    requires d < 10
    ensures Digit(c) && DigitValue(c) == d
  {
    ('0' as nat + d) as char
  }

  lemma DigitCharOf(c: char)
    requires Digit(c)
    ensures DigitChar(DigitValue(c)) == c
  {
  }

  function Print(n: nat): (s: string)
    ensures s != "" && AllDigits(s)
  {
    if n < 10 then [DigitChar(n)] else Print(n / 10) + [DigitChar(n % 10)]
  }

  function Zeros(n: nat): (s: string)
    ensures |s| == n && forall c :: c in s ==> c == '0'
  {
    seq(n, i => '0')
  }

  lemma {:induction false} PrintVal(n: nat)
    ensures Val(Print(n)) == n
  {
    if n < 10 {
      assert Print(n)[..0] == "";
    } else {
      PrintVal(n / 10);
      assert Print(n)[..|Print(n)| - 1] == Print(n / 10);
    }
  }

  lemma DigitsOf(s: string, t: string)
    ensures AllDigits(s + t) <==> AllDigits(s) && AllDigits(t)
  {
    if AllDigits(s + t) {
      forall c | c in s ensures Digit(c) { assert c in s + t; }
      forall c | c in t ensures Digit(c) { assert c in s + t; }
    }
  }

  lemma {:induction false} ValAppend(s: string, t: string)
    requires AllDigits(s) && AllDigits(t)
    ensures AllDigits(s + t) && Val(s + t) == Val(s) * Pow10(|t|) + Val(t)
  {
    hide Val, AllDigits, Pow10;
    DigitsOf(s, t);
    if t == "" {
      assert s + t == s;
      NoDigits(t);
    } else {
      var init, c := t[..|t| - 1], t[|t| - 1];
      assert t == init + [c];
      DigitsOf(init, [c]);
      ValAppend(s, init);
      ValSnoc(t);
      ValSnoc(s + t);
      assert (s + t)[..|s + t| - 1] == s + init;
      TenTimes(Val(s), |init|);
    }
  }

  lemma NoDigits(none: string)
    requires none == ""
    ensures AllDigits(none) && Val(none) == 0 && Pow10(|none|) == 1
  {
  }

  lemma ValSnoc(s: string)
    requires s != "" && AllDigits(s)
    ensures AllDigits(s[..|s| - 1]) && Digit(s[|s| - 1]) && Val(s) == 10 * Val(s[..|s| - 1]) + DigitValue(s[|s| - 1])
  {
    assert forall c :: c in s[..|s| - 1] ==> c in s;
  }

  lemma TenTimes(n: nat, places: nat)
    ensures 10 * (n * Pow10(places)) == n * Pow10(places + 1)
  {
    hide Pow10;
    assert Pow10(places + 1) == 10 * Pow10(places) by { PowStep(places); }
  }

  lemma PowStep(places: nat)
    ensures Pow10(places + 1) == 10 * Pow10(places)
  {
  }

  lemma {:induction false} ValZeros(n: nat)
    ensures AllDigits(Zeros(n)) && Val(Zeros(n)) == 0
  {
    if n > 0 {
      assert Zeros(n)[..n - 1] == Zeros(n - 1);
      ValZeros(n - 1);
    }
  }

  // ---------------------------------------------------------------- canonical digits

  /** Removes leading zeros as long as another digit follows. */
  function StripLeadingZeros(s: string): string {
    if |s| >= 2 && s[0] == '0' && Digit(s[1]) then StripLeadingZeros(s[1..]) else s
  }

  function StripTrailingZeros(s: string): string {
    if s != "" && s[|s| - 1] == '0' then StripTrailingZeros(s[..|s| - 1]) else s
  }

  predicate Canonical(s: string) {
    s != "" && AllDigits(s) && (|s| == 1 || s[0] != '0')
  }

  lemma {:induction false} NonzeroHead(s: string)
    requires s != "" && AllDigits(s) && s[0] != '0'
    ensures Val(s) > 0
  {
    assert s[0] in s && DigitValue(s[0]) > 0;
    if |s| == 1 {
      assert Val(s[..0]) == 0;
    } else {
      assert forall c :: c in s[..|s| - 1] ==> c in s;
      NonzeroHead(s[..|s| - 1]);
    }
  }

  /** A number has only one spelling without leading zeros. */
  lemma {:induction false} CanonicalIsPrinted(s: string)
    requires Canonical(s)
    ensures s == Print(Val(s))
  {
    var init, c := s[..|s| - 1], s[|s| - 1];
    assert s == init + [c];
    assert c in s;
    DigitCharOf(c);
    if |s| == 1 {
      assert Val(init) == 0;
    } else {
      assert forall c :: c in init ==> c in s;
      NonzeroHead(init);
      CanonicalIsPrinted(init);
      assert Val(s) / 10 == Val(init) && Val(s) % 10 == DigitValue(c);
    }
  }

  lemma {:induction false} StripLeadingIsPrinted(s: string)
    requires s != "" && AllDigits(s)
    ensures StripLeadingZeros(s) == Print(Val(s))
  {
    if |s| >= 2 && s[0] == '0' {
      assert s[1] in s;
      assert s == "0" + s[1..];
      DigitsOf("0", s[1..]);
      ValAppend("0", s[1..]);
      assert Val("0") == 0 by { assert "0"[..0] == ""; }
      StripLeadingIsPrinted(s[1..]);
    } else {
      CanonicalIsPrinted(s);
    }
  }

  lemma {:induction false} StripTrailingRestores(s: string)
    ensures |StripTrailingZeros(s)| <= |s|
    ensures s == StripTrailingZeros(s) + Zeros(|s| - |StripTrailingZeros(s)|)
    ensures StripTrailingZeros(s) != "" ==> StripTrailingZeros(s)[|StripTrailingZeros(s)| - 1] != '0'
  {
    if s != "" && s[|s| - 1] == '0' {
      StripTrailingRestores(s[..|s| - 1]);
      var k := |s| - |StripTrailingZeros(s)|;
      assert Zeros(k) == Zeros(k - 1) + "0";
      assert s == s[..|s| - 1] + "0";
    } else {
      assert Zeros(0) == "";
    }
  }

  // ---------------------------------------------------------------- parsing

  /** What `trim` removes. */
  predicate Space(c: char) {
    c in {' ', '\t', '\n', '\r', '\U{000B}', '\U{000C}', '\U{00A0}', '\U{FEFF}', '\U{1680}',
          '\U{2000}', '\U{2001}', '\U{2002}', '\U{2003}', '\U{2004}', '\U{2005}', '\U{2006}', '\U{2007}', '\U{2008}',
          '\U{2009}', '\U{200A}', '\U{2028}', '\U{2029}', '\U{202F}', '\U{205F}', '\U{3000}'}
  }

  /** By code point: tab to carriage return, blank, no-break space, the space separators, the line and
      paragraph separators, and the byte order mark. */
  lemma SpaceMeans(c: char)
    ensures
      var code := c as int;
      Space(c) <==> 9 <= code <= 13 || code in {0x20, 0xA0, 0x1680, 0x202F, 0x205F, 0x3000, 0xFEFF} || 0x2000 <= code <= 0x200A || 0x2028 <= code <= 0x2029
  {
  }

  function TrimLeft(s: string): string {
    if s != "" && Space(s[0]) then TrimLeft(s[1..]) else s
  }

  function TrimRight(s: string): string {
    if s != "" && Space(s[|s| - 1]) then TrimRight(s[..|s| - 1]) else s
  }

  function Trim(s: string): string { TrimRight(TrimLeft(s)) }

  /** The part before the first dot. */
  function BeforeDot(s: string): (w: string)
    ensures w <= s && '.' !in w
    ensures w == s || s[|w|] == '.'
  {
    if s == "" || s[0] == '.' then "" else [s[0]] + BeforeDot(s[1..])
  }

  /** The first two parts of a split at dots; the second is empty if there is no dot. */
  function Whole(s: string): string { BeforeDot(s) }

  function Fraction(s: string): string {
    if '.' in s then BeforeDot(s[|BeforeDot(s)| + 1..]) else ""
  }

  /** One or more digits, then perhaps a dot and one or more digits. */
  predicate DecimalShape(s: string) {
    var whole := BeforeDot(s);
    && whole != "" && AllDigits(whole)
    && (whole != s ==> s[|whole| + 1..] != "" && AllDigits(s[|whole| + 1..]))
  }

  function PadEnd(s: string, width: nat): string {
    if |s| >= width then s else s + Zeros(width - |s|)
  }

  function PadStart(s: string, width: nat): string {
    if |s| >= width then s else Zeros(width - |s|) + s
  }

  function DecimalAmountToRaw(amount: string, decimals: nat): Result<string, AmountError> {
    var normalized := Trim(amount);
    if !DecimalShape(normalized) then Err(InvalidDecimal)
    else
      var whole, fraction := Whole(normalized), Fraction(normalized);
      if |fraction| > decimals then Err(TooManyFractionDigits)
      else
        var raw := StripLeadingZeros(whole + PadEnd(fraction, decimals));
        Ok(if raw == "" then "0" else raw)
  }

  /** A string of digits, with or without a fraction. */
  function Spelled(whole: string, fraction: string): string {
    if fraction == "" then whole else whole + "." + fraction
  }

  lemma {:induction false} BeforeDotOf(whole: string, rest: string)
    requires '.' !in whole
    ensures BeforeDot(whole) == whole && BeforeDot(whole + "." + rest) == whole
  {
    hide Space, AllDigits;
    if whole == "" {
      assert "" + "." + rest == "." + rest;
    } else {
      assert forall c :: c in whole[1..] ==> c in whole;
      BeforeDotOf(whole[1..], rest);
      assert (whole + "." + rest)[1..] == whole[1..] + "." + rest;
      assert whole[0] in whole;
      assert whole == [whole[0]] + whole[1..];
    }
  }

  lemma NoDots(s: string)
    requires AllDigits(s)
    ensures '.' !in s && forall c :: c in s ==> !Space(c)
  {
  }

  lemma Respelled(whole: string, fraction: string)
    requires whole != "" && AllDigits(whole) && AllDigits(fraction)
    ensures
      var s := Spelled(whole, fraction);
      && Whole(s) == whole && Fraction(s) == fraction && DecimalShape(s)
      && s[0] in whole && !Space(s[0]) && !Space(s[|s| - 1]) && Trim(s) == s
  {
    NoDots(whole);
    NoDots(fraction);
    BeforeDotOf(whole, fraction);
    BeforeDotOf(fraction, "");
    var s := Spelled(whole, fraction);
    if fraction != "" { assert s[|whole| + 1..] == fraction; }
    assert s[0] == whole[0] && s[|s| - 1] in if fraction == "" then whole else fraction;
  }

  /** Everything the parser accepts is such a spelling, between spaces. */
  lemma ShapeIsSpelled(s: string)
    requires DecimalShape(s)
    ensures
      && Whole(s) != "" && AllDigits(Whole(s)) && AllDigits(Fraction(s)) && s == Spelled(Whole(s), Fraction(s))
      && ('.' in s <==> Fraction(s) != "")
  {
    var whole := BeforeDot(s);
    if whole != s {
      var rest := s[|whole| + 1..];
      assert s == whole + "." + rest;
      NoDots(rest);
      BeforeDotOf(rest, "");
      assert s[|whole|] in s;
    }
  }

  /** Padding a fraction to the token's decimals scales the number the digits say. */
  lemma PaddedFraction(whole: string, fraction: string, decimals: nat)
    requires whole != "" && AllDigits(whole + fraction) && |fraction| <= decimals
    ensures
      var raw := StripLeadingZeros(whole + PadEnd(fraction, decimals));
      raw != "" && raw == Print(Val(whole + fraction) * Pow10(decimals - |fraction|))
  {
    hide StripLeadingZeros, Val, Print, Pow10;
    var zeros := Zeros(decimals - |fraction|);
    assert whole + PadEnd(fraction, decimals) == whole + fraction + zeros;
    ValZeros(decimals - |fraction|);
    ValAppend(whole + fraction, zeros);
    StripLeadingIsPrinted(whole + fraction + zeros);
  }

  /** Parsing reads the digits as a number and scales it to the token's units. */
  lemma ParseMeans(s: string, decimals: nat)
    ensures !DecimalShape(Trim(s)) ==> DecimalAmountToRaw(s, decimals) == Err(InvalidDecimal)
    ensures DecimalShape(Trim(s)) ==>
      var whole, fraction := Whole(Trim(s)), Fraction(Trim(s));
      && AllDigits(whole + fraction)
      && DecimalAmountToRaw(s, decimals) ==
           if |fraction| > decimals then Err(TooManyFractionDigits)
           else Ok(Print(Val(whole + fraction) * Pow10(decimals - |fraction|)))
  {
    hide BeforeDot, Trim, Space, StripLeadingZeros, PadEnd, Val, Print, Pow10, Whole, Fraction, DecimalShape, Spelled;
    if DecimalShape(Trim(s)) {
      var whole, fraction := Whole(Trim(s)), Fraction(Trim(s));
      ShapeIsSpelled(Trim(s));
      DigitsOf(whole, fraction);
      if |fraction| <= decimals { PaddedFraction(whole, fraction, decimals); }
    }
  }

  // ---------------------------------------------------------------- printing

  function RawAmountToDecimal(raw: nat, decimals: nat): string {
    if decimals == 0 then Print(raw)
    else
      var digits := PadStart(Print(raw), decimals + 1);
      var whole := digits[..|digits| - decimals];
      var fraction := StripTrailingZeros(digits[|digits| - decimals..]);
      Spelled(if whole == "" then "0" else whole, fraction)
  }

  lemma PaddedStart(n: nat, width: nat)
    ensures
      var digits := PadStart(Print(n), width);
      AllDigits(digits) && Val(digits) == n && |digits| >= width && digits != ""
  {
    hide Print, Val, AllDigits, PadStart;
    PrintVal(n);
    PaddedDigits(Print(n), width);
  }

  lemma PaddedDigits(digits: string, width: nat)
    requires digits != "" && AllDigits(digits)
    ensures AllDigits(PadStart(digits, width)) && Val(PadStart(digits, width)) == Val(digits)
    ensures |PadStart(digits, width)| >= width && PadStart(digits, width) != ""
  {
    hide Val, AllDigits, Pow10;
    if |digits| < width {
      ValZeros(width - |digits|);
      ValAppend(Zeros(width - |digits|), digits);
    }
  }

  /** Digits with the last `places` read as a fraction, trailing zeros dropped, still say the same number. */
  lemma SplitAndStrip(digits: string, places: nat)
    requires AllDigits(digits) && places < |digits|
    ensures
      var whole, fraction := digits[..|digits| - places], StripTrailingZeros(digits[|digits| - places..]);
      && whole != "" && AllDigits(whole) && AllDigits(fraction) && |fraction| <= places
      && AllDigits(whole + fraction) && Val(digits) == Val(whole + fraction) * Pow10(places - |fraction|)
      && (fraction != "" ==> Val(whole + fraction) > 0)
  {
    var whole, tail := digits[..|digits| - places], digits[|digits| - places..];
    var fraction := StripTrailingZeros(tail);
    assert digits == whole + tail;
    StripTrailingRestores(tail);
    var zeros := Zeros(|tail| - |fraction|);
    assert digits == whole + fraction + zeros;
    DigitsOf(whole + fraction, zeros);
    DigitsOf(whole, fraction);
    ValZeros(|tail| - |fraction|);
    ValAppend(whole + fraction, zeros);
    if fraction != "" {
      assert (whole + fraction)[|whole + fraction| - 1] == fraction[|fraction| - 1];
      NonzeroTail(whole + fraction);
    }
  }

  lemma NonzeroTail(s: string)
    requires s != "" && AllDigits(s) && s[|s| - 1] != '0'
    ensures Val(s) > 0
  {
    assert s[|s| - 1] in s && DigitValue(s[|s| - 1]) > 0;
  }

  /** `s` denotes `n` with `places` decimal places, of which `kept` are left once trailing zeros are
      dropped, and is parsed accordingly. */
  ghost predicate ReadsAs(s: string, n: nat, places: nat, decimals: nat, kept: nat, product: nat) {
    && kept <= places && n == product * Pow10(places - kept) && (kept > 0 ==> product > 0)
    && (kept > decimals ==> DecimalAmountToRaw(s, decimals) == Err(TooManyFractionDigits))
    && (kept <= decimals ==> ParsesTo(s, decimals, product * Pow10(decimals - kept)))
  }

  /** `s` is accepted and denotes `raw` units. */
  predicate ParsesTo(s: string, decimals: nat, raw: int) {
    raw >= 0 && DecimalAmountToRaw(s, decimals) == Ok(Print(raw))
  }

  function Times(a: nat, b: nat): (c: nat)
    ensures c == a * b
  {
    a * b
  }

  /** A digit string split `places` from the end is parsed as the number of units it says. */
  lemma ParseOfSplit(digits: string, places: nat, decimals: nat) returns (kept: nat, product: nat)
    requires AllDigits(digits) && places < |digits|
    ensures
      var whole, fraction := digits[..|digits| - places], StripTrailingZeros(digits[|digits| - places..]);
      ReadsAs(Spelled(whole, fraction), Val(digits), places, decimals, kept, product)
  {
    hide DecimalAmountToRaw, Trim, Whole, Fraction, DecimalShape, Space, Print, Val, AllDigits, StripTrailingZeros, Spelled, Pow10;
    SplitAndStrip(digits, places);
    var whole, fraction := digits[..|digits| - places], StripTrailingZeros(digits[|digits| - places..]);
    Respelled(whole, fraction);
    ParseMeans(Spelled(whole, fraction), decimals);
    kept, product := |fraction|, Val(whole + fraction);
  }

  /** Printing raw units as a decimal and parsing it again gives the raw units back. */
  lemma RoundTrip(raw: nat, decimals: nat)
    ensures DecimalAmountToRaw(RawAmountToDecimal(raw, decimals), decimals) == Ok(Print(raw))
  {
    hide DecimalAmountToRaw, Print, Val, AllDigits, StripTrailingZeros, Spelled, PadStart;
    PrintVal(raw);
    var digits := if decimals == 0 then Print(raw) else PadStart(Print(raw), decimals + 1);
    PaddedStart(raw, decimals + 1);
    var kept, product := ParseOfSplit(digits, decimals, decimals);
    assert product * Pow10(decimals - kept) == raw;
    if decimals == 0 {
      assert digits[..|digits|] == digits && digits[|digits|..] == "";
      SpelledWhole(digits);
    }
  }

  lemma SpelledWhole(digits: string)
    ensures Spelled(digits, StripTrailingZeros("")) == digits
  {
  }

  // ---------------------------------------------------------------- multiplying

  /** The integer a digit string denotes; spaces around it are ignored, nothing at all is 0.
      Other notations are not modelled. */
  function IntegerOf(s: string): Option<nat> {
    if AllDigits(Trim(s)) then Some(Val(Trim(s))) else None
  }

  function MultiplyDecimalString(value: string, multiplier: nat): Result<string, AmountError> {
    var sign := if value != "" && value[0] == '-' then "-" else "";
    var unsigned := if sign != "" then value[1..] else value;
    var whole, fraction := Whole(unsigned), Fraction(unsigned);
    var integer := IntegerOf(whole + fraction);
    if integer.None? then Err(NotAnInteger)
    else
      var digits := PadStart(Print(integer.value * multiplier), |fraction| + 1);
      if |fraction| == 0 then Ok(sign + digits)
      else
        var wholePart := digits[..|digits| - |fraction|];
        var fractionPart := StripTrailingZeros(digits[|digits| - |fraction|..]);
        Ok(sign + Spelled(if wholePart == "" then "0" else wholePart, fractionPart))
  }

  // ---------------------------------------------------------------- spaces

  ghost predicate Spaces(s: string) { forall c :: c in s ==> Space(c) }

  lemma {:induction false} TrimLeftOf(left: string, s: string)
    requires Spaces(left) && (s == "" || !Space(s[0]))
    ensures TrimLeft(left + s) == s
  {
    if left == "" {
      assert left + s == s;
    } else {
      assert left[0] in left && (left + s)[1..] == left[1..] + s;
      assert forall c :: c in left[1..] ==> c in left;
      TrimLeftOf(left[1..], s);
    }
  }

  lemma {:induction false} TrimRightOf(s: string, right: string)
    requires Spaces(right) && (s == "" || !Space(s[|s| - 1]))
    ensures TrimRight(s + right) == s
  {
    if right == "" {
      assert s + right == s;
    } else {
      var init := right[..|right| - 1];
      assert right[|right| - 1] in right && (s + right)[..|s + right| - 1] == s + init;
      assert forall c :: c in init ==> c in right;
      TrimRightOf(s, init);
    }
  }

  lemma TrimOf(left: string, s: string, right: string)
    requires Spaces(left) && Spaces(right) && s != "" && !Space(s[0]) && !Space(s[|s| - 1])
    ensures Trim(left + s + right) == s
  {
    assert left + s + right == left + (s + right);
    TrimLeftOf(left, s + right);
    TrimRightOf(s, right);
  }

  lemma {:induction false} TrimLeftSplits(s: string)
    ensures exists left :: Spaces(left) && s == left + TrimLeft(s)
    ensures TrimLeft(s) == "" || !Space(TrimLeft(s)[0])
  {
    hide Space;
    if s != "" && Space(s[0]) {
      TrimLeftSplits(s[1..]);
      var left :| Spaces(left) && s[1..] == left + TrimLeft(s[1..]);
      assert Spaces([s[0]] + left) && s == [s[0]] + left + TrimLeft(s);
    } else {
      assert Spaces("") && s == "" + TrimLeft(s);
    }
  }

  lemma {:induction false} TrimRightSplits(s: string)
    ensures exists right :: Spaces(right) && s == TrimRight(s) + right
    ensures TrimRight(s) == "" || (!Space(TrimRight(s)[|TrimRight(s)| - 1]) && TrimRight(s)[0] == s[0])
  {
    hide Space;
    if s != "" && Space(s[|s| - 1]) {
      TrimRightSplits(s[..|s| - 1]);
      var right :| Spaces(right) && s[..|s| - 1] == TrimRight(s[..|s| - 1]) + right;
      assert Spaces(right + [s[|s| - 1]]) && s == TrimRight(s) + (right + [s[|s| - 1]]);
    } else {
      assert Spaces("") && s == TrimRight(s) + "";
    }
  }

  /** A string is its trimmed self between spaces. */
  lemma TrimSplits(s: string)
    ensures exists left, right :: Spaces(left) && Spaces(right) && s == left + Trim(s) + right
    ensures Trim(s) != "" ==> !Space(Trim(s)[0]) && !Space(Trim(s)[|Trim(s)| - 1])
  {
    hide Space;
    TrimLeftSplits(s);
    TrimRightSplits(TrimLeft(s));
    var left :| Spaces(left) && s == left + TrimLeft(s);
    var right :| Spaces(right) && TrimLeft(s) == Trim(s) + right;
    assert s == left + Trim(s) + right;
  }

  predicate EndsInSpace(s: string) { s != "" && Space(s[|s| - 1]) }

  // ---------------------------------------------------------------- what multiplying gives

  lemma SpacesHaveNoDot(s: string)
    requires Spaces(s)
    ensures '.' !in s && (s != "" ==> s[0] != '-')
  {
    assert s != "" ==> s[0] in s;
  }

  lemma PartsWithoutFraction(left: string, whole: string, right: string)
    requires '.' !in left && '.' !in whole && '.' !in right
    ensures Whole(left + whole + right) == left + whole + right && Fraction(left + whole + right) == ""
  {
    BeforeDotOf(left + whole + right, "");
  }

  lemma PartsWithFraction(left: string, fraction: string)
    requires '.' !in left && '.' !in fraction
    ensures Whole(left + "." + fraction) == left && Fraction(left + "." + fraction) == fraction
  {
    hide BeforeDot;
    var s := left + "." + fraction;
    BeforeDotOf(left, fraction);
    BeforeDotOf(fraction, "");
    assert s[|left|] == '.' && s[|left| + 1..] == fraction;
  }

  /** The two parts the multiplier sees: the trailing spaces of a fraction stay in it. */
  lemma PartsOfSpaced(left: string, whole: string, fraction: string, right: string)
    requires Spaces(left) && Spaces(right) && whole != "" && AllDigits(whole) && AllDigits(fraction)
    ensures
      var s := left + Spelled(whole, fraction) + right;
      && Whole(s) == (if fraction == "" then left + whole + right else left + whole)
      && Fraction(s) == (if fraction == "" then "" else fraction + right)
      && Whole(s) + Fraction(s) == left + (whole + fraction) + right
  {
    hide Space, Spaces, AllDigits, BeforeDot, Whole, Fraction;
    SpacesHaveNoDot(left);
    SpacesHaveNoDot(right);
    NoDots(whole);
    NoDots(fraction);
    if fraction == "" {
      PartsWithoutFraction(left, whole, right);
      assert left + whole + right + "" == left + (whole + "") + right;
    } else {
      PartsWithFraction(left + whole, fraction + right);
      assert left + Spelled(whole, fraction) + right == (left + whole) + "." + (fraction + right);
      assert (left + whole) + (fraction + right) == left + (whole + fraction) + right;
    }
  }

  /** Multiplication unfolded for an unsigned value with a known integer. */
  lemma MultiplyUnfolds(value: string, multiplier: nat, integer: nat)
    requires value != "" && value[0] != '-' && IntegerOf(Whole(value) + Fraction(value)) == Some(integer)
    ensures
      var places := |Fraction(value)|;
      var printed := PadStart(Print(Times(integer, multiplier)), places + 1);
      && places < |printed|
      && MultiplyDecimalString(value, multiplier) ==
           Ok(Spelled(printed[..|printed| - places], StripTrailingZeros(printed[|printed| - places..])))
  {
    hide Whole, Fraction, IntegerOf, Print, StripTrailingZeros, Spelled;
    var places := |Fraction(value)|;
    var printed := PadStart(Print(Times(integer, multiplier)), places + 1);
    if places == 0 {
      assert printed[..|printed|] == printed && printed[|printed|..] == "";
      SpelledWhole(printed);
      assert "" + printed == printed;
    } else {
      var product := Spelled(printed[..|printed| - places], StripTrailingZeros(printed[|printed| - places..]));
      assert "" + product == product;
    }
  }

  /** Their digits are the number, and there is no sign. */
  lemma IntegerOfSpaced(left: string, whole: string, fraction: string, right: string)
    requires Spaces(left) && Spaces(right) && whole != "" && AllDigits(whole) && AllDigits(fraction)
    ensures AllDigits(whole + fraction)
    ensures IntegerOf(left + (whole + fraction) + right) == Some(Val(whole + fraction))
    ensures (left + Spelled(whole, fraction) + right)[0] != '-'
  {
    hide Space, Val, Trim;
    var digits := whole + fraction;
    DigitsOf(whole, fraction);
    NoDots(digits);
    assert digits[0] in digits && digits[|digits| - 1] in digits;
    TrimOf(left, digits, right);
    SpacesHaveNoDot(left);
    assert whole[0] in whole;
  }

  /** Multiplying an accepted amount and parsing the product: the digits are multiplied exactly, but
      they are read with as many decimal places as the fraction had characters, spaces included. */
  lemma ProductParsed(value: string, multiplier: nat, decimals: nat) returns (places: nat, kept: nat, product: nat)
    requires DecimalShape(Trim(value))
    ensures
      var whole, fraction, r := Whole(Trim(value)), Fraction(Trim(value)), MultiplyDecimalString(value, multiplier);
      && AllDigits(whole + fraction) && r.Ok?
      && places >= |fraction| && (places == |fraction| <==> fraction == "" || !EndsInSpace(value))
      && ReadsAs(r.value, Times(Val(whole + fraction), multiplier), places, decimals, kept, product)
  {
    hide DecimalAmountToRaw, DecimalShape, Space, Print, Val, AllDigits, Pow10, Trim, Whole, Fraction, Spaces, MultiplyDecimalString, EndsInSpace;
    var whole, fraction := Whole(Trim(value)), Fraction(Trim(value));
    ShapeIsSpelled(Trim(value));
    TrimSplits(value);
    var left, right :| Spaces(left) && Spaces(right) && value == left + Trim(value) + right;
    EndsWith(left, Trim(value), right);
    places, kept, product := ProductOfSpaced(left, whole, fraction, right, multiplier, decimals);
  }

  lemma ProductOfSpaced(left: string, whole: string, fraction: string, right: string, multiplier: nat, decimals: nat)
    returns (places: nat, kept: nat, product: nat)
    requires Spaces(left) && Spaces(right) && whole != "" && AllDigits(whole) && AllDigits(fraction)
    ensures
      var r := MultiplyDecimalString(left + Spelled(whole, fraction) + right, multiplier);
      && AllDigits(whole + fraction) && r.Ok?
      && places == (if fraction == "" then 0 else |fraction| + |right|)
      && ReadsAs(r.value, Times(Val(whole + fraction), multiplier), places, decimals, kept, product)
  {
    hide DecimalAmountToRaw, Print, Val, AllDigits, StripTrailingZeros, Pow10, PadStart, Whole, Fraction, Spaces, IntegerOf, MultiplyDecimalString;
    var value := left + Spelled(whole, fraction) + right;
    PartsOfSpaced(left, whole, fraction, right);
    IntegerOfSpaced(left, whole, fraction, right);
    places := if fraction == "" then 0 else |fraction + right|;
    var n := Times(Val(whole + fraction), multiplier);
    var printed := PadStart(Print(n), places + 1);
    PaddedStart(n, places + 1);
    MultiplyUnfolds(value, multiplier, Val(whole + fraction));
    kept, product := ParseOfSplit(printed, places, decimals);
  }

  lemma EndsWith(left: string, s: string, right: string)
    requires Spaces(right) && s != "" && !Space(s[|s| - 1])
    ensures EndsInSpace(left + s + right) <==> right != ""
  {
    hide Space;
    assert right != "" ==> right[|right| - 1] in right;
  }

  lemma {:induction false} Pow10AtLeast(n: nat)
    ensures n > 0 ==> Pow10(n) >= 10
  {
    if n > 1 { Pow10AtLeast(n - 1); }
  }

  /** Exactly when multiplying is right: for an amount the parser accepts, parsing the product gives
      the multiple of parsing the amount if and only if there is no fraction, or no trailing space,
      or the product is zero. Spaces after a fraction shift the decimal point. */
  lemma MultiplyIsRightExactly(value: string, multiplier: nat, decimals: nat, raw: nat)
    requires ParsesTo(value, decimals, raw)
    ensures MultiplyDecimalString(value, multiplier).Ok?
    ensures ParsesTo(MultiplyDecimalString(value, multiplier).value, decimals, raw * multiplier) <==>
      Fraction(Trim(value)) == "" || !EndsInSpace(value) || raw * multiplier == 0
  {
    hide Print, Val, AllDigits, Pow10, Trim, Whole, Fraction, MultiplyDecimalString, EndsInSpace, DecimalAmountToRaw;
    AcceptedShape(value, decimals);
    ParseMeans(value, decimals);
    var fraction, digits := Fraction(Trim(value)), Val(Whole(Trim(value)) + Fraction(Trim(value)));
    var units := digits * Pow10(decimals - |fraction|);
    PrintVal(raw);
    PrintVal(units);
    assert raw == units && raw * multiplier >= 0;
    var places, kept, product := ProductParsed(value, multiplier, decimals);
    if kept <= decimals {
      PrintVal(product * Pow10(decimals - kept));
      PrintVal(raw * multiplier);
      Shifted(digits, multiplier, |fraction|, places, kept, product, decimals);
    } else {
      Shifts(digits, multiplier, |fraction|, places, kept, product, decimals);
    }
  }

  /** Too many places to parse: the product was not zero. */
  lemma Shifts(digits: nat, multiplier: nat, fraction: nat, places: nat, kept: nat, product: nat, decimals: nat)
    requires kept <= places && fraction <= decimals && digits * multiplier == product * Pow10(places - kept) && product > 0
    ensures digits * Pow10(decimals - fraction) * multiplier != 0
  {
    hide Pow10;
    assert product * Pow10(places - kept) > 0;
    assert digits > 0 && multiplier > 0;
    assert digits * Pow10(decimals - fraction) > 0;
  }

  lemma AcceptedShape(value: string, decimals: nat)
    requires DecimalAmountToRaw(value, decimals).Ok?
    ensures DecimalShape(Trim(value)) && |Fraction(Trim(value))| <= decimals
  {
  }

  /** The product read with `places` decimal places against the one it should be read with. */
  lemma Shifted(digits: nat, multiplier: nat, fraction: nat, places: nat, kept: nat, product: nat, decimals: nat)
    requires fraction <= places && kept <= places && fraction <= decimals && kept <= decimals
    requires digits * multiplier == product * Pow10(places - kept)
    ensures product * Pow10(decimals - kept) * Pow10(places - fraction) == digits * Pow10(decimals - fraction) * multiplier
    ensures product * Pow10(decimals - kept) == digits * Pow10(decimals - fraction) * multiplier <==>
      places == fraction || digits * Pow10(decimals - fraction) * multiplier == 0
  {
    hide Pow10;
    var expected, got := digits * Pow10(decimals - fraction) * multiplier, product * Pow10(decimals - kept);
    var shift := Pow10(places - fraction);
    Pow10Sum(decimals - fraction, places - kept);
    Pow10Sum(decimals - kept, places - fraction);
    assert decimals - fraction + (places - kept) == decimals - kept + (places - fraction);
    Rearranged(product, Pow10(decimals - kept), shift, Pow10(decimals - fraction), Pow10(places - kept), digits, multiplier);
    if places == fraction {
      assert shift == 1 by { assert Pow10(0) == 1 by { PowZero(); } }
    } else {
      Pow10AtLeast(places - fraction);
      TimesBig(got, shift);
    }
  }

  lemma TimesBig(n: nat, factor: nat)
    requires factor >= 10
    ensures n * factor == 0 <==> n == 0
    ensures n > 0 ==> n * factor > n
  {
    MultiplyMonotone(10, factor, n);
    assert factor * n == n * factor;
  }

  lemma PowZero()
    ensures Pow10(0) == 1
  {
  }

  lemma Rearranged(product: nat, a: nat, b: nat, c: nat, d: nat, digits: nat, multiplier: nat)
    requires a * b == c * d && digits * multiplier == product * d
    ensures product * a * b == digits * c * multiplier
  {
    assert product * a * b == product * (a * b) == product * (c * d) == product * d * c == digits * multiplier * c;
  }

  // ---------------------------------------------------------------- amounts as pairs

  datatype Amount = Amount(decimal: string, raw: nat)

  /** The decimal field is accepted and says the raw field. */
  ghost predicate Consistent(a: Amount, decimals: nat) {
    DecimalAmountToRaw(a.decimal, decimals) == Ok(Print(a.raw))
  }

  function MultipliedAmount(a: Amount, multiplier: nat): Result<Amount, AmountError> {
    match MultiplyDecimalString(a.decimal, multiplier)
    case Ok(decimal) => Ok(Amount(decimal, a.raw * multiplier))
    case Err(e) => Err(e)
  }

  /** Scaling both fields keeps them equal in value, except for spaces after a fraction. */
  lemma MultipliedStaysConsistent(a: Amount, multiplier: nat, decimals: nat)
    requires Consistent(a, decimals)
    ensures MultipliedAmount(a, multiplier).Ok?
    ensures Consistent(MultipliedAmount(a, multiplier).value, decimals) <==>
      Fraction(Trim(a.decimal)) == "" || !EndsInSpace(a.decimal) || a.raw * multiplier == 0
  {
    hide DecimalAmountToRaw, MultiplyDecimalString, Trim, Fraction, Print;
    MultiplyIsRightExactly(a.decimal, multiplier, decimals, a.raw);
  }

  /** A printed amount has no spaces, so scaling it is always right. */
  lemma PrintedAmountsScale(raw: nat, multiplier: nat, decimals: nat)
    ensures Consistent(Amount(RawAmountToDecimal(raw, decimals), raw), decimals)
    ensures MultipliedAmount(Amount(RawAmountToDecimal(raw, decimals), raw), multiplier).Ok?
    ensures Consistent(MultipliedAmount(Amount(RawAmountToDecimal(raw, decimals), raw), multiplier).value, decimals)
  {
    hide DecimalAmountToRaw, MultiplyDecimalString, Trim, Fraction, Print, RawAmountToDecimal, MultipliedAmount, EndsInSpace;
    RoundTrip(raw, decimals);
    MultipliedStaysConsistent(Amount(RawAmountToDecimal(raw, decimals), raw), multiplier, decimals);
    PrintedEndsInDigit(raw, decimals);
  }

  lemma PrintedEndsInDigit(raw: nat, decimals: nat)
    ensures !EndsInSpace(RawAmountToDecimal(raw, decimals))
  {
    hide Print, Space, StripTrailingZeros, Spelled, PadStart, Trim, Whole, Fraction, DecimalShape;
    if decimals == 0 {
      Respelled(Print(raw), "");
      SpelledIs(Print(raw));
      assert Print(raw)[|Print(raw)| - 1] in Print(raw);
    } else {
      var digits := PadStart(Print(raw), decimals + 1);
      PaddedStart(raw, decimals + 1);
      SplitAndStrip(digits, decimals);
      Respelled(digits[..|digits| - decimals], StripTrailingZeros(digits[|digits| - decimals..]));
    }
  }

  lemma SpelledIs(s: string)
    ensures Spelled(s, "") == s
  {
  }

  /** The smallest failures: one and five tenths, then a space, does not even survive times one. */
  lemma SpaceShiftsPoint(value: string, whole: string, fraction: string, space: string)
    requires whole == ['1'] && fraction == ['5'] && space == [' '] && value == whole + ['.'] + fraction + space
    ensures DecimalAmountToRaw(value, 2) == Ok(Print(150))
    ensures MultiplyDecimalString(value, 1).Ok? && DecimalAmountToRaw(MultiplyDecimalString(value, 1).value, 2) != Ok(Print(150))
  {
    hide MultiplyDecimalString, DecimalAmountToRaw, Trim, Whole, Fraction, Print, DecimalShape;
    var none: string := [];
    Respelled(whole, fraction);
    assert value == none + Spelled(whole, fraction) + space;
    assert EndsInSpace(value);
    TrimOf(none, Spelled(whole, fraction), space);
    ParseMeans(value, 2);
    OneAndAHalf(whole, fraction);
    MultiplyIsRightExactly(value, 1, 2, 150);
  }

  lemma OneAndAHalf(whole: string, fraction: string)
    requires whole == ['1'] && fraction == ['5']
    ensures AllDigits(whole + fraction) && Val(whole + fraction) * Pow10(2 - |fraction|) == 150
  {
    DigitsOf(whole, fraction);
    ValAppend(whole, fraction);
    var none: string := [];
    assert whole[..0] == none && fraction[..0] == none && Val(none) == 0;
    assert Pow10(0) == 1 && Pow10(1) == 10;
  }
}
