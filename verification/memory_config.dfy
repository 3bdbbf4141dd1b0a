/** A memory amount in the configuration: a decimal number and at most one unit letter. */
module MemoryConfig {
  import opened Options
  import opened Chars
  import opened Allocation

  const INT64_MAX: int := 0x7FFF_FFFF_FFFF_FFFF

  /** Bad stands for the error, with which the amount is 0. */
  datatype Amount = Bytes(bytes: U64) | Bad

  predicate IsSpace(c: char) { c == ' ' || '\t' <= c <= '\r' }

  // --------------------------------------------------------------- numerals

  function DigitValue(c: char): (v: int)
    requires IsDigit(c)
    ensures 0 <= v < 10
  {
    c as int - '0' as int
  }

  function Digit(v: int): (c: char)
    requires 0 <= v < 10
    ensures IsDigit(c) && DigitValue(c) == v
  {
    ('0' as int + v) as char
  }

  function Number(digits: string): nat
    requires AllDigits(digits)
  {
    if digits == "" then 0
    else 10 * Number(digits[..|digits| - 1]) + DigitValue(digits[|digits| - 1])
  }

  function Decimal(n: nat): string {
    (if n < 10 then "" else Decimal(n / 10)) + [Digit(n % 10)]
  }

  lemma NumberSnoc(digits: string, c: char)
    requires AllDigits(digits) && IsDigit(c)
    ensures AllDigits(digits + [c]) && Number(digits + [c]) == 10 * Number(digits) + DigitValue(c)
  {
    assert (digits + [c])[..|digits|] == digits;
  }

  /** Reading a printed number gives the number. */
  lemma {:induction false} NumberOfDecimal(n: nat)
    ensures Decimal(n) != "" && AllDigits(Decimal(n)) && Number(Decimal(n)) == n
  {
    if n < 10 {
      NumberSnoc("", Digit(n));
    } else {
      NumberOfDecimal(n / 10);
      NumberSnoc(Decimal(n / 10), Digit(n % 10));
    }
  }

  // ---------------------------------------------------------------- strtoll

  function SpacesIn(s: string): (k: nat)
    ensures k <= |s|
  {
    if s == "" || !IsSpace(s[0]) then 0 else 1 + SpacesIn(s[1..])
  }

  function DigitsIn(s: string): (k: nat)
    ensures k <= |s| && AllDigits(s[..k]) && (k < |s| ==> !IsDigit(s[k]))
  {
    if s == "" || !IsDigit(s[0]) then 0
    else
      var k := 1 + DigitsIn(s[1..]);
      assert s[..k] == [s[0]] + s[1..][..k - 1];
      k
  }

  /** A number cut to what a signed 64-bit integer holds. */
  function Saturate(n: int): int {
    if n > INT64_MAX then INT64_MAX else if n < -INT64_MAX - 1 then -INT64_MAX - 1 else n
  }

  datatype Scan = Scan(number: int, length: nat)

  /** The number in front, saturated, and how much text it takes; a length of 0 if there is none. */
  function Strtoll(s: string): (r: Scan)
    ensures r.length <= |s|
  {
    var i := SpacesIn(s);
    var signed := i < |s| && (s[i] == '-' || s[i] == '+');
    var j := if signed then i + 1 else i;
    var k := DigitsIn(s[j..]);
    var n: int := Number(s[j..][..k]);
    if k == 0 then Scan(0, 0) else Scan(Saturate(if signed && s[i] == '-' then 0 - n else n), j + k)
  }

  lemma {:induction false} DigitsOf(d: string, rest: string)
    requires AllDigits(d) && (rest == "" || !IsDigit(rest[0]))
    ensures DigitsIn(d + rest) == |d|
  {
    if d == "" {
      assert d + rest == rest;
    } else {
      DigitsOf(d[1..], rest);
      assert (d + rest)[1..] == d[1..] + rest;
    }
  }

  predicate EndsNumber(rest: string) { rest == "" || !IsDigit(rest[0]) }

  lemma StrtollPlain(d: string, rest: string)
    requires d != "" && AllDigits(d) && EndsNumber(rest)
    ensures Strtoll(d + rest) == Scan(Saturate(Number(d)), |d|)
  {
    var s := d + rest;
    assert IsDigit(d[0]) && s[0] == d[0];
    assert SpacesIn(s) == 0 && s[0..] == s;
    DigitsOf(d, rest);
    assert s[..|d|] == d;
  }

  lemma StrtollMinus(t: string, d: string)
    requires AllDigits(d) && DigitsIn(t) == |d| > 0 && t[..|d|] == d
    ensures Strtoll(['-'] + t) == Scan(Saturate(0 - Number(d)), 1 + |d|)
  {
    var s := ['-'] + t;
    assert s[0] == '-' && s[1..] == t;
    assert SpacesIn(s) == 0;
  }

  lemma DigitsInFront(d: string, rest: string)
    requires AllDigits(d) && EndsNumber(rest)
    ensures DigitsIn(d + rest) == |d| && (d + rest)[..|d|] == d
  {
    DigitsOf(d, rest);
  }

  // ----------------------------------------------------------------- amounts

  /** Conversion to an unsigned 64-bit integer. */
  function Wrap(x: int): U64 { x % TWO64 }

  lemma WrapNothing(x: int)
    requires 0 <= x < TWO64
    ensures Wrap(x) == x
  {
  }

  lemma WrapBelow(x: nat)
    ensures Wrap(x) <= x && (x >= TWO64 ==> Wrap(x) + TWO64 <= x)
  {
  }

  function Factor(unit: char): Option<nat> {
    match unit
    case 'K' => Some(1024)
    case 'M' => Some(1048576)
    case 'G' => Some(1073741824)
    case 'T' => Some(1099511627776)
    case _ => None
  }

  function Share(percent: nat): nat { if percent < 100 then percent else 100 }

  function Percent(product: nat): U64 { Wrap(product) / 100 }

  lemma PercentWraps(product: nat)
    ensures Percent(product) == product / 100 <==> product < TWO64
  {
    WrapBelow(product);
  }

  lemma PercentBound(share: nat, ram: U64)
    requires share <= 100
    ensures Percent(share * ram) <= ram
  {
    assert share * ram <= 100 * ram;
    WrapBelow(share * ram);
  }

  /** A number with a unit; products wrap. */
  function Scaled(n: U64, unit: char, ram: U64): Amount {
    if Factor(unit).Some? then Bytes(Wrap(n * Factor(unit).value))
    else if unit == '%' then Bytes(Percent(Share(n) * ram))
    else Bad
  }

  /** What a configured text amounts to. A negative number wraps. */
  function AmountOf(text: Option<string>, ram: U64): Amount {
    if text.None? then Bad
    else
      var scan := Strtoll(text.value);
      if scan.length == 0 then Bad
      else if scan.length == |text.value| then Bytes(Wrap(scan.number))
      else Scaled(Wrap(scan.number), text.value[scan.length], ram)
  }

  lemma {:induction false} WrapSum(x: nat, k: nat)
    ensures Wrap(x + k * TWO64) == Wrap(x)
  {
    if k > 0 {
      WrapSum(x, k - 1);
      assert x + k * TWO64 == x + (k - 1) * TWO64 + TWO64;
    }
  }

  lemma WrapTwice(a: nat, f: nat)
    ensures Wrap(Wrap(a) * f) == Wrap(a * f)
  {
    var q, r := a / TWO64, a % TWO64;
    assert a * f == r * f + (q * f) * TWO64 by {
      assert a == q * TWO64 + r;
      assert (q * TWO64 + r) * f == r * f + (q * f) * TWO64;
    }
    WrapSum(r * f, q * f);
  }

  lemma StepByStep(n: nat)
    ensures Wrap(Wrap(n * 1024) * 1024) == Wrap(n * 1048576)
    ensures Wrap(Wrap(n * 1048576) * 1024) == Wrap(n * 1073741824)
    ensures Wrap(Wrap(n * 1073741824) * 1024) == Wrap(n * 1099511627776)
  {
    WrapTwice(n * 1024, 1024);
    WrapTwice(n * 1048576, 1024);
    WrapTwice(n * 1073741824, 1024);
  }

  /** The program multiplies by 1024 as often as the unit says, wrapping each time. */
  method ConfigGetMemory(text: Option<string>, ram: U64) returns (res: U64, failed: bool)
    ensures AmountOf(text, ram) == if failed then Bad else Bytes(res)
    ensures failed ==> res == 0
  {
    if text.None? { return 0, true; }
    var scan := Strtoll(text.value);
    res := Wrap(scan.number);
    if scan.length == 0 { return 0, true; }
    if scan.length < |text.value| {
      StepByStep(res);
      match text.value[scan.length] {
        case 'K' => res := Wrap(res * 1024);
        case 'M' => res := Wrap(Wrap(res * 1024) * 1024);
        case 'G' => res := Wrap(Wrap(Wrap(res * 1024) * 1024) * 1024);
        case 'T' => res := Wrap(Wrap(Wrap(Wrap(res * 1024) * 1024) * 1024) * 1024);
        case '%' => res := Wrap((if res < 100 then res else 100) * ram) / 100;
        case _ => return 0, true;
      }
    }
    return res, false;
  }

  /** Reading a printed number, then a unit and anything behind it. */
  lemma AmountScaled(n: nat, unit: char, rest: string, ram: U64)
    requires !IsDigit(unit)
    ensures AmountOf(Some(Decimal(n) + ([unit] + rest)), ram) == Scaled(Saturate(n), unit, ram)
  {
    NumberOfDecimal(n);
    StrtollPlain(Decimal(n), [unit] + rest);
    WrapNothing(Saturate(n));
  }

  /** A plain number is itself exactly up to 2^63 - 1, where it saturates. */
  lemma PlainExact(n: nat, ram: U64)
    ensures AmountOf(Some(Decimal(n)), ram).Bytes?
    ensures AmountOf(Some(Decimal(n)), ram).bytes == n <==> n <= 0x7FFF_FFFF_FFFF_FFFF
  {
    NumberOfDecimal(n);
    StrtollPlain(Decimal(n), "");
    assert Decimal(n) + "" == Decimal(n);
    WrapNothing(Saturate(n));
  }

  lemma ProductWraps(n: nat, f: nat)
    requires f >= 1024
    ensures Wrap(Saturate(n) * f) == n * f <==> n * f < TWO64
  {
    if n * f < TWO64 {
      assert n * 1024 <= n * f;
      WrapNothing(n * f);
    }
  }

  function Power(base: nat, e: nat): nat { if e == 0 then 1 else base * Power(base, e - 1) }

  lemma FactorIsPower(k: nat)
    requires 1 <= k <= 4
    ensures Factor("KMGT"[k - 1]) == Some(Power(1024, k)) && Power(1024, k) >= 1024
  {
    assert Power(1024, 1) == 1024 * Power(1024, 0);
    assert Power(1024, 2) == 1024 * Power(1024, 1);
    assert Power(1024, 3) == 1024 * Power(1024, 2);
    assert Power(1024, 4) == 1024 * Power(1024, 3);
  }

  /** A number with the k-th of the letters K, M, G and T, whatever follows it, is the number times the k-th power of
      1024, exactly if that fits in 64 bits. */
  lemma UnitExact(n: nat, k: nat, rest: string, ram: U64)
    requires 1 <= k <= 4
    ensures
      var product := n * Power(1024, k);
      var amount := AmountOf(Some(Decimal(n) + (["KMGT"[k - 1]] + rest)), ram);
      amount.Bytes? && (amount.bytes == product <==> product < 0x1_0000_0000_0000_0000)
  {
    var unit, f := "KMGT"[k - 1], Power(1024, k);
    FactorIsPower(k);
    assert AmountOf(Some(Decimal(n) + ([unit] + rest)), ram) == Bytes(Wrap(Saturate(n) * f)) by {
      AmountScaled(n, unit, rest, ram);
    }
    ProductWraps(n, f);
  }

  /** Any other character behind the number but a percent sign makes it bad. */
  lemma OtherUnitIsBad(n: nat, unit: char, rest: string, ram: U64)
    requires !('0' <= unit <= '9') && unit != 'K' && unit != 'M' && unit != 'G' && unit != 'T' && unit != '%'
    ensures AmountOf(Some(Decimal(n) + ([unit] + rest)), ram) == Bad
  {
    OtherUnit(Saturate(n), unit, ram);
    AmountScaled(n, unit, rest, ram);
  }

  lemma OtherUnit(n: U64, unit: char, ram: U64)
    requires unit != 'K' && unit != 'M' && unit != 'G' && unit != 'T' && unit != '%'
    ensures Scaled(n, unit, ram) == Bad
  {
  }

  /** White space and a plus sign in front of a number make no difference. */
  lemma {:induction false} SignAndSpaces(spaces: string, sign: string, digits: string, rest: string, ram: U64)
    requires forall i :: 0 <= i < |spaces| ==> spaces[i] == ' ' || '\t' <= spaces[i] <= '\r'
    requires sign == "" || sign == "+"
    requires digits != "" && AllDigits(digits) && EndsNumber(rest)
    ensures AmountOf(Some(spaces + (sign + (digits + rest))), ram) == AmountOf(Some(digits + rest), ram)
  {
    var plain := digits + rest;
    StrtollPlain(digits, rest);
    assert IsDigit(plain[0]) by { assert plain[0] == digits[0] && IsDigit(digits[0]); }
    if sign == "" {
      assert sign + plain == plain;
    } else {
      DigitsInFront(digits, rest);
      StrtollPlus(plain, digits);
    }
    SkippedInFront(spaces, sign, plain, ram);
  }

  lemma SkippedInFront(spaces: string, sign: string, plain: string, ram: U64)
    requires (forall i :: 0 <= i < |spaces| ==> IsSpace(spaces[i])) && (sign == "" || !IsSpace(sign[0]))
    requires plain != "" && !IsSpace(plain[0]) && Strtoll(plain).length > 0
    requires Strtoll(sign + plain) == Scan(Strtoll(plain).number, |sign| + Strtoll(plain).length)
    ensures AmountOf(Some(spaces + (sign + plain)), ram) == AmountOf(Some(plain), ram)
  {
    var text, skipped := spaces + (sign + plain), |spaces| + |sign|;
    SkipSpaces(spaces, sign + plain);
    assert text[skipped..] == plain;
    SameAmount(plain, text, skipped, ram);
  }

  /** The amount only depends on the number and on what follows it. */
  lemma SameAmount(plain: string, text: string, skipped: nat, ram: U64)
    requires skipped <= |text| && text[skipped..] == plain && Strtoll(plain).length > 0
    requires Strtoll(text) == Scan(Strtoll(plain).number, skipped + Strtoll(plain).length)
    ensures AmountOf(Some(text), ram) == AmountOf(Some(plain), ram)
  {
    var end := Strtoll(plain).length;
    if end < |plain| { assert text[skipped + end] == plain[end]; }
  }

  lemma StrtollPlus(t: string, d: string)
    requires AllDigits(d) && DigitsIn(t) == |d| > 0 && t[..|d|] == d
    ensures Strtoll("+" + t) == Scan(Saturate(Number(d)), 1 + |d|)
  {
    var s := "+" + t;
    assert s[0] == '+' && s[1..] == t;
    assert SpacesIn(s) == 0;
  }

  /** Spaces in front only add to how much text is read. */
  lemma {:induction false} SkipSpaces(spaces: string, text: string)
    requires (forall i :: 0 <= i < |spaces| ==> IsSpace(spaces[i])) && text != "" && !IsSpace(text[0])
    requires Strtoll(text).length > 0
    ensures Strtoll(spaces + text) == Scan(Strtoll(text).number, |spaces| + Strtoll(text).length)
  {
    SpacesInFront(spaces, text);
    SpacesInFront("", text);
    assert "" + text == text;
    var s, n := spaces + text, |spaces|;
    assert s[n] == text[0];
    assert s[n..] == text[0..];
    assert s[n + 1..] == text[1..];
  }

  lemma {:induction false} SpacesInFront(spaces: string, text: string)
    requires (forall i :: 0 <= i < |spaces| ==> IsSpace(spaces[i])) && text != "" && !IsSpace(text[0])
    ensures SpacesIn(spaces + text) == |spaces|
  {
    if spaces == "" {
      assert spaces + text == text;
    } else {
      SpacesInFront(spaces[1..], text);
      assert (spaces + text)[1..] == spaces[1..] + text;
    }
  }

  /** Without a key, or with a text that starts with something else, there is no amount. */
  lemma NoNumberIsBad(text: string, ram: U64)
    requires text == "" || !('0' <= text[0] <= '9' || '\t' <= text[0] <= '\r' || text[0] in "+- ")
    ensures AmountOf(None, ram) == Bad && AmountOf(Some(text), ram) == Bad
  {
    if text != "" {
      var others := "+- ";
      assert others[0] == '+' && others[1] == '-' && others[2] == ' ';
    }
  }

  /** What a percentage amounts to, whatever its product wraps to. */
  lemma PercentScaled(n: U64, ram: U64)
    ensures Scaled(n, '%', ram) == Bytes(Percent(Share(n) * ram))
  {
  }

  lemma PercentOf(p: nat, rest: string, ram: U64, product: nat)
    requires product == Share(p) * ram
    ensures AmountOf(Some(Decimal(p) + (['%'] + rest)), ram) == Bytes(Percent(product))
  {
    AmountScaled(p, '%', rest, ram);
    PercentScaled(Saturate(p), ram);
    assert Share(Saturate(p)) == Share(p);
  }

  /** A percentage, cut at 100, is that share of the memory rounded down, exactly if the product fits in 64 bits. */
  lemma PercentExact(p: nat, rest: string, ram: U64, product: nat)
    requires product == (if p < 100 then p else 100) * ram
    ensures
      var amount := AmountOf(Some(Decimal(p) + (['%'] + rest)), ram);
      amount.Bytes? && (amount.bytes == product / 100 <==> product < 0x1_0000_0000_0000_0000)
  {
    PercentOf(p, rest, ram, product);
    PercentWraps(product);
  }

  /** No percentage is more than the memory there is. */
  lemma PercentWithinRam(text: string, ram: U64)
    requires var end := Strtoll(text).length; 0 < end < |text| && text[end] == '%'
    ensures var amount := AmountOf(Some(text), ram); amount.Bytes? && amount.bytes <= ram
  {
    var n := Wrap(Strtoll(text).number);
    PercentBound(Share(n), ram);
    PercentScaled(n, ram);
    assert AmountOf(Some(text), ram) == Scaled(n, '%', ram);
  }

  lemma NegativeScaled(p: nat, unit: char, rest: string, ram: U64)
    requires !IsDigit(unit)
    ensures AmountOf(Some(['-'] + (Decimal(p) + ([unit] + rest))), ram) == Scaled(Wrap(Saturate(0 - p)), unit, ram)
  {
    NumberOfDecimal(p);
    DigitsInFront(Decimal(p), [unit] + rest);
    StrtollMinus(Decimal(p) + ([unit] + rest), Decimal(p));
  }

  /** A negative number without a unit wraps: -n is 2^64 - n, and from -2^63 on it is 2^63. */
  lemma NegativeIsHuge(digits: string, n: nat, ram: U64)
    requires digits != "" && AllDigits(digits) && n == Number(digits) > 0
    ensures
      var least := if n < 0x8000_0000_0000_0000 then n else 0x8000_0000_0000_0000;
      AmountOf(Some(['-'] + digits), ram) == Bytes(0x1_0000_0000_0000_0000 - least)
  {
    NegativeWhole(digits, ram);
    WrapNegative(n);
  }

  lemma WrapNegative(n: nat)
    requires 0 < n
    ensures Wrap(Saturate(0 - n))
         == 0x1_0000_0000_0000_0000 - if n < 0x8000_0000_0000_0000 then n else 0x8000_0000_0000_0000
  {
    var x := Saturate(0 - n);
    assert -TWO64 < x < 0;
    assert Wrap(x) == x + TWO64;
  }

  lemma NegativeWhole(d: string, ram: U64)
    requires d != "" && AllDigits(d)
    ensures AmountOf(Some(['-'] + d), ram) == Bytes(Wrap(Saturate(0 - Number(d))))
  {
    DigitsInFront(d, "");
    assert d + "" == d;
    StrtollMinus(d, d);
  }

  lemma NegativeWraps(p: nat)
    requires 0 < p
    ensures Wrap(Saturate(0 - p)) > INT64_MAX
  {
    var x := Saturate(0 - p);
    assert Wrap(x) == x + TWO64;
  }

  lemma EnoughForEverything(n: U64, ram: U64)
    requires n >= 100
    ensures Scaled(n, '%', ram) == Bytes(Percent(100 * ram))
  {
    PercentScaled(n, ram);
  }

  /** A negative percentage asks for everything, as any of 100 or more does. */
  lemma NegativePercentIsEverything(p: nat, rest: string, ram: U64)
    requires 0 < p
    ensures AmountOf(Some(['-'] + (Decimal(p) + (['%'] + rest))), ram) == Bytes(Percent(100 * ram))
  {
    NegativeScaled(p, '%', rest, ram);
    NegativeWraps(p);
    EnoughForEverything(Wrap(Saturate(0 - p)), ram);
  }
}
