/**
 * vagas.py, the salary amount: `float(value)`, the `,.2f` format and the
 * three `replace` calls that turn `1,234.50` into `1.234,50`.
 */
module MoneyFormat {
  import opened Results
  import opened Text

  /** Python's `s.replace(a, b)` for one character by another. */
  function ReplaceChar(s: string, a: char, b: char): (r: string)
    ensures |r| == |s|
    ensures forall i | 0 <= i < |s| :: r[i] == (if s[i] == a then b else s[i])
  {
    if s == [] then [] else [if s[0] == a then b else s[0]] + ReplaceChar(s[1..], a, b)
  }

  /** The conversion as written: `.replace('.', '#').replace(',', '.').replace('#', ',')`. */
  function SwapByReplace(s: string): string {
    ReplaceChar(ReplaceChar(ReplaceChar(s, '.', '#'), ',', '.'), '#', ',')
  }

  function SwapChar(c: char): char {
    if c == '.' then ',' else if c == ',' then '.' else c
  }

  /** Reference definition: every '.' becomes ',', every ',' becomes '.', nothing else changes. */
  function SwapSeparators(s: string): (r: string)
    ensures |r| == |s|
    ensures forall i | 0 <= i < |s| :: r[i] == SwapChar(s[i])
  {
    seq(|s|, i requires 0 <= i < |s| => SwapChar(s[i]))
  }

  /** On text without '#', the three replacements are exactly the separator swap. */
  lemma SwapByReplaceIsSwap(s: string)
    requires forall i | 0 <= i < |s| :: s[i] != '#'
    ensures SwapByReplace(s) == SwapSeparators(s)
  {
  }

  /** Swapping twice gives the text back; for text without '#' so does the replacement chain. */
  lemma SwapInvolution(s: string)
    ensures SwapSeparators(SwapSeparators(s)) == s
    ensures (forall i | 0 <= i < |s| :: s[i] != '#') ==> SwapByReplace(SwapByReplace(s)) == s
  {
    if forall i | 0 <= i < |s| :: s[i] != '#' {
      SwapByReplaceIsSwap(s);
      SwapByReplaceIsSwap(SwapSeparators(s));
    }
  }

  /** The swap is applied character by character, so it distributes over concatenation. */
  lemma SwapConcat(a: string, b: string)
    ensures SwapSeparators(a + b) == SwapSeparators(a) + SwapSeparators(b)
  {
  }

  /** Digits are left alone. */
  lemma SwapDigits(s: string)
    requires AllDigits(s)
    ensures SwapSeparators(s) == s
  {
  }

  /** Round to the nearest integer, ties to the even one (how `format` rounds). */
  function RoundHalfEven(r: real): (n: int)
    requires r >= 0.0
    ensures n >= 0
    ensures -0.5 <= r - n as real <= 0.5
    ensures r - n as real == 0.5 || n as real - r == 0.5 ==> n % 2 == 0
  {
    var f := r.Floor;
    var frac := r - f as real;
    if frac < 0.5 then f
    else if frac > 0.5 then f + 1
    else if f % 2 == 0 then f
    else f + 1
  }

  /** The digits of `n` with `sep` between groups of three, counted from the right. */
  function Grouped(n: nat, sep: char): string
    decreases n
  {
    if n < 1000 then NatToString(n) else Grouped(n / 1000, sep) + [sep] + ZeroPad(n % 1000, 3)
  }

  /** Hundredths of |x|, rounded half to even. */
  function Cents(x: real): nat {
    RoundHalfEven(if x < 0.0 then -x * 100.0 else x * 100.0)
  }

  /** An amount of `cents` hundredths, grouped with `group` and with `point` before the decimals. */
  function AmountText(negative: bool, cents: nat, group: char, point: char): string {
    (if negative then "-" else "") + Grouped(cents / 100, group) + [point] + ZeroPad(cents % 100, 2)
  }

  /** Python's `f"{x:,.2f}"` for a float whose exact value is `x`. */
  function EnglishFixed2(x: real): string {
    AmountText(x < 0.0, Cents(x), ',', '.')
  }

  /** The Brazilian way to write the same amount: '.' between thousands, ',' before the two decimals. */
  function BrazilianFixed2(x: real): string {
    AmountText(x < 0.0, Cents(x), '.', ',')
  }

  predicate HashFree(s: string) {
    forall i | 0 <= i < |s| :: s[i] != '#'
  }

  lemma HashFreeConcat(a: string, b: string)
    requires HashFree(a) && HashFree(b)
    ensures HashFree(a + b)
  {
  }

  /** Swapping the separators of a grouped number regroups it with the other separator. */
  lemma {:induction false} GroupedSwap(n: nat)
    ensures SwapSeparators(Grouped(n, ',')) == Grouped(n, '.')
    ensures HashFree(Grouped(n, ','))
    decreases n
  {
    if n < 1000 {
      SwapDigits(NatToString(n));
    } else {
      var high, low := Grouped(n / 1000, ','), ZeroPad(n % 1000, 3);
      GroupedSwap(n / 1000);
      SwapConcat(high + [','], low);
      SwapConcat(high, [',']);
      SwapDigits(low);
      HashFreeConcat(high, [',']);
      HashFreeConcat(high + [','], low);
    }
  }

  /** The swap and the absence of '#' both go part by part through a four-part text. */
  lemma SwapJoin(a: string, b: string, c: string, d: string)
    ensures SwapSeparators(a + b + c + d) == SwapSeparators(a) + SwapSeparators(b) + SwapSeparators(c) + SwapSeparators(d)
    ensures HashFree(a) && HashFree(b) && HashFree(c) && HashFree(d) ==> HashFree(a + b + c + d)
  {
    SwapConcat(a + b + c, d);
    SwapConcat(a + b, c);
    SwapConcat(a, b);
    if HashFree(a) && HashFree(b) && HashFree(c) && HashFree(d) {
      HashFreeConcat(a, b);
      HashFreeConcat(a + b, c);
      HashFreeConcat(a + b + c, d);
    }
  }

  /** Swapping the separators of an English-grouped amount gives the Brazilian-grouped one. */
  lemma AmountSwapSeparators(negative: bool, cents: nat)
    ensures SwapSeparators(AmountText(negative, cents, ',', '.')) == AmountText(negative, cents, '.', ',')
    ensures HashFree(AmountText(negative, cents, ',', '.'))
  {
    var sign: string := if negative then "-" else "";
    var decimals := ZeroPad(cents % 100, 2);
    GroupedSwap(cents / 100);
    SwapDigits(decimals);
    assert SwapSeparators(sign) == sign && SwapSeparators(".") == ",";
    SwapJoin(sign, Grouped(cents / 100, ','), ".", decimals);
    assert AmountText(negative, cents, ',', '.') == sign + Grouped(cents / 100, ',') + "." + decimals;
    assert AmountText(negative, cents, '.', ',') == sign + Grouped(cents / 100, '.') + "," + decimals;
  }

  /** The three replacements turn an English-grouped amount into the Brazilian-grouped one. */
  lemma AmountSwap(negative: bool, cents: nat)
    ensures SwapByReplace(AmountText(negative, cents, ',', '.')) == AmountText(negative, cents, '.', ',')
  {
    AmountSwapSeparators(negative, cents);
    SwapByReplaceIsSwap(AmountText(negative, cents, ',', '.'));
  }

  /** vagas.py's conversion of the `,.2f` text gives exactly the Brazilian format. */
  lemma BrazilianBySwap(x: real)
    ensures SwapByReplace(EnglishFixed2(x)) == BrazilianFixed2(x)
  {
    AmountSwap(x < 0.0, Cents(x));
  }

  /**
   * Python's `float(s)` restricted to plain decimal text: surrounding
   * whitespace, an optional sign, digits with at most one point and at
   * least one digit. Anything else raises ValueError (None).
   */
  function ParseDecimal(s: string): Option<real> {
    var t := Strip(s);
    var signed := t != [] && (t[0] == '-' || t[0] == '+');
    match ParseUnsigned(if signed then t[1..] else t)
    case None => None
    case Some(magnitude) => Some(if signed && t[0] == '-' then -magnitude else magnitude)
  }

  /** Digits with at most one point and at least one digit, as an exact value. */
  function ParseUnsigned(body: string): Option<real> {
    var point := PointAt(body);
    var whole, fraction := body[..point], if point < |body| then body[point + 1..] else [];
    if AllDigits(whole) && AllDigits(fraction) && |whole| + |fraction| > 0 then
      Some(DigitsValue(whole) as real + DigitsValue(fraction) as real / Pow10(|fraction|) as real)
    else None
  }

  /** Position of the first '.', or |s| when there is none. */
  function PointAt(s: string): (k: nat)
    ensures k <= |s|
    ensures forall i | 0 <= i < k :: s[i] != '.'
    ensures k < |s| ==> s[k] == '.'
  {
    if s == [] || s[0] == '.' then 0 else 1 + PointAt(s[1..])
  }

  /** A run of digits reads as the number it spells. */
  lemma UnsignedOfNat(n: nat)
    ensures ParseUnsigned(NatToString(n)) == Some(n as real)
  {
    var digits := NatToString(n);
    assert PointAt(digits) == |digits|;
    assert digits[..|digits|] == digits;
    DigitsOfNat(n);
  }

  /** `float(str(n)) == n` for an integer. */
  lemma ParseDecimalOfInt(n: int)
    ensures ParseDecimal(IntToString(n)) == Some(n as real)
  {
    var s := IntToString(n);
    StripIntToString(n);
    if n < 0 {
      assert s[0] == '-' && s[1..] == NatToString(-n);
      UnsignedOfNat(-n);
      assert -((-n) as real) == n as real;
    } else {
      assert IsDigit(s[0]);
      UnsignedOfNat(n);
    }
  }
}
