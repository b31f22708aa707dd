/** The numbers that a derivation path may hold (accounts/hd.go): what big.Int.SetString
    with base 0 reads, and which components are accepted. */
module HDNumerals {
  import opened Decimal
  import opened HDPath
  import opened Options

  // ---------- Digits and numerals ----------

  /** The character of a digit, in either case. */
  function DigitChar(d: nat, upper: bool): char
    requires d < 16
  {
    if upper then "0123456789ABCDEF"[d] else "0123456789abcdef"[d]
  }

  lemma DigitInExactly(c: char, d: nat)
    requires d < 16
    ensures DigitIn(c) == d <==> c == DigitChar(d, false) || c == DigitChar(d, true)
  {
    assert d in [0, 1, 2, 3, 4, 5, 6, 7, 8, 9, 10, 11, 12, 13, 14, 15];
  }

  /** The numeral of n in the given base, with digits of one case. */
  function Numeral(n: nat, base: nat, upper: bool): (s: string)
    requires 2 <= base <= 16
  {
    if n < base then [DigitChar(n, upper)] else Numeral(n / base, base, upper) + [DigitChar(n % base, upper)]
  }

  /** The number that digits stand for by their places. */
  function PlaceValue(s: string, base: nat): nat {
    if s == [] then 0 else PlaceValue(s[..|s| - 1], base) * base + DigitIn(s[|s| - 1])
  }

  lemma PlaceValueLast(s: string, c: char, base: nat)
    ensures PlaceValue(s + [c], base) == PlaceValue(s, base) * base + DigitIn(c)
  {
    assert (s + [c])[..|s|] == s;
  }

  lemma Divided(n: nat, base: nat)
    requires 2 <= base <= n
    ensures n / base < n && n / base * base + n % base == n && n % base < base
  {
  }

  lemma {:induction false} ValueOfNumeral(n: nat, base: nat, upper: bool)
    requires 2 <= base <= 16
    ensures PlaceValue(Numeral(n, base, upper), base) == n
    decreases n
  {
    if n < base {
      DigitInExactly(DigitChar(n, upper), n);
      PlaceValueLast([], DigitChar(n, upper), base);
      assert [] + [DigitChar(n, upper)] == [DigitChar(n, upper)];
    } else {
      Divided(n, base);
      ValueOfNumeral(n / base, base, upper);
      DigitInExactly(DigitChar(n % base, upper), n % base);
      PlaceValueLast(Numeral(n / base, base, upper), DigitChar(n % base, upper), base);
    }
  }

  // ---------- Digits with underscores ----------

  function WithoutUnderscores(s: string): string {
    if s == [] then [] else (if s[0] == '_' then [] else [s[0]]) + WithoutUnderscores(s[1..])
  }

  /** An underscore at i has a digit before it, or the prefix, and something behind it. */
  predicate Separates(s: string, i: nat, prefixed: bool)
    requires i < |s|
  {
    (if i == 0 then prefixed else s[i - 1] != '_') && i + 1 < |s|
  }

  /** Digits of the base, with single underscores between them or behind the prefix. */
  predicate GoodDigits(s: string, base: nat, prefixed: bool) {
    && s != []
    && (forall i :: 0 <= i < |s| ==> s[i] == '_' || DigitIn(s[i]) < base)
    && (forall i :: 0 <= i < |s| && s[i] == '_' ==> Separates(s, i, prefixed))
  }

  /** The value read from the left, on top of what was read before. */
  function ReadOn(acc: nat, s: string, base: nat): nat
    decreases |s|
  {
    if s == [] then acc else ReadOn(acc * base + DigitIn(s[0]), s[1..], base)
  }

  lemma {:induction false} ReadOnLast(acc: nat, s: string, c: char, base: nat)
    ensures ReadOn(acc, s + [c], base) == ReadOn(acc, s, base) * base + DigitIn(c)
    decreases |s|
  {
    if s == [] {
      assert s + [c] == [c];
    } else {
      assert (s + [c])[1..] == s[1..] + [c];
      ReadOnLast(acc * base + DigitIn(s[0]), s[1..], c, base);
    }
  }

  lemma {:induction false} ReadIsPlaceValue(s: string, base: nat)
    ensures ReadOn(0, s, base) == PlaceValue(s, base)
    decreases |s|
  {
    if s != [] {
      var t := s[..|s| - 1];
      ReadIsPlaceValue(t, base);
      ReadOnLast(0, t, s[|s| - 1], base);
      assert t + [s[|s| - 1]] == s;
    }
  }

  /** The rest of a text fits behind what was scanned before it. */
  predicate Fits(s: string, base: nat, prev: Prev) {
    if s == [] then prev != AfterSeparator else GoodDigits(s, base, prev == AfterDigit)
  }

  lemma FitsUnderscore(s: string, base: nat)
    requires s != [] && s[0] == '_'
    ensures Fits(s, base, AfterDigit) <==> Fits(s[1..], base, AfterSeparator)
  {
    var t := s[1..];
    assert forall i :: 0 <= i < |t| ==> t[i] == s[i + 1];
    if Fits(s, base, AfterDigit) {
      assert Separates(s, 0, true);
      forall i | 0 <= i < |t| && t[i] == '_' ensures Separates(t, i, false) {
        assert Separates(s, i + 1, true);
      }
    }
    if Fits(t, base, AfterSeparator) {
      forall i | 0 <= i < |s| && s[i] == '_' ensures Separates(s, i, true) {
        if i > 0 {
          assert t[i - 1] == '_' && Separates(t, i - 1, false);
        }
      }
    }
  }

  lemma FitsDigit(s: string, base: nat, prev: Prev)
    requires s != [] && s[0] != '_' && DigitIn(s[0]) < base
    ensures Fits(s, base, prev) <==> Fits(s[1..], base, AfterDigit)
  {
    var t, prefixed := s[1..], prev == AfterDigit;
    assert forall i :: 0 <= i < |t| ==> t[i] == s[i + 1];
    if Fits(s, base, prev) {
      forall i | 0 <= i < |t| && t[i] == '_' ensures Separates(t, i, true) {
        assert Separates(s, i + 1, prefixed);
      }
    }
    if Fits(t, base, AfterDigit) {
      forall i | 0 <= i < |s| && s[i] == '_' ensures Separates(s, i, prefixed) {
        assert t[i - 1] == '_' && Separates(t, i - 1, true);
      }
    }
  }

  lemma {:induction false} ScanFits(s: string, base: nat, prev: Prev, count: nat, acc: nat)
    requires base <= 16
    ensures var digits := WithoutUnderscores(s);
      ScanDigits(s, base, prev, count, acc) ==
      if Fits(s, base, prev) && count + |digits| > 0 then Some(ReadOn(acc, digits, base)) else None
    decreases |s|
  {
    if s != [] {
      if s[0] == '_' {
        FitsUnderscore(s, base);
        ScanFits(s[1..], base, AfterSeparator, count, acc);
        assert prev != AfterDigit ==> !Separates(s, 0, false);
        assert WithoutUnderscores(s) == WithoutUnderscores(s[1..]);
      } else if DigitIn(s[0]) < base {
        FitsDigit(s, base, prev);
        ScanFits(s[1..], base, AfterDigit, count + 1, acc * base + DigitIn(s[0]));
        var rest := WithoutUnderscores(s[1..]);
        assert WithoutUnderscores(s) == [s[0]] + rest && ([s[0]] + rest)[1..] == rest;
      }
    }
  }

  lemma {:induction false} HasDigit(s: string, i: nat)
    requires i < |s| && s[i] != '_'
    ensures WithoutUnderscores(s) != []
  {
    if i > 0 {
      HasDigit(s[1..], i - 1);
    }
  }

  /** The digits of a text are read exactly when each underscore separates, and then the
      underscores do not matter. */
  lemma DigitsExactly(s: string, base: nat, prefixed: bool)
    requires base <= 16
    ensures ScanDigits(s, base, if prefixed then AfterDigit else AtStart, 0, 0) ==
      if GoodDigits(s, base, prefixed) then Some(PlaceValue(WithoutUnderscores(s), base)) else None
  {
    ScanFits(s, base, if prefixed then AfterDigit else AtStart, 0, 0);
    ReadIsPlaceValue(WithoutUnderscores(s), base);
    if GoodDigits(s, base, prefixed) {
      var k := |s| - 1;
      assert s[k] == '_' ==> Separates(s, k, prefixed);
      HasDigit(s, k);
    }
  }

  // ---------- Whole numbers ----------

  /** The prefixes of a base. */
  predicate HasPrefix(base: nat, prefix: string) {
    || (base == 2 && prefix in ["0b", "0B"])
    || (base == 8 && prefix in ["0o", "0O", "0"])
    || (base == 16 && prefix in ["0x", "0X"])
    || (base == 10 && prefix == "")
  }

  /** How a text falls into prefix and digits. Without a prefix the number is decimal and does
      not begin with a zero, unless it is a single digit. */
  predicate Splits(prefix: string, body: string, base: nat) {
    && HasPrefix(base, prefix)
    && (prefix == "0" ==> body != [] && body[0] !in "bBoOxX")
    && (prefix == "" && |body| > 1 ==> body[0] != '0')
  }

  lemma EveryTextSplits(s: string) returns (prefix: string, body: string, base: nat)
    ensures s == prefix + body && Splits(prefix, body, base)
  {
    if |s| >= 2 && s[0] == '0' && s[1] in "bBoOxX" {
      prefix, body := s[..2], s[2..];
      base := if s[1] in "bB" then 2 else if s[1] in "oO" then 8 else 16;
      assert prefix == ['0', s[1]];
    } else if |s| >= 2 && s[0] == '0' {
      prefix, body, base := "0", s[1..], 8;
    } else {
      prefix, body, base := "", s, 10;
    }
  }

  /** Which texts are numbers, and what they mean, for all texts without a sign. */
  lemma NatExactly(prefix: string, body: string, base: nat)
    requires Splits(prefix, body, base)
    ensures ScanNat(prefix + body) ==
      if GoodDigits(body, base, prefix != "") then Some(PlaceValue(WithoutUnderscores(body), base)) else None
  {
    var s := prefix + body;
    DigitsExactly(body, base, prefix != "");
    if prefix == "" {
      assert s == body;
    } else if prefix == "0" {
      assert s[1..] == body;
    } else {
      assert s[0] == '0' && s[1] == prefix[1] && s[2..] == body;
    }
  }

  predicate PlainDigits(s: string, base: nat) {
    s != [] && forall i :: 0 <= i < |s| ==> s[i] != '_' && DigitIn(s[i]) < base
  }

  lemma {:induction false} NumeralGood(n: nat, base: nat, upper: bool)
    requires 2 <= base <= 16
    ensures PlainDigits(Numeral(n, base, upper), base)
    decreases n
  {
    if n < base {
      DigitInExactly(DigitChar(n, upper), n);
    } else {
      Divided(n, base);
      DigitInExactly(DigitChar(n % base, upper), n % base);
      NumeralGood(n / base, base, upper);
    }
  }

  lemma {:induction false} NoUnderscores(s: string)
    requires '_' !in s
    ensures WithoutUnderscores(s) == s
  {
    if s != [] {
      NoUnderscores(s[1..]);
    }
  }

  lemma {:induction false} NumeralStart(n: nat, base: nat, upper: bool)
    requires 2 <= base <= 16 && n > 0
    ensures Numeral(n, base, upper)[0] != '0'
    decreases n
  {
    if n >= base {
      Divided(n, base);
      NumeralGood(n / base, base, upper);
      NumeralStart(n / base, base, upper);
    } else {
      DigitInExactly('0', 0);
      DigitInExactly(DigitChar(n, upper), n);
    }
  }

  /** A sign in front of a text, or none in front of a text without one. */
  lemma SignedScan(sign: string, s: string)
    requires sign in ["", "+", "-"] && (sign == "" && s != [] ==> s[0] !in "+-")
    ensures ScanInt(sign + s) ==
      if ScanNat(s).None? then None else Some(if sign == "-" then 0 - ScanNat(s).value else ScanNat(s).value)
  {
    if sign == "" {
      assert sign + s == s;
    } else {
      assert (sign + s)[1..] == s && (sign + s)[0] == sign[0];
    }
  }

  /** A digit is neither a space nor a quote nor a sign. */
  lemma DigitIsPlain(c: char)
    requires DigitIn(c) < 16
    ensures !IsSpace(c) && c != '\'' && c !in "+-"
  {
  }

  lemma PlainSplits(prefix: string, body: string, base: nat)
    requires HasPrefix(base, prefix) && PlainDigits(body, base) && (prefix == "" && |body| > 1 ==> body[0] != '0')
    ensures Splits(prefix, body, base) && GoodDigits(body, base, prefix != "")
  {
    assert DigitIn(body[0]) < base;
  }

  lemma NoSign(prefix: string, body: string, base: nat)
    requires HasPrefix(base, prefix) && PlainDigits(body, base)
    ensures (prefix + body)[0] !in "+-"
  {
    DigitIsPlain(body[0]);
    assert (prefix + body)[0] == if prefix == "" then body[0] else '0';
  }

  lemma PlainDigitsScan(prefix: string, body: string, base: nat)
    requires HasPrefix(base, prefix) && PlainDigits(body, base) && (prefix == "" && |body| > 1 ==> body[0] != '0')
    ensures ScanNat(prefix + body) == Some(PlaceValue(body, base))
  {
    PlainSplits(prefix, body, base);
    NoUnderscores(body);
    NatExactly(prefix, body, base);
  }

  lemma NumeralScansAsNat(n: nat, prefix: string, base: nat, upper: bool)
    requires HasPrefix(base, prefix)
    ensures var s := prefix + Numeral(n, base, upper); s != [] && ScanNat(s) == Some(n) && s[0] !in "+-"
  {
    NumeralGood(n, base, upper);
    ValueOfNumeral(n, base, upper);
    if n > 0 {
      NumeralStart(n, base, upper);
    }
    NoSign(prefix, Numeral(n, base, upper), base);
    PlainDigitsScan(prefix, Numeral(n, base, upper), base);
  }

  lemma AnySign(s: string, n: nat)
    requires ScanNat(s) == Some(n) && s != [] && s[0] !in "+-"
    ensures ScanInt(s) == Some(n) && ScanInt("+" + s) == Some(n) && ScanInt("-" + s) == Some(0 - n)
  {
    SignedScan("", s);
    SignedScan("+", s);
    SignedScan("-", s);
    assert "" + s == s;
  }

  /** The numeral of every number is read back, in each base with each of its prefixes, in
      either case and with either sign. */
  lemma NumeralsScan(n: nat, prefix: string, base: nat, upper: bool)
    requires HasPrefix(base, prefix)
    ensures var s := prefix + Numeral(n, base, upper);
      ScanInt(s) == Some(n) && ScanInt("+" + s) == Some(n) && ScanInt("-" + s) == Some(0 - n)
  {
    NumeralScansAsNat(n, prefix, base, upper);
    AnySign(prefix + Numeral(n, base, upper), n);
  }

  // ---------- Components ----------

  /** What a number is worth as a component: the largest is 2^32-1, or 2^31-1 with a quote. */
  function Accepted(v: int, hardened: bool): Result<Uint32> {
    if hardened then
      if 0 <= v <= 0x7FFF_FFFF then Ok(0x8000_0000 + v) else Err(OutOfRange(v, true))
    else if 0 <= v <= 0xFFFF_FFFF then Ok(v) else Err(OutOfRange(v, false))
  }

  /** A text that is a number: an optional sign, a prefix, digits. */
  predicate IsNumber(sign: string, prefix: string, body: string, base: nat) {
    sign in ["", "+", "-"] && Splits(prefix, body, base) && GoodDigits(body, base, prefix != "")
  }

  function NumberText(sign: string, prefix: string, body: string): string { sign + (prefix + body) }

  function NumberValue(sign: string, body: string, base: nat): int {
    var n := PlaceValue(WithoutUnderscores(body), base);
    if sign == "-" then 0 - n else n
  }

  lemma NumberEnds(sign: string, prefix: string, body: string, base: nat)
    requires IsNumber(sign, prefix, body, base)
    ensures var t := NumberText(sign, prefix, body);
      && t != [] && !IsSpace(t[0]) && !IsSpace(t[|t| - 1]) && t[|t| - 1] != '\''
      && (prefix + body)[0] !in "+-"
  {
    var k := |body| - 1;
    assert body[k] == '_' ==> Separates(body, k, prefix != "");
    DigitIsPlain(body[k]);
    assert body[0] == '_' ==> Separates(body, 0, prefix != "");
    if prefix == "" {
      DigitIsPlain(body[0]);
      assert (prefix + body)[0] == body[0];
    } else {
      assert prefix[0] == '0' && (prefix + body)[0] == '0';
    }
    var t := NumberText(sign, prefix, body);
    assert t[|t| - 1] == body[k];
    assert t[0] == (if sign == "" then (prefix + body)[0] else sign[0]);
  }

  lemma NumberParses(sign: string, prefix: string, body: string, base: nat, hardened: bool)
    requires IsNumber(sign, prefix, body, base)
    ensures ParseNumber(NumberText(sign, prefix, body), hardened) == Accepted(NumberValue(sign, body, base), hardened)
  {
    NumberEnds(sign, prefix, body, base);
    NatExactly(prefix, body, base);
    SignedScan(sign, prefix + body);
  }

  /** A trimmed text in a component, with space around it. */
  lemma InComponent(w: string, t: string, w': string)
    requires TrimSpace(t) == t && (t != [] ==> t[|t| - 1] != '\'') && AllSpace(w) && AllSpace(w')
    ensures ParseComponent(w + t + w') == ParseNumber(t, false)
  {
    TrimIgnoresPadding(w, t, w');
  }

  lemma InQuotedComponent(w: string, t: string, w': string, w'': string)
    requires TrimSpace(t) == t && AllSpace(w) && AllSpace(w') && AllSpace(w'')
    ensures ParseComponent(w + t + w' + "'" + w'') == ParseNumber(t, true)
  {
    var c := w + t + w';
    TrimIgnoresPadding(w, t, w');
    QuoteHardens(c);
    ComponentIgnoresPadding("", c + "'", w'');
    assert "" + (c + "'") + w'' == c + "'" + w'';
  }

  /** A component that is a number is accepted exactly when the number is in range, whatever
      the space around it, and with a quote behind it exactly when it is in the lower half. */
  lemma NumberComponent(w: string, sign: string, prefix: string, body: string, base: nat, w': string, w'': string)
    requires IsNumber(sign, prefix, body, base) && AllSpace(w) && AllSpace(w') && AllSpace(w'')
    ensures var t := NumberText(sign, prefix, body); var v := NumberValue(sign, body, base);
      && ParseComponent(w + t + w') == Accepted(v, false)
      && ParseComponent(w + t + w' + "'" + w'') == Accepted(v, true)
  {
    var t := NumberText(sign, prefix, body);
    NumberEnds(sign, prefix, body, base);
    TrimPlain(t);
    NumberParses(sign, prefix, body, base, false);
    NumberParses(sign, prefix, body, base, true);
    InComponent(w, t, w');
    InQuotedComponent(w, t, w', w'');
  }

  lemma PaddedByNothing(t: string)
    ensures "" + ("" + t) + "" == t && "" + ("" + t) + "" + "'" + "" == t + "'"
  {
  }

  /** The numeral of n is accepted as n exactly up to 2^32-1, and with a quote as 2^31 + n
      exactly up to 2^31-1. */
  lemma NumeralComponent(n: nat, prefix: string, base: nat, upper: bool)
    requires HasPrefix(base, prefix)
    ensures var t := prefix + Numeral(n, base, upper);
      ParseComponent(t) == Accepted(n, false) && ParseComponent(t + "'") == Accepted(n, true)
  {
    var body := Numeral(n, base, upper);
    NumeralGood(n, base, upper);
    ValueOfNumeral(n, base, upper);
    if n > 0 {
      NumeralStart(n, base, upper);
    }
    PlainSplits(prefix, body, base);
    NoUnderscores(body);
    NumberComponent("", "", prefix, body, base, "", "");
    PaddedByNothing(prefix + body);
  }

  ghost predicate IsNumberText(t: string) {
    exists sign, prefix, body, base :: IsNumber(sign, prefix, body, base) && t == NumberText(sign, prefix, body)
  }

  lemma NotANumber(t: string, hardened: bool)
    requires !IsNumberText(t)
    ensures ParseNumber(t, hardened) == Err(InvalidComponent(t))
  {
    var sign := if t == [] || t[0] !in "+-" then "" else if t[0] == '+' then "+" else "-";
    var rest := t[|sign|..];
    assert t == sign + rest;
    var prefix, body, base := EveryTextSplits(rest);
    assert t == NumberText(sign, prefix, body) && !IsNumber(sign, prefix, body, base);
    NatExactly(prefix, body, base);
    SignedScan(sign, rest);
  }

  /** Any other text is refused as malformed, with or without a quote behind it. */
  lemma OtherComponent(w: string, t: string, w': string, w'': string)
    requires !IsNumberText(t) && TrimSpace(t) == t && AllSpace(w) && AllSpace(w') && AllSpace(w'')
    ensures (t != [] ==> t[|t| - 1] != '\'') ==> ParseComponent(w + t + w') == Err(InvalidComponent(t))
    ensures ParseComponent(w + t + w' + "'" + w'') == Err(InvalidComponent(t))
  {
    NotANumber(t, false);
    NotANumber(t, true);
    if t != [] ==> t[|t| - 1] != '\'' {
      InComponent(w, t, w');
    }
    InQuotedComponent(w, t, w', w'');
  }

  // ---------- Whole paths ----------

  lemma {:induction false} ParseAllStarts(acc: Path, cs: seq<string>)
    ensures ParseAll(acc, cs).Ok? ==> acc <= ParseAll(acc, cs).value
    decreases |cs|
  {
    if cs != [] {
      var v := ParseComponent(cs[0]);
      if v.Ok? {
        ParseAllStarts(acc + [v.value], cs[1..]);
      }
    }
  }

  predicate Means(component: string, v: Uint32) { ParseComponent(component) == Ok(v) }

  lemma ParseAllNext(acc: Path, cs: seq<string>, v: Uint32)
    requires cs != [] && Means(cs[0], v)
    ensures ParseAll(acc, cs) == ParseAll(acc + [v], cs[1..])
  {
  }

  predicate AllMean(cs: seq<string>, values: Path) {
    |cs| == |values| && forall i {:trigger Means(cs[i], values[i])} :: 0 <= i < |cs| ==> Means(cs[i], values[i])
  }

  lemma {:induction false} EachComponentFrom(acc: Path, cs: seq<string>, values: Path, k: nat)
    requires AllMean(cs, values) && k <= |cs|
    ensures ParseAll(acc, cs[k..]) == Ok(acc + values[k..])
    decreases |cs| - k
  {
    if k == |cs| {
      assert acc + values[k..] == acc;
    } else {
      var v, rest := values[k], cs[k..];
      assert rest[0] == cs[k] && rest[1..] == cs[k + 1..];
      assert Means(cs[k], values[k]);
      ParseAllNext(acc, rest, v);
      EachComponentFrom(acc + [values[k]], cs, values, k + 1);
      assert acc + [values[k]] + values[k + 1..] == acc + values[k..];
    }
  }

  /** A list of components that are all accepted gives their values in order. */
  lemma EachComponentCounts(acc: Path, cs: seq<string>, values: Path)
    requires AllMean(cs, values)
    ensures ParseAll(acc, cs) == Ok(acc + values)
  {
    EachComponentFrom(acc, cs, values, 0);
    assert cs[0..] == cs && values[0..] == values;
  }

  /** Otherwise it is refused for the first one that is not. */
  lemma {:induction false} FirstBadComponent(acc: Path, cs: seq<string>, k: nat)
    requires k < |cs| && ParseComponent(cs[k]).Err? && forall i :: 0 <= i < k ==> ParseComponent(cs[i]).Ok?
    ensures ParseAll(acc, cs) == Err(ParseComponent(cs[k]).error)
    decreases k
  {
    if k > 0 {
      assert cs[1..][k - 1] == cs[k];
      FirstBadComponent(acc + [ParseComponent(cs[0]).value], cs[1..], k - 1);
    }
  }

  lemma {:induction false} LeftStart(s: string)
    requires !AllSpace(s)
    ensures TrimLeft(s) != "" && !IsSpace(TrimLeft(s)[0])
  {
    if IsSpace(s[0]) {
      assert !AllSpace(s[1..]);
      LeftStart(s[1..]);
    }
  }

  lemma {:induction false} LeftStays(s: string)
    requires s != "" && !IsSpace(s[0])
    ensures TrimRight(s) != ""
  {
    if IsSpace(s[|s| - 1]) {
      LeftStays(s[..|s| - 1]);
    }
  }

  lemma {:induction false} SomethingLeft(s: string)
    requires !AllSpace(s)
    ensures TrimLeft(s) != "" && TrimSpace(s) != ""
  {
    LeftStart(s);
    LeftStays(TrimLeft(s));
  }

  lemma {:induction false} TrimmedAway(s: string)
    ensures TrimSpace(s) == "" <==> AllSpace(s)
  {
    TrimLeftThenPad(s, "");
    assert s + "" == s && TrimLeft(s) + "" == TrimLeft(s);
    if !AllSpace(s) {
      SomethingLeft(s);
    }
  }

  lemma {:induction false} ComponentErrors(acc: Path, cs: seq<string>)
    ensures ParseAll(acc, cs) != Err(Ambiguous) && ParseAll(acc, cs) != Err(Empty)
    decreases |cs|
  {
    if cs != [] {
      var v := ParseComponent(cs[0]);
      if v.Ok? {
        ComponentErrors(acc + [v.value], cs[1..]);
      }
    }
  }

  /** The two errors about the whole path: no text before the first slash, and an absolute
      path without components. */
  lemma PathErrors(s: string)
    ensures Parse(s) == Err(Ambiguous) <==> AllSpace(Split(s)[0])
    ensures Parse(s) == Err(Empty) <==> |Split(s)| == 1 && TrimSpace(Split(s)[0]) == "m"
  {
    var cs := Split(s);
    TrimmedAway(cs[0]);
    ComponentErrors(DEFAULT_ROOT, cs);
    ComponentErrors([], cs[1..]);
  }

  // ---------- Printing ----------

  lemma {:induction false} DigitsAreNumeral(n: nat)
    ensures Digits(n) == Numeral(n, 10, false)
  {
    var d := n % 10;
    assert d in [0, 1, 2, 3, 4, 5, 6, 7, 8, 9];
    if n >= 10 {
      DigitsAreNumeral(n / 10);
    }
  }

  /** A component is printed as a decimal numeral, from 2^31 on less that and with a quote. */
  lemma ComponentPrints(x: Uint32)
    ensures PrintComponent(x) ==
      if x >= 0x8000_0000 then Numeral(x - 0x8000_0000, 10, false) + "'" else Numeral(x, 10, false)
  {
    DigitsAreNumeral(if x >= 0x8000_0000 then x - 0x8000_0000 else x);
  }

  /** The root that relative paths are under. */
  lemma RootPrints()
    ensures Print(DEFAULT_ROOT) == "m/44'/60'/0'/0"
  {
    var a, b, c: Path := [HARDENED + 44], [HARDENED + 44, HARDENED + 60], [HARDENED + 44, HARDENED + 60, HARDENED];
    assert Digits(44) == "44" && Digits(60) == "60" && Digits(0) == "0";
    assert a[..0] == [] && Print(a) == "m/44'";
    assert b[..1] == a && Print(b) == "m/44'/60'";
    assert c[..2] == b && Print(c) == "m/44'/60'/0'";
    assert DEFAULT_ROOT[..3] == c;
  }
}
