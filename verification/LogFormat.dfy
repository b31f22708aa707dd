/** Thousands separators of log/format.go. */
module LogFormat {
  import opened Decimal
  import opened Integers

  // ---------- What grouping means ----------

  /** A comma before every third digit from the right, none in front. */
  function Commas(t: string): string {
    if |t| <= 3 then t else Commas(t[..|t| - 3]) + "," + t[|t| - 3..]
  }

  function StripCommas(s: string): string {
    if s == [] then [] else
    var rest := StripCommas(s[..|s| - 1]);
    if s[|s| - 1] == ',' then rest else rest + [s[|s| - 1]]
  }

  function Sign(n: int): string { if n < 0 then "-" else "" }

  function Abs(n: int): nat { if n < 0 then -n else n }

  /** The log form of n: numbers of six digits and more are grouped. */
  function Grouped(n: int): string {
    Sign(n) + if Abs(n) < 100_000 then Digits(Abs(n)) else Commas(Digits(Abs(n)))
  }

  lemma {:induction false} StripConcat(a: string, b: string)
    ensures StripCommas(a + b) == StripCommas(a) + StripCommas(b)
    decreases |b|
  {
    if b == [] {
      assert a + b == a;
    } else {
      var b' := b[..|b| - 1];
      assert (a + b)[..|a + b| - 1] == a + b';
      StripConcat(a, b');
    }
  }

  lemma {:induction false} StripNothing(t: string)
    requires ',' !in t
    ensures StripCommas(t) == t
  {
    if t != [] {
      StripNothing(t[..|t| - 1]);
      assert t == t[..|t| - 1] + [t[|t| - 1]];
    }
  }

  lemma {:induction false} StripUndoesCommas(t: string)
    requires ',' !in t
    ensures StripCommas(Commas(t)) == t
    decreases |t|
  {
    if |t| <= 3 {
      StripNothing(t);
    } else {
      var a, b := t[..|t| - 3], t[|t| - 3..];
      StripUndoesCommas(a);
      StripNothing(b);
      StripConcat(Commas(a) + ",", b);
      StripConcat(Commas(a), ",");
      assert StripCommas(",") == [];
      assert t == a + b;
    }
  }

  lemma {:induction false} CommasLength(t: string)
    requires t != []
    ensures |Commas(t)| == |t| + (|t| - 1) / 3
    decreases |t|
  {
    if |t| > 3 {
      CommasLength(t[..|t| - 3]);
    }
  }

  /** Counting from the right, exactly every fourth character is a comma. */
  lemma {:induction false} CommaPositions(t: string, d: nat)
    requires ',' !in t && d < |Commas(t)|
    ensures Commas(t)[|Commas(t)| - 1 - d] == ',' <==> d % 4 == 3
    decreases |t|
  {
    if |t| > 3 {
      var a := t[..|t| - 3];
      if d >= 4 {
        CommaPositions(a, d - 4);
        assert Commas(t)[|Commas(t)| - 1 - d] == Commas(a)[|Commas(a)| - 1 - (d - 4)];
        assert (d - 4) % 4 == d % 4;
      }
    }
  }

  lemma DigitsNoComma(n: nat)
    ensures ',' !in Digits(n)
  {
  }

  /** The number a signed numeral stands for. */
  function SignedValue(s: string): int
    requires s != [] && AllDigits(if s[0] == '-' then s[1..] else s)
  {
    if s[0] == '-' then 0 - Value(s[1..]) else Value(s)
  }

  lemma SignedNumeral(n: int)
    ensures SignedValue(Sign(n) + Digits(Abs(n))) == n
  {
    var t := Digits(Abs(n));
    ValueOfDigits(Abs(n));
    assert n < 0 ==> (Sign(n) + t)[1..] == t;
    assert n >= 0 ==> Sign(n) + t == t;
  }

  /** Deleting the commas gives the numeral of n, and reading that gives n back. */
  lemma GroupedReadsBack(n: int)
    ensures StripCommas(Grouped(n)) == Sign(n) + Digits(Abs(n))
    ensures SignedValue(Sign(n) + Digits(Abs(n))) == n
  {
    var t := Digits(Abs(n));
    DigitsNoComma(Abs(n));
    StripNothing(Sign(n));
    if Abs(n) < 100_000 {
      StripConcat(Sign(n), t);
      StripNothing(t);
    } else {
      StripConcat(Sign(n), Commas(t));
      StripUndoesCommas(t);
    }
    SignedNumeral(n);
  }

  /** From 100000 upward commas stand exactly at every fourth place from the right. */
  lemma GroupedPositions(n: int, d: nat)
    requires d < |Grouped(n)|
    ensures Grouped(n)[|Grouped(n)| - 1 - d] == ',' <==>
      Abs(n) >= 100_000 && d % 4 == 3 && d < |Grouped(n)| - |Sign(n)|
  {
    var t := Digits(Abs(n));
    DigitsNoComma(Abs(n));
    if Abs(n) >= 100_000 && d < |Commas(t)| {
      CommaPositions(t, d);
      assert Grouped(n)[|Grouped(n)| - 1 - d] == Commas(t)[|Commas(t)| - 1 - d];
    }
  }

  // ---------- What the loops emit ----------

  /** The text loop, from the right, with `comma` digits since the last separator. */
  function GroupFrom(t: string, comma: nat): string
    decreases |t|, if comma == 3 then 1 else 0
  {
    if t == [] then []
    else if comma == 3 then GroupFrom(t, 0) + ","
    else GroupFrom(t[..|t| - 1], comma + 1) + [t[|t| - 1]]
  }

  lemma {:induction false} GroupIsCommas(t: string)
    ensures GroupFrom(t, 0) == Commas(t)
    decreases |t|
  {
    if t != [] {
      var t1 := t[..|t| - 1];
      assert GroupFrom(t, 0) == GroupFrom(t1, 1) + [t[|t| - 1]];
      if t1 != [] {
        var t2 := t1[..|t1| - 1];
        assert GroupFrom(t1, 1) == GroupFrom(t2, 2) + [t1[|t1| - 1]];
        if t2 != [] {
          var t3 := t2[..|t2| - 1];
          assert GroupFrom(t2, 2) == GroupFrom(t3, 3) + [t2[|t2| - 1]];
          if t3 != [] {
            GroupIsCommas(t3);
            assert t3 == t[..|t| - 3] && t[|t| - 3..] == [t2[|t2| - 1], t1[|t1| - 1], t[|t| - 1]];
          }
        }
      }
    }
  }

  /** The digit loop of formatLogfmtUint64. */
  function Emit(n: nat, comma: nat): string
    decreases n, if comma == 3 then 1 else 0
  {
    if n == 0 then []
    else if comma == 3 then Emit(n, 0) + ","
    else Emit(n / 10, comma + 1) + [Digit(n % 10)]
  }

  /** Both loops produce the same grouping. */
  lemma {:induction false} EmitIsGroup(n: nat, comma: nat)
    requires n > 0 && comma <= 3
    ensures Emit(n, comma) == GroupFrom(Digits(n), comma)
    decreases n, if comma == 3 then 1 else 0
  {
    var t := Digits(n);
    if comma == 3 {
      EmitIsGroup(n, 0);
    } else if n < 10 {
      assert t[..|t| - 1] == [];
    } else {
      EmitIsGroup(n / 10, comma + 1);
      assert t[..|t| - 1] == Digits(n / 10);
    }
  }

  // ---------- The methods ----------

  /** Negation in int64 wraps at the minimum. */
  function NegateInt64(n: int): (r: int)
    requires IsInt64(n)
    ensures IsInt64(r)
  {
    if n == -TWO63 then n else -n
  }

  /** Negating and converting gives the absolute value, at the minimum too. */
  lemma NegatedExact(n: int)
    requires IsInt64(n)
    ensures n < 0 ==> ToUint64(NegateInt64(n)) == -n
    ensures n >= 0 ==> ToUint64(n) == n
  {
  }

  /** The least number of twenty digits. */
  const TEN19: nat := 10_000_000_000_000_000_000

  /** The 26-byte buffer is long enough for 20 digits, or for 19 digits and a sign, and for
      no more. */
  lemma EmitFits(n: nat, neg: bool)
    requires 0 < n <= MAX_UINT64
    ensures Emit(n, 0) == Commas(Digits(n))
    ensures |Emit(n, 0)| + (if neg then 1 else 0) <= 26 <==> !neg || n < TEN19
  {
    EmitIsGroup(n, 0);
    GroupIsCommas(Digits(n));
    CommasLength(Digits(n));
    Pow10Of20();
    DigitCount(n, 20);
    if n < TEN19 {
      DigitCount(n, 19);
    } else {
      DigitsAtLeast(n, 19);
    }
  }

  method Put(buf: array<char>, i: int, c: char)
    requires 0 <= i < buf.Length
    modifies buf
    ensures buf[i..] == [c] + old(buf[i + 1..])
  {
    buf[i] := c;
  }

  /** The digit loop, from the end of the buffer down; i is the last free slot. */
  method WriteGroups(out: array<char>, n: nat) returns (i: int)
    requires |Emit(n, 0)| <= out.Length
    modifies out
    ensures -1 <= i == out.Length - 1 - |Emit(n, 0)| && out[i + 1..] == Emit(n, 0)
  {
    i := out.Length - 1;
    var comma := 0;
    var m := n;
    while m > 0
      invariant 0 <= comma <= 3 && -1 <= i < out.Length
      invariant Emit(m, comma) + out[i + 1..] == Emit(n, 0)
      decreases m, comma
    {
      if comma == 3 {
        comma := 0;
        Put(out, i, ',');
      } else {
        comma := comma + 1;
        Put(out, i, Digit(m % 10));
        m := m / 10;
      }
      i := i - 1;
    }
  }

  /** formatLogfmtUint64; with a sign and twenty digits the buffer would be too short and
      the source would panic. */
  method FormatUnsigned(n: nat, neg: bool) returns (s: string)
    requires n <= MAX_UINT64 && (neg ==> n < TEN19)
    ensures s == Grouped(if neg then 0 - n else n)
  {
    if n < 100_000 {
      return if neg && n > 0 then "-" + Digits(n) else Digits(n);
    }
    var out := new char[26](_ => '0');
    EmitFits(n, neg);
    var i := WriteGroups(out, n);
    if neg {
      Put(out, i, '-');
      i := i - 1;
    }
    return out[i + 1..];
  }

  method FormatInt64(n: int) returns (s: string)
    requires IsInt64(n)
    ensures s == Grouped(n)
  {
    NegatedExact(n);
    if n < 0 {
      s := FormatUnsigned(ToUint64(NegateInt64(n)), true);
    } else {
      s := FormatUnsigned(ToUint64(n), false);
    }
  }

  method FormatUint64(n: nat) returns (s: string)
    requires n <= MAX_UINT64
    ensures s == Grouped(n)
  {
    s := FormatUnsigned(n, false);
  }

  /** What the text loop has yet to write when position j of sign + digits is next. */
  ghost function ToCome(sign: string, digits: string, j: int, comma: nat): string
    requires -1 <= j < |sign| + |digits|
  {
    if j + 1 < |sign| then "" else sign + GroupFrom(digits[..j + 1 - |sign|], comma)
  }

  /** What one turn of the text loop writes for character c. */
  function Chunk(c: char, comma: nat): string {
    if c != '-' && comma == 3 then [c, ','] else [c]
  }

  function CommaAfter(c: char, comma: nat): nat {
    if c == '-' then comma else if comma == 3 then 1 else comma + 1
  }

  lemma {:induction false} GroupStep(d: string, comma: nat)
    requires d != [] && comma <= 3 && d[|d| - 1] != '-'
    ensures var c := d[|d| - 1];
      GroupFrom(d, comma) == GroupFrom(d[..|d| - 1], CommaAfter(c, comma)) + Chunk(c, comma)
  {
    if comma == 3 {
      var c := d[|d| - 1];
      assert GroupFrom(d, 0) == GroupFrom(d[..|d| - 1], 1) + [c];
      assert [c] + "," == [c, ','];
    }
  }

  lemma ToComeDigit(sign: string, digits: string, j: nat, comma: nat)
    requires AllDigits(digits) && |sign| <= j < |sign| + |digits| && comma <= 3
    ensures var c := digits[j - |sign|];
      ToCome(sign, digits, j, comma) == ToCome(sign, digits, j - 1, CommaAfter(c, comma)) + Chunk(c, comma)
  {
    var d := digits[..j + 1 - |sign|];
    assert d[..|d| - 1] == digits[..j - |sign|];
    GroupStep(d, comma);
  }

  lemma ToComeStep(sign: string, digits: string, j: nat, comma: nat)
    requires (sign == "" || sign == "-") && AllDigits(digits) && j < |sign| + |digits| && comma <= 3
    ensures var c := (sign + digits)[j];
      ToCome(sign, digits, j, comma) == ToCome(sign, digits, j - 1, CommaAfter(c, comma)) + Chunk(c, comma)
  {
    if j >= |sign| {
      ToComeDigit(sign, digits, j, comma);
    } else {
      assert digits[..0] == [] && sign == "-";
      assert ToCome(sign, digits, 0, comma) == "-";
    }
  }

  /** The body of the text loop: the character, with a separator behind it when one is due. */
  method WriteChar(buf: array<char>, i: int, comma: nat, c: char, ghost before: string, ghost full: string)
    returns (i': int, comma': nat)
    requires -1 <= i < buf.Length && comma <= 3
    requires before + Chunk(c, comma) + buf[i + 1..] == full && |full| <= buf.Length
    modifies buf
    ensures -1 <= i' < buf.Length && comma' == CommaAfter(c, comma)
    ensures before + buf[i' + 1..] == full
  {
    i', comma' := i, comma;
    if c == '-' {
      Put(buf, i', c);
    } else {
      if comma' == 3 {
        Put(buf, i', ',');
        i', comma' := i' - 1, 0;
      }
      Put(buf, i', c);
      comma' := comma' + 1;
    }
    i' := i' - 1;
  }

  lemma GroupFits(sign: string, digits: string) returns (full: string)
    requires (sign == "" || sign == "-") && digits != []
    ensures full == sign + Commas(digits) == ToCome(sign, digits, |sign| + |digits| - 1, 0)
    ensures |full| <= |sign + digits| + |sign + digits| / 3
  {
    GroupIsCommas(digits);
    CommasLength(digits);
    assert digits[..|digits|] == digits;
    full := sign + Commas(digits);
  }

  /** The loop shared by formatLogfmtBigInt and formatLogfmtUint256. `text` is a numeral,
      with a sign or without; the buffer of len + len/3 never runs short. */
  method GroupText(text: string, ghost sign: string, ghost digits: string) returns (s: string)
    requires text == sign + digits && (sign == "" || sign == "-") && digits != [] && AllDigits(digits)
    ensures s == sign + Commas(digits)
  {
    ghost var full := GroupFits(sign, digits);
    var buf := new char[|text| + |text| / 3](_ => '0');
    var comma := 0;
    var i := buf.Length - 1;
    var j := |text| - 1;
    while j >= 0
      invariant -1 <= j < |text| && comma <= 3 && -1 <= i < buf.Length
      invariant ToCome(sign, digits, j, comma) + buf[i + 1..] == full
    {
      ToComeStep(sign, digits, j, comma);
      i, comma := WriteChar(buf, i, comma, text[j], ToCome(sign, digits, j - 1, CommaAfter(text[j], comma)), full);
      j := j - 1;
    }
    return buf[i + 1..];
  }

  /** formatLogfmtBigInt, for integers of any size. */
  method FormatBigInt(n: int) returns (s: string)
    ensures s == Grouped(n)
  {
    if 0 <= n <= MAX_UINT64 {
      s := FormatUint64(n);
    } else if IsInt64(n) {
      s := FormatInt64(n);
    } else {
      s := GroupText(Sign(n) + Digits(Abs(n)), Sign(n), Digits(Abs(n)));
    }
  }

  /** formatLogfmtUint256. */
  method FormatUint256(n: nat) returns (s: string)
    ensures s == Grouped(n)
  {
    if n <= MAX_UINT64 {
      s := FormatUint64(n);
    } else {
      s := GroupText(Digits(n), "", Digits(n));
    }
  }
}
