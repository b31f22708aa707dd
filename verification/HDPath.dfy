/** HD wallet derivation paths (accounts/hd.go): printing and parsing. */
module HDPath {
  import opened Decimal
  import opened Options

  type Uint32 = x: int | 0 <= x < 0x1_0000_0000
  type Path = seq<Uint32>

  const HARDENED := 0x8000_0000
  const DEFAULT_ROOT: Path := [HARDENED + 44, HARDENED + 60, HARDENED, 0]

  datatype ParseError =
    | Ambiguous
    | Empty
    | InvalidComponent(text: string)
    | OutOfRange(value: int, hardened: bool)

  datatype Result<+T> = Ok(value: T) | Err(error: ParseError)

  // ---------- Library functions ----------

  /** unicode.IsSpace. */
  predicate IsSpace(c: char) {
    || c == ' ' || ('\t' <= c <= '\r') || c == '\U{0085}' || c == '\U{00A0}' || c == '\U{1680}'
    || ('\U{2000}' <= c <= '\U{200A}') || c == '\U{2028}' || c == '\U{2029}' || c == '\U{202F}'
    || c == '\U{205F}' || c == '\U{3000}'
  }

  function TrimLeft(s: string): (r: string)
    ensures |r| <= |s|
  {
    if s != [] && IsSpace(s[0]) then TrimLeft(s[1..]) else s
  }

  function TrimRight(s: string): (r: string)
    ensures |r| <= |s|
  {
    if s != [] && IsSpace(s[|s| - 1]) then TrimRight(s[..|s| - 1]) else s
  }

  /** strings.TrimSpace */
  function TrimSpace(s: string): string { TrimRight(TrimLeft(s)) }

  /** strings.Split at '/'. */
  function Split(s: string): (r: seq<string>)
    ensures |r| >= 1
  {
    if s == [] then [""]
    else if s[0] == '/' then [""] + Split(s[1..])
    else var r := Split(s[1..]); [[s[0]] + r[0]] + r[1..]
  }

  /** Where the scan of a number stands: at its start, behind a digit or prefix, or behind
      an underscore. */
  datatype Prev = AtStart | AfterDigit | AfterSeparator

  function DigitIn(c: char): nat {
    if '0' <= c <= '9' then c as int - '0' as int
    else if 'a' <= c <= 'z' then c as int - 'a' as int + 10
    else if 'A' <= c <= 'Z' then c as int - 'A' as int + 10
    else 255
  }

  /** Digits of the given base up to the end of the text; underscores only between digits
      or behind a prefix. */
  function ScanDigits(s: string, base: nat, prev: Prev, count: nat, acc: nat): Option<nat> {
    if s == [] then
      if prev == AfterSeparator || count == 0 then None else Some(acc)
    else if s[0] == '_' then
      if prev != AfterDigit then None else ScanDigits(s[1..], base, AfterSeparator, count, acc)
    else if DigitIn(s[0]) < base then
      ScanDigits(s[1..], base, AfterDigit, count + 1, acc * base + DigitIn(s[0]))
    else None
  }

  function ScanNat(s: string): Option<nat> {
    if |s| >= 2 && s[0] == '0' then
      if s[1] in "bB" then ScanDigits(s[2..], 2, AfterDigit, 0, 0)
      else if s[1] in "oO" then ScanDigits(s[2..], 8, AfterDigit, 0, 0)
      else if s[1] in "xX" then ScanDigits(s[2..], 16, AfterDigit, 0, 0)
      else ScanDigits(s[1..], 8, AfterDigit, 0, 0)
    else ScanDigits(s, 10, AtStart, 0, 0)
  }

  /** big.Int.SetString with base 0. */
  function ScanInt(s: string): Option<int> {
    if s != [] && s[0] == '-' then
      var n := ScanNat(s[1..]);
      if n.None? then None else Some(0 - n.value)
    else
      var n := ScanNat(if s != [] && s[0] == '+' then s[1..] else s);
      if n.None? then None else Some(n.value)
  }

  // ---------- Parsing ----------

  function ParseNumber(text: string, hardened: bool): Result<Uint32> {
    var value: int := if hardened then HARDENED else 0;
    var v := ScanInt(text);
    if v.None? then Err(InvalidComponent(text))
    else if v.value < 0 || v.value > 0xFFFF_FFFF - value then Err(OutOfRange(v.value, hardened))
    else Ok(value + v.value)
  }

  function ParseComponent(component: string): Result<Uint32> {
    var c := TrimSpace(component);
    if c != [] && c[|c| - 1] == '\'' then ParseNumber(TrimSpace(c[..|c| - 1]), true)
    else ParseNumber(c, false)
  }

  function ParseAll(acc: Path, components: seq<string>): Result<Path>
    decreases |components|
  {
    if components == [] then Ok(acc)
    else
      var v := ParseComponent(components[0]);
      if v.Err? then Err(v.error) else ParseAll(acc + [v.value], components[1..])
  }

  function ParseComponents(components: seq<string>): Result<Path>
    requires |components| >= 1
  {
    var head := TrimSpace(components[0]);
    if head == "" then Err(Ambiguous)
    else if head != "m" then ParseAll(DEFAULT_ROOT, components)
    else if |components| == 1 then Err(Empty)
    else ParseAll([], components[1..])
  }

  function Parse(path: string): Result<Path> { ParseComponents(Split(path)) }

  /** The body of the loop of ParseDerivationPath. */
  method ParseOne(text: string) returns (r: Result<Uint32>)
    ensures r == ParseComponent(text)
  {
    var component := TrimSpace(text);
    var value := 0;
    if component != [] && component[|component| - 1] == '\'' {
      value := HARDENED;
      component := TrimSpace(component[..|component| - 1]);
    }
    var bigval := ScanInt(component);
    if bigval.None? {
      return Err(InvalidComponent(component));
    }
    var max := 0xFFFF_FFFF - value;
    if bigval.value < 0 || bigval.value > max {
      return Err(OutOfRange(bigval.value, value != 0));
    }
    return Ok(value + bigval.value);
  }

  method ParseDerivationPath(path: string) returns (r: Result<Path>)
    ensures r == Parse(path)
  {
    var result: Path := [];
    var components := Split(path);
    var head := TrimSpace(components[0]);
    if head == "" {
      return Err(Ambiguous);
    } else if head == "m" {
      components := components[1..];
    } else {
      result := result + DEFAULT_ROOT;
      assert result == DEFAULT_ROOT;
    }
    if |components| == 0 {
      return Err(Empty);
    }
    assert ParseAll(result, components) == Parse(path);
    for i := 0 to |components|
      invariant ParseAll(result, components[i..]) == Parse(path)
    {
      assert components[i..][0] == components[i] && components[i..][1..] == components[i + 1..];
      var value := ParseOne(components[i]);
      if value.Err? {
        return Err(value.error);
      }
      result := result + [value.value];
    }
    return Ok(result);
  }

  // ---------- Printing ----------

  function PrintComponent(x: Uint32): string {
    if x >= HARDENED then Digits(x - HARDENED) + "'" else Digits(x)
  }

  function Print(p: Path): string {
    if p == [] then "m" else Print(p[..|p| - 1]) + "/" + PrintComponent(p[|p| - 1])
  }

  /** The body of the loop of String. */
  method AppendComponent(before: string, x: Uint32) returns (result: string)
    ensures result == before + "/" + PrintComponent(x)
  {
    var component: int := x;
    var hardened := false;
    if component >= HARDENED {
      component := component - HARDENED;
      hardened := true;
    }
    result := before + "/" + Digits(component);
    if hardened {
      result := result + "'";
    }
  }

  method ToString(path: Path) returns (result: string)
    ensures result == Print(path)
  {
    result := "m";
    for i := 0 to |path|
      invariant result == Print(path[..i])
    {
      assert path[..i + 1][..i] == path[..i];
      result := AppendComponent(result, path[i]);
    }
    assert path[..|path|] == path;
  }

  // ---------- Splitting what was joined ----------

  lemma {:induction false} SplitPlain(c: string)
    requires '/' !in c
    ensures Split(c) == [c]
  {
    if c != [] {
      SplitPlain(c[1..]);
      assert [c[0]] + c[1..] == c;
    }
  }

  lemma {:induction false} SplitConcat(a: string, b: string)
    ensures Split(a + "/" + b) == Split(a) + Split(b)
    decreases |a|
  {
    if a == [] {
      assert (a + "/" + b)[1..] == b;
    } else {
      assert (a + "/" + b)[1..] == a[1..] + "/" + b;
      SplitConcat(a[1..], b);
    }
  }

  function PrintAll(p: Path): (r: seq<string>)
    ensures |r| == |p| && forall i :: 0 <= i < |p| ==> r[i] == PrintComponent(p[i])
  {
    seq(|p|, i requires 0 <= i < |p| => PrintComponent(p[i]))
  }

  lemma PrintComponentPlain(x: Uint32)
    ensures '/' !in PrintComponent(x)
  {
  }

  lemma {:induction false} SplitPrinted(p: Path)
    ensures Split(Print(p)) == ["m"] + PrintAll(p)
  {
    if p == [] {
      SplitPlain("m");
    } else {
      var x := p[|p| - 1];
      SplitPrinted(p[..|p| - 1]);
      SplitConcat(Print(p[..|p| - 1]), PrintComponent(x));
      PrintComponentPlain(x);
      SplitPlain(PrintComponent(x));
      assert PrintAll(p) == PrintAll(p[..|p| - 1]) + [PrintComponent(x)];
    }
  }

  // ---------- One component there and back ----------

  lemma ShiftDigit(acc: nat, d: nat, p: nat)
    ensures (acc * 10 + d) * p == acc * (10 * p) + d * p
  {
  }

  lemma AppendDigit(d: nat, p: nat, v: nat, e: nat)
    ensures (d * p + v) * 10 + e == d * (10 * p) + (v * 10 + e)
  {
  }

  lemma {:induction false} ValueFromLeft(s: string)
    requires AllDigits(s) && s != []
    ensures Value(s) == DigitValue(s[0]) * Pow10(|s| - 1) + Value(s[1..])
    decreases |s|
  {
    if |s| > 1 {
      var t := s[..|s| - 1];
      ValueFromLeft(t);
      assert t[1..] == s[1..][..|s| - 2];
      AppendDigit(DigitValue(s[0]), Pow10(|s| - 2), Value(t[1..]), DigitValue(s[|s| - 1]));
    } else {
      assert s[..0] == [] && s[1..] == [];
    }
  }

  lemma {:induction false} ScanDecimal(s: string, prev: Prev, count: nat, acc: nat)
    requires AllDigits(s) && count + |s| > 0 && prev != AfterSeparator
    ensures ScanDigits(s, 10, prev, count, acc) == Some(acc * Pow10(|s|) + Value(s))
    decreases |s|
  {
    if s != [] {
      var d := DigitValue(s[0]);
      ScanDecimal(s[1..], AfterDigit, count + 1, acc * 10 + d);
      ValueFromLeft(s);
      ShiftDigit(acc, d, Pow10(|s| - 1));
    }
  }

  lemma ScanPrinted(n: nat)
    ensures ScanInt(Digits(n)) == Some(n)
  {
    var s := Digits(n);
    NoLeadingZero(n);
    ScanDecimal(s, AtStart, 0, 0);
    ValueOfDigits(n);
    assert IsDigit(s[0]);
  }

  lemma TrimPlain(s: string)
    requires s != [] ==> !IsSpace(s[0]) && !IsSpace(s[|s| - 1])
    ensures TrimSpace(s) == s
  {
  }

  lemma ComponentRoundTrip(x: Uint32)
    ensures ParseComponent(PrintComponent(x)) == Ok(x)
  {
    var c := PrintComponent(x);
    var n := if x >= HARDENED then x - HARDENED else x;
    var t := Digits(n);
    assert IsDigit(t[0]) && IsDigit(t[|t| - 1]);
    TrimPlain(t);
    TrimPlain(c);
    ScanPrinted(n);
    if x >= HARDENED {
      assert c[..|c| - 1] == t;
    }
  }

  // ---------- The whole path ----------

  /** Components that parse one by one parse together. */
  lemma {:induction false} ParsePrefix(acc: Path, p: Path, rest: seq<string>)
    ensures ParseAll(acc, PrintAll(p) + rest) == ParseAll(acc + p, rest)
    decreases |p|
  {
    var cs := PrintAll(p) + rest;
    if p == [] {
      assert cs == rest && acc + p == acc;
    } else {
      ComponentRoundTrip(p[0]);
      assert cs[1..] == PrintAll(p[1..]) + rest;
      ParsePrefix(acc + [p[0]], p[1..], rest);
      assert acc + [p[0]] + p[1..] == acc + p;
    }
  }

  lemma AbsoluteParse(cs: seq<string>)
    ensures ParseComponents(["m"] + cs) == if cs == [] then Err(Empty) else ParseAll([], cs)
  {
    TrimPlain("m");
    assert (["m"] + cs)[1..] == cs;
  }

  /** Parsing undoes printing for every non-empty path; the empty path prints as "m", which
      is refused. */
  lemma RoundTrip(p: Path)
    ensures Parse(Print(p)) == if p == [] then Err(Empty) else Ok(p)
  {
    SplitPrinted(p);
    AbsoluteParse(PrintAll(p));
    ParsePrefix([], p, []);
    assert PrintAll(p) + [] == PrintAll(p) && [] + p == p;
  }

  lemma {:induction false} ParseAllGrows(acc: Path, cs: seq<string>)
    ensures var r := ParseAll(acc, cs); r.Ok? ==> |r.value| == |acc| + |cs|
    decreases |cs|
  {
    if cs != [] {
      var v := ParseComponent(cs[0]);
      if v.Ok? {
        ParseAllGrows(acc + [v.value], cs[1..]);
      }
    }
  }

  /** Printing what any accepted text means and parsing it again changes nothing. */
  lemma Reprint(s: string)
    requires Parse(s).Ok?
    ensures Parse(Print(Parse(s).value)) == Parse(s)
  {
    var cs := Split(s);
    ParseAllGrows([], cs[1..]);
    ParseAllGrows(DEFAULT_ROOT, cs);
    RoundTrip(Parse(s).value);
  }

  lemma SplitJoined(t: string, s: string, head: seq<string>, more: seq<string>)
    requires Split(t) == head + more
    ensures Split(t + "/" + s) == head + (more + Split(s))
  {
    SplitConcat(t, s);
  }

  lemma ParseComponentsUnder(root: Path, cs: seq<string>)
    requires cs != []
    ensures ParseComponents(["m"] + (PrintAll(root) + cs)) == ParseAll(root, cs)
  {
    AbsoluteParse(PrintAll(root) + cs);
    ParsePrefix([], root, cs);
    assert [] + root == root;
  }

  /** Components behind a printed path are parsed on top of it. */
  lemma ParseUnder(root: Path, s: string)
    ensures Parse(Print(root) + "/" + s) == ParseAll(root, Split(s))
  {
    SplitPrinted(root);
    SplitJoined(Print(root), s, ["m"], PrintAll(root));
    ParseComponentsUnder(root, Split(s));
  }

  /** A relative path means the same as the absolute one under the default root, errors
      included. */
  lemma RelativeIsUnderRoot(s: string)
    requires TrimSpace(Split(s)[0]) != "" && TrimSpace(Split(s)[0]) != "m"
    ensures Parse(s) == Parse(Print(DEFAULT_ROOT) + "/" + s)
  {
    ParseUnder(DEFAULT_ROOT, s);
  }

  // ---------- White space ----------

  predicate AllSpace(w: string) { forall i :: 0 <= i < |w| ==> IsSpace(w[i]) }

  lemma {:induction false} TrimLeftPad(w: string, s: string)
    requires AllSpace(w)
    ensures TrimLeft(w + s) == TrimLeft(s)
  {
    if w == [] {
      assert w + s == s;
    } else {
      assert (w + s)[1..] == w[1..] + s;
      TrimLeftPad(w[1..], s);
    }
  }

  lemma {:induction false} TrimRightPad(s: string, w: string)
    requires AllSpace(w)
    ensures TrimRight(s + w) == TrimRight(s)
    decreases |w|
  {
    if w == [] {
      assert s + w == s;
    } else {
      assert (s + w)[..|s + w| - 1] == s + w[..|w| - 1];
      TrimRightPad(s, w[..|w| - 1]);
    }
  }

  lemma {:induction false} TrimLeftThenPad(s: string, w: string)
    requires AllSpace(w)
    ensures TrimLeft(s + w) == if AllSpace(s) then "" else TrimLeft(s) + w
    decreases |s|
  {
    if s == [] {
      TrimLeftPad(w, "");
      assert s + w == w + "";
    } else {
      assert (s + w)[1..] == s[1..] + w;
      if IsSpace(s[0]) {
        TrimLeftThenPad(s[1..], w);
        assert AllSpace(s) <==> AllSpace(s[1..]);
      }
    }
  }

  lemma TrimIgnoresPadding(w: string, s: string, w': string)
    requires AllSpace(w) && AllSpace(w')
    ensures TrimSpace(w + s + w') == TrimSpace(s)
  {
    assert w + s + w' == w + (s + w');
    TrimLeftPad(w, s + w');
    TrimLeftThenPad(s, w');
    if AllSpace(s) {
      TrimLeftPad(s, "");
      assert s + "" == s;
    } else {
      TrimRightPad(TrimLeft(s), w');
    }
  }

  /** Space around a component is ignored. */
  lemma ComponentIgnoresPadding(w: string, c: string, w': string)
    requires AllSpace(w) && AllSpace(w')
    ensures ParseComponent(w + c + w') == ParseComponent(c)
  {
    TrimIgnoresPadding(w, c, w');
  }

  lemma {:induction false} TrimLeftQuote(s: string)
    ensures TrimLeft(s + "'") == TrimLeft(s) + "'"
  {
    if s == [] {
      assert s + "'" == "'" && !IsSpace('\'');
      assert TrimLeft("'") == "'";
    } else {
      assert (s + "'")[1..] == s[1..] + "'";
      TrimLeftQuote(s[1..]);
    }
  }

  lemma {:induction false} TrimLeftTwice(s: string)
    ensures TrimLeft(TrimLeft(s)) == TrimLeft(s)
  {
    if s != [] {
      TrimLeftTwice(s[1..]);
    }
  }

  /** A quote marks the component as hardened, with any space before it ignored too. */
  lemma QuoteHardens(c: string)
    ensures ParseComponent(c + "'") == ParseNumber(TrimSpace(c), true)
  {
    TrimLeftQuote(c);
    var t := TrimLeft(c) + "'";
    assert t[|t| - 1] == '\'' && t[..|t| - 1] == TrimLeft(c);
    assert TrimRight(t) == t;
    TrimLeftTwice(c);
  }

  ghost predicate PaddedAll(cs: seq<string>, ds: seq<string>) {
    |cs| == |ds| && forall i :: 0 <= i < |cs| ==> TrimSpace(cs[i]) == TrimSpace(ds[i])
  }

  lemma {:induction false} ParseAllIgnoresPadding(acc: Path, cs: seq<string>, ds: seq<string>)
    requires PaddedAll(cs, ds)
    ensures ParseAll(acc, cs) == ParseAll(acc, ds)
    decreases |cs|
  {
    if cs != [] {
      var v := ParseComponent(cs[0]);
      if v.Ok? {
        ParseAllIgnoresPadding(acc + [v.value], cs[1..], ds[1..]);
      }
    }
  }

  /** Two texts whose components differ only in the space around them mean the same. */
  lemma WhitespaceIgnored(s: string, t: string)
    requires PaddedAll(Split(s), Split(t))
    ensures Parse(s) == Parse(t)
  {
    ParseAllIgnoresPadding(DEFAULT_ROOT, Split(s), Split(t));
    ParseAllIgnoresPadding([], Split(s)[1..], Split(t)[1..]);
  }
}
