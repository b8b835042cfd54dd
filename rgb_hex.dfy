/** Rewriting `rgb(r, g, b)` colours into the `#rrggbb` notation: every
    `rgb(` ... `)` token of a text is replaced, a well-formed one by `#` and
    two lowercase hex digits per component, a malformed one by nothing. A
    well-formed token has decimal components only (no percentages), may
    carry whitespace only after a comma, and each component is taken
    modulo 256 rather than clipped to 255. */
module RgbHex {
  import opened Common

  predicate IsDigit(c: char) { '0' <= c <= '9' }

  /** The characters `\s` matches: space, tab, line feed, vertical tab,
      form feed and carriage return. */
  predicate IsSpace(c: char)
  {
    c == ' ' || c == '\t' || c == '\n' || c == '\r' || c as int == 11 || c as int == 12
  }

  predicate AllDigits(s: string) { forall k :: 0 <= k < |s| ==> IsDigit(s[k]) }

  predicate AllSpaces(s: string) { forall k :: 0 <= k < |s| ==> IsSpace(s[k]) }

  /** Length of the longest run of digits `s` starts with. */
  function DigitRun(s: string): (n: nat)
    ensures n <= |s| && AllDigits(s[..n])
    ensures n < |s| ==> !IsDigit(s[n])
  {
    if s != [] && IsDigit(s[0]) then
      var n := 1 + DigitRun(s[1..]);
      assert s[..n] == [s[0]] + s[1..][..n - 1];
      n
    else 0
  }

  /** Length of the longest run of whitespace `s` starts with. */
  function SpaceRun(s: string): (n: nat)
    ensures n <= |s| && AllSpaces(s[..n])
    ensures n < |s| ==> !IsSpace(s[n])
  {
    if s != [] && IsSpace(s[0]) then
      var n := 1 + SpaceRun(s[1..]);
      assert s[..n] == [s[0]] + s[1..][..n - 1];
      n
    else 0
  }

  /** The number a string of decimal digits denotes. */
  function DecimalValue(s: string): nat
    requires AllDigits(s)
  {
    if s == [] then 0 else 10 * DecimalValue(s[..|s| - 1]) + (s[|s| - 1] as int - '0' as int)
  }

  /** The largest integer of the 64-bit runtime. */
  const PhpIntMax: nat := 0x7fff_ffff_ffff_ffff

  /** `intval($s, 10)` on a string of digits: its value, saturated at the
      largest integer. */
  function IntVal(s: string): (n: nat)
    requires AllDigits(s)
    ensures n <= PhpIntMax
    ensures DecimalValue(s) <= PhpIntMax ==> n == DecimalValue(s)
    ensures DecimalValue(s) > PhpIntMax ==> n == PhpIntMax
  {
    if DecimalValue(s) <= PhpIntMax then DecimalValue(s) else PhpIntMax
  }

  // ---------------------------------------------------------------------
  // Hexadecimal

  /** The characters `base_convert` writes for base 16. */
  predicate IsLowerHexDigit(c: char)
  {
    '0' <= c <= '9' || 'a' <= c <= 'f'
  }

  /** Lowercase hex digit of a value below 16. */
  function HexDigit(d: nat): (c: char)
    requires d < 16
    ensures IsLowerHexDigit(c)
  {
    if d < 10 then ('0' as int + d) as char else ('a' as int + d - 10) as char
  }

  /** The value of a lowercase hex digit. */
  function HexValue(c: char): nat
  {
    if '0' <= c <= '9' then c as int - '0' as int
    else if 'a' <= c <= 'f' then c as int - 'a' as int + 10
    else 0
  }

  /** `base_convert($n, 10, 16)`: lowercase hex digits, no leading zeros. */
  function ToHex(n: nat): (r: string)
    ensures |r| >= 1
    decreases n
  {
    if n < 16 then [HexDigit(n)] else ToHex(n / 16) + [HexDigit(n % 16)]
  }

  /** The number a string of hex digits denotes. */
  function FromHex(s: string): nat
  {
    if s == [] then 0 else 16 * FromHex(s[..|s| - 1]) + HexValue(s[|s| - 1])
  }

  lemma HexValueOfDigit(d: nat)
    requires d < 16
    ensures HexValue(HexDigit(d)) == d
  {
  }

  /** Reading back the hex digits gives the number. */
  lemma {:induction false} FromHexToHex(n: nat)
    ensures FromHex(ToHex(n)) == n
    decreases n
  {
    HexValueOfDigit(n % 16);
    if n >= 16 {
      var s := ToHex(n);
      assert s[..|s| - 1] == ToHex(n / 16);
      FromHexToHex(n / 16);
    }
  }

  /** The last hex digit is that of the number modulo 16. */
  lemma ToHexLastDigit(n: nat)
    ensures ToHex(n)[|ToHex(n)| - 1] == HexDigit(n % 16)
  {
  }

  /** `str_to_hex`. */
  function StrToHex(s: string): string
    requires AllDigits(s)
  {
    ToHex(IntVal(s))
  }

  /** `substr($s, -2)`: the last two characters, or all of a shorter
      string. */
  function LastTwo(s: string): (r: string)
    ensures |s| >= 2 ==> r == [s[|s| - 2], s[|s| - 1]]
    ensures |s| < 2 ==> r == s
  {
    if |s| >= 2 then s[|s| - 2..] else s
  }

  /** Pads a single hex digit with a leading `0`. */
  function PadTwo(h: string): string
  {
    if |h| > 1 then h else "0" + h
  }

  /** One component of the result: the last two hex digits, padded with a
      `0` when there is only one. */
  function HexComponent(s: string): string
    requires AllDigits(s)
  {
    PadTwo(LastTwo(StrToHex(s)))
  }

  /** The value of two hex digits. */
  lemma FromHexPair(x: char, y: char)
    ensures FromHex([x, y]) == 16 * HexValue(x) + HexValue(y)
  {
    assert FromHex([x]) == HexValue(x) by {
      assert [x][..0] == [];
    }
    assert [x, y][..1] == [x];
  }

  /** A byte as two lowercase hex digits. */
  function Hex2(b: nat): (r: string)
    requires b < 256
    ensures |r| == 2 && FromHex(r) == b
    ensures IsLowerHexDigit(r[0]) && IsLowerHexDigit(r[1])
  {
    HexValueOfDigit(b / 16);
    HexValueOfDigit(b % 16);
    FromHexPair(HexDigit(b / 16), HexDigit(b % 16));
    [HexDigit(b / 16), HexDigit(b % 16)]
  }

  /** The two hex digits of the low byte are the last two of the number. */
  lemma LowByteDigits(n: nat)
    ensures (n % 256) / 16 == (n / 16) % 16
    ensures (n % 256) % 16 == n % 16
  {
    var q, r := n / 256, n % 256;
    assert n == 256 * q + r;
    assert n / 16 == 16 * q + r / 16;
  }

  /** The last two hex digits of a number, padded, are its low byte. */
  lemma PaddedLastTwo(n: nat)
    ensures PadTwo(LastTwo(ToHex(n))) == Hex2(n % 256)
  {
    LowByteDigits(n);
    if n >= 16 {
      ToHexLastDigit(n / 16);
      var h := ToHex(n);
      assert h == ToHex(n / 16) + [HexDigit(n % 16)];
      assert h[|h| - 2] == HexDigit((n / 16) % 16);
    }
  }

  /** Each component is the low byte of the (saturated) number, as two
      hex digits. */
  lemma HexComponentIsLowByte(s: string)
    requires AllDigits(s)
    ensures HexComponent(s) == Hex2(IntVal(s) % 256)
  {
    PaddedLastTwo(IntVal(s));
  }

  // ---------------------------------------------------------------------
  // One token

  /** The three digit strings `^rgb\((\d+),\s*(\d+),\s*(\d+)\)$` captures. */
  datatype Rgb = Rgb(r: string, g: string, b: string)

  /** The text of a token made of the given digit strings and whitespace:
      `rgb(` r `,` w1 g `,` w2 b `)`. */
  function RgbText(r: string, w1: string, g: string, w2: string, b: string): string
  {
    "rgb(" + (r + ("," + SecondText(w1, g, w2, b)))
  }

  /** The text after the first comma of a token. */
  function SecondText(w1: string, g: string, w2: string, b: string): string
  {
    w1 + (g + ("," + ThirdText(w2, b)))
  }

  /** The text after the second comma of a token. */
  function ThirdText(w2: string, b: string): string
  {
    w2 + (b + ")")
  }

  predicate WellFormedParts(r: string, w1: string, g: string, w2: string, b: string)
  {
    && r != [] && g != [] && b != []
    && AllDigits(r) && AllDigits(g) && AllDigits(b)
    && AllSpaces(w1) && AllSpaces(w2)
  }

  /** Matches a whole token against `^rgb\((\d+),\s*(\d+),\s*(\d+)\)$`.
      Digits, commas and whitespace are disjoint, so the greedy runs are the
      only way to match. */
  function ParseRgb(t: string): (v: Option<Rgb>)
    ensures v.Some? ==> AllDigits(v.value.r) && AllDigits(v.value.g) && AllDigits(v.value.b)
  {
    if |t| >= 4 && t[..4] == "rgb(" then ParseFields(t[4..]) else None
  }

  /** After `rgb(`: the first component and its comma. */
  function ParseFields(a: string): (v: Option<Rgb>)
    ensures v.Some? ==> AllDigits(v.value.r) && AllDigits(v.value.g) && AllDigits(v.value.b)
  {
    var n := DigitRun(a);
    if n == 0 || n == |a| || a[n] != ',' then None else ParseSecond(a[..n], a[n + 1..])
  }

  /** After the first comma: whitespace, the second component and its
      comma. */
  function ParseSecond(r: string, b: string): (v: Option<Rgb>)
    requires AllDigits(r)
    ensures v.Some? ==> v.value.r == r && AllDigits(v.value.g) && AllDigits(v.value.b)
  {
    var c := b[SpaceRun(b)..];
    var n := DigitRun(c);
    if n == 0 || n == |c| || c[n] != ',' then None else ParseThird(r, c[..n], c[n + 1..])
  }

  /** After the second comma: whitespace, the third component and the
      closing parenthesis, which must end the token. */
  function ParseThird(r: string, g: string, d: string): (v: Option<Rgb>)
    ensures v.Some? ==> v.value.r == r && v.value.g == g && AllDigits(v.value.b)
  {
    var e := d[SpaceRun(d)..];
    var n := DigitRun(e);
    if n == 0 || e[n..] != ")" then None else Some(Rgb(r, g, e[..n]))
  }

  lemma DigitRunOf(s: string, rest: string)
    requires AllDigits(s) && (rest == [] || !IsDigit(rest[0]))
    ensures DigitRun(s + rest) == |s|
  {
    if s != [] {
      assert (s + rest)[1..] == s[1..] + rest;
      DigitRunOf(s[1..], rest);
    }
  }

  lemma SpaceRunOf(s: string, rest: string)
    requires AllSpaces(s) && (rest == [] || !IsSpace(rest[0]))
    ensures SpaceRun(s + rest) == |s|
  {
    if s != [] {
      assert (s + rest)[1..] == s[1..] + rest;
      SpaceRunOf(s[1..], rest);
    }
  }

  lemma ParseThirdText(r: string, g: string, w2: string, b: string)
    requires b != [] && AllDigits(b) && AllSpaces(w2)
    ensures ParseThird(r, g, ThirdText(w2, b)) == Some(Rgb(r, g, b))
  {
    SpaceRunOf(w2, b + ")");
    var e := ThirdText(w2, b)[|w2|..];
    assert e == b + ")";
    DigitRunOf(b, ")");
    assert e[..|b|] == b && e[|b|..] == ")";
  }

  lemma ParseSecondText(r: string, w1: string, g: string, w2: string, b: string)
    requires WellFormedParts(r, w1, g, w2, b)
    ensures ParseSecond(r, SecondText(w1, g, w2, b)) == Some(Rgb(r, g, b))
  {
    var rest := ThirdText(w2, b);
    SpaceRunOf(w1, g + ("," + rest));
    var c := SecondText(w1, g, w2, b)[|w1|..];
    assert c == g + ("," + rest);
    DigitRunOf(g, "," + rest);
    assert c[..|g|] == g && c[|g| + 1..] == rest;
    ParseThirdText(r, g, w2, b);
  }

  /** Every well-formed token parses to its own digit strings. */
  lemma ParseRgbText(r: string, w1: string, g: string, w2: string, b: string)
    requires WellFormedParts(r, w1, g, w2, b)
    ensures ParseRgb(RgbText(r, w1, g, w2, b)) == Some(Rgb(r, g, b))
  {
    var t := RgbText(r, w1, g, w2, b);
    var rest := SecondText(w1, g, w2, b);
    var a := r + ("," + rest);
    assert t[..4] == "rgb(" && t[4..] == a;
    DigitRunOf(r, "," + rest);
    assert a[..|r|] == r && a[|r| + 1..] == rest;
    ParseSecondText(r, w1, g, w2, b);
  }

  /** A string around one of its characters. */
  lemma SplitAround(a: string, n: nat)
    requires n < |a|
    ensures a == a[..n] + ([a[n]] + a[n + 1..])
  {
  }

  lemma ParseThirdSound(r: string, g: string, d: string) returns (w2: string)
    requires ParseThird(r, g, d).Some?
    ensures ParseThird(r, g, d).value.b != [] && AllSpaces(w2)
    ensures d == ThirdText(w2, ParseThird(r, g, d).value.b)
  {
    var s := SpaceRun(d);
    var e := d[s..];
    var n := DigitRun(e);
    w2 := d[..s];
    assert e == e[..n] + ")";
    assert d == w2 + e;
  }

  /** A string with a comma after its first `s + n` characters, followed
      by the text after a token's second comma, is the text after a first
      comma. */
  lemma SecondTextOf(b: string, s: nat, n: nat, w2: string, v: string)
    requires s <= |b| && n < |b[s..]| && b[s..][n] == ','
    requires b[s..][n + 1..] == ThirdText(w2, v)
    ensures b == SecondText(b[..s], b[s..][..n], w2, v)
  {
    var c := b[s..];
    SplitAround(c, n);
    assert b == b[..s] + c;
  }

  lemma ParseSecondSound(r: string, b: string) returns (w1: string, w2: string)
    requires AllDigits(r) && ParseSecond(r, b).Some?
    ensures ParseSecond(r, b).value.g != [] && ParseSecond(r, b).value.b != []
    ensures AllSpaces(w1) && AllSpaces(w2)
    ensures b == SecondText(w1, ParseSecond(r, b).value.g, w2, ParseSecond(r, b).value.b)
  {
    var s := SpaceRun(b);
    var n := DigitRun(b[s..]);
    var g, d := b[s..][..n], b[s..][n + 1..];
    assert ParseSecond(r, b) == ParseThird(r, g, d);
    w1 := b[..s];
    w2 := ParseThirdSound(r, g, d);
    SecondTextOf(b, s, n, w2, ParseThird(r, g, d).value.b);
  }

  /** `rgb(`, digits, a comma and the text after a first comma make a
      token. */
  lemma RgbTextOf(t: string, n: nat, w1: string, g: string, w2: string, v: string)
    requires 4 + n < |t| && t[..4] == "rgb(" && t[4 + n] == ','
    requires t[4 + n + 1..] == SecondText(w1, g, w2, v)
    ensures t == RgbText(t[4..][..n], w1, g, w2, v)
  {
    var a := t[4..];
    SplitAround(a, n);
    assert a[n + 1..] == t[4 + n + 1..];
    assert t == t[..4] + a;
  }

  /** Conversely, a token that parses is a well-formed token of its digit
      strings, with the whitespace it holds. */
  lemma ParseRgbSound(t: string) returns (w1: string, w2: string)
    requires ParseRgb(t).Some?
    ensures WellFormedParts(ParseRgb(t).value.r, w1, ParseRgb(t).value.g, w2, ParseRgb(t).value.b)
    ensures t == RgbText(ParseRgb(t).value.r, w1, ParseRgb(t).value.g, w2, ParseRgb(t).value.b)
  {
    var a := t[4..];
    var n := DigitRun(a);
    w1, w2 := ParseSecondSound(a[..n], a[n + 1..]);
    var v := ParseSecond(a[..n], a[n + 1..]).value;
    assert a[n + 1..] == t[4 + n + 1..];
    RgbTextOf(t, n, w1, v.g, w2, v.b);
  }

  /** The callback of `replace_rgb_to_hex`: a well-formed token becomes `#`
      and its three components, anything else the empty string. */
  function RewriteToken(t: string): string
  {
    match ParseRgb(t)
    case None => ""
    case Some(v) => "#" + HexComponent(v.r) + HexComponent(v.g) + HexComponent(v.b)
  }

  /** A well-formed token becomes `#` and the low byte of each component. */
  lemma RewriteWellFormed(r: string, w1: string, g: string, w2: string, b: string)
    requires WellFormedParts(r, w1, g, w2, b)
    ensures RewriteToken(RgbText(r, w1, g, w2, b))
      == "#" + Hex2(IntVal(r) % 256) + Hex2(IntVal(g) % 256) + Hex2(IntVal(b) % 256)
  {
    ParseRgbText(r, w1, g, w2, b);
    HexComponentIsLowByte(r);
    HexComponentIsLowByte(g);
    HexComponentIsLowByte(b);
  }

  // ---------------------------------------------------------------------
  // The whole text

  /** Index of the first `)` of `s`, or `|s|` when there is none. */
  function IndexOfClose(s: string): (j: nat)
    ensures j <= |s| && (j < |s| ==> s[j] == ')')
    ensures forall k :: 0 <= k < j ==> s[k] != ')'
  {
    if s == [] || s[0] == ')' then 0 else 1 + IndexOfClose(s[1..])
  }

  /** The length of the token `rgb\([^\)]+\)` matches at the start of `s`,
      if it matches there. */
  function TokenLength(s: string): (n: Option<nat>)
    ensures n.Some? ==> 6 <= n.value <= |s|
  {
    if StartsWithRgb(s) then
      var j := IndexOfClose(s[4..]);
      if 0 < j < |s| - 4 then Some(4 + j + 1) else None
    else None
  }

  /** `replace_rgb_to_hex`: scans left to right; each token that matches is
      replaced by the callback's result and scanning resumes after it. */
  function ReplaceRgbToHex(s: string): string
    decreases |s|
  {
    if s == [] then []
    else
      match TokenLength(s)
      case Some(n) => RewriteToken(s[..n]) + ReplaceRgbToHex(s[n..])
      case None => [s[0]] + ReplaceRgbToHex(s[1..])
  }

  /** `s` starts with `rgb(`. */
  predicate StartsWithRgb(s: string)
  {
    |s| >= 4 && s[..4] == "rgb("
  }

  /** Text in which no token can start is left as it is. Together with
      `ReplaceWellFormedToken` and `ReplaceMalformedToken`, which rewrite
      one token and hand the text after it back to the rewriter, this says
      that all text outside the tokens is copied unchanged. */
  lemma {:induction false} NoTokenUnchanged(s: string)
    requires forall i :: 0 <= i < |s| ==> !StartsWithRgb(s[i..])
    ensures ReplaceRgbToHex(s) == s
    decreases |s|
  {
    if s != [] {
      assert !StartsWithRgb(s[0..]) && s[0..] == s;
      forall i | 0 <= i < |s[1..]|
        ensures !StartsWithRgb(s[1..][i..])
      {
        assert s[1..][i..] == s[i + 1..];
      }
      NoTokenUnchanged(s[1..]);
    }
  }

  lemma IndexOfCloseAfter(u: string, v: string)
    requires forall k :: 0 <= k < |u| ==> u[k] != ')'
    ensures IndexOfClose(u + ")" + v) == |u|
  {
    if u != [] {
      assert (u + ")" + v)[1..] == u[1..] + ")" + v;
      IndexOfCloseAfter(u[1..], v);
    }
  }

  /** No character of a token's inside is a `)`. */
  lemma NoCloseInside(r: string, w1: string, g: string, w2: string, b: string)
    requires WellFormedParts(r, w1, g, w2, b)
    ensures RgbText(r, w1, g, w2, b)[4..] == (r + ("," + (w1 + (g + ("," + (w2 + b)))))) + ")"
    ensures forall k :: 0 <= k < |r + ("," + (w1 + (g + ("," + (w2 + b)))))| ==>
      (r + ("," + (w1 + (g + ("," + (w2 + b))))))[k] != ')'
  {
    var inner := r + ("," + (w1 + (g + ("," + (w2 + b)))));
    forall k | 0 <= k < |inner|
      ensures inner[k] != ')'
    {
      assert IsDigit(inner[k]) || IsSpace(inner[k]) || inner[k] == ',';
    }
  }

  /** A well-formed token is replaced by its hex colour, and the text after
      it is rewritten on its own. */
  lemma ReplaceWellFormedToken(r: string, w1: string, g: string, w2: string, b: string, rest: string)
    requires WellFormedParts(r, w1, g, w2, b)
    ensures ReplaceRgbToHex(RgbText(r, w1, g, w2, b) + rest)
      == "#" + Hex2(IntVal(r) % 256) + Hex2(IntVal(g) % 256) + Hex2(IntVal(b) % 256) + ReplaceRgbToHex(rest)
  {
    var t := RgbText(r, w1, g, w2, b);
    var s := t + rest;
    NoCloseInside(r, w1, g, w2, b);
    var inner := r + ("," + (w1 + (g + ("," + (w2 + b)))));
    assert s[..4] == "rgb(";
    assert s[4..] == inner + ")" + rest;
    IndexOfCloseAfter(inner, rest);
    assert TokenLength(s) == Some(|t|);
    assert s[..|t|] == t && s[|t|..] == rest;
    RewriteWellFormed(r, w1, g, w2, b);
  }

  /** A token that matches the scanner but not the component pattern is
      dropped. */
  lemma ReplaceMalformedToken(s: string)
    requires TokenLength(s).Some? && ParseRgb(s[..TokenLength(s).value]).None?
    ensures ReplaceRgbToHex(s) == ReplaceRgbToHex(s[TokenLength(s).value..])
  {
  }

  lemma ExampleText()
    ensures "rgb(255, 0, 16)" == RgbText("255", " ", "0", " ", "16") + ""
  {
  }

  lemma ExampleValues()
    ensures IntVal("255") == 255 && IntVal("0") == 0 && IntVal("16") == 16
  {
    assert "255"[..2] == "25" && "25"[..1] == "2" && "2"[..0] == "";
    assert "16"[..1] == "1" && "1"[..0] == "";
    assert "0"[..0] == "";
  }

  lemma ExampleDigits()
    ensures "#" + Hex2(IntVal("255") % 256) + Hex2(IntVal("0") % 256) + Hex2(IntVal("16") % 256) + "" == "#ff0010"
  {
    ExampleValues();
  }

  /** `rgb(255, 0, 16)` becomes `#ff0010`. */
  lemma ReplaceExample(s: string)
    requires s == "rgb(255, 0, 16)"
    ensures ReplaceRgbToHex(s) == "#ff0010"
  {
    var r, w, g, b, rest := "255", " ", "0", "16", "";
    ExampleText();
    assert s == RgbText(r, w, g, w, b) + rest;
    ReplaceWellFormedToken(r, w, g, w, b, rest);
    assert ReplaceRgbToHex(rest) == "";
    ExampleDigits();
  }
}
