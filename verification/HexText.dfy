/** The `%x` conversions the handshake uses: printing with a minimum width, scanning as many digits as there are. */
module HexText {
  import opened Arith
  import opened Wrappers

  const DIGITS := "0123456789abcdef"

  predicate IsHex(c: char) {
    '0' <= c <= '9' || 'a' <= c <= 'f' || 'A' <= c <= 'F'
  }

  function Value(c: char): (v: nat)
    requires IsHex(c)
    ensures v < 16
  {
    if c <= '9' then (c - '0') as nat
    else if c <= 'F' then 10 + (c - 'A') as nat
    else 10 + (c - 'a') as nat
  }

  predicate AllHex(s: string) {
    forall i | 0 <= i < |s| :: IsHex(s[i])
  }

  /** `%0<width>x`: at least `width` digits, more if the value needs them. */
  function Hex(v: nat, width: nat): (s: string)
    decreases v + width
  {
    if v < 16 && width <= 1 then [DIGITS[v]]
    else Hex(v / 16, if width == 0 then 0 else width - 1) + [DIGITS[v % 16]]
  }

  function HexValue(s: string): nat
    requires AllHex(s)
  {
    if s == "" then 0 else HexValue(s[..|s| - 1]) * 16 + Value(s[|s| - 1])
  }

  predicate Blank(c: char) {
    c == ' ' || c == '\t' || c == '\n' || c == '\r'
  }

  function SkipBlanks(s: string): string {
    if s != "" && Blank(s[0]) then SkipBlanks(s[1..]) else s
  }

  /** How many hex digits `s` starts with. */
  function DigitCount(s: string): (n: nat)
    ensures n <= |s| && AllHex(s[..n])
  {
    if s != "" && IsHex(s[0]) then 1 + DigitCount(s[1..]) else 0
  }

  /** `%x`: skip blanks, take every digit there is; the value is stored in 32 bits. */
  function ScanHex(s: string): Option<(nat, string)> {
    var t := SkipBlanks(s);
    var n := DigitCount(t);
    if n == 0 then None else Some((HexValue(t[..n]) % 0x1_0000_0000, t[n..]))
  }

  lemma DigitValue(d: nat)
    requires d < 16
    ensures IsHex(DIGITS[d]) && Value(DIGITS[d]) == d
  {
    if d < 10 {
      assert DIGITS[d] == '0' + d as char;
    } else {
      assert DIGITS[d] == 'a' + (d - 10) as char;
    }
  }

  /** The printed digits denote the value. */
  lemma {:induction false} HexBack(v: nat, width: nat)
    ensures AllHex(Hex(v, width)) && HexValue(Hex(v, width)) == v && Hex(v, width) != ""
    decreases v + width
  {
    DigitValue(v % 16);
    if v < 16 && width <= 1 {
      assert [DIGITS[v]][..0] == "";
    } else {
      var w := if width == 0 then 0 else width - 1;
      HexBack(v / 16, w);
      assert Hex(v, width)[..|Hex(v, width)| - 1] == Hex(v / 16, w);
    }
  }

  /** Digit `k` of the text: the one of its power of 16. */
  ghost predicate DigitAt(text: string, v: nat, k: nat)
    requires k < |text|
  {
    Pow(16, |text| - 1 - k) > 0 && text[k] == "0123456789abcdef"[(v / Pow(16, |text| - 1 - k)) % 16]
  }

  /** The text shows the number: one of "0123456789abcdef" per digit, the most significant first. */
  ghost predicate ShowsNumber(text: string, v: nat) {
    forall k: nat | k < |text| :: DigitAt(text, v, k)
  }

  lemma AppendDigit(init: string, v: nat)
    requires ShowsNumber(init, v / 16)
    ensures ShowsNumber(init + [DIGITS[v % 16]], v)
  {
    forall k: nat | k <= |init| ensures DigitAt(init + [DIGITS[v % 16]], v, k) {
      if k < |init| {
        assert DigitAt(init, v / 16, k);
        var p := Pow(16, |init| - 1 - k);
        assert Pow(16, |init| - k) == p * 16 == 16 * p;
        DivDiv(v, 16, p);
      }
    }
  }

  lemma {:induction false} HexShows(v: nat, width: nat)
    ensures ShowsNumber(Hex(v, width), v)
    decreases v + width
  {
    if v < 16 && width <= 1 {
      AppendDigit("", v);
      assert "" + [DIGITS[v]] == [DIGITS[v]];
    } else {
      var w := if width == 0 then 0 else width - 1;
      HexShows(v / 16, w);
      AppendDigit(Hex(v / 16, w), v);
    }
  }

  /** The characters that count as digits, and what each is worth. */
  lemma DigitMeaning(c: char)
    ensures IsHex(c) <==> c in "0123456789abcdefABCDEF"
    ensures forall d: nat | d < 16 && IsHex(c) :: Value(c) == d <==> c == "0123456789abcdef"[d] || c == "0123456789ABCDEF"[d]
  {
  }

  /** Reading is positional as well. */
  lemma {:induction false} HexValueCat(a: string, b: string)
    requires AllHex(a) && AllHex(b)
    ensures AllHex(a + b) && HexValue(a + b) == HexValue(a) * Pow(16, |b|) + HexValue(b)
  {
    if b == "" {
      assert a + b == a;
    } else {
      var init := b[..|b| - 1];
      assert (a + b)[..|a + b| - 1] == a + init;
      HexValueCat(a, init);
      assert Pow(16, |b|) == Pow(16, |init|) * 16;
      MulAssoc(HexValue(a), Pow(16, |init|), 16);
    }
  }

  /** The text has exactly the minimum width when the value fits, and is longer otherwise. */
  lemma {:induction false} HexLength(v: nat, width: nat)
    ensures |Hex(v, width)| >= width
    ensures width > 0 ==> (|Hex(v, width)| == width <==> v < Pow(16, width))
    decreases v + width
  {
    HexBack(v, width);
    if !(v < 16 && width <= 1) {
      var w := if width == 0 then 0 else width - 1;
      HexLength(v / 16, w);
      HexBack(v / 16, w);
      if width > 0 {
        assert Pow(16, width) == Pow(16, w) * 16;
      }
    } else {
      assert width == 1 ==> Pow(16, 1) == Pow(16, 0) * 16;
    }
  }

  // The lemmas below take widths as parameters, which keeps the solver from unfolding texts of literal width.

  /** One more digit at the end of the value is one more at the end of the text. */
  lemma HexDigit(x: nat, v: nat, d: nat, width: nat, wider: nat)
    requires width > 0 && wider == width + 1 && d < 16 && x == v * 16 + d
    ensures Hex(x, wider) == Hex(v, width) + [DIGITS[d]]
  {
    assert x / 16 == v && x % 16 == d;
  }

  lemma HexTwo(b: nat, width: nat)
    requires b < 256 && width == 2
    ensures Hex(b, width) == [DIGITS[b / 16]] + [DIGITS[b % 16]]
  {
    HexDigit(b, b / 16, b % 16, 1, width);
  }

  /** The last two digits of a wider text are those of the last byte. */
  lemma HexByte(x: nat, v: nat, b: nat, width: nat, wider: nat, two: nat)
    requires width > 0 && wider == width + 2 && two == 2 && b < 256 && x == v * 256 + b
    ensures Hex(x, wider) == Hex(v, width) + Hex(b, two)
  {
    var y := v * 16 + b / 16;
    HexTwo(b, two);
    HexDigit(y, v, b / 16, width, width + 1);
    HexDigit(x, y, b % 16, width + 1, wider);
    Split2(Hex(v, width), [DIGITS[b / 16]], [DIGITS[b % 16]]);
  }

  lemma Split2(a: string, b: string, c: string)
    ensures (a + b) + c == a + (b + c)
  {
  }

  lemma HexFourBytes(v1: nat, v2: nat, v3: nat, v4: nat, b1: nat, b2: nat, b3: nat, two: nat, four: nat, six: nat, eight: nat)
    requires two == 2 && four == 4 && six == 6 && eight == 8 && b1 < 256 && b2 < 256 && b3 < 256
    requires v2 == v1 * 256 + b1 && v3 == v2 * 256 + b2 && v4 == v3 * 256 + b3
    ensures Hex(v4, eight) == Hex(v1, two) + Hex(b1, two) + Hex(b2, two) + Hex(b3, two)
  {
    HexByte(v2, v1, b1, two, four, two);
    HexByte(v3, v2, b2, four, six, two);
    HexByte(v4, v3, b3, six, eight, two);
  }

  lemma {:induction false} DigitsEnd(h: string, rest: string)
    requires AllHex(h) && (rest == "" || !IsHex(rest[0]))
    ensures DigitCount(h + rest) == |h|
  {
    if h == "" {
      assert h + rest == rest;
    } else {
      assert (h + rest)[1..] == h[1..] + rest;
      DigitsEnd(h[1..], rest);
    }
  }

  lemma ScanDigits(h: string, v: nat, rest: string)
    requires AllHex(h) && h != "" && HexValue(h) == v < 0x1_0000_0000 && (rest == "" || !IsHex(rest[0]))
    ensures ScanHex(h + rest) == Some((v, rest))
  {
    DigitsEnd(h, rest);
    assert (h + rest)[0] == h[0];
    assert SkipBlanks(h + rest) == h + rest;
    assert (h + rest)[..|h|] == h && (h + rest)[|h|..] == rest;
  }

  /** Scanning undoes printing, up to the first character that is no digit. */
  lemma ScanPrinted(v: nat, width: nat, text: string, rest: string)
    requires v < 0x1_0000_0000 && (rest == "" || !IsHex(rest[0])) && text == Hex(v, width) + rest
    ensures ScanHex(text) == Some((v, rest))
  {
    var h :| h == Hex(v, width);
    HexBack(v, width);
    ScanDigits(h, v, rest);
  }
}
