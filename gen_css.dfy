/**
 * frontend/scripts/gen_css.py: the `Color` helper that parses and formats hex
 * colours, and the `CssWriter` that renders a stylesheet from rules.
 */
module GenCss {
  import opened Wrappers
  import opened Strings

  // ---------------------------------------------------------------------------
  // Hexadecimal digits
  // ---------------------------------------------------------------------------

  predicate IsHexDigit(c: char) {
    ('0' <= c <= '9') || ('a' <= c <= 'f') || ('A' <= c <= 'F')
  }

  function HexValue(c: char): (v: nat)
    requires IsHexDigit(c)
    ensures v < 16
  {
    if '0' <= c <= '9' then (c - '0') as nat
    else if 'a' <= c <= 'f' then (c - 'a') as nat + 10
    else (c - 'A') as nat + 10
  }

  /** The lowercase digit Python's `x` format writes for 0 <= d < 16. */
  function HexDigit(d: nat): (c: char)
    requires d < 16
    ensures IsHexDigit(c) && HexValue(c) == d
  {
    "0123456789abcdef"[d]
  }

  function LowerHex(c: char): char
    requires IsHexDigit(c)
  {
    if 'A' <= c <= 'F' then (c - 'A' + 'a') else c
  }

  /** `int(s, 16)` for a string of hex digits; None where Python raises ValueError. */
  function ParseHex(s: string): (r: Option<nat>)
    ensures r.Some? <==> s != [] && forall i :: 0 <= i < |s| ==> IsHexDigit(s[i])
  {
    if s == [] then None else HexDigitsValue(s)
  }

  function HexDigitsValue(s: string): (r: Option<nat>)
    ensures r.Some? <==> forall i :: 0 <= i < |s| ==> IsHexDigit(s[i])
  {
    if s == [] then Some(0)
    else if !IsHexDigit(s[|s| - 1]) then None
    else
      var init := HexDigitsValue(s[..|s| - 1]);
      if init.None? then None else Some(init.value * 16 + HexValue(s[|s| - 1]))
  }

  /** The lowercase hexadecimal rendering of a natural number, without leading zeros. */
  function NatToHex(n: nat): (r: string)
    ensures r != []
    ensures forall i :: 0 <= i < |r| ==> IsHexDigit(r[i])
    decreases n
  {
    if n < 16 then [HexDigit(n)] else NatToHex(n / 16) + [HexDigit(n % 16)]
  }

  /** `f"{n:02x}"`: at least two characters, zero-padded; a negative value is signed and not padded further. */
  function Hex02(n: int): (r: string)
    ensures |r| >= 2
  {
    if n < 0 then "-" + NatToHex(-n)
    else
      var digits := NatToHex(n);
      if |digits| < 2 then "0" + digits else digits
  }

  /** Python's `s[i:j]` with both bounds clamped to the string. */
  function Slice(s: string, i: nat, j: nat): string {
    var lo := if i <= |s| then i else |s|;
    var hi := if j <= |s| then j else |s|;
    if lo <= hi then s[lo..hi] else []
  }

  // ---------------------------------------------------------------------------
  // Color
  // ---------------------------------------------------------------------------

  /** The components `Color(hex)` parses: `#`s stripped, then `[:2]`, `[2:4]` and `[4:]` in base 16. */
  function ParseColor(hex: string): (r: Option<(nat, nat, nat)>)
    ensures r.Some? ==> r.value.0 < 256 && r.value.1 < 256
  {
    var hexstr := StripChar(hex, '#');
    var r := ParseHex(Slice(hexstr, 0, 2));
    var g := ParseHex(Slice(hexstr, 2, 4));
    var b := ParseHex(Slice(hexstr, 4, |hexstr|));
    if r.None? || g.None? || b.None? then None
    else
      TwoDigitBound(Slice(hexstr, 0, 2));
      TwoDigitBound(Slice(hexstr, 2, 4));
      Some((r.value, g.value, b.value))
  }

  lemma TwoDigitBound(s: string)
    requires |s| <= 2 && ParseHex(s).Some?
    ensures ParseHex(s).value < 256
  {
    if |s| == 1 {
      assert s[..0] == [];
      assert HexDigitsValue(s[..0]) == Some(0);
    } else {
      TwoDigitValue(s);
      var hi := HexValue(s[0]);
      assert hi * 16 <= 240;
    }
  }

  /** Two hex digits denote 16 times the first plus the second. */
  lemma TwoDigitValue(s: string)
    requires |s| == 2 && IsHexDigit(s[0]) && IsHexDigit(s[1])
    ensures ParseHex(s) == Some(HexValue(s[0]) * 16 + HexValue(s[1]))
  {
    var init := s[..1];
    assert init[..0] == [];
    assert init[0] == s[0];
    assert HexDigitsValue(init) == Some(HexValue(s[0]));
  }

  /** Python's `int(x)` on a number: truncation toward zero. */
  function Truncate(x: real): (n: int)
    ensures x >= 0.0 ==> n as real <= x < n as real + 1.0
    ensures x < 0.0 ==> n as real - 1.0 < x <= n as real
  {
    if x >= 0.0 then x.Floor else -((-x).Floor)
  }

  class Color {
    var r: int
    var g: int
    var b: int

    /** `Color(hex)`; the constructor raises on anything ParseColor refuses. */
    constructor (hex: string)
      requires ParseColor(hex).Some?
      ensures (r, g, b) == (ParseColor(hex).value.0, ParseColor(hex).value.1, ParseColor(hex).value.2)
      ensures 0 <= r < 256 && 0 <= g < 256 && 0 <= b
    {
      var parsed := ParseColor(hex).value;
      r, g, b := parsed.0, parsed.1, parsed.2;
    }

    /** `with_alpha(alpha)`, where `alpha` is the text Python prints for the given alpha. */
    function WithAlpha(alpha: string): (css: string)
      reads this
      ensures StartsWith(css, "rgba(") && EndsWith(css, ")")
    {
      RgbaText(r, g, b, alpha)
    }

    /** `scale(k)`: every component multiplied by `k` and truncated; the object itself is returned. */
    method Scale(k: real) returns (self: Color)
      modifies this
      ensures r == Truncate(old(r) as real * k)
      ensures g == Truncate(old(g) as real * k)
      ensures b == Truncate(old(b) as real * k)
      ensures self == this
    {
      var r', g', b' := Truncate(r as real * k), Truncate(g as real * k), Truncate(b as real * k);
      r, g, b := r', g', b';
      self := this;
    }

    /** `hex()` */
    function Hex(): (s: string)
      reads this
      ensures |s| >= 7 && s[0] == '#'
    {
      HexText(r, g, b)
    }
  }

  /** The text `with_alpha` produces for components and an alpha. */
  function RgbaText(r: int, g: int, b: int, alpha: string): (css: string)
    ensures StartsWith(css, "rgba(") && EndsWith(css, ")")
  {
    "rgba(" + IntToDec(r) + ", " + IntToDec(g) + ", " + IntToDec(b) + ", " + alpha + ")"
  }

  /** The text `hex()` produces for three components. */
  function HexText(r: int, g: int, b: int): (s: string)
    ensures |s| >= 7 && s[0] == '#'
  {
    "#" + Hex02(r) + Hex02(g) + Hex02(b)
  }

  /** Scaling by 0 <= k <= 1 never increases a component, nor makes a non-negative one negative. */
  lemma ScaleDarkens(c: int, k: real)
    requires 0 <= c && 0.0 <= k <= 1.0
    ensures 0 <= Truncate(c as real * k) <= c
  {
    assert c as real * k <= c as real * 1.0;
  }

  /** Two hex digits parse to a byte that `:02x` writes back as the same digits in lowercase. */
  lemma ByteRoundTrip(s: string)
    requires |s| == 2 && IsHexDigit(s[0]) && IsHexDigit(s[1])
    ensures ParseHex(s).Some? && Hex02(ParseHex(s).value) == [LowerHex(s[0]), LowerHex(s[1])]
  {
    var hi := HexValue(s[0]);
    var lo := HexValue(s[1]);
    TwoDigitValue(s);
    var n := hi * 16 + lo;
    if hi == 0 {
      assert NatToHex(n) == [HexDigit(lo)];
    } else {
      assert n / 16 == hi && n % 16 == lo;
      assert NatToHex(n) == [HexDigit(hi)] + [HexDigit(lo)];
    }
    LowerHexDigit(s[0]);
    LowerHexDigit(s[1]);
  }

  lemma LowerHexDigit(c: char)
    requires IsHexDigit(c)
    ensures HexDigit(HexValue(c)) == LowerHex(c)
  {
  }

  /**
   * For a six-digit colour (with or without leading `#`), `Color(s).hex()` is `#`
   * followed by the same six digits in lowercase.
   */
  lemma ColorHexRoundTrip(hex: string, digits: string)
    requires |digits| == 6 && forall i :: 0 <= i < 6 ==> IsHexDigit(digits[i])
    requires StripChar(hex, '#') == digits
    ensures ParseColor(hex).Some?
    ensures var c := ParseColor(hex).value;
      HexText(c.0, c.1, c.2) == ['#', LowerHex(digits[0]), LowerHex(digits[1]), LowerHex(digits[2]),
                                      LowerHex(digits[3]), LowerHex(digits[4]), LowerHex(digits[5])]
  {
    var d0, d1, d2 := digits[0..2], digits[2..4], digits[4..6];
    ByteRoundTrip(d0);
    ByteRoundTrip(d1);
    ByteRoundTrip(d2);
    SixDigitsParse(hex, digits);
    var v0, v1, v2 := ParseHex(d0).value, ParseHex(d1).value, ParseHex(d2).value;
    var h0 := [LowerHex(digits[0]), LowerHex(digits[1])];
    var h1 := [LowerHex(digits[2]), LowerHex(digits[3])];
    var h2 := [LowerHex(digits[4]), LowerHex(digits[5])];
    assert d0[0] == digits[0] && d0[1] == digits[1];
    assert d1[0] == digits[2] && d1[1] == digits[3];
    assert d2[0] == digits[4] && d2[1] == digits[5];
    assert Hex02(v0) == h0 && Hex02(v1) == h1 && Hex02(v2) == h2;
    assert HexText(v0, v1, v2) == "#" + h0 + h1 + h2;
  }

  lemma SixDigitsParse(hex: string, digits: string)
    requires |digits| == 6 && StripChar(hex, '#') == digits
    requires ParseHex(digits[0..2]).Some? && ParseHex(digits[2..4]).Some? && ParseHex(digits[4..6]).Some?
    ensures ParseColor(hex) == Some((ParseHex(digits[0..2]).value, ParseHex(digits[2..4]).value, ParseHex(digits[4..6]).value))
  {
    assert Slice(digits, 0, 2) == digits[0..2];
    assert Slice(digits, 2, 4) == digits[2..4];
    assert Slice(digits, 4, |digits|) == digits[4..6];
  }

  /** The utility class for a named colour: "is-primary" gives "has-text-primary". */
  function TextClassName(name: string): (r: string)
    ensures StartsWith(name, "is-") ==> r == "has-text-" + name[3..]
    ensures |r| >= 9 && r[..9] == "has-text-"
  {
    "has-text-" + Slice(name, 3, |name|)
  }

  // ---------------------------------------------------------------------------
  // CssWriter
  // ---------------------------------------------------------------------------

  /** A rule: a selector and its declarations in insertion order. */
  datatype Rule = Rule(selector: string, attributes: seq<(string, string)>)

  const HEADER: string :=
    "/*\n * This file is automatically generated by a script.\n * Changes you make will be overwritten when the script is run.\n */\n\n"

  function RenderDeclarations(attributes: seq<(string, string)>): string {
    if attributes == [] then ""
    else RenderDeclarations(attributes[..|attributes| - 1])
         + "    " + attributes[|attributes| - 1].0 + ": " + attributes[|attributes| - 1].1 + ";\n"
  }

  function RenderRule(rule: Rule): string {
    rule.selector + " {\n" + RenderDeclarations(rule.attributes) + "}\n\n"
  }

  /** The stylesheet body: each rule's block, in order. */
  function RenderRules(rules: seq<Rule>): string {
    if rules == [] then "" else RenderRules(rules[..|rules| - 1]) + RenderRule(rules[|rules| - 1])
  }

  /** Rendering is compositional: the blocks of two rule lists are concatenated. */
  lemma {:induction false} RenderRulesAppend(a: seq<Rule>, b: seq<Rule>)
    ensures RenderRules(a + b) == RenderRules(a) + RenderRules(b)
    decreases |b|
  {
    if b == [] {
      assert a + b == a;
    } else {
      var b', last := b[..|b| - 1], b[|b| - 1];
      assert (a + b)[..|a + b| - 1] == a + b';
      assert (a + b)[|a + b| - 1] == last;
      RenderRulesAppend(a, b');
      calc {
        RenderRules(a + b);
        RenderRules(a + b') + RenderRule(last);
        RenderRules(a) + RenderRules(b') + RenderRule(last);
        RenderRules(a) + RenderRules(b);
      }
    }
  }

  /** Every rule contributes its selector followed by " {\n" at the start of its block. */
  lemma RuleBlockShape(rule: Rule)
    ensures StartsWith(RenderRule(rule), rule.selector + " {\n")
    ensures EndsWith(RenderRule(rule), "}\n\n")
  {
    var block := RenderRule(rule);
    assert block == (rule.selector + " {\n") + (RenderDeclarations(rule.attributes) + "}\n\n");
  }

  class CssWriter {
    var rules: seq<Rule>

    constructor ()
      ensures rules == []
    {
      rules := [];
    }

    /** `add_rule(selector, attributes)` */
    method AddRule(selector: string, attributes: seq<(string, string)>)
      modifies this
      ensures rules == old(rules) + [Rule(selector, attributes)]
    {
      rules := rules + [Rule(selector, attributes)];
    }

    /** `get_value()`: the header, then every rule's block in insertion order. */
    method GetValue() returns (css: string)
      ensures css == HEADER + RenderRules(rules)
    {
      // what is written after the header
      var body := "";
      for n := 0 to |rules|
        invariant body == RenderRules(rules[..n])
      {
        var rule := rules[n];
        var block := rule.selector + " {\n";
        block := WriteDeclarations(block, rule.attributes);
        block := block + "}\n\n";
        assert block == RenderRule(rule);
        body := body + block;
        assert rules[..n + 1][..n] == rules[..n];
      }
      assert rules[..|rules|] == rules;
      css := HEADER + body;
    }
  }

  /** The inner loop of `get_value`: one `    key: value;` line per attribute, appended to `css`. */
  method WriteDeclarations(css: string, attributes: seq<(string, string)>) returns (out: string)
    ensures out == css + RenderDeclarations(attributes)
  {
    out := css;
    for m := 0 to |attributes|
      invariant out == css + RenderDeclarations(attributes[..m])
    {
      var (key, value) := attributes[m];
      out := out + "    " + key + ": " + value + ";\n";
      assert attributes[..m + 1][..m] == attributes[..m];
    }
    assert attributes[..|attributes|] == attributes;
  }

  /** Adding a rule appends exactly that rule's block to the rendered stylesheet. */
  lemma AddRuleAppendsBlock(rules: seq<Rule>, rule: Rule)
    ensures HEADER + RenderRules(rules + [rule]) == HEADER + RenderRules(rules) + RenderRule(rule)
  {
    assert (rules + [rule])[..|rules|] == rules;
  }
}
