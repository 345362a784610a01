/** Python string helpers used by the backend models. */
module Strings {

  /** Python's str.isspace(): the characters str.strip() removes by default. */
  predicate IsPySpace(c: char) {
    var n := c as int;
    (9 <= n <= 13) || (0x1C <= n <= 0x20) || n == 0x85 || n == 0xA0 || n == 0x1680 ||
    (0x2000 <= n <= 0x200A) || n == 0x2028 || n == 0x2029 || n == 0x202F || n == 0x205F || n == 0x3000
  }

  /** Python's str.lstrip(). */
  function LStrip(s: string): (r: string)
    ensures |r| <= |s| && r == s[|s| - |r|..]
    ensures r != [] ==> !IsPySpace(r[0])
    ensures forall i :: 0 <= i < |s| - |r| ==> IsPySpace(s[i])
  {
    if s != [] && IsPySpace(s[0]) then LStrip(s[1..]) else s
  }

  /** Python's str.rstrip(). */
  function RStrip(s: string): (r: string)
    ensures |r| <= |s| && r == s[..|r|]
    ensures r != [] ==> !IsPySpace(r[|r| - 1])
    ensures forall i :: |r| <= i < |s| ==> IsPySpace(s[i])
  {
    if s != [] && IsPySpace(s[|s| - 1]) then RStrip(s[..|s| - 1]) else s
  }

  /** Python's str.strip(): the result is a slice of the input with no whitespace at either end. */
  function Strip(s: string): (r: string)
    ensures r != [] ==> !IsPySpace(r[0]) && !IsPySpace(r[|r| - 1])
    ensures |r| <= |s|
    ensures forall c :: c in r ==> c in s
  {
    var l := LStrip(s);
    var r := RStrip(l);
    assert forall c :: c in r ==> c in l;
    r
  }

  /** Python's str.strip(chars) for a single character. */
  function StripChar(s: string, c: char): (r: string)
    ensures r != [] ==> r[0] != c && r[|r| - 1] != c
    ensures |r| <= |s|
  {
    if s != [] && s[0] == c then StripChar(s[1..], c)
    else if s != [] && s[|s| - 1] == c then StripChar(s[..|s| - 1], c)
    else s
  }

  predicate StartsWith(s: string, prefix: string) {
    |prefix| <= |s| && s[..|prefix|] == prefix
  }

  predicate EndsWith(s: string, suffix: string) {
    |suffix| <= |s| && s[|s| - |suffix|..] == suffix
  }

  /** The decimal digit for 0 <= d < 10. */
  function DecDigit(d: nat): char
    requires d < 10
  {
    "0123456789"[d]
  }

  /** Decimal rendering of a natural number, as Python's str() gives it. */
  function NatToDec(n: nat): (r: string)
    ensures r != []
    ensures forall i :: 0 <= i < |r| ==> '0' <= r[i] <= '9'
    decreases n
  {
    if n < 10 then [DecDigit(n)] else NatToDec(n / 10) + [DecDigit(n % 10)]
  }

  /** Decimal rendering of an integer, with a leading '-' when negative. */
  function IntToDec(n: int): (r: string)
    ensures r != []
    ensures (r[0] == '-') <==> n < 0
  {
    if n < 0 then "-" + NatToDec(-n)
    else NatToDec(n)
  }

  /** Python's str.replace(pat, rep): every non-overlapping occurrence, left to right. */
  function Replace(s: string, pat: string, rep: string): (r: string)
    requires pat != []
    ensures |pat| >= |rep| ==> |r| <= |s|
    decreases |s|
  {
    if |s| < |pat| then s
    else if s[..|pat|] == pat then rep + Replace(s[|pat|..], pat, rep)
    else [s[0]] + Replace(s[1..], pat, rep)
  }

  /**
   * Splitting on any character of `seps`, as Python's str.split(sep) (one separator)
   * or re.split over a character alternation does: separators are dropped, empty
   * pieces are kept, and there is always at least one piece.
   */
  function Split(s: string, seps: set<char>): (parts: seq<string>)
    ensures |parts| >= 1
    ensures forall i, c :: 0 <= i < |parts| && c in parts[i] ==> c !in seps
    ensures |parts| - 1 == |s| - SumLengths(parts)
    decreases |s|
  {
    if s == [] then [""]
    else
      var rest := Split(s[1..], seps);
      if s[0] in seps then [""] + rest
      else [[s[0]] + rest[0]] + rest[1..]
  }

  /** Total length of a list of strings. */
  function SumLengths(parts: seq<string>): nat {
    if parts == [] then 0 else |parts[0]| + SumLengths(parts[1..])
  }
}
