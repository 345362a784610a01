/**
 * JavaScript strings as the frontend sees them: sequences of UTF-16 code units,
 * so that `length`, `substring` and `charCodeAt` count and return code units.
 */
module JsStrings {

  type CodeUnit = u: int | 0 <= u < 0x1_0000

  type JsString = seq<CodeUnit>

  /** JavaScript's `\s` class (white space and line terminators), one code unit at a time. */
  predicate IsJsSpace(u: CodeUnit) {
    (9 <= u <= 13) || u == 0x20 || u == 0xA0 || u == 0x1680 ||
    (0x2000 <= u <= 0x200A) || u == 0x2028 || u == 0x2029 || u == 0x202F || u == 0x205F ||
    u == 0x3000 || u == 0xFEFF
  }

  /** ECMAScript ToInt32: wrap an integer into the signed 32-bit range. */
  function ToInt32(x: int): (r: int)
    ensures -0x8000_0000 <= r < 0x8000_0000
    ensures -0x8000_0000 <= x < 0x8000_0000 ==> r == x
  {
    (x + 0x8000_0000) % 0x1_0000_0000 - 0x8000_0000
  }
}
