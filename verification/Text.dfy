/** Characters and strings as the library's C++ code sees them in the "C" locale.
    A source byte is a `char` below 256; everything here is total on `char`. */
module Text {

  /** `std::toupper` in the "C" locale. */
  function Fold(c: char): char {
    if 'a' <= c <= 'z' then (c as int - 32) as char else c
  }

  function Upper(s: string): (r: string)
    ensures |r| == |s|
    ensures forall k :: 0 <= k < |s| ==> r[k] == Fold(s[k])
  {
    seq(|s|, k requires 0 <= k < |s| => Fold(s[k]))
  }

  /** The order of plain `char`, which is signed on the supported compilers. */
  function Order(c: char): int {
    if c as int < 128 then c as int else c as int - 256
  }
}
