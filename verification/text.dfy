/** Bytes and ASCII classes shared by the renderer models. */
module Bytes {
  newtype byte = x: int | 0 <= x < 256

  /** An ASCII string: the renderer rejects anything else before it lays text out. */
  type Ascii = seq<byte>

  const NEWLINE: byte := 10
  const RETURN: byte := 13
  const SPACE: byte := 32
  const DASH: byte := 45

  /** The ASCII part of Unicode White_Space, which `split_whitespace` and `trim` use. */
  predicate IsWhitespace(b: byte) { 9 <= b <= 13 || b == SPACE }

  predicate IsGraphic(b: byte) { 33 <= b <= 126 }

  predicate IsPrintable(b: byte) { IsGraphic(b) || b == SPACE }

  ghost predicate AllPrintable(s: Ascii) { forall i :: 0 <= i < |s| ==> IsPrintable(s[i]) }

  function Repeat(b: byte, n: nat): (s: Ascii)
    ensures |s| == n && forall i :: 0 <= i < n ==> s[i] == b
  {
    if n == 0 then [] else [b] + Repeat(b, n - 1)
  }
}
