/** C strings: bytes without the terminating NUL. */
module Bytes {
  type byte = x: int | 0 <= x < 256

  const NUL: byte := 0
  const TAB: byte := 9
  const LF: byte := 10
  const CR: byte := 13
  const SPACE: byte := 32
  const DQUOTE: byte := 34
  const SQUOTE: byte := 39
  const DIGIT0: byte := 48
  const COLON: byte := 58
  const BACKSLASH: byte := 92
  const UNDERSCORE: byte := 95
  const LOWER_N: byte := 110
  const LOWER_R: byte := 114
  const LOWER_T: byte := 116

  predicate NulFree(s: seq<byte>) {
    forall i :: 0 <= i < |s| ==> s[i] != NUL
  }

  /** The buffer holds this string and its terminator. */
  predicate Holds(buffer: seq<byte>, s: seq<byte>) {
    NulFree(s) && |s| < |buffer| && buffer[..|s|] == s && buffer[|s|] == NUL
  }
}
