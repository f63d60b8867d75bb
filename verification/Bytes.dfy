/** C strings: a char here is a byte. */
module Bytes {
  /** A NUL-terminated string is the bytes before its terminator. */
  type CString = s: string | IsCString(s) witness []

  predicate IsCString(s: string) {
    forall i :: 0 <= i < |s| ==> 0 < s[i] as int < 256
  }

  const NUL := '\0'

  /** Reading one byte, which past the end is the terminator. */
  function At(s: CString, pos: nat): char {
    if pos < |s| then s[pos] else NUL
  }
}
