/** Case-insensitive string comparison, as Java's `String.equalsIgnoreCase`
    does it for ASCII text. */
module Text {

  /** `Character.toLowerCase` on the ASCII range; every other character is
      left as it is. */
  function ToLowerAscii(c: char): char
  {
    if 'A' <= c <= 'Z' then (c as int + 32) as char else c
  }

  /** Same length, and equal character by character once letters are folded
      to lower case. */
  predicate EqualsIgnoreCase(a: string, b: string)
  {
    |a| == |b| && forall i :: 0 <= i < |a| ==> ToLowerAscii(a[i]) == ToLowerAscii(b[i])
  }
}
