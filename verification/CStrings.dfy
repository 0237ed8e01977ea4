// Strings as C sees them in a buffer, and as regsubstr of src/util.c copies them.
module CStrings {

  // What stands before the first NUL.
  function Text<T(==)>(s: seq<T>, nul: T): (r: seq<T>)
    ensures r <= s && nul !in r
    ensures r == s || (|r| < |s| && s[|r|] == nul)
  {
    if s == [] || s[0] == nul then [] else [s[0]] + Text(s[1..], nul)
  }

  // A text without a NUL, closed by one or by the end of the buffer.
  lemma TextIs<T>(s: seq<T>, x: seq<T>, nul: T)
    requires x <= s && nul !in x && (x == s || s[|x|] == nul)
    ensures Text(s, nul) == x
  {
  }

  // regsubstr into a buffer of n characters.
  function Clip<T>(s: seq<T>, n: nat): seq<T>
    requires n > 0
  {
    if |s| < n then s else s[..n - 1]
  }
}
