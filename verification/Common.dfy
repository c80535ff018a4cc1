/** What several modules share: the optional value, the sizes of machine words, C integers and C strings. */
module Common {
  datatype Option<+T> = None | Some(value: T)

  const U32 := 0x1_0000_0000
  const U64 := 0x1_0000_0000_0000_0000
  const U128 := 0x1_0000_0000_0000_0000_0000_0000_0000_0000

  /** A wider or unsigned number stored into an int. */
  function ToInt(x: int): int {
    var u := x % U32;
    if u < U32 / 2 then u else u - U32
  }

  /** What comes before the first NUL, which is all a C string function sees. */
  function Before<T(==)>(s: seq<T>, nul: T): (r: seq<T>)
    ensures r <= s && nul !in r
    ensures |r| < |s| ==> s[|r|] == nul
    ensures nul !in s ==> r == s
  {
    if s == [] || s[0] == nul then [] else [s[0]] + Before(s[1..], nul)
  }
}
