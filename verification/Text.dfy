/** Go's basic values: optional ones, 32-bit integers, and strings with ASCII case folding. */
module Text {

  datatype Option<+T> = None | Some(value: T)

  /** The largest int32. */
  const MAX_INT32 := 0x7fff_ffff

  function LowerChar(c: char): char {
    if 'A' <= c <= 'Z' then (c as int + 32) as char else c
  }

  /** strings.ToLower on ASCII. */
  function Lower(s: string): (r: string)
    ensures |r| == |s|
  {
    seq(|s|, i requires 0 <= i < |s| => LowerChar(s[i]))
  }

  /** strings.EqualFold on ASCII. */
  predicate EqualFold(a: string, b: string) {
    Lower(a) == Lower(b)
  }

  /** The set type of the repository keeps lower-case strings. */
  function FoldSet(ips: seq<string>): set<string> {
    set x | x in ips :: Lower(x)
  }
}
