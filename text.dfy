/** Python's `"".join(...)` over a sequence of strings. */
module Text {

  /** `"".join(ss)`: the pieces concatenated in order. */
  function Join(ss: seq<string>): string
  {
    if ss == [] then [] else ss[0] + Join(ss[1..])
  }

  /** Sum of the lengths of the pieces. */
  function TotalLength(ss: seq<string>): nat
  {
    if ss == [] then 0 else |ss[0]| + TotalLength(ss[1..])
  }

  /** The joined string is exactly as long as all pieces together. */
  lemma {:induction false} JoinLength(ss: seq<string>)
    ensures |Join(ss)| == TotalLength(ss)
  {
    if ss != [] {
      JoinLength(ss[1..]);
    }
  }
}
