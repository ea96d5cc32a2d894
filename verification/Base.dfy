/** Vocabulary shared by every component of the model. */
module Base {

  /** A value that may be absent: a nullable column or an optional field. */
  datatype Option<+T> = None | Some(value: T)

  /** An opaque identifier or other token, such as a digest. Only equality matters. */
  type Id = nat

  /** Times and durations are in nanoseconds. */
  const MINUTE: int := 60_000_000_000

  /** Why a request was refused. A refused request leaves every table as it was. */
  datatype Error = InvalidInput | NotFound | Conflict | Denied | Disabled

  /** Two concatenations that agree, with first parts of equal length, agree part by part. */
  lemma SplitFixed<T>(p: seq<T>, x: seq<T>, p': seq<T>, x': seq<T>)
    requires |p| == |p'| && p + x == p' + x'
    ensures p == p' && x == x'
  {
    assert (p + x)[..|p|] == p && (p' + x')[..|p|] == p';
    assert (p + x)[|p|..] == x && (p' + x')[|p|..] == x';
  }
}
