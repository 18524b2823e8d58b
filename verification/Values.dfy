/** Values shared by the data source and the runtime engine. */
module Values {

  datatype Option<+T> = None | Some(value: T)

  /** The value of a tag, widened as the source widens it. */
  datatype TagValue = BoolValue(b: bool) | IntValue(i: int) | RealValue(r: real) | TextValue(s: string)

  function Numeric(v: TagValue): real {
    match v
    case BoolValue(b) => if b then 1.0 else 0.0
    case IntValue(i) => i as real
    case RealValue(r) => r
    case TextValue(_) => 0.0
  }

  /** The last n elements of s, or all of it if it is shorter. */
  function LastN<T>(s: seq<T>, n: nat): (r: seq<T>)
    ensures |r| <= n && |r| <= |s|
  {
    if |s| > n then s[|s| - n..] else s
  }

  lemma {:induction false} LastNAppends<T>(s: seq<T>, t: seq<T>, n: nat)
    ensures LastN(LastN(s, n) + t, n) == LastN(s + t, n)
  {
  }
}
