/** Small shared vocabulary: an optional value, counters kept in maps with a
    default of zero (the `m[k] || 0` idiom of the point-of-sale code), and
    integer/real clamps. */
module Common {

  datatype Option<+T> = None | Some(value: T)

  /** `counter[k] || 0`: a missing key counts as zero. */
  function Get(m: map<string, nat>, k: string): nat
  {
    if k in m then m[k] else 0
  }

  /** `counter[k] = (counter[k] || 0) + n`. */
  function Bump(m: map<string, nat>, k: string, n: nat): (r: map<string, nat>)
    ensures Get(r, k) == Get(m, k) + n
    ensures forall j :: j != k ==> Get(r, j) == Get(m, j)
    ensures r.Keys == m.Keys + {k}
  {
    m[k := Get(m, k) + n]
  }

  function Min(a: int, b: int): int
  {
    if a <= b then a else b
  }

  function Max(a: int, b: int): int
  {
    if a >= b then a else b
  }

  function MaxReal(a: real, b: real): real
  {
    if a >= b then a else b
  }

  function Abs(x: int): nat
  {
    if x < 0 then -x else x
  }
}
