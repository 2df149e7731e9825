/** The optional value used wherever the source has a nullable reference. */
module Wrappers {

  /** `None` stands for a C# `null` reference, `Some(v)` for a reference to `v`. */
  datatype Option<+T> = None | Some(value: T)
}

/** The two `UnityEngine.Mathf` helpers the core uses, on unbounded integers. */
module Mathf {

  function Min(a: int, b: int): (r: int)
    ensures r <= a && r <= b
    ensures r == a || r == b
  {
    if a <= b then a else b
  }

  function Max(a: int, b: int): (r: int)
    ensures r >= a && r >= b
    ensures r == a || r == b
  {
    if a >= b then a else b
  }
}
