// The two result shapes every module shares.
module Wrappers {
  datatype Option<+T> = None | Some(value: T) {
    function GetOr(default: T): T {
      match this
      case Some(v) => v
      case None => default
    }
  }

  datatype Result<+T, +E> = Ok(value: T) | Err(error: E) {
    predicate IsFailure() {
      Err?
    }

    function PropagateFailure<U>(): (r: Result<U, E>)
      requires Err?
    {
      Err(error)
    }

    function Extract(): T
      requires Ok?
    {
      value
    }
  }

  function One01(b: bool): nat {
    if b then 1 else 0
  }

  function HeldIn<K, T>(m: map<K, T>, key: K): Option<T> {
    if key in m then Some(m[key]) else None
  }

  lemma {:induction false} SameMap<K, T>(m: map<K, T>, n: map<K, T>)
    requires forall key :: HeldIn(m, key) == HeldIn(n, key)
    ensures m == n
  {
    forall key
      ensures key in m <==> key in n
      ensures key in m ==> m[key] == n[key]
    {
      assert HeldIn(m, key) == HeldIn(n, key);
    }
  }
}

// The machine integers the repository counts in.
module Widths {
  const I64_MIN: int := -0x8000_0000_0000_0000
  const I64_MAX: int := 0x7FFF_FFFF_FFFF_FFFF
  const U64_MAX: int := 0xFFFF_FFFF_FFFF_FFFF
  const I128_MIN: int := -0x8000_0000_0000_0000_0000_0000_0000_0000
  const I128_MAX: int := 0x7FFF_FFFF_FFFF_FFFF_FFFF_FFFF_FFFF_FFFF

  type I64 = n: int | I64_MIN <= n <= I64_MAX witness 0
  type U64 = n: int | 0 <= n <= U64_MAX witness 0
}
