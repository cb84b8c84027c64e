/** Small vocabulary shared by every module: options, real helpers, tails and ranges. */
module Prelude {

  datatype Option<+T> = None | Some(value: T) {
    predicate IsFailure() {
      None?
    }

    function PropagateFailure<U>(): Option<U>
      requires None?
    {
      None
    }

    function Extract(): T
      requires Some?
    {
      value
    }
  }

  function MaxReal(x: real, y: real): real {
    if x < y then y else x
  }

  function MinReal(x: real, y: real): real {
    if x < y then x else y
  }

  function AbsReal(x: real): real {
    if x < 0.0 then -x else x
  }

  /** Division made total. A zero divisor raises in the program; every theorem about
      the value of a quotient in this project asks for positive prices. */
  function Ratio(num: real, den: real): real {
    if den == 0.0 then 0.0 else num / den
  }

  /** The last `n` elements of `s`, or all of them when there are fewer. */
  function Tail<T>(s: seq<T>, n: nat): seq<T> {
    if |s| <= n then s else s[|s| - n..]
  }

  lemma TailOfTail<T>(s: seq<T>, x: T, n: nat)
    ensures Tail(Tail(s, n) + [x], n) == Tail(s + [x], n)
  {
  }

  /** The product of `1 + f(k)` for `lo <= k < hi`. */
  ghost function Compound(f: int -> real, lo: int, hi: int): real
    decreases hi - lo
  {
    if hi <= lo then 1.0 else Compound(f, lo, hi - 1) * (1.0 + f(hi - 1))
  }

  lemma {:induction false} CompoundSplit(f: int -> real, lo: int, mid: int, hi: int)
    requires lo <= mid <= hi
    ensures Compound(f, lo, hi) == Compound(f, lo, mid) * Compound(f, mid, hi)
    decreases hi - mid
  {
    if mid < hi {
      CompoundSplit(f, lo, mid, hi - 1);
      ProductReassociates(Compound(f, lo, mid), Compound(f, mid, hi - 1), 1.0 + f(hi - 1));
    }
  }

  lemma ProductReassociates(x: real, y: real, z: real)
    ensures (x * y) * z == x * (y * z)
  {
  }

  lemma DividesOut(product: real, x: real, y: real)
    requires x > 0.0 && product == x * y
    ensures product / x == y
  {
  }

  predicate InThree(whole: real, x: real, y: real, z: real) {
    whole == x * (y * z)
  }

  lemma CompoundInThree(f: int -> real, lo: int, a: int, b: int, hi: int)
    requires lo <= a <= b <= hi
    ensures InThree(Compound(f, lo, hi), Compound(f, lo, a), Compound(f, a, b), Compound(f, b, hi))
  {
    CompoundSplit(f, lo, a, hi);
    CompoundSplit(f, a, b, hi);
  }

  lemma {:induction false} CompoundAgrees(f: int -> real, g: int -> real, lo: int, hi: int)
    requires forall k :: lo <= k < hi ==> f(k) == g(k)
    ensures Compound(f, lo, hi) == Compound(g, lo, hi)
    decreases hi - lo
  {
    if lo < hi {
      CompoundAgrees(f, g, lo, hi - 1);
    }
  }

  lemma {:induction false} CompoundOfZeros(f: int -> real, lo: int, hi: int)
    requires forall k :: lo <= k < hi ==> f(k) == 0.0
    ensures Compound(f, lo, hi) == 1.0
    decreases hi - lo
  {
    if lo < hi {
      CompoundOfZeros(f, lo, hi - 1);
    }
  }
}
