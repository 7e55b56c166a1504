/** Small definitions shared by the other modules. */
module Common {

  datatype Option<+T> = None | Some(value: T)

  type Byte = b: int | 0 <= b < 256

  lemma Assoc<T>(a: seq<T>, b: seq<T>, c: seq<T>)
    ensures a + b + c == a + (b + c)
  {
  }

  /** The sum of a sequence of counts. */
  function Sum(a: seq<nat>): nat {
    if a == [] then 0 else a[0] + Sum(a[1..])
  }

  lemma {:induction false} SumOfUpdate(a: seq<nat>, i: nat, v: nat)
    requires i < |a|
    ensures Sum(a[i := v]) + a[i] == Sum(a) + v
  {
    if i == 0 {
      assert a[i := v][1..] == a[1..];
    } else {
      assert a[i := v][1..] == a[1..][i - 1 := v];
      SumOfUpdate(a[1..], i - 1, v);
    }
  }

  /** Raising every element by at most `d` raises the sum by at most `d` per element. */
  lemma {:induction false} SumOfRaised(a: seq<nat>, b: seq<nat>, d: nat)
    requires |a| == |b|
    requires forall i :: 0 <= i < |a| ==> b[i] <= a[i] + d
    ensures Sum(b) <= Sum(a) + |a| * d
  {
    if a == [] {
    } else {
      SumOfRaised(a[1..], b[1..], d);
      assert |a| * d == (|a| - 1) * d + d;
    }
  }

  lemma {:induction false} SumIsZero(a: seq<nat>)
    requires forall i :: 0 <= i < |a| ==> a[i] == 0
    ensures Sum(a) == 0
  {
    if a == [] {
    } else {
      SumIsZero(a[1..]);
    }
  }

  /** No value occurs twice. */
  predicate Distinct<T(==)>(s: seq<T>) {
    forall i, j :: 0 <= i < j < |s| ==> s[i] != s[j]
  }
}
