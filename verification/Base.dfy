/** Small shared vocabulary: options, results, and the size and largest element of a set. */
module Base {

  datatype Option<+T> = None | Some(value: T)

  datatype Result<+T, +E> = Ok(value: T) | Err(error: E)

  /** The largest member of a finite set of numbers, 0 for the empty set. */
  ghost function MaxOf(numbers: set<nat>): (top: nat)
    ensures numbers == {} ==> top == 0
    ensures numbers != {} ==> top in numbers
    ensures forall n | n in numbers :: n <= top
  {
    if numbers == {} then 0
    else
      var n :| n in numbers;
      var rest := MaxOf(numbers - {n});
      assert forall m | m in numbers :: m == n || m in numbers - {n};
      if rest >= n && numbers - {n} != {} then rest else n
  }

  lemma {:induction false} SubsetIsSmaller<T>(a: set<T>, b: set<T>)
    requires a <= b
    ensures |a| <= |b|
    decreases |b|
  {
    if x :| x in b {
      SubsetIsSmaller(a - {x}, b - {x});
    }
  }
}
