/** What several modules share. */
module Common {
  datatype Option<+T> = None | Some(value: T)

  const MAX_PORT := 65535

  type Port = p: nat | 1 <= p <= MAX_PORT witness 1

  lemma SubsetSize<T>(a: set<T>, b: set<T>)
    requires a <= b
    ensures |a| <= |b|
  {
    assert b == a + (b - a);
  }

  lemma MulMonotone(a: nat, b: nat, n: nat)
    requires a <= b
    ensures a * n <= b * n
  {
  }
}
