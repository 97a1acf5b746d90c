/** `array_split`: a list cut into `num_splits` consecutive pieces whose
    lengths differ by at most one, the longer ones first. */
module Split {

  import opened Outcomes
  import opened Text

  /** Length of piece `i` when `n` items are cut into `k` pieces: the
      quotient, plus one for each of the first `n % k` pieces. */
  function PieceLength(n: nat, k: nat, i: nat): nat
    requires k >= 1
  {
    n / k + if i < n % k then 1 else 0
  }

  /** Where piece `i` starts: the lengths of the pieces before it. */
  function PieceStart(n: nat, k: nat, i: nat): nat
    requires k >= 1
  {
    i * (n / k) + if i < n % k then i else n % k
  }

  lemma PieceStartStep(n: nat, k: nat, i: nat)
    requires k >= 1
    ensures PieceStart(n, k, i + 1) == PieceStart(n, k, i) + PieceLength(n, k, i)
  {
  }

  /** After all `k` pieces the whole list is used. */
  lemma PieceStartEnd(n: nat, k: nat)
    requires k >= 1
    ensures PieceStart(n, k, k) == n
  {
    assert n == k * (n / k) + n % k;
  }

  /** `array_split(arr, num_splits)`. `divmod` by zero raises; a negative
      count gives an empty `range`, so no pieces. */
  method ArraySplit<T>(arr: seq<T>, numSplits: int) returns (r: Result<seq<seq<T>>>)
    ensures r.Err? <==> numSplits == 0
    ensures r.Err? ==> r.error == DivisionByZero
    ensures numSplits < 0 ==> r == Ok([])
    ensures numSplits > 0 ==> r.Ok? && |r.value| == numSplits && Concat(r.value) == arr
    ensures numSplits > 0 ==> forall i :: 0 <= i < numSplits ==>
              |r.value[i]| == PieceLength(|arr|, numSplits, i)
  {
    if numSplits == 0 {
      return Err(DivisionByZero);
    }
    if numSplits < 0 {
      return Ok([]);
    }
    var k: nat := numSplits;
    var splitSize, remainder := |arr| / k, |arr| % k;
    var splits: seq<seq<T>> := [];
    var start := 0;
    for i := 0 to k
      invariant |splits| == i
      invariant start == PieceStart(|arr|, k, i) && start <= |arr|
      invariant Concat(splits) == arr[..start]
      invariant forall j :: 0 <= j < i ==> |splits[j]| == PieceLength(|arr|, k, j)
    {
      var end := start + splitSize + if i < remainder then 1 else 0;
      PieceStartStep(|arr|, k, i);
      PieceStartBound(|arr|, k, i + 1);
      ConcatAppend(splits, arr[start..end]);
      assert arr[..start] + arr[start..end] == arr[..end];
      splits := splits + [arr[start..end]];
      start := end;
    }
    PieceStartEnd(|arr|, k);
    assert arr[..start] == arr;
    return Ok(splits);
  }

  /** No piece reaches past the end of the list. */
  lemma PieceStartBound(n: nat, k: nat, i: nat)
    requires k >= 1 && i <= k
    ensures PieceStart(n, k, i) <= n
  {
    PieceStartEnd(n, k);
    PieceStartMonotone(n, k, i, k);
  }

  lemma {:induction false} PieceStartMonotone(n: nat, k: nat, i: nat, j: nat)
    requires k >= 1 && i <= j
    ensures PieceStart(n, k, i) <= PieceStart(n, k, j)
    decreases j - i
  {
    if i < j {
      PieceStartStep(n, k, i);
      PieceStartMonotone(n, k, i + 1, j);
    }
  }

  /** The pieces are as even as possible: any two lengths differ by at most
      one, and a longer piece never comes after a shorter one. */
  lemma Balanced(n: nat, k: nat, i: nat, j: nat)
    requires k >= 1 && i <= j
    ensures PieceLength(n, k, j) <= PieceLength(n, k, i) <= PieceLength(n, k, j) + 1
  {
  }
}
