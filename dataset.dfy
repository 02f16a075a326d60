/** `MovingMNISTDataset`, the indexable view of the generated arrays, and the
    split-size arithmetic of `generate_dataloader`. */
module Dataset {
  import opened Wrappers
  import opened PairSampling

  /** Python's `IndexError`: `index` is outside an array of `size` entries. */
  datatype IndexError = IndexError(index: int, size: nat)

  /** Python indexing into `size` entries: `-size..-1` count from the end. */
  function Position(index: int, size: nat): (r: Option<nat>)
    ensures r.Some? <==> -(size as int) <= index < size
    ensures r.Some? ==> r.value == index % size
  {
    if 0 <= index < size then Some(index)
    else if -(size as int) <= index < 0 then ModFromEnd(index, size); Some(index + size)
    else None
  }

  /** An index counted from the end is its remainder. */
  lemma ModFromEnd(index: int, size: nat)
    requires -(size as int) <= index < 0
    ensures index % size == index + size
  {
    var q := index / size;
    assert index == q * size + index % size;
    assert q == -1 by {
      assert q * size == index - index % size;
      assert -2 * (size as int) < q * size < 0;
      CancelPositive(q, -1, size);
      CancelPositive(-2, q, size);
    }
  }

  /** The pairs and labels; the transforms the source stores are never used. */
  datatype MovingMNISTDataset<F> = MovingMNISTDataset(X: seq<StackPair<F>>, y: seq<nat>)
  {
    /** `__len__`: the number of labels. Every index from `-n` up to but
        excluding `n` reaches an item when there are as many pairs as labels,
        and no index outside that range does. */
    function Len(): (n: nat)
      ensures n == |y|
      ensures |X| == |y| ==> forall i :: -(n as int) <= i < n ==> GetItem(i).Success?
      ensures forall i :: !(-(n as int) <= i < n) ==> GetItem(i).Failure?
    {
      |y|
    }

    /** `__getitem__`: both stacks of the pair at `index`, then its label;
        the pairs are indexed first, so their `IndexError` wins. */
    function GetItem(index: int): (r: Result<(seq<F>, seq<F>, nat), IndexError>)
      ensures r.Success? <==> -|X| <= index < |X| && -|y| <= index < |y|
      ensures !(-|X| <= index < |X|) ==> r == Failure(IndexError(index, |X|))
      ensures r.Success? ==>
        r.value == (X[index % |X|].first, X[index % |X|].second, y[index % |y|])
    {
      match Position(index, |X|)
      case None => Failure(IndexError(index, |X|))
      case Some(i) =>
        match Position(index, |y|)
        case None => Failure(IndexError(index, |y|))
        case Some(j) => Success((X[i].first, X[i].second, y[j]))
    }
  }

  /** When there are as many pairs as labels, every index below `Len()` gives
      the pair and label at that index, and counting from the end gives the
      same item. */
  lemma GetItemInRange<F>(ds: MovingMNISTDataset<F>, i: int)
    requires |ds.X| == ds.Len() && 0 <= i < ds.Len()
    ensures ds.GetItem(i) == Success((ds.X[i].first, ds.X[i].second, ds.y[i]))
    ensures ds.GetItem(i - ds.Len()) == ds.GetItem(i)
  {
  }

  /** With fewer pairs than labels some index below `Len()` fails. */
  lemma ShortPairsFail<F>(ds: MovingMNISTDataset<F>)
    requires |ds.X| < ds.Len()
    ensures ds.GetItem(|ds.X|) == Failure(IndexError(|ds.X|, |ds.X|))
  {
  }

  /** An exact fraction `num / den`, standing for a float split size. */
  datatype Fraction = Fraction(num: int, den: int)

  /** A fraction with a positive denominator. */
  predicate WellFormed(f: Fraction)
  {
    f.den > 0
  }

  /** `np.floor(a / b)` on exact values. */
  function FloorDiv(a: int, b: int): (r: int)
    requires b != 0
    ensures b > 0 ==> r * b <= a < r * b + b
    ensures b < 0 ==> r * b >= a > r * b + b
  {
    if b > 0 then a / b else (-a) / (-b)
  }

  /** Why the split sizes cannot be computed: `1 - test_size` is zero. */
  datatype SplitError = ZeroDivision

  /** Train, validation and test sizes. */
  datatype SplitSizes = SplitSizes(train: int, val: int, test: int)

  /** The sizes of `generate_dataloader`: `test` is the floor of
      `test * len`, `val` the floor of `val * (len - test) / (1 - test)`, and
      `train` the rest. */
  function Split(len: nat, testSize: Fraction, valSize: Fraction): (r: Result<SplitSizes, SplitError>)
    requires WellFormed(testSize) && WellFormed(valSize)
    ensures r.Failure? <==> testSize.num == testSize.den
    ensures r.Success? ==> r.value.train + r.value.val + r.value.test == len
    ensures r.Success? ==>
      r.value.test * testSize.den <= testSize.num * len < (r.value.test + 1) * testSize.den
  {
    var numTest := FloorDiv(testSize.num * len, testSize.den);
    var numTrainVal := len - numTest;
    if testSize.num == testSize.den then Failure(ZeroDivision)
    else
      var numVal := FloorDiv(numTrainVal * valSize.num * testSize.den,
                             valSize.den * (testSize.den - testSize.num));
      Success(SplitSizes(numTrainVal - numVal, numVal, numTest))
  }

  /** With `0 <= test < 1` and `0 <= val <= 1 - test` every size lies in
      `0..len`. */
  lemma SplitInRange(len: nat, testSize: Fraction, valSize: Fraction)
    requires WellFormed(testSize) && WellFormed(valSize)
    requires 0 <= testSize.num < testSize.den
    requires 0 <= valSize.num
    requires valSize.num * testSize.den <= valSize.den * (testSize.den - testSize.num)
    ensures Split(len, testSize, valSize).Success?
    ensures
      var s := Split(len, testSize, valSize).value;
      0 <= s.train <= len && 0 <= s.val <= len && 0 <= s.test <= len
  {
    FloorBetween(testSize.num, testSize.den, len);
    var numTrainVal: nat := len - FloorDiv(testSize.num * len, testSize.den);
    var a := valSize.num * testSize.den;
    var b := valSize.den * (testSize.den - testSize.num);
    assert b > 0;
    assert a >= 0;
    assert numTrainVal * valSize.num * testSize.den == a * numTrainVal;
    FloorBetween(a, b, numTrainVal);
  }

  /** A positive factor can be cancelled from both sides of `<=`. */
  lemma CancelPositive(a: int, b: int, q: int)
    requires q > 0 && a * q <= b * q
    ensures a <= b
  {
    assert (b - a) * q == b * q - a * q;
  }

  /** For `0 <= p <= q`, the floor of `p * x / q` lies in `0..x`. */
  lemma FloorBetween(p: int, q: int, x: nat)
    requires 0 <= p <= q && q > 0
    ensures 0 <= FloorDiv(p * x, q) <= x
  {
    var r := FloorDiv(p * x, q);
    assert p * x <= q * x;
    assert r * q <= x * q;
    CancelPositive(r, x, q);
    assert 0 * q < r * q + q == (r + 1) * q;
    CancelPositive(0, r + 1, q);
  }
}
