/** The numpy array operations the index bookkeeping relies on:
    `linspace(start, stop, num, dtype=int)` and fancy indexing with an index
    list, where a negative index counts from the end. */
module Arrays {
  import opened Base

  /** The consecutive integers lo, lo+1, ..., hi-1 (empty when hi <= lo). */
  function Range(lo: int, hi: int): (r: seq<int>)
    ensures |r| == if hi <= lo then 0 else hi - lo
    ensures forall k :: 0 <= k < |r| ==> r[k] == lo + k
  {
    if hi <= lo then [] else seq(hi - lo, k requires 0 <= k < hi - lo => lo + k)
  }

  /** Sample k of `linspace(start, stop, num)` in exact arithmetic, converted
      to an integer by flooring. */
  function LinspacePoint(start: int, stop: int, num: int, k: int): int
    requires 2 <= num
  {
    (start as real + (k as real) * ((stop - start) as real) / ((num - 1) as real)).Floor
  }

  /** numpy.linspace with an integer dtype. A negative count is an error, a
      zero count gives no samples, one sample is `start`, and otherwise the
      last sample is exactly `stop`. */
  function Linspace(start: int, stop: int, num: int): (r: Result<seq<int>>)
    ensures r.Err? <==> num < 0
    ensures r.Ok? ==> |r.value| == num
    ensures r.Ok? && 1 <= num ==> r.value[0] == start
    ensures r.Ok? && 2 <= num ==> r.value[num - 1] == stop
  {
    if num < 0 then Err(NegativeSampleCount)
    else if num <= 1 then Ok(seq(num, k => start))
    else
      Ok(seq(num, k requires 0 <= k < num =>
        if k == num - 1 then stop else LinspacePoint(start, stop, num, k)))
  }

  /** When `stop - start == num - 1` the samples are consecutive integers. */
  lemma LinspaceUnitStep(start: int, num: int)
    requires 1 <= num
    ensures Linspace(start, start + num - 1, num) == Ok(Range(start, start + num))
  {
    var r := Linspace(start, start + num - 1, num);
    forall k | 0 <= k < num
      ensures r.value[k] == start + k
    {
      if 2 <= num && k < num - 1 {
        var stop, n := start + num - 1, (num - 1) as real;
        var x := start as real + (k as real) * ((stop - start) as real) / ((num - 1) as real);
        assert LinspacePoint(start, stop, num, k) == x.Floor;
        assert (stop - start) as real == n;
        assert (k as real) * n / n == k as real;
        assert x == (start + k) as real;
        assert r.value[k] == LinspacePoint(start, start + num - 1, num, k);
      }
    }
    assert r.value == Range(start, start + num);
  }

  /** When `stop - start == 2·(num - 1)` the samples step by two. */
  lemma LinspaceStrideTwo(start: int, num: int)
    requires 1 <= num
    ensures Linspace(start, start + 2 * (num - 1), num).Ok?
    ensures forall k :: 0 <= k < num ==>
      Linspace(start, start + 2 * (num - 1), num).value[k] == start + 2 * k
  {
    var r := Linspace(start, start + 2 * (num - 1), num);
    forall k | 0 <= k < num
      ensures r.value[k] == start + 2 * k
    {
      if 2 <= num && k < num - 1 {
        var stop, n := start + 2 * (num - 1), (num - 1) as real;
        var x := start as real + (k as real) * ((stop - start) as real) / ((num - 1) as real);
        assert LinspacePoint(start, stop, num, k) == x.Floor;
        assert (stop - start) as real == 2.0 * n;
        assert (k as real) * (2.0 * n) / n == 2.0 * k as real;
        assert x == (start + 2 * k) as real;
        assert r.value[k] == LinspacePoint(start, start + 2 * (num - 1), num, k);
      }
    }
  }

  /** numpy accepts an index i into an axis of length n when -n <= i < n. */
  predicate InBounds(i: int, n: int)
  {
    -n <= i < n
  }

  /** The position a valid numpy index refers to. */
  function Wrap(i: int, n: int): (k: nat)
    requires InBounds(i, n)
    ensures k < n
    ensures 0 <= i ==> k == i
  {
    if i < 0 then i + n else i
  }

  /** `s[i]` for one integer index. */
  function At<T>(s: seq<T>, i: int): (r: Result<T>)
    ensures r.Ok? <==> InBounds(i, |s|)
  {
    if InBounds(i, |s|) then Ok(s[Wrap(i, |s|)]) else Err(IndexOutOfBounds)
  }

  predicate AllInBounds(idx: seq<int>, n: int)
  {
    forall k :: 0 <= k < |idx| ==> InBounds(idx[k], n)
  }

  /** `s[idx]` for an index list: fails with IndexError when any index is
      out of range, otherwise picks the elements in the order of `idx`. */
  function Take<T>(s: seq<T>, idx: seq<int>): (r: Result<seq<T>>)
    ensures r.Ok? <==> AllInBounds(idx, |s|)
    ensures r.Ok? ==> |r.value| == |idx|
    ensures r.Ok? ==> forall k :: 0 <= k < |idx| ==> r.value[k] == s[Wrap(idx[k], |s|)]
  {
    if AllInBounds(idx, |s|) then
      Ok(seq(|idx|, k requires 0 <= k < |idx| => s[Wrap(idx[k], |s|)]))
    else
      Err(IndexOutOfBounds)
  }
}
