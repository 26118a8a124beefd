/** Preparation of the target pixel data (src/tpf_selection.py): choosing one
    pixel file among the candidates found for a target and quarter, and the
    cadence indices around the flare, with and without the flare band. */
module TpfSelection {
  import opened Base
  import opened Numeric
  import opened Arrays
  import opened Cadence
  import opened Image

  /** Half-width, in cadences, of the window built around the flare. */
  const HalfWindow := 33

  datatype FlareCadences = FlareCadences(flare: nat, withFlare: seq<int>, withoutFlare: seq<int>)

  /** The first position holding `v`, as `argwhere(s == v)[0]` finds it. */
  function FirstIndexOf(s: seq<int>, v: int): (r: Option<nat>)
    ensures r.None? <==> v !in s
    ensures r.Some? ==> r.value < |s| && s[r.value] == v
    ensures r.Some? ==> forall k :: 0 <= k < r.value ==> s[k] != v
    decreases |s|
  {
    if |s| == 0 then None
    else if s[0] == v then Some(0)
    else
      match FirstIndexOf(s[1..], v)
      case None => None
      case Some(k) => Some(k + 1)
  }

  /** The entries before the first occurrence of `n`; when `n` does not occur
      the empty `argwhere` result cannot be indexed (IndexError). */
  function CutBefore(s: seq<int>, n: int): (r: Result<seq<int>>)
    ensures r.Err? <==> n !in s
  {
    match FirstIndexOf(s, n)
    case None => Err(IndexOutOfBounds)
    case Some(k) => Ok(s[..k])
  }

  /** The flare cadence and the two windows of 67 and 32 + 30 indices; both
      lists are cut just before the entry equal to len(time) when the window
      reaches past the last cadence. The lower end is never cut. */
  function FindIndicesAroundFlare(time: seq<real>, tFlare: real): (r: Result<FlareCadences>)
    ensures |time| == 0 ==> r.Err?
    ensures 0 < |time| ==>
      var c := FindImageIndex(time, tFlare).value.index;
      var top := if |time| <= c + HalfWindow then |time| else c + HalfWindow + 1;
      && (r.Err? <==> |time| <= c + 3)
      && (r.Ok? ==>
            && r.value.flare == c
            && r.value.withFlare == Range(c - HalfWindow, top)
            && r.value.withoutFlare == Range(c - HalfWindow, c - 1) + Range(c + 4, top))
  {
    var lookup :- FindImageIndex(time, tFlare);
    WindowsAroundCadenceAre(lookup.index, |time|);
    WindowsAroundCadence(lookup.index, |time|)
  }

  /** The index lists for flare cadence c in a time array of length n. */
  function WindowsAroundCadence(c: nat, n: int): Result<FlareCadences>
  {
    // numpy cannot fail here: every sample count is a positive constant
    var withFlare := Linspace(c - 33, c + 33, 67).value;
    var withoutFlare := Linspace(c - 33, c - 2, 32).value + Linspace(c + 4, c + 33, 30).value;
    if n <= withFlare[66] then
      var w :- CutBefore(withFlare, n);
      var wo :- CutBefore(withoutFlare, n);
      Ok(FlareCadences(c, w, wo))
    else
      Ok(FlareCadences(c, withFlare, withoutFlare))
  }

  lemma WindowsAroundCadenceAre(c: nat, n: int)
    requires c < n
    ensures var r := WindowsAroundCadence(c, n);
      var top := if n <= c + HalfWindow then n else c + HalfWindow + 1;
      && (r.Err? <==> n <= c + 3)
      && (r.Ok? ==>
            && r.value.flare == c
            && r.value.withFlare == Range(c - HalfWindow, top)
            && r.value.withoutFlare == Range(c - HalfWindow, c - 1) + Range(c + 4, top))
  {
    LinspaceUnitStep(c - 33, 67);
    LinspaceUnitStep(c - 33, 32);
    LinspaceUnitStep(c + 4, 30);
    var withFlare := Range(c - 33, c + 34);
    assert withFlare[66] == c + 33;
    if n <= c + 33 {
      CutsAtLength(c, n);
    }
  }

  /** Where the cut lands when c < n <= c + 33: the with-flare list always
      contains n; the without-flare list contains it only from c + 4 on. */
  lemma CutsAtLength(c: int, n: int)
    requires c < n <= c + HalfWindow
    ensures CutBefore(Range(c - 33, c + 34), n) == Ok(Range(c - 33, n))
    ensures n <= c + 3 ==> CutBefore(Range(c - 33, c - 1) + Range(c + 4, c + 34), n).Err?
    ensures c + 4 <= n ==>
      CutBefore(Range(c - 33, c - 1) + Range(c + 4, c + 34), n)
        == Ok(Range(c - 33, c - 1) + Range(c + 4, n))
  {
    var w := Range(c - 33, c + 34);
    var i := FirstIndexOf(w, n);
    assert w[n - (c - 33)] == n;
    assert i.Some? && i.value == n - (c - 33);
    assert w[..i.value] == Range(c - 33, n);
    var a, b := Range(c - 33, c - 1), Range(c + 4, c + 34);
    var wo := a + b;
    if n <= c + 3 {
      assert forall k :: 0 <= k < |wo| ==> wo[k] == if k < |a| then a[k] else b[k - |a|];
      assert n !in wo;
    } else {
      var p := 32 + (n - (c + 4));
      assert wo[p] == n;
      assert forall k :: 0 <= k < p ==> wo[k] != n;
      assert FirstIndexOf(wo, n) == Some(p);
      assert wo[..p] == a + Range(c + 4, n);
    }
  }

  /** Every kept index is below len(time); the fitting set lies inside the
      evaluation window and avoids the band c - 1 .. c + 3; without a cut the
      windows hold 67 and 32 + 30 indices; below cadence 33 the first
      indices are negative (numpy then counts them from the end). */
  lemma AroundFlareWindows(time: seq<real>, tFlare: real)
    requires FindIndicesAroundFlare(time, tFlare).Ok?
    ensures var r := FindIndicesAroundFlare(time, tFlare).value;
      && (forall k :: 0 <= k < |r.withFlare| ==> r.withFlare[k] < |time|)
      && (forall k :: 0 <= k < |r.withoutFlare| ==> r.withoutFlare[k] in r.withFlare)
      && (forall k :: 0 <= k < |r.withoutFlare| ==>
            r.withoutFlare[k] < r.flare - 1 || r.flare + 3 < r.withoutFlare[k])
      && r.withFlare[0] == r.flare - HalfWindow
      && (r.flare + HalfWindow < |time| ==> |r.withFlare| == 67 && |r.withoutFlare| == 62)
  {
    var r := FindIndicesAroundFlare(time, tFlare).value;
    var c := r.flare;
    var top := if |time| <= c + HalfWindow then |time| else c + HalfWindow + 1;
    var a, b := Range(c - HalfWindow, c - 1), Range(c + 4, top);
    assert r.withoutFlare == a + b;
    forall k | 0 <= k < |r.withoutFlare|
      ensures r.withoutFlare[k] in r.withFlare
      ensures r.withoutFlare[k] < c - 1 || c + 3 < r.withoutFlare[k]
    {
      var v := r.withoutFlare[k];
      assert v == if k < |a| then a[k] else b[k - |a|];
      assert r.withFlare[v - (c - HalfWindow)] == v;
    }
  }

  /** The flare lies strictly inside the span of the finite time stamps
      (a NaN time stamp is `None`). */
  predicate Spans(time: seq<Option<real>>, tFlare: real)
    requires |FiniteValues(time)| > 0
  {
    Min(FiniteValues(time)) < tFlare < Max(FiniteValues(time))
  }

  /** A single candidate is returned without looking at its times. With
      several, only the first is examined: it is returned when its finite
      times strictly span the flare, and otherwise NoTargetPixelFile is
      raised even if a later file would match. An empty list cannot be
      indexed. */
  function FilterTargetPixelData<F>(files: seq<F>, timeOf: F -> seq<Option<real>>, tFlare: real): (r: Result<F>)
    ensures |files| == 0 ==> r.Err?
    ensures |files| == 1 ==> r == Ok(files[0])
    ensures 1 < |files| ==>
      var ts := FiniteValues(timeOf(files[0]));
      && (|ts| == 0 ==> r == Err(EmptyReduction))
      && (0 < |ts| ==> (r.Ok? <==> exists i, j :: 0 <= i < |ts| && 0 <= j < |ts| && ts[i] < tFlare < ts[j]))
      && (r.Ok? ==> r.value == files[0])
      && (r.Err? && 0 < |ts| ==> r.error == NoTargetPixelFile)
  {
    if 1 < |files| then
      var ts := FiniteValues(timeOf(files[0]));
      if |ts| == 0 then Err(EmptyReduction)
      else if Spans(timeOf(files[0]), tFlare) then Ok(files[0])
      else Err(NoTargetPixelFile)
    else if |files| == 1 then Ok(files[0])
    else Err(IndexOutOfBounds)
  }

  /** The candidate list is first checked for emptiness, which is reported
      as NoTargetPixelFile, then filtered. */
  function SelectTargetPixelFile<F>(files: seq<F>, timeOf: F -> seq<Option<real>>, tFlare: real): (r: Result<F>)
    ensures |files| == 0 ==> r == Err(NoTargetPixelFile)
    ensures r.Ok? ==> r.value == files[0]
    ensures 0 < |files| ==> r == FilterTargetPixelData(files, timeOf, tFlare)
  {
    if |files| == 0 then Err(NoTargetPixelFile)
    else FilterTargetPixelData(files, timeOf, tFlare)
  }
}
