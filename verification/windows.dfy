/** The cadence windows of the flare image builder (src/image_processing.py):
    the window half-length in cadences, the "with-flare" indices at which the
    baseline is evaluated and the "without-flare" indices it is fitted on. */
module Windows {
  import opened Base
  import opened Numeric
  import opened Arrays
  import opened Config

  /** Half-length in cadences: the hours times the cadence rate, truncated
      toward zero as Python's `int()` does (never rounded up). */
  function WindowLength(hours: real, cfg: Settings): (w: int)
    ensures var x := hours * cfg.cadencesPerHour as real;
      && (0.0 <= x ==> 0 <= w && w as real <= x < w as real + 1.0)
      && (x < 0.0 ==> w <= 0 && w as real - 1.0 < x <= w as real)
  {
    Truncate(hours * cfg.cadencesPerHour as real)
  }

  /** The default 16.5 h window is 33 cadences; 16.75 h (33.5 cadences) is
      truncated to 33 as well, where rounding would give 34. */
  lemma DefaultWindowLength()
    ensures WindowLength(Default.windowLengthHours, Default) == 33
    ensures WindowLength(16.75, Default) == 33
  {
  }

  /** linspace(c - w, c + w, w + 1): w + 1 indices from c - w to c + w in
      steps of two, so every other cadence of the window is skipped. */
  function WithFlareIndices(c: int, w: int): (r: Result<seq<int>>)
    ensures r.Err? <==> w < -1
    ensures r.Ok? ==> |r.value| == w + 1
    ensures r.Ok? ==> forall k :: 0 <= k <= w ==> r.value[k] == c - w + 2 * k
  {
    if 0 <= w then
      LinspaceStrideTwo(c - w, w + 1);
      Linspace(c - w, c + w, w + 1)
    else
      Linspace(c - w, c + w, w + 1)
  }

  /** linspace(c - w, c - before, w - 1) followed by
      linspace(c + after, c + w, w - 3). The sample counts are fixed in the
      code; only the two inner ends come from the settings. */
  function WithoutFlareIndices(c: int, w: int, cfg: Settings): (r: Result<seq<int>>)
    ensures r.Err? <==> w < 3
    ensures cfg == Default && r.Ok? ==> r.value == Range(c - w, c - 1) + Range(c + 4, c + w + 1)
  {
    if cfg == Default && 3 <= w then
      LinspaceUnitStep(c - w, w - 1);
      AfterFlarePart(c, w);
      WithoutFlareParts(c, w, cfg)
    else
      WithoutFlareParts(c, w, cfg)
  }

  lemma AfterFlarePart(c: int, w: int)
    requires 3 <= w
    ensures Linspace(c + 4, c + w, w - 3) == Ok(Range(c + 4, c + w + 1))
  {
    if 4 <= w {
      LinspaceUnitStep(c + 4, w - 3);
    }
  }

  function WithoutFlareParts(c: int, w: int, cfg: Settings): Result<seq<int>>
  {
    var before :- Linspace(c - w, c - cfg.excludedBefore, w - 1);
    var after :- Linspace(c + cfg.excludedAfter, c + w, w - 3);
    Ok(before + after)
  }

  /** For the default settings the fitting set has 2w - 4 strictly
      increasing entries within [c - w, c + w] and never touches the
      exclusion band c - 1 .. c + 3, so never the flare cadence itself. */
  lemma WithoutFlareExcludesBand(c: int, w: int)
    requires 3 <= w
    ensures WithoutFlareIndices(c, w, Default).Ok?
    ensures var s := WithoutFlareIndices(c, w, Default).value;
      && |s| == 2 * w - 4
      && (forall i, j :: 0 <= i < j < |s| ==> s[i] < s[j])
      && (forall k :: 0 <= k < |s| ==> c - w <= s[k] <= c + w)
      && (forall k :: 0 <= k < |s| ==> s[k] < c - 1 || c + 3 < s[k])
      && c !in s
  {
    var s := WithoutFlareIndices(c, w, Default).value;
    var a, b := Range(c - w, c - 1), Range(c + 4, c + w + 1);
    assert s == a + b;
    assert forall k :: 0 <= k < |s| ==> s[k] == if k < |a| then a[k] else b[k - |a|];
  }

  /** With an odd half-length, such as the default 33, the stride-two
      evaluation window skips the flare cadence itself; with an even one it
      holds it in the middle. */
  lemma FlareCadenceInWindowIffEven(c: int, w: int)
    requires 0 <= w
    ensures WithFlareIndices(c, w).Ok?
    ensures c in WithFlareIndices(c, w).value <==> w % 2 == 0
  {
    var r := WithFlareIndices(c, w).value;
    if w % 2 == 0 {
      assert r[w / 2] == c;
    } else {
      forall k | 0 <= k < |r|
        ensures r[k] != c
      {
        assert r[k] == c - w + 2 * k;
      }
    }
  }

  /** Because the with-flare window steps by two, the cadence just after its
      first entry is fitted but never evaluated: the fitting set is not a
      subset of the evaluation window, unlike the contiguous 2w + 1 window
      the pixel-file preparation builds. */
  lemma WithoutFlareNotInsideWithFlare(c: int, w: int)
    requires 3 <= w
    ensures WithFlareIndices(c, w).Ok? && WithoutFlareIndices(c, w, Default).Ok?
    ensures c - w + 1 in WithoutFlareIndices(c, w, Default).value
    ensures c - w + 1 !in WithFlareIndices(c, w).value
  {
    var s := WithoutFlareIndices(c, w, Default).value;
    assert s[1] == c - w + 1;
    var r := WithFlareIndices(c, w).value;
    forall k | 0 <= k < |r|
      ensures r[k] != c - w + 1
    {
      assert r[k] == c - w + 2 * k;
    }
  }
}
