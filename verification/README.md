# Flare localisation core of LOSE, modelled in Dafny

LOSE locates a stellar flare on a Kepler target pixel file (TPF) in six steps:

1. It picks the pixel file whose time span holds the flare.
2. It finds the cadence nearest the flare time.
3. It fits a quiescent baseline to every pixel on a window of cadences around the flare, leaving out the flare band.
4. It subtracts that baseline at the flare cadence and shifts the residual to be non-negative. The result is the *flare image*.
5. It fits a PRF (pixel response function) source to the flare image with an ensemble MCMC sampler.
6. It draws confidence ellipses around the sampled positions and reports the catalogue stars inside the widest one, or the nearest star when none is inside.

This project models that core as pure functions over immutable data and proves what each step promises.

| module | file | models |
|---|---|---|
| `Base` | base.dfy | `Option` (NaN), `Result` and the failure kinds (the exceptions numpy or the code raises) |
| `Numeric` | numeric.dfy | sums, mean, min/max, first argmin, truncation, population variance, Cauchy-Schwarz, the square-root laws |
| `Arrays` | arrays.dfy | `numpy.linspace(..., dtype=int)` and fancy indexing with negative indices |
| `Config` | config.dfy | the settings the builders read |
| `Cadence` | cadence.dfy | nearest-cadence lookup (`_find_image_index`) |
| `Windows` | windows.dfy | the with-flare and without-flare windows of `image_processing.py` |
| `TpfSelection` | tpf_selection.dfy | pixel-file choice and the cadence windows of `tpf_selection.py` |
| `Polynomial` | polynomial.dfy | `poly1d` evaluation and the law a least-squares fitter obeys |
| `Image` | image.dfy | pixel grids, baseline subtraction and the non-negativity offset |
| `FlareImage` | flare_image.dfy | `FlareImageComputation` of `image_processing.py` |
| `FlareComputation` | flare_computation.dfy | `ProcessingFlareImageComputation` of `flare_image_computation.py` |
| `Localization` | localization.dfy | `FlareLocalization` of `new/flare_localization.py` |
| `Mcmc` | mcmc.dfy | `MCMCFitting`: starting parameters, prior, Poisson likelihood, burn-in and flattening, recentring, percentile summary |
| `Ellipse` | ellipse.dfy | `ConfidenceEllipceEstimation`: covariance, sorted eigen-decomposition, ellipses, the star rule |

## Conventions

- A pixel is `Option<real>`; `None` stands for NaN.
- Every exception the source can raise becomes an `Err` of `Result`. This covers:
  - numpy reductions over an empty array;
  - an index out of range;
  - a negative `linspace` count;
  - an unknown confidence level;
  - a failing fit;
  - a missing argument.
- Numeric kernels the source calls are passed in as function parameters: `polyfit`, `sqrt`, `log`, `eigh`, `arctan2`/`cos`/`sin` in degrees, `percentile`, the PRF and the sampler.
  - The laws a contract needs are stated as predicates and required only where they are used: `IsSqrt`, `IsEigh`, `ReproducesPolynomials`, `IsPercentile`, `ShiftEquivariant`, `SamplerShape` and `PrfShape`.
- Reals are exact.
  - Python's `int()` truncation and numpy's integer `linspace` (floor of the exact sample) are written out.
  - So is numpy's acceptance of negative indices `-n <= i < 0`, which count from the end.

## Where the code and its documentation part ways (the model follows the code)

- **Window length.** `image_processing.py:32` truncates `hours × 2` (16.75 h gives 33, not 34).
- **With-flare window.** `image_processing.py:95` is `linspace(c − w, c + w, w + 1)`. That is every *other* cadence, not the contiguous 2w + 1 cadences.
  - With the default odd w = 33 it skips the flare cadence itself (`Windows.FlareCadenceInWindowIffEven`).
  - The fitting set is not a subset of it (`Windows.WithoutFlareNotInsideWithFlare`).
- **Fitting gate.** Whether a pixel is fitted depends on its value at the *first* window cadence (`image_processing.py:65`), not at the flare cadence. A gated-off pixel keeps a zero baseline.
- **Window clipping.** In `tpf_selection.py:85-89` the windows are cut only at the upper end of the data.
  - A flare within 33 cadences of the start produces negative indices, which numpy wraps.
  - When the cut value is missing from the without-flare list, `argwhere(...)[0]` raises an IndexError.
- **Pixel-file choice.** `tpf_selection.py:66-77` examines only the first of several candidate files.
- **Missing settings.** `src/config.py` defines neither `window_length_hours` nor `order_of_the_fitted_polynomial`, which `image_processing.py:16` and `:68` read.
  - The model uses the 16.5 h of `src/flare_localization.py:6`.
  - It uses the cubic order that `flare_image_computation.py:40` fixes.

## Model

| member | source | states |
|---|---|---|
| Numeric.Truncate | src/image_processing.py:32 | the integer part of x, rounded toward zero: below x by less than one for x ≥ 0, above it by less than one for x < 0 |
| Numeric.ArgMin | src/image_processing.py:49 | the index of the first occurrence of the least element |
| Numeric.Mean | src/mcmc.py:59-60 | the mean of a non-empty sequence lies between its least and its greatest term |
| Numeric.PopVariance | src/flare_image_computation.py:59-60 | numpy's default (ddof 0) variance is never negative and is zero for a constant sequence |
| Arrays.Linspace | src/image_processing.py:86-95 | integer `linspace`: fails exactly for a negative count, has `num` samples, starts at `start` and ends exactly at `stop` |
| Arrays.LinspaceUnitStep | src/tpf_selection.py:81-84 | when stop − start = num − 1 the samples are the consecutive integers from start |
| Arrays.LinspaceStrideTwo | src/image_processing.py:95 | when stop − start = 2(num − 1) the k-th sample is start + 2k |
| Arrays.Take | src/image_processing.py:73-74 | fancy indexing succeeds exactly when every index is in [−n, n) and picks the wrapped positions in index order |
| Cadence.FindImageIndex | src/image_processing.py:48-53 | fails exactly on an empty time array; otherwise returns the lowest index nearest the flare time, flagged as approximated exactly when no time stamp equals it |
| Cadence.NearestCadenceIsFound | src/new/flare_localization.py:35-40 | the nearest-cadence index is unique: any index meeting the definition is the one returned |
| Cadence.ExactTimeFindsItsCadence | test/test_image_processing.py:12-14 | an exact time stamp (100.34 among four) gives its own index 2 without the warning |
| Cadence.NearestTimeFindsClosestCadence | test/test_image_processing.py:16-18 | 95.5 gives index 1 (95.34), with the warning |
| Windows.WindowLength | src/image_processing.py:32 | the half-length is the hours times the cadence rate, truncated toward zero |
| Windows.DefaultWindowLength | src/flare_localization.py:6 | 16.5 h is 33 cadences, and 16.75 h is also 33, since truncation never rounds up |
| Windows.WithFlareIndices | src/image_processing.py:94-95 | fails exactly when w < −1; otherwise w + 1 indices, the k-th being c − w + 2k |
| Windows.WithoutFlareIndices | src/image_processing.py:85-92 | fails exactly when w < 3; with the default exclusions it is c − w .. c − 2 followed by c + 4 .. c + w |
| Windows.WithoutFlareExcludesBand | src/image_processing.py:85-92 | 2w − 4 strictly increasing indices within [c − w, c + w], none in the band c − 1 .. c + 3, so never the flare cadence |
| Windows.FlareCadenceInWindowIffEven | src/image_processing.py:94-95 | the flare cadence is in the evaluation window if and only if w is even |
| Windows.WithoutFlareNotInsideWithFlare | src/image_processing.py:85-95 | cadence c − w + 1 is fitted but never evaluated |
| TpfSelection.FirstIndexOf | src/tpf_selection.py:86 | `argwhere(s == v)[0]`: absent exactly when v is not in s, else the first position holding v |
| TpfSelection.CutBefore | src/tpf_selection.py:86-89 | cutting at a value fails exactly when the value does not occur |
| TpfSelection.FindIndicesAroundFlare | src/tpf_selection.py:79-90 | fails exactly when the data end within three cadences after the flare cadence; otherwise the windows are c − 33 .. top − 1 and c − 33 .. c − 2 followed by c + 4 .. top − 1, where top is the smaller of len(time) and c + 34 |
| TpfSelection.WindowsAroundCadenceAre | src/tpf_selection.py:81-89 | the same windows for a flare cadence c below the data length n |
| TpfSelection.CutsAtLength | src/tpf_selection.py:85-89 | where the cut at len(time) lands in each list, and when it fails |
| TpfSelection.AroundFlareWindows | src/tpf_selection.py:79-90 | every kept index is below len(time); the fitting set lies inside the evaluation window and avoids the flare band; uncut windows hold 67 and 62 indices |
| TpfSelection.FilterTargetPixelData | src/tpf_selection.py:65-77 | one candidate is returned unchecked; with several, the first is returned if and only if its finite times strictly span the flare, otherwise NoTargetPixelFile |
| TpfSelection.SelectTargetPixelFile | src/tpf_selection.py:58-60 | an empty candidate list is NoTargetPixelFile; any file returned is the first candidate |
| Polynomial.HornerIsPowerSum | src/image_processing.py:97-99 | `poly1d` evaluation (Horner) equals Σ cₖ·t^(n−k) |
| Polynomial.CubicCoefficients | test/inputs_for_test_image_processing.py:9 | a four-coefficient `poly1d` [a, b, c, d] is a·t³ + b·t² + c·t + d, the form of the fixture flux t³ − 0.5t² + 10t + 4 |
| Image.FiniteEmptyIffAllNaN | src/image_processing.py:83 | the finite pixels of an image are none exactly when every pixel is NaN |
| Image.Subtract | src/image_processing.py:78-79 | raw − baseline pixel by pixel, with NaN staying NaN |
| Image.AbsMinFinite | src/image_processing.py:81-83 | fails exactly when no pixel is finite; otherwise non-negative |
| Image.FlareOffset | src/flare_image_computation.py:45-46 | the offset fails exactly when the raw image has no finite pixel, and is never negative |
| Image.RemoveBaseline | src/image_processing.py:71-72 | the flare image fails exactly when the raw image is all NaN |
| Image.FlarePixel | src/flare_image_computation.py:45-46 | a flare-image pixel is NaN exactly where the raw pixel is; otherwise it is raw − baseline + offset and non-negative |
| Image.SubtractKeepsNaN | src/image_processing.py:71 | the residual is all NaN exactly when the raw image is |
| Image.OffsetMakesNonNegative | src/image_processing.py:71-83 | after the offset, NaN pixels stay NaN and every finite pixel is ≥ 0 |
| Image.OffsetReachesZero | src/image_processing.py:81-83 | when the least residual is ≤ 0, the pixel holding it becomes exactly 0 |
| FlareImage.PixelQuiet | src/image_processing.py:63-70 | a pixel NaN at the gate cadence keeps zero baselines; otherwise its baselines are the fitted polynomial's values, and it fails exactly when the fit fails |
| FlareImage.Assemble | src/image_processing.py:61-70 | the baseline images succeed exactly when every pixel does, and hold each pixel's baselines |
| FlareImage.QuietFlux | src/image_processing.py:61-70 | the baselines of the whole image: one image per evaluation cadence plus one at the flare cadence; they fail if and only if some gate pixel is finite and either a fitting index is out of range or that pixel's fit fails |
| FlareImage.QuietFluxSkipped | src/image_processing.py:61-65 | a pixel NaN at the gate cadence has a zero baseline at the flare and at every evaluation cadence |
| FlareImage.QuietFluxFitted | src/image_processing.py:65-70 | a pixel finite at the gate cadence has the fitted polynomial's values as its baselines |
| FlareImage.QuietFluxReproducesPolynomial | src/image_processing.py:66-70 | a pixel whose fitting samples lie on a polynomial of at most the fitted order gets exactly that polynomial as baseline |
| FlareImage.ComputeFlareImage | src/image_processing.py:55-76 | success needs w ≥ 3 and the stride-two window in range; the baselines, the flare image and the w + 1 window images and times are those of the steps above |
| FlareImage.EvaluationWindowStridesTwo | src/image_processing.py:73-74 | the k-th returned image and time stamp are those of cadence c − w + 2k |
| FlareImage.WindowInRangeIffEnds | src/image_processing.py:57-74 | the stride-two window is in range if and only if both of its ends are, and then so is the fitting set |
| FlareImage.FlareImageFailsOnlyAt | src/image_processing.py:55-76 | with a fit that always succeeds, the builder fails if and only if w < 3, the window leaves the data, or the flare image has no finite pixel |
| FlareImage.Processing | src/image_processing.py:31-46 | fails exactly when the time array is empty or the detrending at the nearest cadence fails; otherwise the raw image is the one at the nearest cadence, and the detrended output is `ComputeFlareImage` at that cadence with half-length `WindowLength(hours)`, so its window holds WindowLength + 1 images |
| FlareComputation.Std | src/flare_image_computation.py:59-60 | `np.std` of the residuals is NaN exactly when a sample is NaN; otherwise its square is their population variance |
| FlareComputation.PixelStd | src/flare_image_computation.py:35-42 | NaN at the gate gives NaN scatter; otherwise it succeeds exactly when the cubic fit does |
| FlareComputation.Variances | src/flare_image_computation.py:33-42 | every pixel of the variance image is that pixel's own scatter |
| FlareComputation.VarianceOfPixel | src/flare_image_computation.py:35-42 | the scatter is NaN where the gate or a fitting sample is NaN; otherwise it is a non-negative root of the residual variance |
| FlareComputation.ExactTrendHasNoScatter | src/flare_image_computation.py:38-42 | samples lying exactly on a cubic give zero scatter |
| FlareComputation.VariancesArePixelLocal | src/flare_image_computation.py:33-44 | a pixel's scatter depends only on that pixel's values |
| FlareComputation.MeanFluxesArePixelLocal | src/flare_image_computation.py:33-44 | a pixel's baselines at the requested cadences and at the flare cadence depend only on that pixel's own values |
| FlareComputation.Processing | src/flare_image_computation.py:26-52 | success needs non-empty, in-range index lists and an in-range flare cadence; the outputs are the baselines, the flare image and the variance image of the steps above |
| Localization.CheckFlareTime | src/new/flare_localization.py:23-26 | an empty time array fails first; otherwise the check passes exactly when some time stamp is ≤ the flare time and some is ≥ it |
| Localization.ImageAtFlareTime | src/new/flare_localization.py:31-33 | fails exactly on an empty time array; otherwise the image at the nearest cadence |
| Localization.New | src/new/flare_localization.py:14-21 | construction succeeds exactly when the range check passes, keeps its inputs and the nearest image, and leaves the flare image absent |
| Localization.NewAsWritten | src/new/flare_localization.py:14-26 | the constructor as written: whatever the inputs, the range check raises the missing-argument TypeError, so no localisation is ever built |
| Localization.ConstructorRejectsInRangeFlare | src/new/flare_localization.py:14-26 | a flare time inside the time span is accepted by the corrected constructor and rejected by the constructor as written |
| Localization.ExactFlareTimeKeepsItsImage | src/new/flare_localization.py:31-40 | a flare time equal to a time stamp keeps the image of the first cadence with that stamp |
| Mcmc.InitialParameters | src/mcmc.py:47-61 | fails exactly when the flare image has no finite pixel; otherwise the flux range is (0, 2·total) with start total, column and row ranges start at the pixel file's first column and row and span the image, and the offset starts at the mean, within [min, max], with the population standard deviation as width |
| Mcmc.InSupport | src/mcmc.py:138-145 | the support is the open box of the four checks: every coordinate lies strictly inside its own bounds, the offset being bounded below only |
| Mcmc.InitialStartInSupport | src/mcmc.py:47-63 | a positive total flux and a target strictly inside the image put the first start inside the prior's support |
| Mcmc.GaussTerm | src/mcmc.py:147-152 | a Gaussian log term is finite exactly when its normalisation is positive and its scale non-zero |
| Mcmc.LogPriorAsWritten | src/mcmc.py:135-153 | the prior as written: −∞ outside the support; with positive widths it is finite if and only if the point is in the support and the row centre is non-zero, since the row term divides by the centre's square; it equals the intended prior when the row centre equals the row width |
| Mcmc.LogPrior | src/mcmc.py:135-153 | the intended prior: −∞ outside the support; with positive widths finite if and only if the point lies in the support, and then the sum of the three Gaussian terms, each scaled by its own width |
| Mcmc.OneWidthCostsHalf | src/mcmc.py:147-148 | one width from the centre, a Gaussian term drops by exactly 1/2 |
| Mcmc.RowPriorIgnoresWidth | src/mcmc.py:149-150 | for a row centre of 100 and width 0.5, at row 100.5 the prior as written exceeds the intended prior by 0.5 − 0.0000125: half a pixel costs 0.0000125 instead of 0.5 |
| Mcmc.ComputeModel | src/mcmc.py:159-168 | the model image is the PRF image plus the flat offset at every pixel |
| Mcmc.PoissonTerm | src/mcmc.py:155-157 | a pixel's term model − data·log(model) is a number exactly where the data are a number and the model is positive; numpy's log makes it NaN for a negative model, and 0·(−∞) makes it NaN for zero model and zero data |
| Mcmc.PoissonLogLikelihood | src/mcmc.py:155-157 | −nansum of the terms: −∞ when a zero model pixel sits under positive data (and no term is −∞), +∞ in the mirror case, NaN when both occur, otherwise minus the sum of the finite terms; a data image without a finite pixel gives 0, and a positive model image always gives a finite value |
| Mcmc.LogProbability | src/mcmc.py:128-133 | −∞ exactly when the prior is not finite or the likelihood is −∞, and always outside the support; finite exactly when both are finite, and then their sum; with a finite prior an infinite or NaN likelihood passes through unchanged |
| Mcmc.NaNDataLeavesPrior | src/mcmc.py:128-157 | without finite data, the log probability is the prior |
| Mcmc.ZeroModelRejects | src/mcmc.py:128-157 | a zero model pixel under positive data, with no negative data pixel, makes the log probability −∞ even inside the prior's support |
| Mcmc.SliceFrom | src/mcmc.py:103 | Python's `s[n:]`, with negative starts counted from the end: its length, and that it is a suffix |
| Mcmc.Discard | src/mcmc.py:103 | the burn-in cut of every walker |
| Mcmc.FlattenLength | src/mcmc.py:104-105 | flattening chains of one length L gives walkers × L samples |
| Mcmc.FlattenAt | src/mcmc.py:104-105 | step k of walker w lands at position w·L + k |
| Mcmc.Flatten | src/mcmc.py:104-105 | the C-order reshape of the walkers' chains: a sample is in the flat chain exactly when it is in one walker's chain |
| Mcmc.FlatChainLayout | src/mcmc.py:103-105 | for well-shaped chains, kept step k of walker w sits at w·kept + k of the flat chain |
| Mcmc.RunSampler | src/mcmc.py:92-105 | the flat chain holds exactly the samples kept after burn-in; for well-shaped chains it has 32·(n_steps − n_discard) of them |
| Mcmc.Recenter | src/mcmc.py:66-70 | an empty chain fails; otherwise every start value becomes the coordinate's sample mean and nothing else changes |
| Mcmc.RecenteredStartInSupport | src/mcmc.py:66-71 | samples inside the support keep the recentred start inside it |
| Mcmc.RecenterKeepsPosterior | src/mcmc.py:66-72 | recentring changes only start values, so the second run samples the same posterior |
| Mcmc.Summarise | src/mcmc.py:113-116 | the bounds are the 16th and 84th percentiles, the value is the median, and the width is the interval's length; with a genuine percentile they are ordered within the samples' range |
| Mcmc.ShiftToCorner | src/mcmc.py:110-111 | column and row samples move by −0.5; flux and offset are untouched |
| Mcmc.Extract | src/mcmc.py:107-126 | an empty chain fails; otherwise each coordinate of the shifted chain is summarised |
| Mcmc.ReportedPositionIsShiftedMedian | src/mcmc.py:110-116 | the reported column and row are the sampled medians minus half a pixel |
| Mcmc.Run | src/mcmc.py:44-80 | fails with EmptyReduction exactly for an all-NaN image, otherwise only on an empty chain; on success it runs twice: the second run starts from the first run's means (`Recenter` of the initial parameters), and the returned chain is that run shifted to pixel corners; every reported parameter is the percentile summary of its coordinate in the returned chain, and the model is the PRF at the reported medians, each inside its interval |
| Mcmc.RunSucceeds | src/mcmc.py:44-80 | with a finite pixel and a burn-in shorter than the run, `run` succeeds |
| Ellipse.Chi2 | src/confidence_ellipce_estimation.py:60-65 | the three levels map to their chi-square quantiles; any other level fails |
| Ellipse.Covariance | src/confidence_ellipce_estimation.py:57 | `np.cov` with divisor n − 1, positive semi-definite; below two samples numpy returns a NaN matrix (with a warning) on which the eigen-decomposition fails, and that failure is reported here as `TooFewSamples` |
| Ellipse.SampleCovarianceSemiDefinite | src/confidence_ellipce_estimation.py:57 | a scaled Gram matrix of two deviation vectors is semi-definite |
| Ellipse.EigSorted | src/confidence_ellipce_estimation.py:51-54 | the larger eigenvalue comes first, pairs stay together, and equal eigenvalues are swapped |
| Ellipse.EigenvalueNonNegative | src/confidence_ellipce_estimation.py:52 | an eigenvalue of a semi-definite matrix is ≥ 0 |
| Ellipse.GenerateEllipse | src/confidence_ellipce_estimation.py:56-68 | fails exactly below two samples (where the eigen-decomposition of numpy's NaN covariance fails) or for an unknown level; otherwise centred on the means, oriented along the major eigenvector, with axes 2·sqrt(χ²)·sqrt(λ) |
| Ellipse.AxisMonotone | src/confidence_ellipce_estimation.py:66 | an axis grows with both the quantile and the eigenvalue |
| Ellipse.SortedEigenvalues | src/confidence_ellipce_estimation.py:52-58 | the sorted eigenvalues of a sample covariance satisfy 0 ≤ λ₁ ≤ λ₀ |
| Ellipse.AxesOrdered | src/confidence_ellipce_estimation.py:66 | the width is the major axis: 0 ≤ height ≤ width |
| Ellipse.EllipsesNest | src/confidence_ellipce_estimation.py:36-42 | the three ellipses share centre and angle, and each level's axes are at least those of a lower level |
| Ellipse.IsInside | src/confidence_ellipce_estimation.py:79-88 | the inclusive test rad ≤ 1: nothing is inside an ellipse with a zero axis (rad is then NaN or infinite), and a star at the centre of an ellipse with non-zero axes is inside it |
| Ellipse.Select | src/confidence_ellipce_estimation.py:98 | `argwhere` yields exactly the flagged positions, ascending |
| Ellipse.CheckStars | src/confidence_ellipce_estimation.py:73-113 | fails exactly for an empty catalogue; reports the stars inside in catalogue order if and only if some star is inside, otherwise the first nearest star |
| Ellipse.NearestHasLeastOffset | src/confidence_ellipce_estimation.py:86 | the nearest star has the least squared offset from the centre |
| Ellipse.Run | src/confidence_ellipce_estimation.py:36-49 | fails exactly below two samples (the eigen-decomposition of a NaN covariance) or with an empty catalogue; the three ellipses and the star report of the 99.9 % one |

## Findings

| source | as written | input that shows it | evidently intended | confidence | as-written member | corrected member |
|---|---|---|---|---|---|---|
| src/mcmc.py:150 | the row's Gaussian prior term divides by `flare_row.value ** 2`, the square of the row centre | row centre 100, width 0.5, row 100.5: the term drops by 0.0000125, not 0.5 | divide by `flare_row.err ** 2`, as the column and offset terms do | high; not executed | Mcmc.LogPriorAsWritten (shown by Mcmc.RowPriorIgnoresWidth) | Mcmc.LogPrior (Mcmc.OneWidthCostsHalf) |
| src/new/flare_localization.py:23-24 | the range check is a `@staticmethod` that still declares `self`, and the constructor calls it with only the flare time and the time array | any flare time, e.g. one equal to a time stamp: Python raises TypeError (missing argument) | a plain range check on the two arguments | high; not executed | Localization.NewAsWritten (shown by Localization.ConstructorRejectsInRangeFlare) | Localization.New (Localization.ExactFlareTimeKeepsItsImage) |

The rest of the model uses the corrected members:

- `Mcmc.LogProbability` is built on `Mcmc.LogPrior`.
- The localisation state is built by `Localization.New`.

## Left out

- **Files and I/O.** The model covers none of the following:
  - reading FITS files (`lightkurve.read`, `glob`);
  - the Gaia query (`src/get_gaia_data.py`);
  - the orchestration in `src/main.py`.

  The candidate files arrive as a list with a time accessor. The main program's zero-finite-pixel guard is not modelled; `Image.RemoveBaseline` already fails on that input.
- **Plotting and printing.** The matplotlib `Ellipse` object, the corner plots and all printing are left out. The printed warning about a substituted time is kept as the `approximated` flag.
- **Celestial coordinates.** The WCS conversion of the target's RA/Dec to pixels (`_initialGuessForCoordinates`) is out; its result enters `Mcmc.InitialParameters` as `centreRow`/`centreCol`. `_centerOfBrightnessLocation` is never called and is left out.
- **Numeric kernels.** The following are parameters with stated laws rather than definitions:
  - the emcee ensemble sampler, together with its random start jitter;
  - numpy's `polyfit`, `percentile`, `eigh`, `sqrt`, `log`, `arctan2`, `cos` and `sin`;
  - the PRF model.

  Floating-point rounding is not modelled. In images and statistics NaN is `None`, and the prior's −∞ is `None`. A log probability is a `LogValue`, which keeps NaN, −∞ and +∞ apart. What emcee does with a NaN or +∞ log probability is part of the sampler and is not modelled.
- **Context files.** `src/new/image_processing.py` and `src/flare_localization.py` are not part of this model; they are an alternative builder and a thin wrapper.
- Mcmc.Run: with `n_discard >= n_steps` the chain is empty. The model reports `EmptyChain` instead of numpy's NaN mean and the percentile's IndexError.
- Mcmc.Extract: the number of dimensions is fixed at four, the only value `run` passes.
- FlareComputation.Processing: an empty list of requested cadences is reported as `IndexOutOfBounds` at the start. The source fails too, but later and with a different error: for an image with pixels the gate `images[cadences][0]` raises IndexError, and for an image without pixels `np.min` of the empty residual at `flare_image_computation.py:46` raises ValueError. The model's error kind therefore differs from the source's only for an image without pixels.
- Mcmc.InitialParameters: the flux width `sqrt(mask/π)/5` is computed but not constrained; only the prior's column, row and offset widths matter to the model.
- Cadence.FindImageIndex: time stamps are finite reals (`seq<real>`), so a NaN time stamp cannot be passed. On such an array the source's `np.argmin` returns the index of the first NaN and the warning is printed. NaN times stay out of the model because every path through them is degenerate: the lookup jumps to a NaN cadence.
- TpfSelection.FindIndicesAroundFlare: takes finite time stamps only. With a NaN stamp the argmin at `tpf_selection.py:80` picks the first NaN cadence and the windows are built around it. The source drops NaN times only when choosing a file, which `TpfSelection.FilterTargetPixelData` models with `Option` times.
- Localization.CheckFlareTime: takes finite time stamps only. With a NaN stamp numpy's `min` and `max` are NaN, both comparisons are false, and the source never rejects the flare time.
- Localization.ImageAtFlareTime: takes finite time stamps only. With a NaN stamp the source returns the image of the first NaN cadence.
- Localization.New: takes finite time stamps only, and so leaves out both NaN behaviours above.
- FlareImage.Processing: takes finite time stamps only. With a NaN stamp the cadence lookup behaves as described for `Cadence.FindImageIndex`, and a NaN stamp among the fitting cadences would reach `polyfit`, whose behaviour on NaN abscissae is not modelled.
- Ellipse.Covariance: below two samples it returns `TooFewSamples`. numpy's `cov` itself only warns and returns a NaN matrix; the error stands for the failure of the eigen-decomposition that follows. The NaN matrix is not modelled.
- Ellipse.GenerateEllipse: its failure below two samples is the same substitution as in `Ellipse.Covariance`.
- Ellipse.Run: its failure below two samples is the same substitution as in `Ellipse.Covariance`. `Mcmc.Run` never passes so few samples: a non-empty flat chain holds at least 32.
