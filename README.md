# X-ray emissivity band integration

A Dafny model of the energy-band integration in `XrayEmissivityIntegrator`
(`yt_Xray/Xray_field.py`). An emissivity table holds, for every grid cell, one
value per energy bin between the strictly increasing edges `E`. The model
covers four parts:

- **Table location.** `_get_data_file` builds the versioned file name, chooses
  the directory and reports a missing file.
- **Derived arrays.** `XrayEmissivityIntegrator.__init__` derives the bin widths
  `dE` and the midpoints `emid`.
- **Bin selection and clipping.** `get_interpolator` moves the requested band
  to the rest frame and checks it against the edges within a relative tolerance
  of `1e-3`. It locates the band's bins with `digitize` and `clip`, copies and
  clips the widths of the first and last bins, and sums each cell's values
  weighted by those widths.
- **Interpolator choice.** It picks a 1-D interpolator over `log_T` or a 2-D
  one over `(log_nH, log_T)`.

Energies and emissivities are Dafny `real`s, so the sums are exact. Each Python
exception on these paths becomes an `Err` of a `Result`:

| Python exception | raised for | model |
|---|---|---|
| `KeyError` | unknown table type | `UnknownTableType` |
| `KeyError` | missing metals dataset | `MissingDataset` |
| `OSError` | missing file | `MissingDataFile` |
| `AttributeError` | table or `log_nH` never loaded | `MissingAttribute` |
| `EnergyBoundsException` | band outside the edges | `EnergyBounds` |
| `IndexError` | empty width slice (`my_dE[0]`) | `EmptyBand` |
| `IndexError` | empty temperature or density grid | `EmptyGrid` |

The file system is a parameter. `pathExists` answers `os.path.exists`, and the
datasets read from the HDF5 file arrive as a `TableFile` value.

Modules:

- `XrayErrors`: the error kinds and `Result`.
- `DataFile`: `_get_data_file`.
- `EnergyBins`:
  - the derived widths and midpoints;
  - `digitize`, a binary search proved equal to "the number of edges at or below `x`";
  - `clip` and the bin indices.
- `BandIntegration`:
  - the tolerance test;
  - the clipped widths;
  - the weighted sum.
  - Its partner is `ExactIntegral`: the integral over the band of the step
    function that equals each bin's value on that bin. It is each bin's value
    times the length of the part of the bin inside the band, summed over all
    bins.
- `EmissivityIntegrator`:
  - the integrator class. Its constant fields are set by the constructor. `dE`
    is an `array`, and `get_interpolator` copies it and clips the copy in place.
  - `BandInterpolator`, the specification function that `GetInterpolator` is
    proved to compute.

The main results:

- The clipped widths always add up to `e_max - e_min`, for any non-empty run of
  bins.
- For a rest-frame band inside the edges, every cell's band sum equals the exact
  integral of its binned values over the band.
- Such a band is never rejected.
- For positive energies, the tolerance test rejects exactly the bands whose
  lower end lies below the first edge by more than the tolerance, or whose upper
  end lies above the last edge by more than the tolerance.

The source decides between the two interpolators by `data.ndim == 2`, so a
table of shape `[T, N]` (temperature by energy bin) gets the 1-D interpolator.
The model follows the code: `Table.ndim` counts the energy axis too.

## Model

| member | source | states |
|---|---|---|
| `DataFile.DataVersion` | yt_Xray/Xray_field.py:19 | a table type has a data version exactly when it is "cloudy" or "apec" |
| `DataFile.KnownFileNames` | yt_Xray/Xray_field.py:19-25 | the two known tables are looked for as `cloudy_emissivity_v2.h5` and `apec_emissivity_v3.h5` |
| `DataFile.DataFileName` | yt_Xray/Xray_field.py:25 | the name is `<type>_emissivity_v<digits>.h5`, and its digits are decimal and read back as the version |
| `DataFile.DecimalRoundTrip` | yt_Xray/Xray_field.py:25 | the `%d` rendering of the version reads back as the same number |
| `DataFile.JoinPath` | yt_Xray/Xray_field.py:29 | the joined path ends with the file name; it starts with the directory unless the entry is absolute, in which case it is the entry |
| `DataFile.DataDirectory` | yt_Xray/Xray_field.py:26-28 | an explicit directory is used as given; without one the support-data directory is chosen whenever it exists, else ".", so any directory other than "." chosen without an explicit one exists |
| `DataFile.MissingFileMessage` | yt_Xray/Xray_field.py:31 | the message is the fixed prefix, the file name and the fixed suffix with the download URL; the file name reads back from between them |
| `DataFile.MissingFileMessageNames` | yt_Xray/Xray_field.py:21-31 | the missing-file message names the file and the download URL |
| `DataFile.GetDataFile` | yt_Xray/Xray_field.py:24-34 | an unknown table type is an error; otherwise the result is `Ok` iff the joined path of the chosen directory and the versioned file name exists, and then it is exactly that path. The directory is the explicit one if given, else the support-data directory if it exists, else "."; the path starts with it and ends with the file name. A missing path gives the missing-file error with its message |
| `EnergyBins.BinsNonDegenerate` | yt_Xray/Xray_field.py:95-96 | over strictly increasing edges every width `dE[i]` is positive and every midpoint lies strictly inside its bin |
| `EnergyBins.SumDiffSlice` | yt_Xray/Xray_field.py:95 | the widths of a run of bins add up to the distance between its outer edges |
| `EnergyBins.CountAtMostSplits` | yt_Xray/Xray_field.py:110 | the digitize count splits increasing edges into those at most `x` and those above it |
| `EnergyBins.Digitize` | yt_Xray/Xray_field.py:110 | the binary search returns the number of edges at most `x`: every edge below the result is at most `x`, every edge from it on exceeds `x` |
| `EnergyBins.Clip` | yt_Xray/Xray_field.py:111-112 | the clipped value lies in `[lo, hi]`: a value already there is unchanged, one below `lo` becomes `lo` and one above `hi` becomes `hi` |
| `EnergyBins.BinIndices` | yt_Xray/Xray_field.py:110-112 | both bin indices lie in `[0, n-1]` for `n` edges |
| `EnergyBins.FirstBinHoldsMin` | yt_Xray/Xray_field.py:110-111 | the first selected bin starts at or below `e_min` when `e_min` is at or above the first edge, and ends above it when `e_min` is also below the last edge |
| `EnergyBins.EmptyAtTop` | yt_Xray/Xray_field.py:110-116 | a band starting at or past the last edge selects an empty run of bins, which makes `my_dE[0]` fail |
| `EnergyBins.BandBracketed` | yt_Xray/Xray_field.py:110-112 | for a band inside the edges the run is non-empty, `e_min` lies in its first bin and `e_max` in its last |
| `BandIntegration.RestFrame` | yt_Xray/Xray_field.py:104-105 | at redshift zero the energy is unchanged; a positive energy stays positive for redshift above -1, and a non-negative redshift never lowers an energy |
| `BandIntegration.QuotientBelow` | yt_Xray/Xray_field.py:106 | the lower quotient test; for a negative band end it holds iff the numerator exceeds the bound times the end, since dividing by a negative flips the comparison |
| `BandIntegration.QuotientAbove` | yt_Xray/Xray_field.py:106-108 | the upper quotient test; for a negative band end it holds iff the numerator is below the bound times the end |
| `BandIntegration.OutOfBounds` | yt_Xray/Xray_field.py:106-109 | the two quotient tests. A zero band end divides by zero: a band starting at 0 is rejected when the first edge is positive (-inf), one ending at 0 when the last edge is negative (+inf), and for a band `[0, 0]` these are the only rejections (0/0 is nan) |
| `BandIntegration.InsideBandAccepted` | yt_Xray/Xray_field.py:104-109 | a band of non-negative energies inside the edges is never rejected |
| `BandIntegration.OutOfBoundsExactly` | yt_Xray/Xray_field.py:106-109 | for positive energies the band is rejected iff `(1+tol)·e_min < E[0]` or `E[-1] < (1-tol)·e_max` |
| `BandIntegration.InteriorWidthsUnclipped` | yt_Xray/Xray_field.py:114-117 | clipping changes only the first and last copied width; every interior width equals `dE` |
| `BandIntegration.ClippedWidths` | yt_Xray/Xray_field.py:114-117 | the copy of the widths of the selected bins, first shrunk by the part below `e_min` and last by the part above `e_max`; one width per selected bin |
| `BandIntegration.ClippedWidthsSum` | yt_Xray/Xray_field.py:114-117 | the clipped widths of any non-empty run sum to exactly `e_max - e_min`, also when both ends fall in one bin |
| `BandIntegration.ClippedWidthsAreOverlaps` | yt_Xray/Xray_field.py:110-117 | inside the edges each clipped width is the length of the part of its bin in the band, between 0 and the bin's width |
| `BandIntegration.DotConstant` | yt_Xray/Xray_field.py:119 | the weighted sum of a constant run is the constant times the sum of the weights |
| `BandIntegration.CellIntegral` | yt_Xray/Xray_field.py:119 | one cell's values over the selected bins weighted by the clipped widths; when one bin is selected both clippings fall on its width, giving `v[k]·(e_max - e_min)` |
| `BandIntegration.BandIntegralIsExact` | yt_Xray/Xray_field.py:110-119 | inside the edges a cell's clipped weighted sum is the exact integral of its step function over the band |
| `BandIntegration.ConstantCellIntegral` | yt_Xray/Xray_field.py:114-119 | a cell whose selected bins all hold `c` integrates to `c·(e_max - e_min)` |
| `BandIntegration.WithinOneBin` | yt_Xray/Xray_field.py:114-119 | the exact integral of a band inside one bin `k` is `v[k]·(e_max - e_min)` |
| `EmissivityIntegrator.PerPhoton` | yt_Xray/Xray_field.py:102-103 | photon mode divides each value by its bin's midpoint: multiplying back gives the tabulated value |
| `EmissivityIntegrator.MidpointsPositive` | yt_Xray/Xray_field.py:96-103 | every midpoint of positive increasing edges is positive, so the division is defined |
| `EmissivityIntegrator.ModeCells` | yt_Xray/Xray_field.py:101-103 | energy mode keeps the table; photon mode gives values that times their bin's midpoint are the table's; one value per bin in each cell |
| `EmissivityIntegrator.BandInterpolator` | yt_Xray/Xray_field.py:99-135 | bounds error iff the tolerance test fails; empty-band error iff the test passes and the run is empty; past both, the result is `Ok` iff `log_T` is non-empty and, when `ndim != 2`, `log_nH` is loaded and non-empty; 1-D iff `ndim == 2`; one integrated value per cell; the 1-D range is `[log_T[0], log_T[-1]]` and the 2-D box `[log_nH[0], log_nH[-1], log_T[0], log_T[-1]]` |
| `EmissivityIntegrator.BandInsideEdgesIsExact` | yt_Xray/Xray_field.py:104-119 | for a rest-frame band inside the edges the result is `Ok` iff `log_T` is non-empty and, when `ndim != 2`, `log_nH` is loaded and non-empty; any error is a missing or empty grid, and each integrated value is the exact integral of that cell over the band |
| `EmissivityIntegrator.WorkedExample` | yt_Xray/Xray_field.py:104-123 | edges `[0.1, 1, 10]`, band `[0.5, 5]`, constant value `c`, `log_T = [6, 7, 8]`: a 1-D interpolator over `(6, 8)` with `4.5·c` in every cell |
| `EmissivityIntegrator.CopyAndClip` | yt_Xray/Xray_field.py:114-117 | a fresh array holding the widths of the selected bins, first and last clipped to the band |
| `EmissivityIntegrator.XrayEmissivityIntegrator.constructor` | yt_Xray/Xray_field.py:87-97 | the fields hold the read datasets (metals only when requested), `dE` is the difference of consecutive edges and `emid` their midpoints |
| `EmissivityIntegrator.XrayEmissivityIntegrator.DataFor` | yt_Xray/Xray_field.py:100 | the selected table, or the missing-attribute error exactly when metals were asked for but not loaded |
| `EmissivityIntegrator.XrayEmissivityIntegrator.InterpolatorFor` | yt_Xray/Xray_field.py:99-135 | missing metals give the attribute error; the bounds error occurs iff a table is selected and the rest-frame band fails the tolerance test; a result has one value per cell of the selected table and is 1-D iff its `ndim` is 2 |
| `EmissivityIntegrator.XrayEmissivityIntegrator.IntegrateTable` | yt_Xray/Xray_field.py:101-135 | once a table is chosen, the result equals `BandInterpolator` of the stored state |
| `EmissivityIntegrator.XrayEmissivityIntegrator.SumBand` | yt_Xray/Xray_field.py:114-119 | the band sums computed through the clipped copy equal each cell's clipped weighted sum |
| `EmissivityIntegrator.XrayEmissivityIntegrator.GetInterpolator` | yt_Xray/Xray_field.py:99-135 | the result equals `BandInterpolator` on the selected table, with `dE` left as it was (the method modifies nothing) |
| `EmissivityIntegrator.Open` | yt_Xray/Xray_field.py:82-92 | a lookup error is passed on; requested but missing metals give the missing-dataset error; otherwise a new valid integrator holding the file's edges, `log_T`, `log_nH` and primordial table, the metals table exactly when requested, and the given redshift |

## Left out

- HDF5 reading and `os.path.exists` are not modelled. The datasets come in as a
  `TableFile` value and existence as the `pathExists` function. A missing
  `log_T`, `emissivity_primordial` or `E` dataset is not modelled, because a
  `TableFile` always holds them.
- The table shape the source assumes of the file is a precondition of the
  constructor. The edges are positive and strictly increasing, and every cell
  has one value per bin.
- The interpolator objects themselves are not modelled: the `log10` of the
  surface, and the truncation and clamping at the grid edges. They are foreign
  code. The model records which kind is built, over which range, and the
  integrated surface it is built from.
- Unit conversion is not modelled. Energies are keV throughout. In particular
  `emid` stays in keV where the source converts it to erg, so photon-mode values
  differ from the source's by that constant factor.
- Floating point is not modelled. The `1e-3` tolerance is the exact rational
  `0.001`, and sums carry no rounding. Division by a zero band end is modelled
  by the sign of the numerator (`-inf`, `+inf` or `nan`), and signed zeros are
  not.
- `DataKind` offers only the primordial and metals tables. Any other
  `data_type` string raises `AttributeError` in the source.
- The `__str__` of the exceptions, `ObsoleteDataException` (never raised), the
  log messages and prints are not modelled. They are only text output.
- `calculate_xray_emissivity` is not modelled. It involves `log10`, `power`,
  NaN zeroing and the `nH²` scaling over a caller's data dict.
- The commented-out field definitions and the `__main__` driver are not
  modelled. They are dead code and plotting.
