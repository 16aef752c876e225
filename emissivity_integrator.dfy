/** The X-ray emissivity integrator: a loaded emissivity table with its
    derived per-bin widths and midpoints, and the construction of a band
    interpolator from it. The interpolator itself (bilinear or unilinear,
    clamped at the grid edges) is not part of this model; what is modelled
    is which kind is chosen, over which grid range, and the band-integrated
    surface it is built from. */
module EmissivityIntegrator {
  import opened XrayErrors
  import opened EnergyBins
  import opened BandIntegration
  import DataFile

  /** Which of the loaded tables to integrate. */
  datatype DataKind = Primordial | Metals

  /** An emissivity table. `ndim` counts its axes, the energy axis
      included; `cells` lists the grid cells (temperature, or density by
      temperature in row-major order), each with one value per energy bin. */
  datatype Table = Table(ndim: nat, cells: seq<seq<real>>)

  /** The datasets of a table file as read from disk. */
  datatype TableFile = TableFile(
    logT: seq<real>,
    logNH: Option<seq<real>>,
    primordial: Table,
    metals: Option<Table>,
    energies: seq<real>)

  /** The interpolator handed back to the caller, holding the band-integrated
      value of every grid cell (it interpolates their base-10 logarithm)
      and the grid range it covers. */
  datatype Interpolator =
    | Unilinear(integrated: seq<real>, bounds: (real, real), field: string)
    | Bilinear(integrated: seq<real>, box: (real, real, real, real), fields: (string, string))

  /** Every cell of `t` holds one value per bin. */
  ghost predicate BinnedBy(t: Table, bins: nat)
  {
    forall c :: 0 <= c < |t.cells| ==> |t.cells[c]| == bins
  }

  /** The energy edges of a table: positive and strictly increasing. */
  ghost predicate GoodEdges(ebin: seq<real>)
  {
    |ebin| >= 1 && 0.0 < ebin[0] && StrictlyIncreasing(ebin)
  }

  /** What a table file holds: good edges, and tables binned by them. */
  ghost predicate WellFormedFile(f: TableFile)
  {
    && GoodEdges(f.energies)
    && BinnedBy(f.primordial, |f.energies| - 1)
    && (f.metals.Some? ==> BinnedBy(f.metals.value, |f.energies| - 1))
  }

  /** The derived arrays agree with the edges they were computed from. */
  ghost predicate Derived(ebin: seq<real>, widths: seq<real>, emid: seq<real>)
  {
    GoodEdges(ebin) && IsDiff(widths, ebin) && IsMidpoints(emid, ebin)
  }

  lemma MidpointsPositive(ebin: seq<real>, widths: seq<real>, emid: seq<real>)
    requires Derived(ebin, widths, emid)
    ensures forall i :: 0 <= i < |emid| ==> emid[i] > 0.0
  {
    BinsNonDegenerate(widths, emid, ebin);
    forall i | 0 <= i < |emid| ensures emid[i] > 0.0 {
      assert ebin[0] <= ebin[i];
    }
  }

  /** Photon mode: each bin's value divided by the bin's midpoint energy.
      Multiplying back by the midpoint gives the tabulated value. */
  function PerPhoton(cells: seq<seq<real>>, emid: seq<real>): (r: seq<seq<real>>)
    requires forall c :: 0 <= c < |cells| ==> |cells[c]| == |emid|
    requires forall i :: 0 <= i < |emid| ==> emid[i] > 0.0
    ensures |r| == |cells|
    ensures forall c :: 0 <= c < |r| ==> |r[c]| == |emid|
    ensures forall c, i :: 0 <= c < |r| && 0 <= i < |emid| ==> r[c][i] * emid[i] == cells[c][i]
  {
    seq(|cells|, c requires 0 <= c < |cells| =>
      seq(|emid|, i requires 0 <= i < |emid| => cells[c][i] / emid[i]))
  }

  /** The cells to integrate: the tabulated values, or per photon. */
  function ModeCells(data: Table, ebin: seq<real>, widths: seq<real>, emid: seq<real>, energy: bool)
    : (cells: seq<seq<real>>)
    requires Derived(ebin, widths, emid) && BinnedBy(data, |ebin| - 1)
    ensures |cells| == |data.cells|
    ensures forall c :: 0 <= c < |cells| ==> |cells[c]| + 1 == |ebin|
    ensures energy ==> cells == data.cells
    ensures !energy ==> forall c, i :: 0 <= c < |cells| && 0 <= i < |emid| ==> cells[c][i] * emid[i] == data.cells[c][i]
  {
    if energy then data.cells
    else
      MidpointsPositive(ebin, widths, emid);
      PerPhoton(data.cells, emid)
  }

  /** The band integral of every cell over the bins `[lo, hi)`. */
  function BandSums(cells: seq<seq<real>>, ebin: seq<real>, widths: seq<real>, lo: nat, hi: nat,
                    eMin: real, eMax: real): (r: seq<real>)
    requires lo < hi < |ebin| && |widths| + 1 == |ebin|
    requires forall c :: 0 <= c < |cells| ==> |cells[c]| + 1 == |ebin|
    ensures |r| == |cells|
  {
    seq(|cells|, c requires 0 <= c < |cells| => CellIntegral(cells[c], ebin, widths, lo, hi, eMin, eMax))
  }

  /** The interpolator for `data` over the observer-frame band
      `[eMin, eMax]`, or the error raised on the way. */
  function BandInterpolator(data: Table, logT: seq<real>, logNH: Option<seq<real>>, ebin: seq<real>,
                            widths: seq<real>, emid: seq<real>, redshift: real,
                            eMin: real, eMax: real, energy: bool): (r: Result<Interpolator>)
    requires Derived(ebin, widths, emid) && BinnedBy(data, |ebin| - 1)
    ensures var lo, hi := RestFrame(eMin, redshift), RestFrame(eMax, redshift);
      && (r == Err(EnergyBounds(ebin[0], ebin[|ebin| - 1])) <==> OutOfBounds(ebin, lo, hi))
      && (r == Err(EmptyBand) <==>
           !OutOfBounds(ebin, lo, hi) && BinIndices(ebin, lo, hi).0 >= BinIndices(ebin, lo, hi).1)
    ensures var lo, hi := RestFrame(eMin, redshift), RestFrame(eMax, redshift);
      !OutOfBounds(ebin, lo, hi) && BinIndices(ebin, lo, hi).0 < BinIndices(ebin, lo, hi).1 ==>
        (r.Ok? <==> |logT| > 0 && (data.ndim != 2 ==> logNH.Some? && |logNH.value| > 0))
    ensures r.Ok? ==> (r.value.Unilinear? <==> data.ndim == 2)
    ensures r.Ok? ==> |r.value.integrated| == |data.cells|
    ensures r.Ok? && r.value.Unilinear? ==> |logT| > 0 && r.value.bounds == (logT[0], logT[|logT| - 1])
    ensures r.Ok? && r.value.Bilinear? ==>
      && logNH.Some? && |logNH.value| > 0 && |logT| > 0
      && r.value.box == (logNH.value[0], logNH.value[|logNH.value| - 1], logT[0], logT[|logT| - 1])
  {
    var cells := ModeCells(data, ebin, widths, emid, energy);
    var lo := RestFrame(eMin, redshift);
    var hi := RestFrame(eMax, redshift);
    if OutOfBounds(ebin, lo, hi) then Err(EnergyBounds(ebin[0], ebin[|ebin| - 1]))
    else
      var (s, t) := BinIndices(ebin, lo, hi);
      if s >= t then Err(EmptyBand)
      else
        var integrated := BandSums(cells, ebin, widths, s, t, lo, hi);
        if data.ndim == 2 then
          if |logT| == 0 then Err(EmptyGrid("log_T"))
          else Ok(Unilinear(integrated, (logT[0], logT[|logT| - 1]), "log_T"))
        else if logNH.None? then Err(MissingAttribute("log_nH"))
        else if |logNH.value| == 0 then Err(EmptyGrid("log_nH"))
        else if |logT| == 0 then Err(EmptyGrid("log_T"))
        else
          var nH := logNH.value;
          Ok(Bilinear(integrated, (nH[0], nH[|nH| - 1], logT[0], logT[|logT| - 1]), ("log_nH", "log_T")))
  }

  /** For a rest-frame band inside the table's edges the request is never
      rejected: it succeeds exactly when the temperature grid, and for a
      table that is not 2-D the density grid, is present and non-empty,
      and every cell's integrated value is the exact integral over
      the band of that cell's binned values (per photon in photon mode). */
  lemma BandInsideEdgesIsExact(data: Table, logT: seq<real>, logNH: Option<seq<real>>, ebin: seq<real>,
                               widths: seq<real>, emid: seq<real>, redshift: real,
                               eMin: real, eMax: real, energy: bool)
    requires Derived(ebin, widths, emid) && BinnedBy(data, |ebin| - 1)
    requires ebin[0] <= RestFrame(eMin, redshift) < RestFrame(eMax, redshift) <= ebin[|ebin| - 1]
    ensures var r := BandInterpolator(data, logT, logNH, ebin, widths, emid, redshift, eMin, eMax, energy);
      r.Ok? <==> |logT| > 0 && (data.ndim != 2 ==> logNH.Some? && |logNH.value| > 0)
    ensures var r := BandInterpolator(data, logT, logNH, ebin, widths, emid, redshift, eMin, eMax, energy);
      r.Err? ==> r.error.EmptyGrid? || r.error == MissingAttribute("log_nH")
    ensures var r := BandInterpolator(data, logT, logNH, ebin, widths, emid, redshift, eMin, eMax, energy);
      r.Ok? ==> forall c :: 0 <= c < |r.value.integrated| ==>
        r.value.integrated[c] == ExactIntegral(ModeCells(data, ebin, widths, emid, energy)[c], ebin,
                                               RestFrame(eMin, redshift), RestFrame(eMax, redshift))
  {
    var lo, hi := RestFrame(eMin, redshift), RestFrame(eMax, redshift);
    InsideBandAccepted(ebin, lo, hi);
    BandBracketed(ebin, lo, hi);
    var cells := ModeCells(data, ebin, widths, emid, energy);
    forall c | 0 <= c < |cells|
      ensures CellIntegral(cells[c], ebin, widths, BinIndices(ebin, lo, hi).0, BinIndices(ebin, lo, hi).1, lo, hi)
           == ExactIntegral(cells[c], ebin, lo, hi)
    {
      BandIntegralIsExact(cells[c], ebin, widths, lo, hi);
    }
  }

  /** A band of constant emissivity `c` per bin, `[0.5, 5]` keV on edges
      `[0.1, 1, 10]` keV at redshift zero, over a temperature grid
      `[6, 7, 8]`: the half-bin `[0.5, 1]` and the part `[1, 5]` of the
      second bin give `4.5 c` in every cell. */
  lemma WorkedExample(c: real)
    ensures BandInterpolator(Table(2, [[c, c], [c, c], [c, c]]), [6.0, 7.0, 8.0], None,
                             [0.1, 1.0, 10.0], [0.9, 9.0], [0.55, 5.5], 0.0, 0.5, 5.0, true)
         == Ok(Unilinear([4.5 * c, 4.5 * c, 4.5 * c], (6.0, 8.0), "log_T"))
  {
    var ebin, widths := [0.1, 1.0, 10.0], [0.9, 9.0];
    assert Derived(ebin, widths, [0.55, 5.5]) by {
      assert StrictlyIncreasing(ebin);
    }
    assert RestFrame(0.5, 0.0) == 0.5 && RestFrame(5.0, 0.0) == 5.0;
    WorkedExampleBins();
    WorkedExampleSums(c);
  }

  /** The example band is accepted and covers both bins. */
  lemma WorkedExampleBins()
    ensures !OutOfBounds([0.1, 1.0, 10.0], 0.5, 5.0)
    ensures BinIndices([0.1, 1.0, 10.0], 0.5, 5.0) == (0, 2)
  {
    var ebin := [0.1, 1.0, 10.0];
    InsideBandAccepted(ebin, 0.5, 5.0);
    CountAtMostOfSplit(ebin, 0.5, 1);
    CountAtMostOfSplit(ebin, 5.0, 2);
  }

  /** Every cell of the example integrates to `4.5 c`. */
  lemma WorkedExampleSums(c: real)
    ensures BandSums([[c, c], [c, c], [c, c]], [0.1, 1.0, 10.0], [0.9, 9.0], 0, 2, 0.5, 5.0)
         == [4.5 * c, 4.5 * c, 4.5 * c]
  {
    var ebin, widths := [0.1, 1.0, 10.0], [0.9, 9.0];
    var cells := [[c, c], [c, c], [c, c]];
    assert IsDiff(widths, ebin);
    var integrated := BandSums(cells, ebin, widths, 0, 2, 0.5, 5.0);
    forall i | 0 <= i < 3
      ensures integrated[i] == 4.5 * c
    {
      ConstantCellIntegral(cells[i], ebin, widths, 0, 2, 0.5, 5.0, c);
    }
  }

  /** Copies the widths of bins `[lo, hi)` into a new array and shrinks its
      first and last entries to the part of their bins inside the band. */
  method CopyAndClip(dE: array<real>, ebin: seq<real>, lo: nat, hi: nat, eMin: real, eMax: real)
    returns (w: array<real>)
    requires lo < hi < |ebin| && dE.Length + 1 == |ebin|
    ensures fresh(w)
    ensures w[..] == ClippedWidths(ebin, dE[..], lo, hi, eMin, eMax)
  {
    w := new real[hi - lo];
    var j := 0;
    while j < hi - lo
      invariant 0 <= j <= hi - lo
      invariant forall k :: 0 <= k < j ==> w[k] == dE[lo + k]
    {
      w[j] := dE[lo + j];
      j := j + 1;
    }
    assert w[..] == dE[lo..hi];
    w[0] := w[0] - (eMin - ebin[lo]);
    w[hi - lo - 1] := w[hi - lo - 1] - (ebin[hi] - eMax);
  }

  class XrayEmissivityIntegrator {
    const logT: seq<real>
    const logNH: Option<seq<real>>
    const emissivityPrimordial: Table
    const emissivityMetals: Option<Table>
    const ebin: seq<real>
    const dE: array<real>
    const emid: seq<real>
    const redshift: real

    ghost predicate Valid()
      reads dE
    {
      && Derived(ebin, dE[..], emid)
      && BinnedBy(emissivityPrimordial, |ebin| - 1)
      && (emissivityMetals.Some? ==> BinnedBy(emissivityMetals.value, |ebin| - 1))
    }

    /** Takes over the datasets of a read table file and derives the bin
        widths and midpoints; the metals table is kept only when asked for. */
    constructor (file: TableFile, redshift: real, useMetals: bool)
      requires WellFormedFile(file)
      requires useMetals ==> file.metals.Some?
      ensures Valid() && fresh(dE)
      ensures logT == file.logT && logNH == file.logNH && ebin == file.energies
      ensures emissivityPrimordial == file.primordial
      ensures emissivityMetals == if useMetals then file.metals else None
      ensures this.redshift == redshift
    {
      var e := file.energies;
      logT := file.logT;
      emissivityPrimordial := file.primordial;
      logNH := file.logNH;
      emissivityMetals := if useMetals then file.metals else None;
      ebin := e;
      dE := new real[|e| - 1](i requires 0 <= i < |e| - 1 => e[i + 1] - e[i]);
      emid := seq(|e| - 1, i requires 0 <= i < |e| - 1 => (e[i] + e[i + 1]) / 2.0);
      this.redshift := redshift;
    }

    /** The table selected by `kind`; the metals table exists only when it
        was loaded. */
    function DataFor(kind: DataKind): (r: Result<Table>)
      ensures r.Err? <==> kind == Metals && emissivityMetals.None?
      ensures r.Err? ==> r.error == MissingAttribute("emissivity_metals")
      ensures r.Ok? && kind == Primordial ==> r.value == emissivityPrimordial
      ensures r.Ok? && kind == Metals ==> emissivityMetals == Some(r.value)
    {
      match kind
      case Primordial => Ok(emissivityPrimordial)
      case Metals =>
        if emissivityMetals.Some? then Ok(emissivityMetals.value) else Err(MissingAttribute("emissivity_metals"))
    }

    /** What `GetInterpolator` returns, as a function of the stored state. */
    function InterpolatorFor(kind: DataKind, eMin: real, eMax: real, energy: bool): (r: Result<Interpolator>)
      requires Valid()
      reads dE
      ensures kind == Metals && emissivityMetals.None? ==> r == Err(MissingAttribute("emissivity_metals"))
      ensures r == Err(EnergyBounds(ebin[0], ebin[|ebin| - 1])) <==>
        DataFor(kind).Ok? && OutOfBounds(ebin, RestFrame(eMin, redshift), RestFrame(eMax, redshift))
      ensures r.Ok? ==> DataFor(kind).Ok? && |r.value.integrated| == |DataFor(kind).value.cells|
      ensures r.Ok? ==> (r.value.Unilinear? <==> DataFor(kind).value.ndim == 2)
    {
      match DataFor(kind)
      case Err(err) => Err(err)
      case Ok(data) => BandInterpolator(data, logT, logNH, ebin, dE[..], emid, redshift, eMin, eMax, energy)
    }

    /** Builds the interpolator for the observer-frame band `[eMin, eMax]`:
        selects the table, converts to photon counts when `energy` is false,
        moves the band to the rest frame, checks it against the edges, finds
        the bins it covers, clips the edge bins' widths and sums each cell's
        values weighted by the clipped widths. The stored widths `dE` are
        left as they were. */
    method GetInterpolator(kind: DataKind, eMin: real, eMax: real, energy: bool)
      returns (r: Result<Interpolator>)
      requires Valid()
      ensures r == InterpolatorFor(kind, eMin, eMax, energy)
    {
      var data := DataFor(kind);
      if data.Err? {
        return Err(data.error);
      }
      r := IntegrateTable(data.value, eMin, eMax, energy);
    }

    /** The steps of `GetInterpolator` once the table is chosen. */
    method IntegrateTable(data: Table, eMin: real, eMax: real, energy: bool)
      returns (r: Result<Interpolator>)
      requires Valid() && BinnedBy(data, |ebin| - 1)
      ensures r == BandInterpolator(data, logT, logNH, ebin, dE[..], emid, redshift, eMin, eMax, energy)
    {
      var cells := ModeCells(data, ebin, dE[..], emid, energy);
      var lo := RestFrame(eMin, redshift);
      var hi := RestFrame(eMax, redshift);
      if OutOfBounds(ebin, lo, hi) {
        return Err(EnergyBounds(ebin[0], ebin[|ebin| - 1]));
      }
      var countMin := Digitize(ebin, lo);
      var countMax := Digitize(ebin, hi);
      var s := Clip(countMin as int - 1, 0, |ebin| - 1);
      var t := Clip(countMax, 0, |ebin| - 1);
      assert (s, t) == BinIndices(ebin, lo, hi);
      if s >= t {
        return Err(EmptyBand);
      }
      var integrated := SumBand(cells, s, t, lo, hi);
      if data.ndim == 2 {
        if |logT| == 0 {
          return Err(EmptyGrid("log_T"));
        }
        r := Ok(Unilinear(integrated, (logT[0], logT[|logT| - 1]), "log_T"));
      } else {
        if logNH.None? {
          return Err(MissingAttribute("log_nH"));
        }
        var nH := logNH.value;
        if |nH| == 0 {
          return Err(EmptyGrid("log_nH"));
        }
        if |logT| == 0 {
          return Err(EmptyGrid("log_T"));
        }
        r := Ok(Bilinear(integrated, (nH[0], nH[|nH| - 1], logT[0], logT[|logT| - 1]), ("log_nH", "log_T")));
      }
    }

    /** Clips a copy of the widths of bins `[s, t)` to the band `[lo, hi]`
        and weights every cell's values over those bins by it. */
    method SumBand(cells: seq<seq<real>>, s: nat, t: nat, lo: real, hi: real) returns (integrated: seq<real>)
      requires Valid() && s < t < |ebin|
      requires forall c :: 0 <= c < |cells| ==> |cells[c]| + 1 == |ebin|
      ensures integrated == BandSums(cells, ebin, dE[..], s, t, lo, hi)
    {
      var myDE := CopyAndClip(dE, ebin, s, t, lo, hi);
      var w := myDE[..];
      integrated := seq(|cells|, c requires 0 <= c < |cells| => Dot(cells[c][s..t], w));
    }
  }

  /** Opens the table of `tableType`: locates its file, then takes over the
      datasets `file` read from it. With `useMetals` the file must hold a
      metals table. */
  method Open(tableType: string, redshift: real, dataDir: Option<string>, useMetals: bool,
              suppDataDir: string, pathExists: string -> bool, file: TableFile)
    returns (r: Result<XrayEmissivityIntegrator>)
    requires WellFormedFile(file)
    ensures var path := DataFile.GetDataFile(tableType, dataDir, suppDataDir, pathExists);
      && (path.Err? ==> r == Err(path.error))
      && (path.Ok? && useMetals && file.metals.None? ==> r == Err(MissingDataset("emissivity_metals")))
      && (r.Ok? <==> path.Ok? && (useMetals ==> file.metals.Some?))
    ensures r.Ok? ==> fresh(r.value.dE) && r.value.Valid()
    ensures r.Ok? ==> r.value.ebin == file.energies && r.value.redshift == redshift
    ensures r.Ok? ==> r.value.logT == file.logT && r.value.logNH == file.logNH
    ensures r.Ok? ==> r.value.emissivityPrimordial == file.primordial
    ensures r.Ok? ==> r.value.emissivityMetals == if useMetals then file.metals else None
  {
    var path := DataFile.GetDataFile(tableType, dataDir, suppDataDir, pathExists);
    if path.Err? {
      return Err(path.error);
    }
    if useMetals && file.metals.None? {
      return Err(MissingDataset("emissivity_metals"));
    }
    var integrator := new XrayEmissivityIntegrator(file, redshift, useMetals);
    r := Ok(integrator);
  }
}
