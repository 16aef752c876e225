/** Locating the emissivity table on disk: the versioned file name, the
    directory it is looked for in, and the error when it is missing.
    Whether a path exists is a question asked of the file system, so it is
    a parameter `pathExists` here. */
module DataFile {
  import opened XrayErrors

  const DataUrl: string := "http://yt-project.org/data"

  /** The table version expected for each known table type. */
  function DataVersion(tableType: string): (v: Option<nat>)
    ensures v.Some? <==> tableType == "cloudy" || tableType == "apec"
  {
    if tableType == "cloudy" then Some(2)
    else if tableType == "apec" then Some(3)
    else None
  }

  function DigitChar(d: nat): (c: char)
    requires d < 10
  {
    "0123456789"[d]
  }

  predicate IsDigit(c: char) { '0' <= c <= '9' }

  function DigitValue(c: char): (d: nat)
    requires IsDigit(c)
    ensures d < 10
  {
    (c as int) - ('0' as int)
  }

  /** The decimal rendering of `n`, as `%d` formats it. */
  function DecimalString(n: nat): (s: string)
    ensures |s| >= 1
    ensures forall i :: 0 <= i < |s| ==> IsDigit(s[i])
    ensures n >= 10 ==> s[0] != '0'
    decreases n
  {
    if n < 10 then [DigitChar(n)] else DecimalString(n / 10) + [DigitChar(n % 10)]
  }

  /** Reads a string of decimal digits back as a number. */
  function ParseDecimal(s: string): (n: nat)
    requires forall i :: 0 <= i < |s| ==> IsDigit(s[i])
  {
    if s == [] then 0
    else ParseDecimal(s[..|s| - 1]) * 10 + DigitValue(s[|s| - 1])
  }

  /** The version number written into a file name can be read back. */
  lemma {:induction false} DecimalRoundTrip(n: nat)
    ensures ParseDecimal(DecimalString(n)) == n
    decreases n
  {
    var s := DecimalString(n);
    if n < 10 {
      assert s[..0] == [];
    } else {
      DecimalRoundTrip(n / 10);
      assert s[..|s| - 1] == DecimalString(n / 10);
    }
  }

  /** The versioned file name of a table; the version reads back from it. */
  function DataFileName(tableType: string, version: nat): (name: string)
    ensures StartsWith(name, tableType + "_emissivity_v") && EndsWith(name, ".h5")
    ensures |name| >= |tableType| + 17
    ensures var digits := name[|tableType| + 13..|name| - 3];
      (forall i :: 0 <= i < |digits| ==> IsDigit(digits[i])) && ParseDecimal(digits) == version
  {
    var digits := DecimalString(version);
    DecimalRoundTrip(version);
    var name := tableType + "_emissivity_v" + digits + ".h5";
    assert name[|tableType| + 13..|name| - 3] == digits;
    name
  }

  /** The two known tables and their file names. */
  lemma KnownFileNames()
    ensures DataFileName("cloudy", DataVersion("cloudy").value) == "cloudy_emissivity_v2.h5"
    ensures DataFileName("apec", DataVersion("apec").value) == "apec_emissivity_v3.h5"
  {
    FileNameFromDigits("cloudy", 2, "2");
    FileNameFromDigits("apec", 3, "3");
    assert "cloudy" + "_emissivity_v" + "2" + ".h5" == "cloudy_emissivity_v2.h5" by {
      SpelledOut();
    }
    assert "apec" + "_emissivity_v" + "3" + ".h5" == "apec_emissivity_v3.h5" by {
      SpelledOut();
    }
  }

  lemma SpelledOut()
    ensures "cloudy" + "_emissivity_v" + "2" + ".h5" == "cloudy_emissivity_v2.h5"
    ensures "apec" + "_emissivity_v" + "3" + ".h5" == "apec_emissivity_v3.h5"
  {
  }

  /** The file name of a version whose decimal rendering is `digits`. */
  lemma FileNameFromDigits(tableType: string, version: nat, digits: string)
    requires DecimalString(version) == digits
    ensures DataFileName(tableType, version) == tableType + "_emissivity_v" + digits + ".h5"
  {
  }

  predicate StartsWith(s: string, prefix: string)
  {
    |prefix| <= |s| && s[..|prefix|] == prefix
  }

  predicate EndsWith(s: string, suffix: string)
  {
    |suffix| <= |s| && s[|s| - |suffix|..] == suffix
  }

  ghost predicate Contains(s: string, part: string)
  {
    exists i :: 0 <= i <= |s| && StartsWith(s[i..], part)
  }

  /** POSIX path joining of one directory and one entry. */
  function JoinPath(dir: string, entry: string): (p: string)
    ensures EndsWith(p, entry)
    ensures !StartsWith(entry, "/") ==> StartsWith(p, dir)
    ensures StartsWith(entry, "/") ==> p == entry
  {
    if StartsWith(entry, "/") then entry
    else if dir == [] || dir[|dir| - 1] == '/' then dir + entry
    else dir + "/" + entry
  }

  /** Where to look when no directory is given: the support-data
      directory if it exists, else the working directory. */
  function DataDirectory(dataDir: Option<string>, suppDataDir: string, pathExists: string -> bool): (dir: string)
    ensures dataDir.Some? ==> dir == dataDir.value
    ensures dataDir.None? ==> dir == suppDataDir || dir == "."
    ensures dataDir.None? && pathExists(suppDataDir) ==> dir == suppDataDir
    ensures dataDir.None? && dir != "." ==> pathExists(dir)
  {
    match dataDir
    case Some(d) => d
    case None => if pathExists(suppDataDir) then suppDataDir else "."
  }

  /** The text of the missing-file error; the file name reads back from
      between its fixed prefix and its fixed suffix. */
  function MissingFileMessage(fileName: string): (message: string)
    ensures StartsWith(message, "Failed to find emissivity data file ")
    ensures EndsWith(message, "! Please download from " + DataUrl)
    ensures |message| == 36 + |fileName| + |"! Please download from " + DataUrl|
    ensures message[36..|message| - |"! Please download from " + DataUrl|] == fileName
  {
    "Failed to find emissivity data file " + fileName + "! Please download from " + DataUrl
  }

  /** The message of a missing-file error names the file and the download URL. */
  lemma MissingFileMessageNames(fileName: string)
    ensures Contains(MissingFileMessage(fileName), fileName)
    ensures Contains(MissingFileMessage(fileName), DataUrl)
  {
    var m := MissingFileMessage(fileName);
    var pre := "Failed to find emissivity data file ";
    assert StartsWith(m[|pre|..], fileName);
    assert StartsWith(m[|m| - |DataUrl|..], DataUrl);
  }

  /** The path of the table file for `tableType`, or the error the lookup raises. */
  function GetDataFile(tableType: string, dataDir: Option<string>, suppDataDir: string,
                       pathExists: string -> bool): (r: Result<string>)
    ensures DataVersion(tableType).None? ==> r == Err(UnknownTableType(tableType))
    ensures DataVersion(tableType).Some? ==>
      var name := DataFileName(tableType, DataVersion(tableType).value);
      var dir := DataDirectory(dataDir, suppDataDir, pathExists);
      && (r.Ok? <==> pathExists(JoinPath(dir, name)))
      && (r.Ok? ==> r.value == JoinPath(dir, name))
      && (r.Ok? ==> pathExists(r.value) && StartsWith(r.value, dir) && EndsWith(r.value, name))
      && (r.Err? ==> r.error == MissingDataFile(MissingFileMessage(name)))
    ensures r.Ok? && dataDir.Some? ==> StartsWith(r.value, dataDir.value)
    ensures r.Ok? && dataDir.None? && pathExists(suppDataDir) ==> StartsWith(r.value, suppDataDir)
    ensures r.Ok? && dataDir.None? && !pathExists(suppDataDir) ==> StartsWith(r.value, ".")
  {
    match DataVersion(tableType)
    case None => Err(UnknownTableType(tableType))
    case Some(version) =>
      var name := DataFileName(tableType, version);
      assert !StartsWith(name, "/") by {
        assert name[0] == tableType[0];
      }
      var path := JoinPath(DataDirectory(dataDir, suppDataDir, pathExists), name);
      if pathExists(path) then Ok(path) else Err(MissingDataFile(MissingFileMessage(name)))
  }
}
