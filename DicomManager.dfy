/**
 * The series index: discovery of series directories, ingestion of their DICOM
 * files into validated frame records, timepoint assembly across series and the
 * navigation bound.
 *
 * The DICOM tag decoder (DCMTK) and the filesystem are oracles: a `Decoder`
 * maps every file that loads to the tags found in it, and a `FileSystem`
 * answers the existence, kind and listing queries.
 */
module DicomManagement {
  import opened Optional
  import opened Ordering
  import opened Paths
  import opened DicomFrames

  // ---------------------------------------------------------------------
  // What the tag decoder hands back.
  // ---------------------------------------------------------------------

  type Int32 = x: int | -0x8000_0000 <= x < 0x8000_0000
  type Uint16 = x: int | 0 <= x < 0x1_0000

  /**
   * The six tags ingestion asks for, each found or not (DICOM PS3.3 sections
   * C.7.6.2 and C.7.6.1, C.7.6.3 for Rows and Columns).  A multi-valued tag
   * carries the components that parsed as numbers, in order: the text is
   * scanned left to right and scanning stops at the first component that
   * does not parse, so this is a prefix of the tag's values and may be
   * shorter or longer than the record's vector.
   */
  datatype Dataset = Dataset(
    imagePosition: Option<seq<real>>,
    imageOrientation: Option<seq<real>>,
    pixelSpacing: Option<seq<real>>,
    instanceNumber: Option<Int32>,
    rows: Option<Uint16>,
    columns: Option<Uint16>)

  /** The files that load (DcmFileFormat::loadFile succeeds), with their datasets. */
  type Decoder = map<string, Dataset>

  /** All six required tags were found. */
  predicate HasRequiredTags(ds: Dataset) {
    && ds.imagePosition.Some?
    && ds.imageOrientation.Some?
    && ds.pixelSpacing.Some?
    && ds.instanceNumber.Some?
    && ds.rows.Some?
    && ds.columns.Some?
  }

  /** Scanning components into a pre-sized vector: the parsed components overwrite
      the first elements, the rest keep their values, and extra components are ignored. */
  function Overlay(vector: seq<real>, parsed: seq<real>): (r: seq<real>)
    ensures |r| == |vector|
    ensures forall i :: 0 <= i < |r| ==> r[i] == if i < |parsed| then parsed[i] else vector[i]
  {
    if |parsed| >= |vector| then parsed[..|vector|] else parsed + vector[|parsed|..]
  }

  /** The frame a dataset yields, or None when any required tag is missing. */
  function ParseFrame(ds: Dataset, filePath: string): Option<DicomFrame> {
    if HasRequiredTags(ds) then
      Some(DicomFrame(
        filePath, "", ds.instanceNumber.value,
        Overlay(DefaultPosition, ds.imagePosition.value),
        Overlay(DefaultOrientation, ds.imageOrientation.value),
        Overlay(DefaultSpacing, ds.pixelSpacing.value),
        ds.rows.value, ds.columns.value))
    else None
  }

  /**
   * Tag extraction as the source does it: a success flag that each failed
   * lookup clears, with the frame filled in field by field.
   */
  method ExtractFrame(ds: Dataset, filePath: string) returns (success: bool, frame: DicomFrame)
    ensures success <==> HasRequiredTags(ds)
    ensures success ==> ParseFrame(ds, filePath) == Some(frame)
  {
    frame := DefaultFrame.(filePath := filePath);
    success := true;
    if ds.imagePosition.Some? {
      frame := frame.(imagePosition := Overlay(frame.imagePosition, ds.imagePosition.value));
    } else {
      success := false;
    }
    if ds.imageOrientation.Some? {
      frame := frame.(imageOrientation := Overlay(frame.imageOrientation, ds.imageOrientation.value));
    } else {
      success := false;
    }
    if ds.pixelSpacing.Some? {
      frame := frame.(pixelSpacing := Overlay(frame.pixelSpacing, ds.pixelSpacing.value));
    } else {
      success := false;
    }
    var instNum := 0;
    if ds.instanceNumber.Some? {
      instNum := ds.instanceNumber.value;
    } else {
      success := false;
    }
    frame := frame.(instanceNumber := instNum);
    // A failed lookup leaves the C++ variable unset; the frame is discarded then,
    // so the value chosen here is never observed.
    var rows, cols := 0, 0;
    if ds.rows.Some? {
      rows := ds.rows.value;
    } else {
      success := false;
    }
    if ds.columns.Some? {
      cols := ds.columns.value;
    } else {
      success := false;
    }
    frame := frame.(rows := rows, cols := cols);
  }

  /**
   * A parsed frame is all or nothing: it exists exactly when all six tags were
   * found; it then carries the tags' values, and a vector component the tag
   * text did not supply keeps the record's default.
   */
  lemma ParsedFrameFields(ds: Dataset, filePath: string)
    ensures ParseFrame(ds, filePath).Some? <==> HasRequiredTags(ds)
    ensures ParseFrame(ds, filePath).Some? ==>
      var f := ParseFrame(ds, filePath).value;
      && f.filePath == filePath && f.contourFilePath == ""
      && f.instanceNumber == ds.instanceNumber.value
      && f.rows == ds.rows.value && f.cols == ds.columns.value
      && (forall i :: 0 <= i < 3 ==>
            f.imagePosition[i] == if i < |ds.imagePosition.value| then ds.imagePosition.value[i] else DefaultPosition[i])
      && (forall i :: 0 <= i < 6 ==>
            f.imageOrientation[i] == if i < |ds.imageOrientation.value| then ds.imageOrientation.value[i] else DefaultOrientation[i])
      && (forall i :: 0 <= i < 2 ==>
            f.pixelSpacing[i] == if i < |ds.pixelSpacing.value| then ds.pixelSpacing.value[i] else DefaultSpacing[i])
  {
  }

  /** The concatenation of `g(x)` over the elements `x` of `xs`, in order. */
  function Flatten<A, B>(xs: seq<A>, g: A -> seq<B>): seq<B>
    decreases |xs|
  {
    if xs == [] then [] else Flatten(xs[..|xs| - 1], g) + g(xs[|xs| - 1])
  }

  lemma {:induction false} FlattenMembership<A, B>(xs: seq<A>, g: A -> seq<B>, y: B)
    ensures y in Flatten(xs, g) <==> exists x :: x in xs && y in g(x)
    decreases |xs|
  {
    if xs != [] {
      var init, last := xs[..|xs| - 1], xs[|xs| - 1];
      FlattenMembership(init, g, y);
      assert xs == init + [last];
    }
  }

  // ---------------------------------------------------------------------
  // Which files of a series directory become frames.
  // ---------------------------------------------------------------------

  /** `<parent>/<stem>_cont.npy`: where the contour of an image file would be. */
  function ContourSibling(filePath: string): string {
    Join(ParentPath(filePath), Stem(FileName(filePath)) + "_cont.npy")
  }

  /** The contour path recorded for an image file: its sibling if that exists, else "". */
  function ContourPathFor(fs: FileSystem, filePath: string): string {
    var c := ContourSibling(filePath);
    if fs.Exists(c) then c else ""
  }

  /** A file is a candidate when it is a regular file whose extension is exactly ".dcm". */
  predicate IsCandidate(fs: FileSystem, filePath: string) {
    fs.IsRegularFile(filePath) && HasDcmExtension(FileName(filePath))
  }

  /** The name ends in ".dcm" after at least one other character (see DcmExtension). */
  predicate HasDcmExtension(name: string) {
    |name| > 4 && name[|name| - 4..] == ".dcm"
  }

  /** Ending in ".dcm" after a first character is having extension() ".dcm". */
  lemma DcmExtension(name: string)
    ensures HasDcmExtension(name) <==> Extension(name) == ".dcm"
  {
    ExtensionSpec(name);
    LastIndexOfSpec(name, '.');
    if HasDcmExtension(name) {
      assert name[|name| - 4] == '.';
      assert forall i :: |name| - 4 < i < |name| ==> name[i] != '.' by {
        assert forall i :: |name| - 4 < i < |name| ==> name[i] == ".dcm"[i - (|name| - 4)];
      }
      assert LastIndexOf(name, '.') == |name| - 4;
    }
  }

  /** The frame a directory entry contributes, if any. */
  function FrameFromFile(fs: FileSystem, decoder: Decoder, filePath: string): Option<DicomFrame> {
    if !IsCandidate(fs, filePath) || filePath !in decoder then None
    else
      match ParseFrame(decoder[filePath], filePath)
      case None => None
      case Some(f) => Some(f.(contourFilePath := ContourPathFor(fs, filePath)))
  }

  /** `f` is the frame ingestion builds from `filePath`, which passed every check. */
  predicate PassesIngestion(fs: FileSystem, decoder: Decoder, filePath: string, f: DicomFrame) {
    && IsCandidate(fs, filePath) && filePath in decoder && HasRequiredTags(decoder[filePath])
    && f == ParseFrame(decoder[filePath], filePath).value.(contourFilePath := ContourPathFor(fs, filePath))
  }

  /** The frames one entry contributes: its frame, or none. */
  function Contribution(fs: FileSystem, decoder: Decoder, filePath: string): seq<DicomFrame> {
    match FrameFromFile(fs, decoder, filePath)
    case Some(f) => [f]
    case None => []
  }

  /** The frames the entries `names` of `dir` contribute, in listing order. */
  function FramesIn(fs: FileSystem, decoder: Decoder, dir: string, names: seq<string>): seq<DicomFrame> {
    Flatten(names, n => Contribution(fs, decoder, Join(dir, n)))
  }

  /** The valid frames of a series directory, in listing order. */
  function ValidFrames(fs: FileSystem, decoder: Decoder, dir: string): seq<DicomFrame> {
    FramesIn(fs, decoder, dir, fs.Listing(dir))
  }

  /**
   * A file yields a frame exactly when it is a regular ".dcm" file that loads and
   * has all six tags; the frame then records its file, and its contour path is
   * `<dir>/<stem>_cont.npy` if that exists and "" otherwise.
   */
  lemma FrameFromFileSpec(fs: FileSystem, decoder: Decoder, dir: string, name: string)
    requires '/' !in name
    ensures var p := Join(dir, name);
      FrameFromFile(fs, decoder, p).Some? <==>
        fs.IsRegularFile(p) && Extension(name) == ".dcm" && p in decoder && HasRequiredTags(decoder[p])
    ensures var p := Join(dir, name);
      FrameFromFile(fs, decoder, p).Some? ==>
        var f := FrameFromFile(fs, decoder, p).value;
        var c := Join(dir, Stem(name) + "_cont.npy");
        && f == ParseFrame(decoder[p], p).value.(contourFilePath := f.contourFilePath)
        && f.filePath == p
        && f.contourFilePath == (if fs.Exists(c) then c else "")
  {
    JoinSplits(dir, name);
    DcmExtension(name);
  }

  lemma ContributionMembership(fs: FileSystem, decoder: Decoder, filePath: string, f: DicomFrame)
    ensures f in Contribution(fs, decoder, filePath) <==> PassesIngestion(fs, decoder, filePath, f)
  {
  }

  /** A frame is among those of `names` exactly when one of those entries contributes it. */
  lemma FramesInMembership(fs: FileSystem, decoder: Decoder, dir: string, names: seq<string>, f: DicomFrame)
    ensures f in FramesIn(fs, decoder, dir, names) <==>
      exists n :: n in names && f in Contribution(fs, decoder, Join(dir, n))
  {
    FlattenMembership(names, n => Contribution(fs, decoder, Join(dir, n)), f);
  }

  /** Every frame of a directory comes from one of its entries that passed every check. */
  lemma ValidFrameProvenance(fs: FileSystem, decoder: Decoder, dir: string, f: DicomFrame)
    requires f in ValidFrames(fs, decoder, dir)
    ensures exists n :: n in fs.Listing(dir) && PassesIngestion(fs, decoder, Join(dir, n), f)
  {
    FramesInMembership(fs, decoder, dir, fs.Listing(dir), f);
    var n :| n in fs.Listing(dir) && f in Contribution(fs, decoder, Join(dir, n));
    ContributionMembership(fs, decoder, Join(dir, n), f);
  }

  /** Scanning one more entry appends that entry's contribution. */
  lemma FramesInStep(fs: FileSystem, decoder: Decoder, dir: string, names: seq<string>, i: int)
    requires 0 <= i < |names|
    ensures FramesIn(fs, decoder, dir, names[..i + 1]) ==
      FramesIn(fs, decoder, dir, names[..i]) + Contribution(fs, decoder, Join(dir, names[i]))
  {
    assert names[..i + 1][..i] == names[..i];
  }

  /** The two ways an entry can end: it contributes nothing, or the frame its tags give
      with the contour sibling recorded when that exists. */
  lemma ContributionCases(fs: FileSystem, decoder: Decoder, filePath: string)
    ensures var name := FileName(filePath);
      if fs.IsRegularFile(filePath) && Extension(name) == ".dcm" && filePath in decoder && HasRequiredTags(decoder[filePath])
      then Contribution(fs, decoder, filePath) == [ParseFrame(decoder[filePath], filePath).value.(contourFilePath := ContourPathFor(fs, filePath))]
      else Contribution(fs, decoder, filePath) == []
  {
    DcmExtension(FileName(filePath));
  }

  /** Reading one series directory: the candidate files' valid frames, sorted by instance number. */
  method LoadSeries(fs: FileSystem, decoder: Decoder, seriesPath: string) returns (series: DicomSeries)
    ensures multiset(series) == multiset(ValidFrames(fs, decoder, seriesPath))
    ensures SortedBy(series, FrameLeq)
    ensures series == [] <==> ValidFrames(fs, decoder, seriesPath) == []
  {
    var currentSeries: DicomSeries := [];
    var listing := fs.Listing(seriesPath);
    for i := 0 to |listing|
      invariant currentSeries == FramesIn(fs, decoder, seriesPath, listing[..i])
    {
      var filePath := Join(seriesPath, listing[i]);
      FramesInStep(fs, decoder, seriesPath, listing, i);
      ContributionCases(fs, decoder, filePath);
      if !fs.IsRegularFile(filePath) || Extension(FileName(filePath)) != ".dcm" {
        continue;
      }
      if filePath in decoder {
        var success, frame := ExtractFrame(decoder[filePath], filePath);
        if success {
          var contourPath := Join(ParentPath(filePath), Stem(FileName(filePath)) + "_cont.npy");
          if fs.Exists(contourPath) {
            frame := frame.(contourFilePath := contourPath);
          }
          currentSeries := currentSeries + [frame];
        }
      }
    }
    assert listing[..|listing|] == listing;
    if currentSeries != [] {
      FrameOrderIsStrictWeak();
      var sorted := SortSequence(currentSeries, FrameLeq);
      assert |sorted| == |multiset(sorted)| == |multiset(currentSeries)| == |currentSeries|;
      currentSeries := sorted;
    }
    series := currentSeries;
  }

  // ---------------------------------------------------------------------
  // Discovery.
  // ---------------------------------------------------------------------

  /** The entries among `names` that are directories in `dir`, in listing order. */
  function Subdirectories(fs: FileSystem, dir: string, names: seq<string>): seq<string>
    decreases |names|
  {
    if names == [] then []
    else
      var last := names[|names| - 1];
      Subdirectories(fs, dir, names[..|names| - 1]) +
        if fs.IsDirectory(Join(dir, last)) then [last] else []
  }

  /** Each directory entry appears among the subdirectories as often as it is listed,
      if it is a directory, and not at all otherwise. */
  lemma {:induction false} SubdirectoriesCount(fs: FileSystem, dir: string, names: seq<string>, n: string)
    ensures multiset(Subdirectories(fs, dir, names))[n] ==
      if fs.IsDirectory(Join(dir, n)) then multiset(names)[n] else 0
    decreases |names|
  {
    if names != [] {
      var init, last := names[..|names| - 1], names[|names| - 1];
      SubdirectoriesCount(fs, dir, init, n);
      assert names == init + [last];
    }
  }

  /**
   * Discovery does not depend on the order directory_iterator yields entries in:
   * two sorted results for listings that hold the same names are the same.
   */
  lemma DiscoveryDeterminate(fs: FileSystem, dir: string, l1: seq<string>, l2: seq<string>, r1: seq<string>, r2: seq<string>)
    requires multiset(l1) == multiset(l2)
    requires multiset(r1) == multiset(Subdirectories(fs, dir, l1)) && SortedBy(r1, LexLeq)
    requires multiset(r2) == multiset(Subdirectories(fs, dir, l2)) && SortedBy(r2, LexLeq)
    ensures r1 == r2
  {
    forall n ensures multiset(r1)[n] == multiset(r2)[n] {
      SubdirectoriesCount(fs, dir, l1, n);
      SubdirectoriesCount(fs, dir, l2, n);
    }
    assert multiset(r1) == multiset(r2);
    LexLeqIsTotalOrder();
    SortedPermutationUnique(r1, r2, LexLeq);
  }

  // ---------------------------------------------------------------------
  // The store after a load, and timepoint assembly.
  // ---------------------------------------------------------------------

  /** The paths `dir/n` of the names `n` in `names` whose path satisfies `keep`. */
  function PathsWhere(dir: string, names: seq<string>, keep: string -> bool): set<string>
    decreases |names|
  {
    if names == [] then {}
    else
      var p := Join(dir, names[|names| - 1]);
      PathsWhere(dir, names[..|names| - 1], keep) + if keep(p) then {p} else {}
  }

  lemma {:induction false} PathsWhereMembership(dir: string, names: seq<string>, keep: string -> bool, p: string)
    ensures p in PathsWhere(dir, names, keep) <==> exists n :: n in names && p == Join(dir, n) && keep(p)
    decreases |names|
  {
    if names != [] {
      var init, last := names[..|names| - 1], names[|names| - 1];
      PathsWhereMembership(dir, init, keep, p);
      assert names == init + [last];
    }
  }

  /** A series directory is stored when it is a directory with at least one valid frame. */
  predicate IsStored(fs: FileSystem, decoder: Decoder, seriesPath: string) {
    fs.IsDirectory(seriesPath) && ValidFrames(fs, decoder, seriesPath) != []
  }

  /** The keys a load of `seriesNames` under `patientPath` stores. */
  function LoadedKeys(fs: FileSystem, decoder: Decoder, patientPath: string, seriesNames: seq<string>): set<string> {
    PathsWhere(patientPath, seriesNames, p => IsStored(fs, decoder, p))
  }

  lemma LoadedKeysStep(fs: FileSystem, decoder: Decoder, patientPath: string, seriesNames: seq<string>, i: int)
    requires 0 <= i < |seriesNames|
    ensures var p := Join(patientPath, seriesNames[i]);
      LoadedKeys(fs, decoder, patientPath, seriesNames[..i + 1]) ==
        LoadedKeys(fs, decoder, patientPath, seriesNames[..i]) + if IsStored(fs, decoder, p) then {p} else {}
  {
    assert seriesNames[..i + 1][..i] == seriesNames[..i];
  }

  /** A key is stored exactly when it is the path of a requested series that is a
      directory with at least one valid frame. */
  lemma LoadedKeysMembership(fs: FileSystem, decoder: Decoder, patientPath: string, seriesNames: seq<string>, key: string)
    ensures key in LoadedKeys(fs, decoder, patientPath, seriesNames) <==>
      exists n :: n in seriesNames && key == Join(patientPath, n) && IsStored(fs, decoder, key)
  {
    PathsWhereMembership(patientPath, seriesNames, p => IsStored(fs, decoder, p), key);
  }

  /** What the store holds under `key`: the directory's valid frames, none left out and
      none added, sorted by instance number (equal instance numbers in no fixed order). */
  predicate IsLoadedSeries(fs: FileSystem, decoder: Decoder, key: string, series: DicomSeries) {
    && series != []
    && SortedBy(series, FrameLeq)
    && multiset(series) == multiset(ValidFrames(fs, decoder, key))
  }

  /** Every series in `m` is what a load stored under its key. */
  predicate AllLoaded(fs: FileSystem, decoder: Decoder, m: map<string, DicomSeries>) {
    forall key {:trigger IsLoadedSeries(fs, decoder, key, m[key])} :: key in m ==> IsLoadedSeries(fs, decoder, key, m[key])
  }

  lemma AllLoadedStore(fs: FileSystem, decoder: Decoder, m: map<string, DicomSeries>, key: string, series: DicomSeries)
    requires AllLoaded(fs, decoder, m) && IsLoadedSeries(fs, decoder, key, series)
    ensures AllLoaded(fs, decoder, m[key := series])
  {
  }

  /** Every frame in a loaded series passed every check of ingestion. */
  lemma StoredFrameIsValid(fs: FileSystem, decoder: Decoder, key: string, series: DicomSeries, f: DicomFrame)
    requires IsLoadedSeries(fs, decoder, key, series) && f in series
    ensures exists n :: n in fs.Listing(key) && PassesIngestion(fs, decoder, Join(key, n), f)
  {
    assert f in multiset(ValidFrames(fs, decoder, key));
    ValidFrameProvenance(fs, decoder, key, f);
  }

  /** The frame at `t` of each series whose keys are `ks`, in the order of `ks`. */
  function Picked(m: map<string, DicomSeries>, ks: seq<string>, t: int): seq<DicomFrame>
    requires forall k :: k in ks ==> k in m
    decreases |ks|
  {
    if ks == [] then []
    else
      var s := m[ks[|ks| - 1]];
      Picked(m, ks[..|ks| - 1], t) + if 0 <= t < |s| then [s[t]] else []
  }

  /** The frames of timepoint `t` in the order the store's keys are visited. */
  function TimepointFrames(m: map<string, DicomSeries>, t: int): seq<DicomFrame> {
    Picked(m, InKeyOrder(m.Keys), t)
  }

  /** The series of `m` that have a frame at index `t`. */
  function LongEnough(m: map<string, DicomSeries>, t: int): set<string> {
    set k | k in m && 0 <= t < |m[k]|
  }

  /** Stacking order: `a` is not above `b` along the z axis of patient space. */
  predicate ZLeq(a: DicomFrame, b: DicomFrame) {
    !(b.imagePosition[2] < a.imagePosition[2])
  }

  lemma ZLeqIsTotalPreorder()
    ensures TotalPreorder(ZLeq)
  {
  }

  lemma {:induction false} PickedMembership(m: map<string, DicomSeries>, ks: seq<string>, t: int, f: DicomFrame)
    requires forall k :: k in ks ==> k in m
    ensures f in Picked(m, ks, t) <==> exists k :: k in ks && 0 <= t < |m[k]| && m[k][t] == f
    decreases |ks|
  {
    if ks != [] {
      var init, last := ks[..|ks| - 1], ks[|ks| - 1];
      PickedMembership(m, init, t, f);
      assert ks == init + [last];
      if exists k :: k in ks && 0 <= t < |m[k]| && m[k][t] == f {
        var k :| k in ks && 0 <= t < |m[k]| && m[k][t] == f;
        if k != last {
          assert k in init;
        }
      }
    }
  }

  lemma {:induction false} PickedCount(m: map<string, DicomSeries>, ks: seq<string>, t: int)
    requires forall k :: k in ks ==> k in m
    requires forall i, j :: 0 <= i < j < |ks| ==> ks[i] != ks[j]
    ensures |Picked(m, ks, t)| == |(set k | k in ks && 0 <= t < |m[k]|)|
    decreases |ks|
  {
    if ks != [] {
      var init, last := ks[..|ks| - 1], ks[|ks| - 1];
      PickedCount(m, init, t);
      assert last !in init;
      var before := set k | k in init && 0 <= t < |m[k]|;
      var after := set k | k in ks && 0 <= t < |m[k]|;
      assert ks == init + [last];
      if 0 <= t < |m[last]| {
        assert after == before + {last};
      } else {
        assert after == before;
      }
    }
  }

  /**
   * Timepoint `t` takes exactly one frame from every series long enough to have
   * index `t` (its frame at `t`) and nothing from any other series.
   */
  lemma TimepointSpec(m: map<string, DicomSeries>, t: int)
    ensures |TimepointFrames(m, t)| == |LongEnough(m, t)|
    ensures forall f :: f in TimepointFrames(m, t) <==> exists k :: k in m && 0 <= t < |m[k]| && m[k][t] == f
    ensures TimepointFrames(m, t) == [] <==> (t < 0 || forall k :: k in m ==> |m[k]| <= t)
  {
    var ks := InKeyOrder(m.Keys);
    InKeyOrderDistinct(m.Keys);
    PickedCount(m, ks, t);
    assert (set k | k in ks && 0 <= t < |m[k]|) == LongEnough(m, t);
    forall f ensures f in TimepointFrames(m, t) <==> exists k :: k in m && 0 <= t < |m[k]| && m[k][t] == f {
      PickedMembership(m, ks, t, f);
    }
    if !(t < 0 || forall k :: k in m ==> |m[k]| <= t) {
      var k :| k in m && 0 <= t < |m[k]|;
      assert k in LongEnough(m, t);
    }
  }

  /** The series index. */
  class DicomManager {
    /** Every loaded series, keyed by the full path of its directory. */
    var seriesMap: map<string, DicomSeries>

    constructor ()
      ensures seriesMap == map[]
    {
      seriesMap := map[];
    }

    method Clear()
      modifies this
      ensures seriesMap == map[]
    {
      seriesMap := map[];
    }

    /**
     * The names of the subdirectories of `patientPath`, sorted; none when the
     * path does not exist or is not a directory.
     */
    method DiscoverSeries(fs: FileSystem, patientPath: string) returns (seriesNames: seq<string>)
      ensures !fs.Exists(patientPath) || !fs.IsDirectory(patientPath) ==> seriesNames == []
      ensures fs.IsDirectory(patientPath) ==>
        multiset(seriesNames) == multiset(Subdirectories(fs, patientPath, fs.Listing(patientPath)))
      ensures SortedBy(seriesNames, LexLeq)
    {
      seriesNames := [];
      if !fs.Exists(patientPath) || !fs.IsDirectory(patientPath) {
        return;
      }
      var listing := fs.Listing(patientPath);
      for i := 0 to |listing|
        invariant seriesNames == Subdirectories(fs, patientPath, listing[..i])
      {
        assert listing[..i + 1][..i] == listing[..i];
        if fs.IsDirectory(Join(patientPath, listing[i])) {
          seriesNames := seriesNames + [listing[i]];
        }
      }
      assert listing[..|listing|] == listing;
      LexLeqIsTotalPreorder();
      seriesNames := SortSequence(seriesNames, LexLeq);
    }

    /**
     * Replaces the store by the series read from `seriesNames` under `patientPath`:
     * nothing from an earlier load remains, and the result says whether anything
     * was stored.
     */
    method LoadSelectedSeries(fs: FileSystem, decoder: Decoder, patientPath: string, seriesNames: seq<string>)
      returns (loaded: bool)
      modifies this
      ensures seriesMap.Keys == LoadedKeys(fs, decoder, patientPath, seriesNames)
      ensures AllLoaded(fs, decoder, seriesMap)
      ensures loaded <==> seriesMap != map[]
    {
      Clear();
      for i := 0 to |seriesNames|
        invariant seriesMap.Keys == LoadedKeys(fs, decoder, patientPath, seriesNames[..i])
        invariant AllLoaded(fs, decoder, seriesMap)
      {
        LoadedKeysStep(fs, decoder, patientPath, seriesNames, i);
        var seriesPath := Join(patientPath, seriesNames[i]);
        if !fs.IsDirectory(seriesPath) {
          continue;
        }
        var currentSeries := LoadSeries(fs, decoder, seriesPath);
        if currentSeries != [] {
          AllLoadedStore(fs, decoder, seriesMap, seriesPath, currentSeries);
          seriesMap := seriesMap[seriesPath := currentSeries];
        }
      }
      assert seriesNames[..|seriesNames|] == seriesNames;
      loaded := seriesMap != map[];
    }

    /**
     * The frame at `timeIndex` of every series that has one, visited in key
     * order and then sorted by the z component of the image position.
     */
    method GetFramesForTimepoint(timeIndex: int) returns (frames: seq<DicomFrame>)
      ensures SortedBy(frames, ZLeq)
      ensures multiset(frames) == multiset(TimepointFrames(seriesMap, timeIndex))
    {
      frames := [];
      var keys := InKeyOrder(seriesMap.Keys);
      assert forall k :: k in keys ==> k in seriesMap;
      for i := 0 to |keys|
        invariant frames == Picked(seriesMap, keys[..i], timeIndex)
      {
        assert keys[..i + 1][..i] == keys[..i];
        var series := seriesMap[keys[i]];
        if timeIndex >= 0 && timeIndex < |series| {
          frames := frames + [series[timeIndex]];
        }
      }
      assert keys[..|keys|] == keys;
      assert frames == TimepointFrames(seriesMap, timeIndex);
      ZLeqIsTotalPreorder();
      frames := SortSequence(frames, ZLeq);
    }

    /** The length of the longest series, or 0 when nothing is loaded. */
    method GetNumberOfFrames() returns (n: int)
      ensures seriesMap == map[] ==> n == 0
      ensures forall k :: k in seriesMap ==> |seriesMap[k]| <= n
      ensures seriesMap != map[] ==> exists k :: k in seriesMap && n == |seriesMap[k]|
    {
      var maxFrames := 0;
      if seriesMap == map[] {
        return 0;
      }
      var remaining := seriesMap.Keys;
      while remaining != {}
        invariant remaining <= seriesMap.Keys
        invariant forall k :: k in seriesMap && k !in remaining ==> |seriesMap[k]| <= maxFrames
        invariant maxFrames == 0 || exists k :: k in seriesMap && k !in remaining && maxFrames == |seriesMap[k]|
        decreases remaining
      {
        var k :| k in remaining;
        if |seriesMap[k]| > maxFrames {
          maxFrames := |seriesMap[k]|;
        }
        remaining := remaining - {k};
      }
      n := maxFrames;
      if n == 0 {
        var k :| k in seriesMap;
        assert |seriesMap[k]| == 0;
      }
    }
  }
}
