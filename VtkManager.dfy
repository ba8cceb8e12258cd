/**
 * The geometry the scene builder computes from frame records: the affine map
 * from the image plane to patient space (DICOM PS3.3 section C.7.6.2.1.1), the
 * closed contour polyline of a frame, the two actor lists of a scene and the
 * clamped slice opacity.
 *
 * The contour files are an oracle: `NpyFiles` maps every contour path that
 * loads to the array cnpy::npy_load returns for it.  Rendering (readers,
 * mappers, actors, camera) is represented only by the entries the lists keep.
 */
module VtkScene {
  import opened Optional
  import opened DicomFrames

  // ---------------------------------------------------------------------
  // Vectors and 4x4 matrices.
  // ---------------------------------------------------------------------

  /** A 4x4 matrix as its four rows. */
  type Matrix4 = m: seq<seq<real>> | |m| == 4 && forall i :: 0 <= i < 4 ==> |m[i]| == 4
    witness [[0.0, 0.0, 0.0, 0.0], [0.0, 0.0, 0.0, 0.0], [0.0, 0.0, 0.0, 0.0], [0.0, 0.0, 0.0, 0.0]]

  /** The dot product of two 3-vectors. */
  function Dot(a: Vec3, b: Vec3): real {
    a[0] * b[0] + a[1] * b[1] + a[2] * b[2]
  }

  /** Eigen's cross(). */
  function Cross(a: Vec3, b: Vec3): Vec3 {
    [a[1] * b[2] - a[2] * b[1], a[2] * b[0] - a[0] * b[2], a[0] * b[1] - a[1] * b[0]]
  }

  /** a - b. */
  function Difference(a: Vec3, b: Vec3): Vec3 {
    [a[0] - b[0], a[1] - b[1], a[2] - b[2]]
  }

  /** pos + a * r + b * c. */
  function PlanePoint(pos: Vec3, r: Vec3, c: Vec3, a: real, b: real): Vec3 {
    [pos[0] + a * r[0] + b * c[0], pos[1] + a * r[1] + b * c[1], pos[2] + a * r[2] + b * c[2]]
  }

  /** The cross product is orthogonal to both of its factors. */
  lemma CrossOrthogonal(a: Vec3, b: Vec3)
    ensures Dot(Cross(a, b), a) == 0.0
    ensures Dot(Cross(a, b), b) == 0.0
  {
  }

  /** Matrix4d::Identity(). */
  function Identity(): (m: Matrix4)
    ensures forall i, j :: 0 <= i < 4 && 0 <= j < 4 ==> m[i][j] == if i == j then 1.0 else 0.0
  {
    [[1.0, 0.0, 0.0, 0.0], [0.0, 1.0, 0.0, 0.0], [0.0, 0.0, 1.0, 0.0], [0.0, 0.0, 0.0, 1.0]]
  }

  /** `m.block<3,1>(0, j) = v`: the top three entries of column `j` become `v`. */
  function SetColumn(m: Matrix4, j: int, v: Vec3): (r: Matrix4)
    requires 0 <= j < 4
    ensures forall p, q :: 0 <= p < 4 && 0 <= q < 4 ==> r[p][q] == if q == j && p < 3 then v[p] else m[p][q]
  {
    [m[0][j := v[0]], m[1][j := v[1]], m[2][j := v[2]], m[3]]
  }

  /** One row of a matrix times a column 4-vector. */
  function RowTimes(row: seq<real>, p: seq<real>): real
    requires |row| == 4 && |p| == 4
  {
    row[0] * p[0] + row[1] * p[1] + row[2] * p[2] + row[3] * p[3]
  }

  /** vtkMatrix4x4::MultiplyPoint: the matrix times a column 4-vector. */
  function MultiplyPoint(m: Matrix4, p: seq<real>): (r: seq<real>)
    requires |p| == 4
    ensures |r| == 4
  {
    [RowTimes(m[0], p), RowTimes(m[1], p), RowTimes(m[2], p), RowTimes(m[3], p)]
  }

  // ---------------------------------------------------------------------
  // The image-plane-to-patient transform.
  // ---------------------------------------------------------------------

  /** The first three Image Orientation values: the direction of a row. */
  function RowCosines(f: DicomFrame): Vec3 {
    f.imageOrientation[..3]
  }

  /** The last three Image Orientation values: the direction of a column. */
  function ColumnCosines(f: DicomFrame): Vec3 {
    f.imageOrientation[3..]
  }

  /** The slice normal: row cosines cross column cosines. */
  function Normal(f: DicomFrame): Vec3 {
    Cross(RowCosines(f), ColumnCosines(f))
  }

  /** The matrix createTransformMatrix builds: columns row cosines, column cosines,
      normal and position over a bottom row 0, 0, 0, 1. */
  function EigenTransform(f: DicomFrame): Matrix4 {
    var r, c, n, p := RowCosines(f), ColumnCosines(f), Normal(f), f.imagePosition;
    [[r[0], c[0], n[0], p[0]],
     [r[1], c[1], n[1], p[1]],
     [r[2], c[2], n[2], p[2]],
     [0.0, 0.0, 0.0, 1.0]]
  }

  /**
   * Eigen's construction yields that matrix: the identity whose first four columns
   * get row cosines, column cosines, normal and position as their top three entries.
   */
  lemma EigenConstruction(f: DicomFrame)
    ensures SetColumn(SetColumn(SetColumn(SetColumn(Identity(), 0, RowCosines(f)), 1, ColumnCosines(f)), 2, Normal(f)), 3, f.imagePosition)
      == EigenTransform(f)
  {
    var m0 := SetColumn(Identity(), 0, RowCosines(f));
    var m1 := SetColumn(m0, 1, ColumnCosines(f));
    var m2 := SetColumn(m1, 2, Normal(f));
    var m3 := SetColumn(m2, 3, f.imagePosition);
    var e := EigenTransform(f);
    forall i | 0 <= i < 4 ensures m3[i] == e[i] {
      assert forall j :: 0 <= j < 4 ==> m3[i][j] == e[i][j];
    }
  }

  /**
   * The transform's columns are the row cosines, the column cosines, their cross
   * product and the image position, and its bottom row is 0, 0, 0, 1; the third
   * column is orthogonal to the first two.
   */
  lemma TransformColumns(f: DicomFrame)
    ensures var m := EigenTransform(f);
      && (forall i :: 0 <= i < 3 ==> m[i][0] == f.imageOrientation[i])
      && (forall i :: 0 <= i < 3 ==> m[i][1] == f.imageOrientation[3 + i])
      && (forall i :: 0 <= i < 3 ==> m[i][2] == Normal(f)[i])
      && (forall i :: 0 <= i < 3 ==> m[i][3] == f.imagePosition[i])
      && m[3] == [0.0, 0.0, 0.0, 1.0]
    ensures Dot(Normal(f), RowCosines(f)) == 0.0 && Dot(Normal(f), ColumnCosines(f)) == 0.0
  {
    CrossOrthogonal(RowCosines(f), ColumnCosines(f));
  }

  /** The entries of a 4x4 VTK matrix. */
  function MatrixOf(a: array2<real>): Matrix4
    requires a.Length0 == 4 && a.Length1 == 4
    reads a
  {
    [[a[0, 0], a[0, 1], a[0, 2], a[0, 3]],
     [a[1, 0], a[1, 1], a[1, 2], a[1, 3]],
     [a[2, 0], a[2, 1], a[2, 2], a[2, 3]],
     [a[3, 0], a[3, 1], a[3, 2], a[3, 3]]]
  }

  /** createTransformMatrix: a new VTK matrix holding, entry for entry, the Eigen matrix. */
  method CreateTransformMatrix(frame: DicomFrame) returns (vtkMatrix: array2<real>)
    ensures fresh(vtkMatrix)
    ensures vtkMatrix.Length0 == 4 && vtkMatrix.Length1 == 4
    ensures MatrixOf(vtkMatrix) == EigenTransform(frame)
  {
    var transform := EigenTransform(frame);
    vtkMatrix := new real[4, 4];
    for i := 0 to 4
      invariant forall p, q :: 0 <= p < i && 0 <= q < 4 ==> vtkMatrix[p, q] == transform[p][q]
    {
      for j := 0 to 4
        invariant forall p, q :: 0 <= p < i && 0 <= q < 4 ==> vtkMatrix[p, q] == transform[p][q]
        invariant forall q :: 0 <= q < j ==> vtkMatrix[i, q] == transform[i][q]
      {
        vtkMatrix[i, j] := transform[i][j];
      }
    }
    CopiedMatrix(frame, vtkMatrix);
  }

  /** The copy's entries, read back, are the Eigen matrix. */
  lemma CopiedMatrix(frame: DicomFrame, a: array2<real>)
    requires a.Length0 == 4 && a.Length1 == 4
    requires forall i, j :: 0 <= i < 4 && 0 <= j < 4 ==> a[i, j] == EigenTransform(frame)[i][j]
    ensures MatrixOf(a) == EigenTransform(frame)
  {
    var m, e := MatrixOf(a), EigenTransform(frame);
    forall i | 0 <= i < 4 ensures m[i] == e[i] {
      assert forall j :: 0 <= j < 4 ==> m[i][j] == e[i][j];
    }
  }

  // ---------------------------------------------------------------------
  // Contours.
  // ---------------------------------------------------------------------

  /** The number of elements of an array of the given shape. */
  function Product(shape: seq<nat>): (p: nat)
    ensures |shape| == 1 ==> p == shape[0]
    ensures |shape| == 2 ==> p == shape[0] * shape[1]
  {
    if shape == [] then 1 else Product(shape[..|shape| - 1]) * shape[|shape| - 1]
  }

  /** A loaded .npy array: its shape and its elements read as doubles, in storage
      order; cnpy sizes the buffer by the shape, which the type records. */
  datatype NpyArray = NpyArray(shape: seq<nat>, data: seq<real>)
  type Npy = a: NpyArray | |a.data| == Product(a.shape) witness NpyArray([], [0.0])

  /** The arrays npy_load returns, by path. */
  type NpyFiles = map<string, Npy>

  /** The geometry a contour actor draws: its points, and its one cell as the size
      declared when it was started and the point ids inserted into it. */
  datatype Polyline = Polyline(points: seq<Vec3>, cellSize: nat, cellIds: seq<nat>)

  /** The contour arrays createContourActor accepts: shape (2, N) with N at least 2. */
  predicate IsContourShape(shape: seq<nat>) {
    |shape| == 2 && shape[0] == 2 && shape[1] >= 2
  }

  /** Pixel coordinates scaled to millimetres: x by the column spacing, y by the row spacing. */
  function LocalPoint(f: DicomFrame, x: real, y: real): seq<real> {
    [x * f.pixelSpacing[1], y * f.pixelSpacing[0], 0.0, 1.0]
  }

  /** The first three components of the transformed local point. */
  function WorldPoint(f: DicomFrame, x: real, y: real): Vec3 {
    MultiplyPoint(EigenTransform(f), LocalPoint(f, x, y))[..3]
  }

  /** The contour a frame gets, or None when it has no contour path or the array
      at that path is not a (2, N) array with N at least 2. */
  function ContourOf(f: DicomFrame, files: NpyFiles): Option<Polyline>
    requires f.contourFilePath == "" || f.contourFilePath in files
  {
    if f.contourFilePath == "" then None
    else
      var arr := files[f.contourFilePath];
      if !IsContourShape(arr.shape) then None
      else
        var n := arr.shape[1];
        Some(Polyline(ContourPoints(f, arr.data, n, n), n + 1, Range(n) + [0]))
  }

  /** The first k contour points: point j transforms x = data[j], y = data[n + j]. */
  function ContourPoints(f: DicomFrame, data: seq<real>, n: nat, k: nat): (ps: seq<Vec3>)
    requires k <= n && |data| == 2 * n
    ensures |ps| == k
  {
    if k == 0 then [] else ContourPoints(f, data, n, k - 1) + [WorldPoint(f, data[k - 1], data[n + k - 1])]
  }

  /** Point j of the first k is the transform of x = data[j], y = data[n + j]. */
  lemma {:induction false} ContourPointsIndex(f: DicomFrame, data: seq<real>, n: nat, k: nat)
    requires k <= n && |data| == 2 * n
    ensures forall j :: 0 <= j < k ==> ContourPoints(f, data, n, k)[j] == WorldPoint(f, data[j], data[n + j])
  {
    if k > 0 {
      ContourPointsIndex(f, data, n, k - 1);
    }
  }

  /** The ids 0, 1, ..., k - 1. */
  function Range(k: nat): (r: seq<nat>)
    ensures |r| == k
  {
    if k == 0 then [] else Range(k - 1) + [k - 1]
  }

  /** Id j of Range(k) is j. */
  lemma {:induction false} RangeIndex(k: nat)
    ensures forall j :: 0 <= j < k ==> Range(k)[j] == j
  {
    if k > 0 {
      RangeIndex(k - 1);
    }
  }

  /** No contour exactly when the path is empty, the array is not 2-D, its first
      dimension is not 2 or it holds fewer than 2 points. */
  lemma ContourRejected(f: DicomFrame, files: NpyFiles)
    requires f.contourFilePath == "" || f.contourFilePath in files
    ensures ContourOf(f, files).None? <==>
      f.contourFilePath == "" ||
      var shape := files[f.contourFilePath].shape;
      |shape| != 2 || shape[0] != 2 || shape[1] < 2
  {
  }

  /**
   * An accepted contour of N points is closed: N points, and one cell of declared
   * size N + 1 holding the ids 0, 1, ..., N - 1 and then 0 again.
   */
  lemma ContourClosed(f: DicomFrame, files: NpyFiles)
    requires f.contourFilePath == "" || f.contourFilePath in files
    requires ContourOf(f, files).Some?
    ensures var c := ContourOf(f, files).value;
      var n := files[f.contourFilePath].shape[1];
      && |c.points| == n >= 2
      && c.cellSize == |c.cellIds| == n + 1
      && (forall i :: 0 <= i < n ==> c.cellIds[i] == i)
      && c.cellIds[n] == c.cellIds[0] == 0
  {
    RangeIndex(files[f.contourFilePath].shape[1]);
  }

  /**
   * Point i of an accepted contour, with x the array's element i and y its
   * element N + i, lies at position + (x * column spacing) * row cosines +
   * (y * row spacing) * column cosines, which is in the image plane.
   */
  lemma ContourPointPosition(f: DicomFrame, files: NpyFiles, i: int)
    requires f.contourFilePath == "" || f.contourFilePath in files
    requires ContourOf(f, files).Some?
    requires 0 <= i < files[f.contourFilePath].shape[1]
    ensures |files[f.contourFilePath].data| == 2 * files[f.contourFilePath].shape[1]
    ensures ContourOf(f, files).value.points[i] ==
      PlanePoint(f.imagePosition, RowCosines(f), ColumnCosines(f),
                 files[f.contourFilePath].data[i] * f.pixelSpacing[1],
                 files[f.contourFilePath].data[files[f.contourFilePath].shape[1] + i] * f.pixelSpacing[0])
    ensures Dot(Normal(f), Difference(ContourOf(f, files).value.points[i], f.imagePosition)) == 0.0
  {
    var arr := files[f.contourFilePath];
    var n := arr.shape[1];
    var x, y := arr.data[i], arr.data[n + i];
    var p := ContourOf(f, files).value.points[i];
    ContourPointsIndex(f, arr.data, n, n);
    assert p == WorldPoint(f, x, y);
    WorldPointPosition(f, x, y);
    var mx := files[f.contourFilePath].data[i] * f.pixelSpacing[1];
    var my := files[f.contourFilePath].data[files[f.contourFilePath].shape[1] + i] * f.pixelSpacing[0];
    assert mx == x * f.pixelSpacing[1] && my == y * f.pixelSpacing[0];
    assert p == PlanePoint(f.imagePosition, RowCosines(f), ColumnCosines(f), mx, my);
  }

  /** A point of the image plane, z = 0, transformed by a matrix whose first, second
      and fourth columns are r, c and pos: pos + a * r + b * c. */
  lemma MultiplyPlanePoint(m: Matrix4, r: Vec3, c: Vec3, pos: Vec3, a: real, b: real)
    requires forall k :: 0 <= k < 3 ==> m[k][0] == r[k] && m[k][1] == c[k] && m[k][3] == pos[k]
    ensures MultiplyPoint(m, [a, b, 0.0, 1.0])[..3] == PlanePoint(pos, r, c, a, b)
  {
    var p := MultiplyPoint(m, [a, b, 0.0, 1.0]);
    assert p[0] == m[0][0] * a + m[0][1] * b + m[0][2] * 0.0 + m[0][3] * 1.0;
    assert p[1] == m[1][0] * a + m[1][1] * b + m[1][2] * 0.0 + m[1][3] * 1.0;
    assert p[2] == m[2][0] * a + m[2][1] * b + m[2][2] * 0.0 + m[2][3] * 1.0;
    var e := PlanePoint(pos, r, c, a, b);
    assert p[0] == e[0] && p[1] == e[1] && p[2] == e[2];
    assert p[..3] == [e[0], e[1], e[2]];
  }

  /** A plane point is orthogonal, relative to pos, to any vector orthogonal to r and c. */
  lemma PlanePointOrthogonal(n: Vec3, pos: Vec3, r: Vec3, c: Vec3, a: real, b: real)
    requires Dot(n, r) == 0.0 && Dot(n, c) == 0.0
    ensures Dot(n, Difference(PlanePoint(pos, r, c, a, b), pos)) == 0.0
  {
  }

  /** The transform maps a local point to position + mx * row + my * column, a
      point of the image plane through the position. */
  lemma WorldPointPosition(f: DicomFrame, x: real, y: real)
    ensures WorldPoint(f, x, y) ==
      PlanePoint(f.imagePosition, RowCosines(f), ColumnCosines(f), x * f.pixelSpacing[1], y * f.pixelSpacing[0])
    ensures Dot(Normal(f), Difference(WorldPoint(f, x, y), f.imagePosition)) == 0.0
  {
    var mx, my := x * f.pixelSpacing[1], y * f.pixelSpacing[0];
    var r, c, pos := RowCosines(f), ColumnCosines(f), f.imagePosition;
    assert LocalPoint(f, x, y) == [mx, my, 0.0, 1.0] by {
      var q := LocalPoint(f, x, y);
      assert q[0] == mx && q[1] == my && q[2] == 0.0 && q[3] == 1.0;
    }
    TransformColumns(f);
    MultiplyPlanePoint(EigenTransform(f), r, c, pos, mx, my);
    PlanePointOrthogonal(Normal(f), pos, r, c, mx, my);
  }

  /** createContourActor: the polyline of a frame's contour, or None when there is none. */
  method CreateContourActor(frame: DicomFrame, files: NpyFiles) returns (actor: Option<Polyline>)
    requires frame.contourFilePath == "" || frame.contourFilePath in files
    ensures actor == ContourOf(frame, files)
  {
    if frame.contourFilePath == "" {
      return None;
    }
    var arr := files[frame.contourFilePath];
    if |arr.shape| != 2 || arr.shape[0] != 2 {
      return None;
    }
    var numPoints := arr.shape[1];
    if numPoints < 2 {
      return None;
    }
    var transform := CreateTransformMatrix(frame);
    var matrix := MatrixOf(transform);
    var points: seq<Vec3> := [];
    var cellSize := numPoints + 1;
    var cellIds: seq<nat> := [];
    for i := 0 to numPoints
      invariant points == ContourPoints(frame, arr.data, numPoints, i)
      invariant cellIds == Range(i)
    {
      var pixelX := arr.data[i];
      var pixelY := arr.data[numPoints + i];
      // (pixelX * column spacing, pixelY * row spacing, 0, 1)
      var pLocal := LocalPoint(frame, pixelX, pixelY);
      var pWorld := MultiplyPoint(matrix, pLocal);
      assert [pWorld[0], pWorld[1], pWorld[2]] == WorldPoint(frame, pixelX, pixelY);
      points := points + [[pWorld[0], pWorld[1], pWorld[2]]];
      cellIds := cellIds + [i];
    }
    cellIds := cellIds + [0];
    actor := Some(Polyline(points, cellSize, cellIds));
  }

  // ---------------------------------------------------------------------
  // The scene.
  // ---------------------------------------------------------------------

  /** A slice actor: the image it shows, its user matrix and its scale. */
  datatype SliceEntry = SliceEntry(imagePath: string, userMatrix: Matrix4, scale: Vec3)

  /** SetScale(column spacing, row spacing, 1). */
  function SliceScale(f: DicomFrame): Vec3 {
    [f.pixelSpacing[1], f.pixelSpacing[0], 1.0]
  }

  function SliceOf(f: DicomFrame): SliceEntry {
    SliceEntry(f.filePath, EigenTransform(f), SliceScale(f))
  }

  /** The slice actors of the frames, one per frame, in frame order. */
  function SlicesOf(frames: seq<DicomFrame>): (r: seq<SliceEntry>)
    ensures |r| == |frames|
  {
    seq(|frames|, i requires 0 <= i < |frames| => SliceOf(frames[i]))
  }

  /** The slice actor createScene builds for one frame: the frame's image, placed by
      the frame's transform and scaled by its pixel spacing. */
  method CreateSliceActor(frame: DicomFrame) returns (entry: SliceEntry)
    ensures entry == SliceOf(frame)
  {
    var transform := CreateTransformMatrix(frame);
    entry := SliceEntry(frame.filePath, MatrixOf(transform), [frame.pixelSpacing[1], frame.pixelSpacing[0], 1.0]);
  }

  /** Every contour path of `frames` that is not empty can be loaded. */
  predicate ContoursLoadable(frames: seq<DicomFrame>, files: NpyFiles) {
    forall i :: 0 <= i < |frames| ==> frames[i].contourFilePath == "" || frames[i].contourFilePath in files
  }

  /** What createContourActor returns for each frame, in frame order. */
  function ContourResults(frames: seq<DicomFrame>, files: NpyFiles): (r: seq<Option<Polyline>>)
    requires ContoursLoadable(frames, files)
    ensures |r| == |frames|
  {
    seq(|frames|, i requires 0 <= i < |frames| => ContourOf(frames[i], files))
  }

  /** The contours of the frames that get one, in frame order. */
  function ContoursOf(frames: seq<DicomFrame>, files: NpyFiles): seq<Polyline>
    requires ContoursLoadable(frames, files)
  {
    Present(ContourResults(frames, files))
  }

  /** The contour list holds exactly the contours of the frames that have one, and is
      never longer than the frame list. */
  lemma ContoursOfSpec(frames: seq<DicomFrame>, files: NpyFiles, c: Polyline)
    requires ContoursLoadable(frames, files)
    ensures |ContoursOf(frames, files)| <= |frames|
    ensures c in ContoursOf(frames, files) <==>
      exists i :: 0 <= i < |frames| && ContourOf(frames[i], files) == Some(c)
  {
    var results := ContourResults(frames, files);
    PresentSpec(results, c);
    if Some(c) in results {
      var i :| 0 <= i < |results| && results[i] == Some(c);
      assert ContourOf(frames[i], files) == Some(c);
    }
    if exists i :: 0 <= i < |frames| && ContourOf(frames[i], files) == Some(c) {
      var i :| 0 <= i < |frames| && ContourOf(frames[i], files) == Some(c);
      assert results[i] == Some(c);
    }
  }

  /** The slice opacity std::max(0.0, std::min(1.0, v)): within [0, 1], unchanged when
      already there, 0 below and 1 above. */
  function Clamp(v: real): (r: real)
    ensures 0.0 <= r <= 1.0
    ensures 0.0 <= v <= 1.0 ==> r == v
    ensures v < 0.0 ==> r == 0.0
    ensures v > 1.0 ==> r == 1.0
  {
    var upper := if 1.0 < v then 1.0 else v;
    if 0.0 < upper then upper else 0.0
  }

  /** Clamping twice is clamping once. */
  lemma ClampIdempotent(v: real)
    ensures Clamp(Clamp(v)) == Clamp(v)
  {
  }

  /** The scene: the slice actors and contour actors it tracks, and the opacity of
      the image property every slice shares. */
  class VtkManager {
    var sliceActors: seq<SliceEntry>
    var contourActors: seq<Polyline>
    var opacity: real

    /** The class invariant: the shared opacity always lies in [0, 1], as the
        constructor's 0.7 and the clamped setter keep it. */
    ghost predicate Valid()
      reads this
    {
      0.0 <= opacity <= 1.0
    }

    constructor ()
      ensures Valid()
      ensures sliceActors == [] && contourActors == []
      ensures opacity == 0.7
    {
      sliceActors := [];
      contourActors := [];
      opacity := 0.7;
    }

    /**
     * createScene: both lists are emptied, then every frame adds its slice, in
     * frame order, and the frames whose contour validates add their contour.
     */
    method CreateScene(frames: seq<DicomFrame>, files: NpyFiles)
      requires Valid()
      requires ContoursLoadable(frames, files)
      modifies this
      ensures Valid()
      ensures sliceActors == SlicesOf(frames)
      ensures contourActors == ContoursOf(frames, files)
      ensures opacity == old(opacity)
    {
      sliceActors := [];
      contourActors := [];
      ghost var slices := SlicesOf(frames);
      ghost var results := ContourResults(frames, files);
      for i := 0 to |frames|
        invariant sliceActors == slices[..i]
        invariant contourActors == Present(results[..i])
        invariant opacity == old(opacity)
      {
        var frame := frames[i];
        var sliceActor := CreateSliceActor(frame);
        assert slices[..i + 1] == slices[..i] + [sliceActor];
        sliceActors := sliceActors + [sliceActor];
        PresentStep(results, i);
        var contourActor := CreateContourActor(frame, files);
        assert contourActor == results[i];
        if contourActor.Some? {
          contourActors := contourActors + [contourActor.value];
        }
      }
      assert slices[..|frames|] == slices;
      assert results[..|frames|] == results;
    }

    /** setSliceOpacity: the shared opacity becomes the clamped value; the scene's lists
        are unchanged. */
    method SetSliceOpacity(value: real)
      requires Valid()
      modifies this
      ensures Valid()
      ensures opacity == Clamp(value)
      ensures sliceActors == old(sliceActors) && contourActors == old(contourActors)
    {
      var clampedOpacity := Clamp(value);
      opacity := clampedOpacity;
    }
  }
}
