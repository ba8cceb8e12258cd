/**
 * The frame record of the series index: one slice's file references and the
 * DICOM metadata that places it in patient space (DICOM PS3.3 section C.7.6.2,
 * Image Plane Module) and orders it in time (Instance Number, section C.7.6.1).
 *
 * The record's vectors are created with a fixed length and only their existing
 * elements are ever written, so their lengths are part of their types here.
 */
module DicomFrames {
  import opened Ordering

  type Vec2 = s: seq<real> | |s| == 2 witness [1.0, 1.0]
  type Vec3 = s: seq<real> | |s| == 3 witness [0.0, 0.0, 0.0]
  type Vec6 = s: seq<real> | |s| == 6 witness [1.0, 0.0, 0.0, 0.0, 1.0, 0.0]

  /**
   * One frame of a series.
   * - imagePosition: patient-space position of the first transmitted pixel, in mm;
   * - imageOrientation: row direction cosines then column direction cosines;
   * - pixelSpacing: row spacing then column spacing, in mm;
   * - contourFilePath: the companion contour file, or "" when there is none.
   */
  datatype DicomFrame = DicomFrame(
    filePath: string,
    contourFilePath: string,
    instanceNumber: int,
    imagePosition: Vec3,
    imageOrientation: Vec6,
    pixelSpacing: Vec2,
    rows: int,
    cols: int)

  /** The values a freshly constructed record holds before any tag is parsed. */
  const DefaultPosition: Vec3 := [0.0, 0.0, 0.0]
  const DefaultOrientation: Vec6 := [1.0, 0.0, 0.0, 0.0, 1.0, 0.0]
  const DefaultSpacing: Vec2 := [1.0, 1.0]
  const DefaultFrame := DicomFrame("", "", 0, DefaultPosition, DefaultOrientation, DefaultSpacing, 0, 0)

  /** A time series: frames that ingestion orders by instance number. */
  type DicomSeries = seq<DicomFrame>

  /** operator<: frames compare by instance number alone. */
  predicate FrameLess(a: DicomFrame, b: DicomFrame) {
    a.instanceNumber < b.instanceNumber
  }

  /** The non-strict companion of FrameLess: `b` is not less than `a`. */
  predicate FrameLeq(a: DicomFrame, b: DicomFrame) {
    !FrameLess(b, a)
  }

  /** FrameLess is a strict weak ordering whose equivalence classes are the
      frames sharing an instance number, so FrameLeq can drive a sort. */
  lemma FrameOrderIsStrictWeak()
    ensures TotalPreorder(FrameLeq)
    ensures forall a, b :: !FrameLess(a, b) && !FrameLess(b, a) <==> a.instanceNumber == b.instanceNumber
    ensures forall a :: !FrameLess(a, a)
  {
  }

  /** A series sorted by FrameLeq has non-decreasing instance numbers. */
  lemma {:induction false} SortedSeriesInstanceOrder(s: DicomSeries)
    requires SortedBy(s, FrameLeq)
    ensures forall i :: 0 <= i < |s| - 1 ==> s[i].instanceNumber <= s[i + 1].instanceNumber
  {
    forall i | 0 <= i < |s| - 1 ensures s[i].instanceNumber <= s[i + 1].instanceNumber {
      assert FrameLeq(s[i], s[i + 1]);
    }
  }
}
