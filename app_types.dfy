// The records passed between acquisition, the processing pipeline and the
// user interface (src/app_types.py).

module AppTypes {
  import opened Wrappers

  /** Pinhole camera intrinsics: focal lengths, principal point, image size. */
  datatype Intrinsics = Intrinsics(fx: real, fy: real, cx: real, cy: real, width: int, height: int)

  /**
   * A depth image as NumPy holds it: its shape and its samples in row-major
   * order.  Every sample of a frame handed to the pipeline is a uint16.
   */
  datatype DepthImage = DepthImage(shape: seq<nat>, samples: seq<int>)

  /** One depth frame with the calibration needed to back-project it. */
  datatype FrameDepth = FrameDepth(
    depth: DepthImage,
    intrinsics: Intrinsics,
    depthScale: real,
    timestampNs: Option<int>)

  datatype Units = Metres | Millimetres | Centimetres
  datatype BoxType = AxisAligned | Oriented | PlaneBox

  /** A measured box; units default to millimetres and the box to an oriented one. */
  datatype DimsResult = DimsResult(length: real, width: real, height: real, units: Units, boxType: BoxType)

  /** DimsResult(length, width, height) with the record's default units and box type. */
  function Dims(length: real, width: real, height: real): DimsResult {
    DimsResult(length, width, height, Millimetres, Oriented)
  }
}
