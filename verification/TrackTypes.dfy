/** The data of the tracker (datapro2/src/datapro2Types.h). A time is a count of nanoseconds; a double is a
    real number. */
module TrackTypes {
  import opened LeastSquares

  datatype Point = Point(x: real, y: real, z: real)

  /** One detected object: its place in the image, in space, and the time of its frame. */
  datatype Measurement = Measurement(idObj: int, x: real, y: real, p: Point, time: int)

  datatype PTPoint = PTPoint(measurement: Measurement, passedFrames: int)

  datatype Strobe = Strobe(min: Point, max: Point)

  datatype Stats = Stats(speed: real, acceleration: real, stdDevX: real, stdDevY: real, stdDevZ: real, stdDevXyz: real)

  datatype Fit = Fit(x: Parabola, y: Parabola, z: Parabola)

  datatype Trajectory = Trajectory(
    measurements: seq<Measurement>,
    id: nat,
    camIndex: int,
    time0: int,
    fit: Fit,
    unconfirmedFramesCount: int,
    updated: bool,
    stats: Stats,
    strobe: Strobe)

  datatype Frame = Frame(camIndex: int, time: int, width: int, height: int, az: real, el: real)

  /** One set of limits; the tracker has one for dropping and one for showing. */
  datatype Requirements = Requirements(
    maxConfirmedFrames: int, minConfirmedFrames: int,
    minSpeed: real, maxSpeed: real, minAcceleration: real, maxAcceleration: real,
    maxXStdDev: real, maxYStdDev: real, maxZStdDev: real, maxXyzStdDev: real)

  /** The settings, and the formulas that the model keeps abstract: the Euclidean length (`distance`, `speed`),
      the strobe around an extrapolated position, and the statistics of a fitted trajectory. */
  datatype Config = Config(
    minSpeed: real, maxSpeed: real,
    maxPttFrames: int, maxTrackingFrames: int,
    drop: Requirements, show: Requirements, showMinFrames: int,
    filterSize: int, filterLimit: int,
    linearModel: bool, kDist: real,
    maxDistance: real,
    distance: (Point, Point) -> real,
    speed: (real, real, real) -> real,
    strobe: (bool, Trajectory, Measurement, Frame) -> Strobe,
    statistics: (bool, Trajectory) -> Stats)
}
