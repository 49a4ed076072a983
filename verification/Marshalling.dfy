/** The result record that datapro1 sends to datapro2 (datapro1/src/dp1_rpc_data_mrsh.cpp), written into and read
    from a memory store. A plain structure is the bytes that the host keeps of it. */
module Marshalling {
  import opened Bytes
  import opened MemStore
  import opened Naturals
  import opened Options
  import opened Sequences

  const CAM_SIZE := 32        // sizeof(TDataCam)
  const FRAME_SIZE := 64      // sizeof(TDataFrame)
  const MEAS_SIZE := 112      // sizeof(TOptionsMeasurement)
  const POINT_SIZE := 8       // sizeof(cv::Point2f)
  const KEYPOINT_SIZE := 28   // sizeof(cv::KeyPoint)
  const HEAD_SIZE := 4 + CAM_SIZE + 4 + FRAME_SIZE + 8

  const INT_RANGE := 0x8000_0000

  // ----- matrices

  /** A cv::Mat: `mem` is the memory from its first element on, a row starts every `step` bytes. */
  datatype Mat = Mat(cols: nat, rows: nat, elemSize: nat, typ: nat, step: nat, continuous: bool, mem: seq<byte>)

  /** The value of a matrix. An empty one has no type or shape that counts. */
  datatype Image = NoImage | Image(cols: nat, rows: nat, typ: nat, pixels: seq<byte>)

  function Channels(typ: nat): (c: nat)
    ensures c >= 1
  {
    typ / 8 % 512 + 1
  }

  /** The bytes of one channel: of 8-, 16- and 32-bit integers, floats, doubles and half floats. */
  function DepthSize(typ: nat): (size: nat)
    ensures size == [1, 1, 2, 2, 4, 4, 8, 2][typ % 8]
  {
    var d := typ % 8;
    if d < 2 then 1 else if d < 4 || d == 7 then 2 else if d < 6 then 4 else 8
  }

  function TypeSize(typ: nat): nat {
    Channels(typ) * DepthSize(typ)
  }

  /** The bytes that one pass of the writing loop copies: the element size is multiplied by the channels again. */
  function ChunkLen(m: Mat): nat {
    Mul(Mul(if m.continuous then Mul(m.cols, m.rows) else m.cols, m.elemSize), Channels(m.typ))
  }

  function Chunks(m: Mat): nat {
    if m.continuous then 1 else m.rows
  }

  predicate RowsWithin(mem: seq<byte>, step: nat, len: nat, n: nat) {
    forall r: nat :: r < n ==> Mul(r, step) + len <= |mem|
  }

  function Rows(mem: seq<byte>, step: nat, len: nat, n: nat): seq<byte>
    requires RowsWithin(mem, step, len, n)
  {
    if n == 0 then [] else Rows(mem, step, len, n - 1) + mem[Mul(n - 1, step)..Mul(n - 1, step) + len]
  }

  predicate Empty(m: Mat) {
    m.cols == 0 || m.rows == 0
  }

  function PixelBytes(m: Mat): nat {
    Mul(Mul(m.cols, m.rows), m.elemSize)
  }

  /** A matrix as OpenCV keeps it, whose size in bytes is an int, and whose memory holds all that the loop copies. */
  ghost predicate Proper(m: Mat) {
    && m.cols < INT_RANGE && m.rows < INT_RANGE && m.elemSize < INT_RANGE && m.typ < 4096
    && Mul(PixelBytes(m), Channels(m.typ)) < INT_RANGE
    && (!Empty(m) ==> m.elemSize == TypeSize(m.typ))
    && (m.continuous && m.rows > 1 ==> m.step == Mul(m.cols, m.elemSize))
    && RowsWithin(m.mem, m.step, ChunkLen(m), Chunks(m))
    && RowsWithin(m.mem, m.step, Mul(m.cols, m.elemSize), m.rows)
  }

  function Pixels(m: Mat): seq<byte>
    requires Proper(m)
  {
    Rows(m.mem, m.step, Mul(m.cols, m.elemSize), m.rows)
  }

  function View(m: Mat): Image
    requires Proper(m)
  {
    if Empty(m) then NoImage else Image(m.cols, m.rows, m.typ, Pixels(m))
  }

  function LE(v: nat): (s: seq<byte>)
    ensures |s| == 4
  {
    ToLE(v, 4)
  }

  function U32At(b: seq<byte>, at: nat): nat
    requires at + 4 <= |b|
  {
    FromLE(b[at..at + 4])
  }

  function MatHeader(m: Mat): (s: seq<byte>)
    ensures |s| == 16
  {
    LE(m.cols) + LE(m.rows) + LE(m.elemSize) + LE(m.typ)
  }

  /** What serialize_Mat writes. */
  function MatBytes(m: Mat): seq<byte>
    requires Proper(m)
  {
    MatHeader(m) + Rows(m.mem, m.step, ChunkLen(m), Chunks(m))
  }

  /** What deserialize_Mat reads, and what it leaves; `None` when it would read beyond the end or the sizes are
      not those of a matrix. The element type decides how much is copied, the element size how much is skipped. */
  function ParseMat(b: seq<byte>): Option<(Image, seq<byte>)> {
    if |b| < 16 then None
    else
      var cols, rows, elemSize, typ, rest := U32At(b, 0), U32At(b, 4), U32At(b, 8), U32At(b, 12), b[16..];
      var need, skip := Mul(Mul(cols, rows), TypeSize(typ)), Mul(Mul(cols, rows), elemSize);
      if cols >= INT_RANGE || rows >= INT_RANGE || elemSize >= INT_RANGE || typ >= 4096 then None
      else if skip >= INT_RANGE || skip > |rest| || need > |rest| then None
      else if cols == 0 || rows == 0 then Some((NoImage, rest[skip..]))
      else Some((Image(cols, rows, typ, rest[..need]), rest[skip..]))
  }

  // ----- lists of structures

  predicate AllSized(s: seq<seq<byte>>, size: nat) {
    forall i :: 0 <= i < |s| ==> |s[i]| == size
  }

  function Split(b: seq<byte>, n: nat, size: nat): (s: seq<seq<byte>>)
    requires Mul(n, size) <= |b|
    ensures |s| == n && AllSized(s, size)
  {
    if n == 0 then []
    else
      assert Mul(n, size) == size + Mul(n - 1, size);
      [b[..size]] + Split(b[size..], n - 1, size)
  }

  lemma {:induction false} FlattenLength(s: seq<seq<byte>>, size: nat)
    requires AllSized(s, size)
    ensures |Flatten(s)| == Mul(|s|, size)
  {
    if s != [] {
      FlattenLength(s[1..], size);
      assert Mul(|s|, size) == size + Mul(|s| - 1, size);
    }
  }

  lemma {:induction false} SplitFlatten(s: seq<seq<byte>>, size: nat, rest: seq<byte>)
    requires AllSized(s, size)
    ensures |Flatten(s)| == Mul(|s|, size) && Split(Flatten(s) + rest, |s|, size) == s
  {
    FlattenLength(s, size);
    if s != [] {
      hide Mul;
      SplitFlatten(s[1..], size, rest);
      var b := Flatten(s) + rest;
      assert b == s[0] + (Flatten(s[1..]) + rest);
      TakeAppend(s[0], Flatten(s[1..]) + rest);
      assert Split(b, |s|, size) == [b[..size]] + Split(b[size..], |s| - 1, size);
    }
  }

  // ----- the record

  datatype Calibration<+M> = Calibration(rMatrix: M, tVec: M, rVec: M, descriptors: M,
                                         corners: seq<seq<byte>>, keypoints: seq<seq<byte>>)

  datatype DataRes<+M> = DataRes(cam: seq<byte>, frame: seq<byte>, meas: seq<seq<byte>>, calib: Calibration<M>)

  ghost predicate ProperCalibration(c: Calibration<Mat>) {
    && Proper(c.rMatrix) && Proper(c.tVec) && Proper(c.rVec) && Proper(c.descriptors)
    && AllSized(c.corners, POINT_SIZE) && AllSized(c.keypoints, KEYPOINT_SIZE)
  }

  ghost predicate ProperRes(r: DataRes<Mat>) {
    |r.cam| == CAM_SIZE && |r.frame| == FRAME_SIZE && AllSized(r.meas, MEAS_SIZE) && ProperCalibration(r.calib)
  }

  function ListBytes(s: seq<seq<byte>>): seq<byte> {
    LE(|s|) + Flatten(s)
  }

  function CalibrationBytes(c: Calibration<Mat>): seq<byte>
    requires ProperCalibration(c)
  {
    MatBytes(c.rMatrix) + (MatBytes(c.tVec) + (MatBytes(c.rVec) + (MatBytes(c.descriptors)
    + (ListBytes(c.corners) + ListBytes(c.keypoints)))))
  }

  function ResHead(r: DataRes<Mat>): (s: seq<byte>)
    requires |r.cam| == CAM_SIZE && |r.frame| == FRAME_SIZE
    ensures |s| == HEAD_SIZE
  {
    LE(CAM_SIZE) + r.cam + LE(FRAME_SIZE) + r.frame + LE(MEAS_SIZE) + LE(|r.meas|)
  }

  function ResBytes(r: DataRes<Mat>): seq<byte>
    requires ProperRes(r)
  {
    ResHead(r) + (Flatten(r.meas) + CalibrationBytes(r.calib))
  }

  function CalibrationView(c: Calibration<Mat>): Calibration<Image>
    requires ProperCalibration(c)
  {
    Calibration(View(c.rMatrix), View(c.tVec), View(c.rVec), View(c.descriptors), c.corners, c.keypoints)
  }

  function ResView(r: DataRes<Mat>): DataRes<Image>
    requires ProperRes(r)
  {
    DataRes(r.cam, r.frame, r.meas, CalibrationView(r.calib))
  }

  function ParseList(b: seq<byte>, size: nat): Option<(seq<seq<byte>>, seq<byte>)> {
    if |b| < 4 then None
    else
      var n := U32At(b, 0);
      if Mul(n, size) > |b| - 4 then None else Some((Split(b[4..], n, size), b[4..][Mul(n, size)..]))
  }

  function ParseCalibration(b: seq<byte>): Option<(Calibration<Image>, seq<byte>)> {
    match ParseMat(b) case None => None case Some(r) =>
    match ParseMat(r.1) case None => None case Some(t) =>
    match ParseMat(t.1) case None => None case Some(v) =>
    match ParseMat(v.1) case None => None case Some(d) =>
    match ParseList(d.1, POINT_SIZE) case None => None case Some(c) =>
    match ParseList(c.1, KEYPOINT_SIZE) case None => None case Some(k) =>
      Some((Calibration(r.0, t.0, v.0, d.0, c.0, k.0), k.1))
  }

  /** What becomes of a message: it is refused, or read, or it asks for more than there is: then the reading goes
      beyond the end, unnoticed. */
  datatype Reading = Refused | Beyond | Got(res: DataRes<Image>, rest: seq<byte>)

  /** The product is computed in 32 bits. */
  function NeedSize(n: nat): nat {
    Mul(n, MEAS_SIZE) % U32
  }

  predicate SizeCheckRight(n: nat, left: nat) {
    NeedSize(n) <= left <==> Mul(n, MEAS_SIZE) <= left
  }

  /** The check of the remaining size is right, however much remains, exactly when the product fits 32 bits. */
  lemma SizeCheckIsRightIff(n: nat)
    ensures (forall left: nat :: left < U32 ==> SizeCheckRight(n, left)) <==> Mul(n, MEAS_SIZE) < U32
  {
    if Mul(n, MEAS_SIZE) >= U32 {
      assert !SizeCheckRight(n, NeedSize(n));
    }
  }

  /** With 2^28 records the product wraps to 0, and an empty remainder passes. */
  lemma SizeCheckWrong()
    ensures !SizeCheckRight(0x1000_0000, 0)
  {
  }

  /** The checks of deserialize_dp1_res. */
  predicate Accepts(b: seq<byte>) {
    && |b| >= HEAD_SIZE
    && U32At(b, 0) == CAM_SIZE && U32At(b, 4 + CAM_SIZE) == FRAME_SIZE && U32At(b, 8 + CAM_SIZE + FRAME_SIZE) == MEAS_SIZE
    && NeedSize(U32At(b, HEAD_SIZE - 4)) <= |b| - HEAD_SIZE
  }

  function ParseRes(b: seq<byte>): Reading {
    if !Accepts(b) then Refused
    else
      var n, rest := U32At(b, HEAD_SIZE - 4), b[HEAD_SIZE..];
      if Mul(n, MEAS_SIZE) > |rest| then Beyond
      else
        match ParseCalibration(rest[Mul(n, MEAS_SIZE)..])
        case None => Beyond
        case Some(c) =>
          Got(DataRes(b[4..4 + CAM_SIZE], b[8 + CAM_SIZE..8 + CAM_SIZE + FRAME_SIZE], Split(rest, n, MEAS_SIZE), c.0), c.1)
  }

  // ----- what is written is read

  lemma LERead(v: nat, b: seq<byte>, at: nat)
    requires v < U32 && at + 4 <= |b| && b[at..at + 4] == LE(v)
    ensures U32At(b, at) == v
  {
    Pow256Four();
    FromToLE(v, 4);
  }

  lemma {:induction false} RowsLength(mem: seq<byte>, step: nat, len: nat, n: nat)
    requires RowsWithin(mem, step, len, n)
    ensures |Rows(mem, step, len, n)| == Mul(n, len)
  {
    if n > 0 {
      RowsLength(mem, step, len, n - 1);
      assert Mul(n, len) == Mul(n - 1, len) + len;
    }
  }

  /** Rows that lie next to each other are one piece of memory. */
  lemma {:induction false} RowsAdjacent(mem: seq<byte>, len: nat, n: nat)
    requires RowsWithin(mem, len, len, n)
    ensures Mul(n, len) <= |mem| && Rows(mem, len, len, n) == mem[..Mul(n, len)]
  {
    if n > 0 {
      RowsAdjacent(mem, len, n - 1);
      assert Mul(n, len) == Mul(n - 1, len) + len;
    }
  }

  lemma RowsByColumns(cols: nat, rows: nat, e: nat)
    ensures Mul(Mul(cols, rows), e) == Mul(rows, Mul(cols, e))
  {
    MulAssoc(rows, cols, e);
    MulAssoc(cols, rows, e);
  }

  lemma ChannelsOut(n: nat, a: nat, c: nat)
    ensures Mul(n, Mul(a, c)) == Mul(Mul(n, a), c)
    ensures Mul(1, a) == a && Mul(a, 1) == a
  {
    assert n * (a * c) == (n * a) * c;
  }

  /** The loop copies the bytes of the pixels once for each channel. */
  lemma DataLength(m: Mat)
    requires Proper(m)
    ensures |MatBytes(m)| == 16 + Mul(PixelBytes(m), Channels(m.typ))
  {
    hide Rows, MatHeader, TypeSize, Mul, Channels;
    RowsLength(m.mem, m.step, ChunkLen(m), Chunks(m));
    RowsByColumns(m.cols, m.rows, m.elemSize);
    var row := Mul(m.cols, m.elemSize);
    ChannelsOut(m.rows, row, Channels(m.typ));
    ChannelsOut(1, ChunkLen(m), 1);
  }

  /** The written data start with the pixels when there is one channel, or the matrix is one piece of memory. */
  lemma DataStartsWithPixels(m: Mat)
    requires Proper(m) && !Empty(m) && (Channels(m.typ) == 1 || m.continuous)
    ensures PixelBytes(m) <= |MatBytes(m)| - 16 && |Pixels(m)| == PixelBytes(m)
    ensures MatBytes(m)[16..][..PixelBytes(m)] == Pixels(m)
  {
    DataLength(m);
    hide TypeSize, Mul, Channels, MatHeader;
    var row, data := Mul(m.cols, m.elemSize), Rows(m.mem, m.step, ChunkLen(m), Chunks(m));
    assert MatBytes(m)[16..] == data;
    RowsLength(m.mem, m.step, row, m.rows);
    RowsByColumns(m.cols, m.rows, m.elemSize);
    AtLeastOnce(PixelBytes(m), Channels(m.typ));
    if m.continuous {
      assert Mul(0, m.step) == 0 by { MulIsZero(0, m.step); }
      assert Rows(m.mem, m.step, ChunkLen(m), 0) == [];
      assert data == m.mem[..ChunkLen(m)];
      if m.rows > 1 {
        RowsAdjacent(m.mem, row, m.rows);
      } else {
        ChannelsOut(1, row, 1);
        assert Rows(m.mem, m.step, row, 0) == [];
        assert Pixels(m) == m.mem[..row];
      }
    } else {
      ChannelsOut(0, row, 1);
      assert ChunkLen(m) == row;
    }
  }

  lemma AtLeastOnce(n: nat, c: nat)
    requires c >= 1
    ensures Mul(n, c) >= n && (c > 1 && n > 0 ==> Mul(n, c) > n) && (c == 1 ==> Mul(n, c) == n)
  {
    if c > 1 {
      assert n * c == n + n * (c - 1);
    }
  }

  lemma MatHeaderRead(m: Mat, rest: seq<byte>)
    requires Proper(m)
    ensures var b := MatHeader(m) + rest;
            U32At(b, 0) == m.cols && U32At(b, 4) == m.rows && U32At(b, 8) == m.elemSize && U32At(b, 12) == m.typ
  {
    var b := MatHeader(m) + rest;
    hide LE, FromLE;
    LERead(m.cols, b, 0);
    LERead(m.rows, b, 4);
    LERead(m.elemSize, b, 8);
    LERead(m.typ, b, 12);
  }

  /** A matrix is read back with nothing left over exactly when it has one channel or is empty; then it is the
      matrix that was written. A matrix in one piece is read back right in any case. */
  lemma MatRoundTrip(m: Mat, rest: seq<byte>)
    requires Proper(m)
    ensures var p := ParseMat(MatBytes(m) + rest);
            && p.Some?
            && (p.value.1 == rest <==> Channels(m.typ) == 1 || Empty(m))
            && (Channels(m.typ) == 1 || m.continuous || Empty(m) ==> p.value.0 == View(m))
  {
    var data := Rows(m.mem, m.step, ChunkLen(m), Chunks(m));
    var b := MatBytes(m) + rest;
    Assoc(MatHeader(m), data, rest);
    MatHeaderRead(m, data + rest);
    DataLength(m);
    MulIsZero(m.cols, m.rows);
    MulIsZero(Mul(m.cols, m.rows), m.elemSize);
    MulIsZero(Mul(m.cols, m.rows), TypeSize(m.typ));
    AtLeastOnce(PixelBytes(m), Channels(m.typ));
    TypeSizePositive(m.typ);
    hide Rows, Mul, Channels, TypeSize, MatHeader, U32At, RowsWithin;
    assert b[16..] == data + rest;
    assert |data| == Mul(PixelBytes(m), Channels(m.typ));
    if Empty(m) {
      assert data == [] by { MulIsZero(0, Channels(m.typ)); }
      assert data + rest == rest;
    } else if Channels(m.typ) == 1 || m.continuous {
      DataStartsWithPixels(m);
      assert MatBytes(m)[16..] == data;
      assert (data + rest)[..PixelBytes(m)] == data[..PixelBytes(m)];
    }
    if Channels(m.typ) == 1 {
      TakeAppend(data, rest);
    }
  }

  /** A single pixel of two bytes in two channels: the writer copies four bytes, and the reader leaves two of them. */
  lemma TwoChannelsLeaveBytes(m: Mat)
    requires m == Mat(1, 1, 2, 8, 2, true, [1, 2, 3, 4])
    ensures Proper(m) && var p := ParseMat(MatBytes(m)); p.Some? && p.value.1 == [3, 4]
  {
    assert Channels(8) == 2 && TypeSize(8) == 2 && ChunkLen(m) == 4;
    assert Proper(m);
    MatHeaderRead(m, [1, 2, 3, 4]);
    assert Rows(m.mem, 2, 4, 0) == [] && Rows(m.mem, 2, 4, 1) == [1, 2, 3, 4];
  }

  lemma TypeSizePositive(typ: nat)
    ensures TypeSize(typ) > 0
  {
    MulIsZero(Channels(typ), DepthSize(typ));
    assert Mul(Channels(typ), DepthSize(typ)) == TypeSize(typ);
  }

  lemma ListRoundTrip(s: seq<seq<byte>>, size: nat, rest: seq<byte>)
    requires AllSized(s, size) && |s| < U32
    ensures ParseList(ListBytes(s) + rest, size) == Some((s, rest))
  {
    hide Mul, LE, Flatten, Split;
    var b := ListBytes(s) + rest;
    assert b[0..4] == LE(|s|);
    LERead(|s|, b, 0);
    assert b[4..] == Flatten(s) + rest;
    SplitFlatten(s, size, rest);
    TakeAppend(Flatten(s), rest);
  }

  /** Every matrix has one channel or is empty. */
  predicate SingleChannel(c: Calibration<Mat>) {
    forall m :: m in [c.rMatrix, c.tVec, c.rVec, c.descriptors] ==> Channels(m.typ) == 1 || Empty(m)
  }

  lemma MatReadBack(m: Mat, rest: seq<byte>)
    requires Proper(m) && (Channels(m.typ) == 1 || Empty(m))
    ensures ParseMat(MatBytes(m) + rest) == Some((View(m), rest))
  {
    hide ParseMat, MatBytes, View, Channels, Proper;
    MatRoundTrip(m, rest);
  }

  lemma CalibrationRoundTrip(c: Calibration<Mat>, rest: seq<byte>)
    requires ProperCalibration(c) && SingleChannel(c) && |c.corners| < U32 && |c.keypoints| < U32
    ensures ParseCalibration(CalibrationBytes(c) + rest) == Some((CalibrationView(c), rest))
  {
    hide ParseMat, ParseList, MatBytes, ListBytes, View, Channels, Proper, AllSized;
    var k := ListBytes(c.keypoints);
    var kr := ListBytes(c.corners) + (k + rest);
    var dr := MatBytes(c.descriptors) + kr;
    var vr := MatBytes(c.rVec) + dr;
    var tr := MatBytes(c.tVec) + vr;
    assert CalibrationBytes(c) + rest == MatBytes(c.rMatrix) + tr;
    MatReadBack(c.rMatrix, tr);
    MatReadBack(c.tVec, vr);
    MatReadBack(c.rVec, dr);
    MatReadBack(c.descriptors, kr);
    ListRoundTrip(c.corners, POINT_SIZE, k + rest);
    ListRoundTrip(c.keypoints, KEYPOINT_SIZE, rest);
  }

  lemma HeadRead(r: DataRes<Mat>, rest: seq<byte>)
    requires |r.cam| == CAM_SIZE && |r.frame| == FRAME_SIZE && |r.meas| < U32
    ensures var b := ResHead(r) + rest;
            && U32At(b, 0) == CAM_SIZE && U32At(b, 4 + CAM_SIZE) == FRAME_SIZE && U32At(b, 8 + CAM_SIZE + FRAME_SIZE) == MEAS_SIZE
            && U32At(b, HEAD_SIZE - 4) == |r.meas| && b[HEAD_SIZE..] == rest
            && b[4..4 + CAM_SIZE] == r.cam && b[8 + CAM_SIZE..8 + CAM_SIZE + FRAME_SIZE] == r.frame
  {
    hide LE, FromLE;
    var b := ResHead(r) + rest;
    LERead(CAM_SIZE, b, 0);
    LERead(FRAME_SIZE, b, 4 + CAM_SIZE);
    LERead(MEAS_SIZE, b, 8 + CAM_SIZE + FRAME_SIZE);
    LERead(|r.meas|, b, HEAD_SIZE - 4);
  }

  /** A record whose matrices have one channel is read back as it was, and nothing of what follows is touched. */
  lemma ResRoundTrip(r: DataRes<Mat>, rest: seq<byte>)
    requires ProperRes(r) && SingleChannel(r.calib) && |ResBytes(r)| <= MAX_CONTENT
    ensures ParseRes(ResBytes(r) + rest) == Got(ResView(r), rest)
  {
    hide Flatten, ParseCalibration, CalibrationBytes, CalibrationView, SingleChannel, Mul, U32At, Split, ResHead;
    var tail := CalibrationBytes(r.calib) + rest;
    ListsFit(r);
    SplitFlatten(r.meas, MEAS_SIZE, tail);
    var body := Flatten(r.meas) + tail;
    var b := ResBytes(r) + rest;
    assert b == ResHead(r) + body;
    HeadRead(r, body);
    TakeAppend(Flatten(r.meas), tail);
    CalibrationRoundTrip(r.calib, rest);
  }

  /** Content that fits the store has lists that fit a 32-bit count. */
  lemma ListsFit(r: DataRes<Mat>)
    requires ProperRes(r) && |ResBytes(r)| <= MAX_CONTENT
    ensures |r.meas| < U32 && |r.calib.corners| < U32 && |r.calib.keypoints| < U32
    ensures Mul(|r.meas|, MEAS_SIZE) < U32
  {
    FlattenLength(r.meas, MEAS_SIZE);
    FlattenLength(r.calib.corners, POINT_SIZE);
    FlattenLength(r.calib.keypoints, KEYPOINT_SIZE);
    hide Flatten, MatBytes, ResHead, Proper;
  }

  // ----- messages that are cut short

  lemma FieldExtends(x: seq<byte>, t: seq<byte>, at: nat)
    requires at + 4 <= |x|
    ensures U32At(x + t, at) == U32At(x, at)
  {
    hide FromLE;
    assert (x + t)[at..at + 4] == x[at..at + 4];
  }

  lemma TailExtends(x: seq<byte>, t: seq<byte>, n: nat)
    requires n <= |x|
    ensures (x + t)[n..] == x[n..] + t && (x + t)[..n] == x[..n]
  {
  }

  /** More bytes behind a matrix do not change it. */
  lemma MatExtends(x: seq<byte>, t: seq<byte>)
    requires ParseMat(x).Some?
    ensures ParseMat(x + t) == Some((ParseMat(x).value.0, ParseMat(x).value.1 + t))
  {
    FieldExtends(x, t, 0);
    FieldExtends(x, t, 4);
    FieldExtends(x, t, 8);
    FieldExtends(x, t, 12);
    TailExtends(x, t, 16);
    hide Mul, TypeSize, U32At;
    var cols, rows, elemSize, typ := U32At(x, 0), U32At(x, 4), U32At(x, 8), U32At(x, 12);
    TailExtends(x[16..], t, Mul(Mul(cols, rows), TypeSize(typ)));
    TailExtends(x[16..], t, Mul(Mul(cols, rows), elemSize));
  }

  lemma ListExtends(x: seq<byte>, t: seq<byte>, size: nat)
    requires ParseList(x, size).Some?
    ensures ParseList(x + t, size) == Some((ParseList(x, size).value.0, ParseList(x, size).value.1 + t))
  {
    FieldExtends(x, t, 0);
    TailExtends(x, t, 4);
    var n := U32At(x, 0);
    TailExtends(x[4..], t, Mul(n, size));
    SplitPrefix(x[4..], x[4..] + t, n, size);
    hide Mul, U32At, Split;
  }

  lemma CalibrationExtends(x: seq<byte>, t: seq<byte>)
    requires ParseCalibration(x).Some?
    ensures ParseCalibration(x + t) == Some((ParseCalibration(x).value.0, ParseCalibration(x).value.1 + t))
  {
    hide ParseMat, ParseList;
    var r := ParseMat(x).value;
    var u := ParseMat(r.1).value;
    var v := ParseMat(u.1).value;
    var d := ParseMat(v.1).value;
    var c := ParseList(d.1, POINT_SIZE).value;
    MatExtends(x, t);
    MatExtends(r.1, t);
    MatExtends(u.1, t);
    MatExtends(v.1, t);
    ListExtends(d.1, t, POINT_SIZE);
    ListExtends(c.1, t, KEYPOINT_SIZE);
  }

  /** The parts of a message, when it is read. */
  lemma ResParts(x: seq<byte>)
    requires Accepts(x)
    ensures var n, rest := U32At(x, HEAD_SIZE - 4), x[HEAD_SIZE..];
            if Mul(n, MEAS_SIZE) > |rest| then ParseRes(x) == Beyond
            else var c := ParseCalibration(rest[Mul(n, MEAS_SIZE)..]);
                 ParseRes(x) == if c == None then Beyond
                                else Got(DataRes(x[4..4 + CAM_SIZE], x[8 + CAM_SIZE..8 + CAM_SIZE + FRAME_SIZE],
                                                 Split(rest, n, MEAS_SIZE), c.value.0), c.value.1)
  {
    hide Accepts, Mul, U32At, Split, ParseCalibration;
  }

  lemma HeadExtends(x: seq<byte>, t: seq<byte>)
    requires Accepts(x)
    ensures Accepts(x + t) && U32At(x + t, HEAD_SIZE - 4) == U32At(x, HEAD_SIZE - 4) && (x + t)[HEAD_SIZE..] == x[HEAD_SIZE..] + t
    ensures (x + t)[4..4 + CAM_SIZE] == x[4..4 + CAM_SIZE]
    ensures (x + t)[8 + CAM_SIZE..8 + CAM_SIZE + FRAME_SIZE] == x[8 + CAM_SIZE..8 + CAM_SIZE + FRAME_SIZE]
  {
    FieldExtends(x, t, 0);
    FieldExtends(x, t, 4 + CAM_SIZE);
    FieldExtends(x, t, 8 + CAM_SIZE + FRAME_SIZE);
    FieldExtends(x, t, HEAD_SIZE - 4);
    hide U32At, NeedSize;
    TailExtends(x, t, HEAD_SIZE);
  }

  /** More bytes behind a record that was read do not change it. */
  lemma ResExtends(x: seq<byte>, t: seq<byte>)
    requires Accepts(x) && ParseRes(x).Got?
    ensures ParseRes(x + t) == Got(ParseRes(x).res, ParseRes(x).rest + t)
  {
    HeadExtends(x, t);
    hide Accepts, ParseRes, Mul, U32At, Split, ParseCalibration;
    ResParts(x);
    ResParts(x + t);
    var n, rest := U32At(x, HEAD_SIZE - 4), x[HEAD_SIZE..];
    TailExtends(rest, t, Mul(n, MEAS_SIZE));
    CalibrationExtends(rest[Mul(n, MEAS_SIZE)..], t);
    SplitPrefix(rest, rest + t, n, MEAS_SIZE);
  }

  lemma AcceptedWhenGot(b: seq<byte>)
    ensures ParseRes(b) != Refused <==> Accepts(b)
  {
  }

  lemma NeedSizeSmall(n: nat)
    requires Mul(n, MEAS_SIZE) < U32
    ensures NeedSize(n) == Mul(n, MEAS_SIZE)
  {
    hide Mul;
  }

  lemma TakePart(a: seq<byte>, b: seq<byte>, k: nat)
    requires |a| <= k <= |a| + |b|
    ensures (a + b)[..k] == a + b[..k - |a|]
  {
  }

  lemma AcceptedPart(r: DataRes<Mat>, k: nat)
    requires ProperRes(r) && |ResBytes(r)| <= MAX_CONTENT && k <= |ResBytes(r)|
    ensures Accepts(ResBytes(r)[..k]) <==> k >= HEAD_SIZE + Mul(|r.meas|, MEAS_SIZE)
  {
    ListsFit(r);
    var body := Flatten(r.meas) + CalibrationBytes(r.calib);
    assert ResBytes(r) == ResHead(r) + body;
    NeedSizeSmall(|r.meas|);
    hide ResBytes, ProperRes, Flatten, CalibrationBytes, Mul, U32At, ResHead, NeedSize;
    if k >= HEAD_SIZE {
      TakePart(ResHead(r), body, k);
      HeadRead(r, body[..k - HEAD_SIZE]);
    }
  }

  /** A record that is cut short is refused if and only if it is cut before the end of its measurements. Cut later, it is
      accepted, and read beyond its end; only the whole record is read as it should be. */
  lemma CutShort(r: DataRes<Mat>, k: nat)
    requires ProperRes(r) && SingleChannel(r.calib) && |ResBytes(r)| <= MAX_CONTENT && k <= |ResBytes(r)|
    ensures var part, accepted := ResBytes(r)[..k], HEAD_SIZE + Mul(|r.meas|, MEAS_SIZE);
            && (Accepts(part) <==> k >= accepted)
            && (ParseRes(part).Got? <==> k == |ResBytes(r)|)
            && (ParseRes(part) == Beyond <==> accepted <= k < |ResBytes(r)|)
  {
    hide ResBytes, ParseRes, Accepts, Mul, ProperRes, SingleChannel, ResView;
    var b, part := ResBytes(r), ResBytes(r)[..k];
    AcceptedPart(r, k);
    AcceptedWhenGot(part);
    ResRoundTrip(r, []);
    assert b + [] == b && part + b[k..] == b && b[..|b|] == b;
    if ParseRes(part).Got? {
      ResExtends(part, b[k..]);
    }
    AcceptedPart(r, |b|);
    AcceptedWhenGot(b);
  }

  function Zeros(n: nat): (s: seq<byte>)
    ensures |s| == n
  {
    seq(n, _ => 0)
  }

  /** The head of a record without measurements passes all checks, although no calibration data follow. */
  lemma HeadAloneIsAccepted()
    ensures var b := LE(CAM_SIZE) + Zeros(CAM_SIZE) + LE(FRAME_SIZE) + Zeros(FRAME_SIZE) + LE(MEAS_SIZE) + LE(0);
            Accepts(b) && ParseRes(b) == Beyond
  {
    var none := Mat(0, 0, 0, 0, 0, false, []);
    var r := DataRes(Zeros(CAM_SIZE), Zeros(FRAME_SIZE), [], Calibration(none, none, none, none, [], []));
    HeadRead(r, []);
    assert ResHead(r) + [] == ResHead(r);
    assert Mul(0, MEAS_SIZE) == 0;
    hide LE, U32At, Zeros;
  }

  // ----- writing

  ghost predicate HasRoom(ms: CMemStore, n: nat)
    reads ms, ms.buff
  {
    ms.Valid() && ms.isMemOwner && |ms.Written()| + n <= MAX_CONTENT
  }

  method WriteBytes(ms: CMemStore, data: seq<byte>)
    requires HasRoom(ms, |data|)
    modifies ms, ms.buff
    ensures ms.Valid() && (ms.buff == old(ms.buff) || fresh(ms.buff))
    ensures ms.Written() == old(ms.Written()) + data
  {
    var code := ms.Write(data);
  }

  method SerializeMat(ms: CMemStore, img: Mat)
    requires Proper(img) && HasRoom(ms, |MatBytes(img)|)
    modifies ms, ms.buff
    ensures ms.Valid() && (ms.buff == old(ms.buff) || fresh(ms.buff))
    ensures ms.Written() == old(ms.Written()) + MatBytes(img)
  {
    hide CMemStore.Valid, CMemStore.Written, CMemStore.Rest, LE, Mul, Channels, TypeSize;
    ghost var before, header := ms.Written(), MatHeader(img);
    MatParts(img);
    hide MatHeader, MatBytes;
    SerializeMatHeader(ms, img);
    var rowsToProc := img.rows;
    var colsToProc := img.cols;
    if img.continuous {
      colsToProc := Mul(colsToProc, rowsToProc);
      rowsToProc := 1;
    }
    ghost var len := ChunkLen(img);
    for r := 0 to rowsToProc
      invariant ms.Valid() && (ms.buff == old(ms.buff) || fresh(ms.buff)) && ms.isMemOwner
      invariant ms.Written() == before + header + Rows(img.mem, img.step, len, r)
    {
      var bytesToWrite := Mul(Mul(colsToProc, img.elemSize), Channels(img.typ));
      var ptr := Mul(r, img.step);
      RowsFit(img, r);
      var row := img.mem[ptr..ptr + bytesToWrite];
      WriteBytes(ms, row);
      Assoc(before + header, Rows(img.mem, img.step, len, r), row);
    }
    Assoc(before, header, Rows(img.mem, img.step, len, rowsToProc));
  }

  method SerializeMatHeader(ms: CMemStore, img: Mat)
    requires HasRoom(ms, 16)
    modifies ms, ms.buff
    ensures ms.Valid() && (ms.buff == old(ms.buff) || fresh(ms.buff))
    ensures ms.Written() == old(ms.Written()) + MatHeader(img)
  {
    hide CMemStore.Valid, CMemStore.Written, CMemStore.Rest, LE;
    Concat(ms.Written(), LE(img.cols), LE(img.rows), LE(img.elemSize), LE(img.typ));
    WriteBytes(ms, LE(img.cols));
    WriteBytes(ms, LE(img.rows));
    WriteBytes(ms, LE(img.elemSize));
    WriteBytes(ms, LE(img.typ));
  }

  lemma MatParts(m: Mat)
    requires Proper(m)
    ensures MatBytes(m) == MatHeader(m) + Rows(m.mem, m.step, ChunkLen(m), Chunks(m)) && |MatBytes(m)| >= 16
  {
  }

  lemma Concat(a: seq<byte>, b: seq<byte>, c: seq<byte>, d: seq<byte>, e: seq<byte>)
    ensures a + b + c + d + e == a + (b + c + d + e)
  {
    Assoc(a, b, c);
    Assoc(a, b + c, d);
    Assoc(a, b + c + d, e);
  }

  lemma ConcatRight(a: seq<byte>, b: seq<byte>, c: seq<byte>, d: seq<byte>, e: seq<byte>)
    ensures a + (b + (c + (d + e))) == a + b + c + d + e
  {
    Assoc(a, b, c + (d + e));
    Assoc(a + b, c, d + e);
    Assoc(a + b + c, d, e);
  }

  /** Each pass of the loop stays within the data. */
  lemma RowsFit(m: Mat, r: nat)
    requires Proper(m) && r < Chunks(m)
    ensures var ptr := Mul(r, m.step);
            && ptr + ChunkLen(m) <= |m.mem| && RowsWithin(m.mem, m.step, ChunkLen(m), r)
            && Rows(m.mem, m.step, ChunkLen(m), r + 1)
               == Rows(m.mem, m.step, ChunkLen(m), r) + m.mem[ptr..ptr + ChunkLen(m)]
    ensures |MatHeader(m)| + |Rows(m.mem, m.step, ChunkLen(m), r)| + ChunkLen(m) <= |MatBytes(m)|
  {
    hide MatHeader, Mul, Channels, TypeSize;
    RowsUpTo(m.mem, m.step, ChunkLen(m), r + 1, Chunks(m));
  }

  lemma {:induction false} RowsUpTo(mem: seq<byte>, step: nat, len: nat, r: nat, n: nat)
    requires r <= n && RowsWithin(mem, step, len, n)
    ensures |Rows(mem, step, len, r)| <= |Rows(mem, step, len, n)|
    decreases n - r
  {
    if r < n {
      RowsUpTo(mem, step, len, r, n - 1);
    }
  }

  method SerializeList(ms: CMemStore, items: seq<seq<byte>>)
    requires HasRoom(ms, |ListBytes(items)|)
    modifies ms, ms.buff
    ensures ms.Valid() && (ms.buff == old(ms.buff) || fresh(ms.buff))
    ensures ms.Written() == old(ms.Written()) + ListBytes(items)
  {
    hide CMemStore.Valid, CMemStore.Written, CMemStore.Rest, LE, Flatten;
    Assoc(ms.Written(), LE(|items|), Flatten(items));
    WriteBytes(ms, LE(|items|));
    WriteBytes(ms, Flatten(items));
  }

  method SerializeFrameCalibrationData(ms: CMemStore, data: Calibration<Mat>)
    requires ProperCalibration(data) && HasRoom(ms, |CalibrationBytes(data)|)
    modifies ms, ms.buff
    ensures ms.Valid() && (ms.buff == old(ms.buff) || fresh(ms.buff))
    ensures ms.Written() == old(ms.Written()) + CalibrationBytes(data)
  {
    hide CMemStore.Valid, CMemStore.Written, CMemStore.Rest, MatBytes, ListBytes, Proper, AllSized;
    ghost var before := ms.Written();
    ghost var a, b, c, d := MatBytes(data.rMatrix), MatBytes(data.tVec), MatBytes(data.rVec), MatBytes(data.descriptors);
    ghost var e, f := ListBytes(data.corners), ListBytes(data.keypoints);
    assert CalibrationBytes(data) == a + (b + (c + (d + (e + f))));
    hide CalibrationBytes;
    ConcatRight(a, b, c, d, e + f);
    Concat(before, a, b, c, d);
    SerializeMat(ms, data.rMatrix);
    SerializeMat(ms, data.tVec);
    SerializeMat(ms, data.rVec);
    SerializeMat(ms, data.descriptors);
    SerializeList(ms, data.corners);
    SerializeList(ms, data.keypoints);
    Assoc(before + (a + b + c + d), e, f);
    Assoc(before, a + b + c + d, e + f);
  }

  method SerializeDp1Res(ms: CMemStore, data: DataRes<Mat>)
    requires ProperRes(data) && HasRoom(ms, |ResBytes(data)|)
    modifies ms, ms.buff
    ensures ms.Valid() && (ms.buff == old(ms.buff) || fresh(ms.buff))
    ensures ms.Written() == old(ms.Written()) + ResBytes(data)
  {
    hide CMemStore.Valid, CMemStore.Written, CMemStore.Rest, LE, ProperCalibration, CalibrationBytes, AllSized, ResHead;
    ghost var before, head := ms.Written(), ResHead(data);
    SerializeHead(ms, data);
    assert before + head + Flatten(data.meas[..0]) == before + head;
    hide Flatten;
    for i := 0 to |data.meas|
      invariant ms.Valid() && (ms.buff == old(ms.buff) || fresh(ms.buff)) && ms.isMemOwner
      invariant ms.Written() == before + head + Flatten(data.meas[..i])
    {
      FlattenStep(data.meas, i);
      Assoc(before + head, Flatten(data.meas[..i]), data.meas[i]);
      WriteBytes(ms, data.meas[i]);
    }
    assert data.meas[..|data.meas|] == data.meas;
    SerializeFrameCalibrationData(ms, data.calib);
    Assoc(before + head, Flatten(data.meas), CalibrationBytes(data.calib));
    Assoc(before, head, Flatten(data.meas) + CalibrationBytes(data.calib));
  }

  method SerializeHead(ms: CMemStore, data: DataRes<Mat>)
    requires |data.cam| == CAM_SIZE && |data.frame| == FRAME_SIZE && HasRoom(ms, HEAD_SIZE)
    modifies ms, ms.buff
    ensures ms.Valid() && (ms.buff == old(ms.buff) || fresh(ms.buff))
    ensures ms.Written() == old(ms.Written()) + ResHead(data)
  {
    hide CMemStore.Valid, CMemStore.Written, CMemStore.Rest, LE;
    ghost var before := ms.Written();
    WriteBytes(ms, LE(CAM_SIZE));
    WriteBytes(ms, data.cam);
    WriteBytes(ms, LE(FRAME_SIZE));
    WriteBytes(ms, data.frame);
    Concat(before, LE(CAM_SIZE), data.cam, LE(FRAME_SIZE), data.frame);
    ghost var front := LE(CAM_SIZE) + data.cam + LE(FRAME_SIZE) + data.frame;
    WriteBytes(ms, LE(MEAS_SIZE));
    WriteBytes(ms, LE(|data.meas|));
    Assoc(before, front, LE(MEAS_SIZE));
    Assoc(before, front + LE(MEAS_SIZE), LE(|data.meas|));
  }

  lemma FlattenStep(s: seq<seq<byte>>, i: nat)
    requires i < |s|
    ensures Flatten(s[..i + 1]) == Flatten(s[..i]) + s[i] && |Flatten(s[..i + 1])| <= |Flatten(s)|
  {
    FlattenUpTo(s, i + 1);
    FlattenSnoc(s[..i], s[i]);
    assert s[..i + 1] == s[..i] + [s[i]];
  }

  lemma {:induction false} FlattenUpTo(s: seq<seq<byte>>, i: nat)
    requires i <= |s|
    ensures |Flatten(s[..i])| <= |Flatten(s)|
  {
    if i > 0 {
      FlattenUpTo(s[1..], i - 1);
      assert s[..i][1..] == s[1..][..i - 1];
    }
  }

  // ----- reading

  method ReadInt(ms: CMemStore) returns (v: nat)
    requires ms.Valid()
    modifies ms
    ensures ms.Valid() && ms.buff == old(ms.buff) && v < U32
    ensures |old(ms.Rest())| >= 4 ==> v == U32At(old(ms.Rest()), 0) && ms.Rest() == old(ms.Rest())[4..]
  {
    var code, data := ms.Read(4, true);
    Pow256Four();
    v := FromLE(data);
  }

  method ReadStruct(ms: CMemStore, size: nat) returns (data: seq<byte>)
    requires ms.Valid()
    modifies ms
    ensures ms.Valid() && ms.buff == old(ms.buff) && |data| == size
    ensures |old(ms.Rest())| >= size ==> data == old(ms.Rest())[..size] && ms.Rest() == old(ms.Rest())[size..]
  {
    var code;
    code, data := ms.Read(size, true);
  }

  /** What the memory behind the cursor gives as a matrix; outside the store it may be anything. */
  method MatAtCursor(ms: CMemStore, cols: nat, rows: nat, typ: nat) returns (img: Image)
    requires ms.Valid()
    ensures cols == 0 || rows == 0 ==> img == NoImage
    ensures cols > 0 && rows > 0 && Mul(Mul(cols, rows), TypeSize(typ)) <= |ms.Rest()| ==>
              img == Image(cols, rows, typ, ms.Rest()[..Mul(Mul(cols, rows), TypeSize(typ))])
  {
    hide Mul, TypeSize;
    var need := Mul(Mul(cols, rows), TypeSize(typ));
    if cols == 0 || rows == 0 {
      img := NoImage;
    } else if ms.buff != null && need <= ms.currFreeLimit {
      img := Image(cols, rows, typ, ms.buff[ms.currPtr..ms.currPtr + need]);
    } else if ms.buff == null && need == 0 {
      img := Image(cols, rows, typ, []);
    } else {
      img := *;
    }
  }

  lemma MatFields(b: seq<byte>)
    ensures |b| >= 16 ==>
              && b[4..][4..] == b[8..] && b[8..][4..] == b[12..] && b[12..][4..] == b[16..]
              && U32At(b[4..], 0) == U32At(b, 4) && U32At(b[8..], 0) == U32At(b, 8) && U32At(b[12..], 0) == U32At(b, 12)
  {
    hide FromLE;
    if |b| >= 16 {
      assert b[4..8] == b[4..][0..4] && b[8..12] == b[8..][0..4] && b[12..16] == b[12..][0..4];
    }
  }

  lemma MatSizes(b: seq<byte>)
    ensures match ParseMat(b)
            case None => true
            case Some(p) =>
              |b| >= 16 &&
              var cols, rows, elemSize, typ := U32At(b, 0), U32At(b, 4), U32At(b, 8), U32At(b, 12);
              var need, skip := Mul(Mul(cols, rows), TypeSize(typ)), Mul(Mul(cols, rows), elemSize);
              && need <= |b| - 16 && skip <= |b| - 16 && skip % U32 == skip
              && p.0 == (if cols == 0 || rows == 0 then NoImage else Image(cols, rows, typ, b[16..][..need]))
              && p.1 == b[16..][skip..]
  {
    hide Mul, TypeSize, U32At;
  }

  method DeserializeMat(ms: CMemStore) returns (img: Image)
    requires ms.Valid()
    modifies ms
    ensures ms.Valid() && ms.buff == old(ms.buff)
    ensures match ParseMat(old(ms.Rest()))
            case Some(p) => img == p.0 && ms.Rest() == p.1
            case None => true
  {
    hide CMemStore.Valid, CMemStore.Written, CMemStore.Rest, Mul, TypeSize, U32At, ParseMat;
    ghost var b := ms.Rest();
    MatFields(b);
    MatSizes(b);
    var cols := ReadInt(ms);
    var rows := ReadInt(ms);
    var elemSizeInBytes := ReadInt(ms);
    var elemType := ReadInt(ms);
    img := MatAtCursor(ms, cols, rows, elemType);
    var code, none := ms.Read(Mul(Mul(cols, rows), elemSizeInBytes) % U32, false);
  }

  method ReadList(ms: CMemStore, size: nat) returns (s: seq<seq<byte>>)
    requires ms.Valid()
    modifies ms
    ensures ms.Valid() && ms.buff == old(ms.buff)
    ensures match ParseList(old(ms.Rest()), size)
            case Some(p) => s == p.0 && ms.Rest() == p.1
            case None => true
  {
    hide CMemStore.Valid, CMemStore.Written, CMemStore.Rest, Mul, FromLE, Split;
    ghost var b := ms.Rest();
    var vecSize := ReadInt(ms);
    var data := ReadStruct(ms, Mul(vecSize, size) % U32);
    if |data| == Mul(vecSize, size) {
      if |b| >= 4 && |data| <= |b| - 4 {
        SplitPrefix(data, b[4..], vecSize, size);
      }
      s := Split(data, vecSize, size);
    } else {
      s := *;
    }
  }

  lemma {:induction false} SplitPrefix(data: seq<byte>, b: seq<byte>, n: nat, size: nat)
    requires Mul(n, size) <= |data| && data <= b
    ensures Split(b, n, size) == Split(data, n, size)
  {
    if n > 0 {
      assert Mul(n, size) == size + Mul(n - 1, size);
      hide Mul;
      SplitPrefix(data[size..], b[size..], n - 1, size);
      assert b[..size] == data[..size];
      assert Split(b, n, size) == [b[..size]] + Split(b[size..], n - 1, size);
      assert Split(data, n, size) == [data[..size]] + Split(data[size..], n - 1, size);
    }
  }

  method DeserializeFrameCalibrationData(ms: CMemStore) returns (data: Calibration<Image>)
    requires ms.Valid()
    modifies ms
    ensures ms.Valid() && ms.buff == old(ms.buff)
    ensures match ParseCalibration(old(ms.Rest()))
            case Some(p) => data == p.0 && ms.Rest() == p.1
            case None => true
  {
    hide CMemStore.Valid, CMemStore.Written, CMemStore.Rest, ParseMat, ParseList;
    var r := DeserializeMat(ms);
    var t := DeserializeMat(ms);
    var v := DeserializeMat(ms);
    var d := DeserializeMat(ms);
    var c := ReadList(ms, POINT_SIZE);
    var k := ReadList(ms, KEYPOINT_SIZE);
    data := Calibration(r, t, v, d, c, k);
  }

  /** The loop over the measurements; a read beyond the end gives anything. */
  method ReadMeasurements(ms: CMemStore, n: nat) returns (meas: seq<seq<byte>>)
    requires ms.Valid()
    modifies ms
    ensures ms.Valid() && ms.buff == old(ms.buff) && |meas| == n
    ensures Mul(n, MEAS_SIZE) <= |old(ms.Rest())| ==>
              && meas == Split(old(ms.Rest()), n, MEAS_SIZE)
              && ms.Rest() == old(ms.Rest())[Mul(n, MEAS_SIZE)..]
  {
    hide CMemStore.Valid, CMemStore.Written, CMemStore.Rest, Split, Mul;
    ghost var b := ms.Rest();
    meas := [];
    SplitNone(b);
    for i := 0 to n
      invariant ms.Valid() && ms.buff == old(ms.buff) && |meas| == i
      invariant Mul(n, MEAS_SIZE) <= |b| ==>
                  && Mul(i, MEAS_SIZE) <= |b| && meas == Split(b, i, MEAS_SIZE) && ms.Rest() == b[Mul(i, MEAS_SIZE)..]
    {
      if Mul(n, MEAS_SIZE) <= |b| {
        SplitNext(b, i, n, MEAS_SIZE);
      }
      var rdMeas := ReadStruct(ms, MEAS_SIZE);
      meas := meas + [rdMeas];
    }
  }

  lemma SplitNone(b: seq<byte>)
    ensures Mul(0, MEAS_SIZE) == 0 && Split(b, 0, MEAS_SIZE) == [] && b[0..] == b
  {
  }

  lemma SplitNext(b: seq<byte>, i: nat, n: nat, size: nat)
    requires i < n && Mul(n, size) <= |b|
    ensures var at := Mul(i, size);
            && Mul(i + 1, size) == at + size <= |b| && b[at..][size..] == b[at + size..]
            && Split(b, i + 1, size) == Split(b, i, size) + [b[at..][..size]]
  {
    assert Mul(n, size) == Mul(i, size) + size + Mul(n - i - 1, size) by {
      assert n * size == i * size + size + (n - i - 1) * size;
    }
    assert Mul(i + 1, size) == Mul(i, size) + size;
    SplitSnoc(b, i, size);
  }

  lemma {:induction false} SplitSnoc(b: seq<byte>, i: nat, size: nat)
    requires Mul(i + 1, size) <= |b| && Mul(i, size) + size == Mul(i + 1, size)
    ensures Split(b, i + 1, size) == Split(b, i, size) + [b[Mul(i, size)..][..size]]
  {
    if i > 0 {
      assert Mul(i, size) == size + Mul(i - 1, size) && Mul(i + 1, size) == size + Mul(i, size);
      hide Mul;
      SplitSnoc(b[size..], i - 1, size);
      assert b[size..][Mul(i - 1, size)..] == b[Mul(i, size)..];
      assert Split(b, i + 1, size) == [b[..size]] + Split(b[size..], i, size);
      assert Split(b, i, size) == [b[..size]] + Split(b[size..], i - 1, size);
    } else {
      assert Mul(0, size) == 0 && Split(b[size..], 0, size) == [] && Split(b, 0, size) == [];
      assert Split(b, 1, size) == [b[..size]] + Split(b[size..], 0, size);
      assert b[0..] == b;
    }
  }

  /** The record is refused exactly when one of the checks fails. What an accepted message has of a record is read also
      when it is cut short: see CutShort for when that is. */
  method DeserializeDp1Res(ms: CMemStore) returns (ok: bool, data: DataRes<Image>)
    requires ms.Valid()
    modifies ms
    ensures ms.Valid() && ms.buff == old(ms.buff)
    ensures ok == Accepts(old(ms.Rest()))
    ensures match ParseRes(old(ms.Rest()))
            case Refused => !ok
            case Beyond => ok
            case Got(res, rest) => ok && data == res && ms.Rest() == rest
    ensures ok ==>
              var b := old(ms.Rest());
              var n := U32At(b, HEAD_SIZE - 4);
              && data.cam == b[4..4 + CAM_SIZE] && data.frame == b[8 + CAM_SIZE..8 + CAM_SIZE + FRAME_SIZE]
              && |data.meas| == n
              && (Mul(n, MEAS_SIZE) <= |b| - HEAD_SIZE ==> data.meas == Split(b[HEAD_SIZE..], n, MEAS_SIZE))
  {
    hide CMemStore.Valid, CMemStore.Written, CMemStore.Rest, Mul, U32At, ParseCalibration, Split;
    ghost var b := ms.Rest();
    data := DataRes([], [], [], Calibration(NoImage, NoImage, NoImage, NoImage, [], []));
    if HEAD_SIZE > ms.currFreeLimit {
      return false, data;
    }
    HeadFields(b);
    var structSize := ReadInt(ms);
    if structSize != CAM_SIZE {
      return false, data;
    }
    var cam := ReadStruct(ms, CAM_SIZE);
    structSize := ReadInt(ms);
    if structSize != FRAME_SIZE {
      return false, data;
    }
    var frame := ReadStruct(ms, FRAME_SIZE);
    structSize := ReadInt(ms);
    if structSize != MEAS_SIZE {
      return false, data;
    }
    var numRec := ReadInt(ms);
    if NeedSize(numRec) > ms.currFreeLimit {
      return false, data;
    }
    var meas := ReadMeasurements(ms, numRec);
    var calib := DeserializeFrameCalibrationData(ms);
    ok, data := true, DataRes(cam, frame, meas, calib);
  }

  lemma HeadFields(b: seq<byte>)
    requires |b| >= HEAD_SIZE
    ensures b[4..][CAM_SIZE..] == b[36..] && b[36..][4..] == b[40..] && b[40..][FRAME_SIZE..] == b[104..]
    ensures b[104..][4..] == b[108..] && b[108..][4..] == b[HEAD_SIZE..]
    ensures U32At(b[36..], 0) == U32At(b, 36) && U32At(b[104..], 0) == U32At(b, 104) && U32At(b[108..], 0) == U32At(b, 108)
    ensures b[4..][..CAM_SIZE] == b[4..36] && b[40..][..FRAME_SIZE] == b[40..104]
  {
    hide FromLE;
    assert b[36..40] == b[36..][0..4] && b[104..108] == b[104..][0..4] && b[108..112] == b[108..][0..4];
  }

  /** datapro1 reuses its store from the start for each message, which begins with its kind; datapro2 reads what was
      written, and gets the record. */
  method SendRes(ms: CMemStore, kind: nat, data: DataRes<Mat>)
    requires ms.Valid() && ms.isMemOwner && ProperRes(data) && 2 + |ResBytes(data)| <= MAX_CONTENT
    modifies ms, ms.buff
    ensures ms.Valid() && (ms.buff == old(ms.buff) || fresh(ms.buff))
    ensures ms.Written() == MessageBytes(kind, data)
  {
    hide CMemStore.Valid, CMemStore.Written, CMemStore.Rest, ResBytes, ProperRes;
    ResetStore(ms);
    WriteBytes(ms, ToLE(kind, 2));
    assert [] + ToLE(kind, 2) == ToLE(kind, 2);
    SerializeDp1Res(ms, data);
  }

  function MessageBytes(kind: nat, data: DataRes<Mat>): seq<byte>
    requires ProperRes(data)
  {
    ToLE(kind, 2) + ResBytes(data)
  }

  method ResetStore(ms: CMemStore)
    requires ms.Valid()
    modifies ms
    ensures ms.Valid() && ms.buff == old(ms.buff) && ms.Written() == []
  {
    var code := ms.SetPosition(0);
  }

  method ReceiveRes(ms: CMemStore) returns (kind: nat, ok: bool, data: DataRes<Image>)
    requires ms.Valid()
    modifies ms
    ensures ms.Valid() && ms.buff == old(ms.buff)
    ensures |old(ms.Rest())| >= 2 ==>
              && kind == FromLE(old(ms.Rest())[..2]) && ok == Accepts(old(ms.Rest())[2..])
              && (var r := ParseRes(old(ms.Rest())[2..]); r.Got? ==> data == r.res && ms.Rest() == r.rest)
  {
    hide CMemStore.Valid, CMemStore.Written, CMemStore.Rest, ParseRes, Accepts, FromLE;
    var b := ReadStruct(ms, 2);
    kind := FromLE(b);
    ok, data := DeserializeDp1Res(ms);
  }

  method Transfer(ms: CMemStore, kind: nat, data: DataRes<Mat>) returns (got: nat, ok: bool, received: DataRes<Image>)
    requires ms.Valid() && ms.isMemOwner && kind < 0x1_0000
    requires ProperRes(data) && SingleChannel(data.calib) && 2 + |ResBytes(data)| <= MAX_CONTENT
    modifies ms, ms.buff
    ensures ms.Valid() && ms.Written() == MessageBytes(kind, data)
    ensures got == kind && ok && received == ResView(data)
  {
    hide CMemStore.Valid, CMemStore.Written, CMemStore.Rest, ResBytes, ProperRes, SingleChannel, ResView, ParseRes, Accepts, ToLE, FromLE;
    SendRes(ms, kind, data);
    MessageRoundTrip(kind, data);
    var reader := ReaderOf(ms);
    got, ok, received := ReceiveRes(reader);
  }

  lemma MessageRoundTrip(kind: nat, r: DataRes<Mat>)
    requires kind < 0x1_0000 && ProperRes(r) && SingleChannel(r.calib) && |ResBytes(r)| <= MAX_CONTENT
    ensures var b := MessageBytes(kind, r);
            && |b| >= 2 && FromLE(b[..2]) == kind
            && Accepts(b[2..]) && ParseRes(b[2..]) == Got(ResView(r), [])
  {
    FromToLE(kind, 2) by { assert Pow256(2) == 0x1_0000; }
    TakeAppend(ToLE(kind, 2), ResBytes(r));
    ResRoundTrip(r, []);
    assert ResBytes(r) + [] == ResBytes(r);
    hide *;
    AcceptedWhenGot(ResBytes(r));
  }
}
