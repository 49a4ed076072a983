/** The bytes on the wire, in numbers. Round trips would also hold of a sender and a receiver that agree on other codes,
    or on another order of the fields; these layouts are what both programs are built for. */
module WireFormats {
  import opened Bytes
  import opened Sequences
  import Commands
  import Marshalling
  import RpcFraming
  import Slip

  // ----- the turret link

  function Stuffed(b: byte): seq<byte> {
    if b == 192 then [219, 220] else if b == 219 then [219, 221] else [b]
  }

  /** Each byte of a frame is sent as itself, END as ESC ESC_END and ESC as ESC ESC_ESC, and END closes the frame. */
  lemma SlipBytes(frame: seq<byte>)
    ensures Slip.Encoded(frame) == Flatten(seq(|frame|, i requires 0 <= i < |frame| => Stuffed(frame[i]))) + [192]
  {
    StuffAllBytes(frame);
  }

  lemma {:induction false} StuffAllBytes(frame: seq<byte>)
    ensures Slip.StuffAll(frame) == Flatten(seq(|frame|, i requires 0 <= i < |frame| => Stuffed(frame[i])))
  {
    if frame != [] {
      StuffAllBytes(frame[1..]);
      var all := seq(|frame|, i requires 0 <= i < |frame| => Stuffed(frame[i]));
      assert all[1..] == seq(|frame[1..]|, i requires 0 <= i < |frame[1..]| => Stuffed(frame[1..][i]));
    }
  }

  /** The eight bytes of a time, the most significant one first. */
  function TimeBytes(t: int): (s: seq<byte>) {
    [t / 0x100_0000_0000_0000 % 256, t / 0x1_0000_0000_0000 % 256, t / 0x100_0000_0000 % 256, t / 0x1_0000_0000 % 256,
     t / 0x100_0000 % 256, t / 0x1_0000 % 256, t / 0x100 % 256, t % 256]
  }

  /** The eight bytes of a double, the most significant one first. */
  function DoubleBytes(bigEndian: bool, x: Commands.Double): (s: seq<byte>) {
    seq(8, i requires 0 <= i < 8 => x[if bigEndian then i else 7 - i])
  }

  lemma DoubleIsWire(bigEndian: bool, x: Commands.Double)
    ensures Commands.DoubleWire(bigEndian, x) == DoubleBytes(bigEndian, x)
  {
  }

  function CommandBytes(bigEndian: bool, c: Commands.Command): (s: seq<byte>) {
    match c
    case Stop => [0]
    case Goto(alpha, beta) => [1] + DoubleBytes(bigEndian, alpha) + DoubleBytes(bigEndian, beta)
    case Speed(alphaSpeed, betaSpeed) => [2] + DoubleBytes(bigEndian, alphaSpeed) + DoubleBytes(bigEndian, betaSpeed)
    case Track(time, alpha, beta, alphaSpeed, betaSpeed, alphaAcceleration, betaAcceleration) =>
      [3] + TimeBytes(time) + DoubleBytes(bigEndian, alpha) + DoubleBytes(bigEndian, beta)
      + DoubleBytes(bigEndian, alphaSpeed) + DoubleBytes(bigEndian, betaSpeed)
      + DoubleBytes(bigEndian, alphaAcceleration) + DoubleBytes(bigEndian, betaAcceleration)
    case SetPosition(alpha, beta) => [4] + DoubleBytes(bigEndian, alpha) + DoubleBytes(bigEndian, beta)
  }

  lemma TwoDoubles(bigEndian: bool, x: Commands.Double, y: Commands.Double)
    ensures Commands.Doubles(bigEndian, [x, y]) == DoubleBytes(bigEndian, x) + DoubleBytes(bigEndian, y)
  {
    DoubleIsWire(bigEndian, x);
    DoubleIsWire(bigEndian, y);
    hide DoubleBytes, Commands.DoubleWire;
    assert [x, y][1..] == [y] && [y][1..] == [];
    assert Commands.Doubles(bigEndian, [y]) == DoubleBytes(bigEndian, y);
  }

  lemma SixDoubles(bigEndian: bool, a: Commands.Double, b: Commands.Double, va: Commands.Double, vb: Commands.Double,
                   aa: Commands.Double, ab: Commands.Double)
    ensures Commands.Doubles(bigEndian, [a, b, va, vb, aa, ab])
            == DoubleBytes(bigEndian, a) + DoubleBytes(bigEndian, b) + DoubleBytes(bigEndian, va) + DoubleBytes(bigEndian, vb)
               + DoubleBytes(bigEndian, aa) + DoubleBytes(bigEndian, ab)
  {
    hide DoubleBytes, Commands.Doubles;
    TwoDoubles(bigEndian, a, b);
    TwoDoubles(bigEndian, va, vb);
    TwoDoubles(bigEndian, aa, ab);
    Commands.DoublesAppendTwice(bigEndian, [a, b], [va, vb], [aa, ab]);
    Commands.SixInTwos(a, b, va, vb, aa, ab);
  }

  /** A command is its code, the time of a track, and its doubles in their order. */
  lemma CommandLayout(bigEndian: bool, c: Commands.Command)
    ensures Commands.Wire(bigEndian, c) == CommandBytes(bigEndian, c)
  {
    hide DoubleBytes, Commands.Doubles, Commands.BE, TimeBytes;
    match c
    case Stop =>
      assert Commands.Doubles(bigEndian, []) == [];
    case Goto(alpha, beta) => PairLayout(bigEndian, c, alpha, beta);
    case Speed(alphaSpeed, betaSpeed) => PairLayout(bigEndian, c, alphaSpeed, betaSpeed);
    case Track(_, _, _, _, _, _, _) => TrackLayout(bigEndian, c);
    case SetPosition(alpha, beta) => PairLayout(bigEndian, c, alpha, beta);
  }

  lemma PairLayout(bigEndian: bool, c: Commands.Command, x: Commands.Double, y: Commands.Double)
    requires !c.Track? && Commands.Fields(c) == [x, y]
    ensures Commands.Wire(bigEndian, c) == [Commands.Id(c)] + DoubleBytes(bigEndian, x) + DoubleBytes(bigEndian, y)
  {
    TwoDoubles(bigEndian, x, y);
    hide DoubleBytes, Commands.Doubles, Commands.Id, Commands.Fields;
    JoinedPair(Commands.Id(c), DoubleBytes(bigEndian, x), DoubleBytes(bigEndian, y));
  }

  lemma JoinedPair<T>(id: T, a: seq<T>, b: seq<T>)
    ensures [id] + ([] + (a + b)) == [id] + a + b
  {
  }

  lemma TrackLayout(bigEndian: bool, c: Commands.Command)
    requires c.Track?
    ensures Commands.Wire(bigEndian, c) == CommandBytes(bigEndian, c)
  {
    TrackWire(bigEndian, c);
    SixDoubles(bigEndian, c.alpha, c.beta, c.alphaSpeed, c.betaSpeed, c.alphaAcceleration, c.betaAcceleration);
    hide DoubleBytes, Commands.Doubles, TimeBytes, Commands.Wire;
    JoinedSix([3], TimeBytes(c.time), DoubleBytes(bigEndian, c.alpha), DoubleBytes(bigEndian, c.beta),
              DoubleBytes(bigEndian, c.alphaSpeed), DoubleBytes(bigEndian, c.betaSpeed),
              DoubleBytes(bigEndian, c.alphaAcceleration), DoubleBytes(bigEndian, c.betaAcceleration));
  }

  lemma TrackWire(bigEndian: bool, c: Commands.Command)
    requires c.Track?
    ensures Commands.Wire(bigEndian, c)
            == [3] + (TimeBytes(c.time) + Commands.Doubles(bigEndian, [c.alpha, c.beta, c.alphaSpeed, c.betaSpeed,
                                                                       c.alphaAcceleration, c.betaAcceleration]))
  {
    TimeIsBE(c.time);
    hide DoubleBytes, Commands.Doubles, TimeBytes, Commands.BE;
  }

  lemma TimeIsBE(t: int)
    ensures Commands.BE(t, 8) == TimeBytes(t)
  {
    Commands.Unroll8(t);
    hide Commands.BE;
  }

  lemma JoinedSix<T>(id: seq<T>, time: seq<T>, a: seq<T>, b: seq<T>, c: seq<T>, d: seq<T>, e: seq<T>, f: seq<T>)
    ensures id + (time + (a + b + c + d + e + f)) == id + time + a + b + c + d + e + f
  {
    var head := id + time;
    Assoc(id, time, a + b + c + d + e + f);
    Assoc(head, a + b + c + d + e, f);
    Assoc(head, a + b + c + d, e);
    Assoc(head, a + b + c, d);
    Assoc(head, a + b, c);
    Assoc(head, a, b);
  }

  // ----- the result link

  /** The four bytes of an unsigned number, the least significant one first. */
  function Word(v: nat): (s: seq<byte>) {
    [v % 256, v / 0x100 % 256, v / 0x1_0000 % 256, v / 0x100_0000 % 256]
  }

  lemma WordIsLE(v: nat)
    ensures ToLE(v, 4) == Word(v)
  {
    assert ToLE(v / 0x100_0000, 1) == [v / 0x100_0000 % 256];
    assert ToLE(v / 0x1_0000, 2) == [v / 0x1_0000 % 256] + ToLE(v / 0x1_0000 / 256, 1) && v / 0x1_0000 / 256 == v / 0x100_0000;
    assert ToLE(v / 256, 3) == [v / 256 % 256] + ToLE(v / 256 / 256, 2) && v / 256 / 256 == v / 0x1_0000;
  }

  /** A message is its index, its type and, unless it is a heart-beat, its length and its payload; at most 100 MiB of
      payload are delivered. */
  lemma MessageLayout(index: nat, e: RpcFraming.Event)
    requires RpcFraming.Encodable(e)
    ensures RpcFraming.Frame(index, e) == match e
                                          case HeartBeat => Word(index) + [0]
                                          case Message(payload) => Word(index) + [1] + Word(|payload|) + payload
    ensures RpcFraming.Fits(e) <==> (e.Message? ==> |e.payload| <= 104_857_600)
  {
    WordIsLE(index);
    hide Word, ToLE;
    match e
    case HeartBeat =>
    case Message(payload) =>
      WordIsLE(|payload|);
      assert |payload| % U32 == |payload|;
  }

  /** A matrix starts with its columns, rows, element size and type. */
  lemma MatLayout(m: Marshalling.Mat)
    requires Marshalling.Proper(m)
    ensures Marshalling.MatBytes(m)[..16] == Word(m.cols) + Word(m.rows) + Word(m.elemSize) + Word(m.typ)
  {
    WordIsLE(m.cols);
    WordIsLE(m.rows);
    WordIsLE(m.elemSize);
    WordIsLE(m.typ);
    hide Word, Marshalling.Rows;
    assert Marshalling.MatHeader(m) == Word(m.cols) + Word(m.rows) + Word(m.elemSize) + Word(m.typ);
  }

  /** A record is the sized structures of camera and frame, the measurements of 112 bytes with their size and number, and
      the calibration data: four matrices and two counted lists. */
  lemma RecordLayout(r: Marshalling.DataRes<Marshalling.Mat>)
    requires Marshalling.ProperRes(r)
    ensures var c := r.calib;
            Marshalling.ResBytes(r)
            == Word(32) + r.cam + Word(64) + r.frame + Word(112) + Word(|r.meas|) + Flatten(r.meas)
               + Marshalling.MatBytes(c.rMatrix) + Marshalling.MatBytes(c.tVec) + Marshalling.MatBytes(c.rVec)
               + Marshalling.MatBytes(c.descriptors)
               + Word(|c.corners|) + Flatten(c.corners) + Word(|c.keypoints|) + Flatten(c.keypoints)
  {
    var c := r.calib;
    WordIsLE(32);
    WordIsLE(64);
    WordIsLE(112);
    WordIsLE(|r.meas|);
    WordIsLE(|c.corners|);
    WordIsLE(|c.keypoints|);
    hide Word, Marshalling.MatBytes, Flatten, ToLE, Marshalling.Proper;
    var head, meas := Marshalling.ResHead(r), Flatten(r.meas);
    var a, b, d, e := Marshalling.MatBytes(c.rMatrix), Marshalling.MatBytes(c.tVec), Marshalling.MatBytes(c.rVec),
                      Marshalling.MatBytes(c.descriptors);
    var p, q := Marshalling.ListBytes(c.corners), Marshalling.ListBytes(c.keypoints);
    assert head == Word(32) + r.cam + Word(64) + r.frame + Word(112) + Word(|r.meas|);
    Joined(head, meas, a, b, d, e, p, q);
    Assoc(head + meas + a + b + d + e, Word(|c.corners|), Flatten(c.corners));
    Assoc(head + meas + a + b + d + e + p, Word(|c.keypoints|), Flatten(c.keypoints));
  }

  lemma Joined<T>(head: seq<T>, meas: seq<T>, a: seq<T>, b: seq<T>, d: seq<T>, e: seq<T>, p: seq<T>, q: seq<T>)
    ensures head + (meas + (a + (b + (d + (e + (p + q)))))) == head + meas + a + b + d + e + p + q
  {
  }
}
