/** The big-endian serializer (common/turret/serializer.cpp) and the turret commands written with it
    (common/turret/turretCommands.cpp). */
module Commands {
  import opened Bytes
  import opened Options
  import opened Sequences
  import Slip

  type int8 = x: int | -0x80 <= x < 0x80
  type int32 = x: int | -0x8000_0000 <= x < 0x8000_0000
  type int64 = x: int | -0x8000_0000_0000_0000 <= x < 0x8000_0000_0000_0000

  /** A double is its eight bytes, in the order in which the host keeps them in memory. */
  type Double = s: seq<byte> | |s| == 8 witness [0, 0, 0, 0, 0, 0, 0, 0]

  // ----- two's-complement big-endian integers of any width

  /** The low `n` bytes of `x`, most significant first. */
  function BE(x: int, n: nat): (s: seq<byte>)
    ensures |s| == n
    decreases n
  {
    if n == 0 then [] else BE(x / 256, n - 1) + [x % 256]
  }

  /** The signed value of a big-endian string. */
  function Signed(s: seq<byte>): int
    requires s != []
  {
    if |s| == 1 then (if s[0] < 128 then s[0] else s[0] - 256)
    else 256 * Signed(s[..|s| - 1]) + s[|s| - 1]
  }

  lemma {:induction false} SignedOfBE(x: int, n: nat)
    requires n > 0 && -128 * Pow256(n - 1) <= x < 128 * Pow256(n - 1)
    ensures Signed(BE(x, n)) == x
    decreases n
  {
    if n > 1 {
      SignedOfBE(x / 256, n - 1);
      assert BE(x, n)[..n - 1] == BE(x / 256, n - 1);
    } else {
      assert BE(x, 1) == [x % 256] && Pow256(0) == 1;
    }
  }

  lemma {:induction false} BEOfSigned(s: seq<byte>)
    requires s != []
    ensures BE(Signed(s), |s|) == s
  {
    var n := |s| - 1;
    if n == 0 {
      assert BE(Signed(s), 1) == [s[0]];
    } else {
      BEOfSigned(s[..n]);
      assert Signed(s) / 256 == Signed(s[..n]) && Signed(s) % 256 == s[n];
    }
  }

  lemma Int64RoundTrip(x: int64)
    ensures Signed(BE(x, 8)) == x
  {
    assert Pow256(3) == 0x100_0000;
    assert Pow256(5) == 0x100_0000_0000;
    assert 128 * Pow256(7) == 0x8000_0000_0000_0000;
    SignedOfBE(x, 8);
  }

  function DoubleWire(bigEndian: bool, x: Double): (w: Double)
    ensures |w| == 8
  {
    if bigEndian then x else Reverse(x)
  }

  lemma DoubleWireTwice(bigEndian: bool, x: Double)
    ensures DoubleWire(bigEndian, DoubleWire(bigEndian, x)) == x
  {
    ReverseTwice(x);
  }

  class Serializer {
    const bigEndian: bool
    var data: seq<byte>

    constructor (bigEndian: bool, data: seq<byte>)
      ensures this.bigEndian == bigEndian && this.data == data
    {
      this.bigEndian, this.data := bigEndian, data;
    }

    method WriteInt8(x: int8)
      modifies this
      ensures data == old(data) + [x % 256]
    {
      data := data + [x % 256];
    }

    method WriteInt32(x: int32)
      modifies this
      ensures data == old(data) + BE(x, 4)
    {
      Unroll4(x);
      data := data + [x / 0x100_0000 % 256];
      data := data + [x / 0x1_0000 % 256];
      data := data + [x / 0x100 % 256];
      data := data + [x % 256];
    }

    method WriteInt64(x: int64)
      modifies this
      ensures data == old(data) + BE(x, 8)
    {
      Unroll8(x);
      data := data + [x / 0x100_0000_0000_0000 % 256];
      data := data + [x / 0x1_0000_0000_0000 % 256];
      data := data + [x / 0x100_0000_0000 % 256];
      data := data + [x / 0x1_0000_0000 % 256];
      data := data + [x / 0x100_0000 % 256];
      data := data + [x / 0x1_0000 % 256];
      data := data + [x / 0x100 % 256];
      data := data + [x % 256];
    }

    method WriteDouble(x: Double)
      modifies this
      ensures data == old(data) + DoubleWire(bigEndian, x)
    {
      if bigEndian {
        for i := 0 to 8
          invariant data == old(data) + x[..i]
        {
          data := data + [x[i]];
        }
      } else {
        for i := 0 to 8
          invariant data == old(data) + Reverse(x)[..i]
        {
          data := data + [x[7 - i]];
        }
      }
    }

    method WriteTwoDoubles(x: Double, y: Double)
      modifies this
      ensures data == old(data) + Doubles(bigEndian, [x, y])
    {
      WriteDouble(x);
      WriteDouble(y);
      assert [x, y][1..] == [y] && [y][1..] == [];
    }

    method WriteSixDoubles(a: Double, b: Double, va: Double, vb: Double, aa: Double, ab: Double)
      modifies this
      ensures data == old(data) + Doubles(bigEndian, [a, b, va, vb, aa, ab])
    {
      ghost var x, y, z := [a, b], [va, vb], [aa, ab];
      SixDoublesWritten(bigEndian, data, x, y, z);
      SixInTwos(a, b, va, vb, aa, ab);
      hide *;
      WriteTwoDoubles(a, b);
      WriteTwoDoubles(va, vb);
      WriteTwoDoubles(aa, ab);
    }

    method SerializeBody(c: Command)
      modifies this
      ensures data == old(data) + Body(bigEndian, c)
    {
      match c
      case Stop =>
      case Goto(alpha, beta) =>
        WriteTwoDoubles(alpha, beta);
      case Speed(alphaSpeed, betaSpeed) =>
        WriteTwoDoubles(alphaSpeed, betaSpeed);
      case Track(time, alpha, beta, alphaSpeed, betaSpeed, alphaAcceleration, betaAcceleration) =>
        Assoc(data, BE(time, 8), Doubles(bigEndian, Fields(c)));
        WriteInt64(time);
        WriteSixDoubles(alpha, beta, alphaSpeed, betaSpeed, alphaAcceleration, betaAcceleration);
      case SetPosition(alpha, beta) =>
        WriteTwoDoubles(alpha, beta);
    }

    method Serialize(c: Command)
      modifies this
      ensures data == old(data) + Wire(bigEndian, c)
    {
      Assoc(data, [Id(c)], Body(bigEndian, c));
      assert Wire(bigEndian, c) == [Id(c)] + Body(bigEndian, c) && Id(c) % 256 == Id(c) < 0x80;
      hide *;
      WriteInt8(Id(c));
      SerializeBody(c);
    }
  }

  lemma SixInTwos<T>(a: T, b: T, c: T, d: T, e: T, f: T)
    ensures [a, b] + [c, d] + [e, f] == [a, b, c, d, e, f]
  {
  }

  lemma SixDoublesWritten(bigEndian: bool, data: seq<byte>, x: seq<Double>, y: seq<Double>, z: seq<Double>)
    ensures data + Doubles(bigEndian, x) + Doubles(bigEndian, y) + Doubles(bigEndian, z) == data + Doubles(bigEndian, x + y + z)
  {
    hide Doubles;
    DoublesAppendTwice(bigEndian, x, y, z);
    var a, b, c := Doubles(bigEndian, x), Doubles(bigEndian, y), Doubles(bigEndian, z);
    Assoc(data, a, b);
    Assoc(data, a + b, c);
  }

  lemma Unroll4(x: int)
    ensures BE(x, 4) == [x / 0x100_0000 % 256, x / 0x1_0000 % 256, x / 0x100 % 256, x % 256]
  {
    assert BE(x / 0x1_0000, 2) == BE(x / 0x100_0000, 1) + [x / 0x1_0000 % 256];
    assert BE(x / 0x100_0000, 1) == [x / 0x100_0000 % 256];
    assert BE(x / 256, 3) == BE(x / 0x1_0000, 2) + [x / 256 % 256];
  }

  lemma BEUpper(x: int, n: nat)
    ensures BE(x, n + 4) == BE(x / 0x1_0000_0000, n) + BE(x, 4)
  {
    var b := x / 256;
    assert b / 256 == x / 0x1_0000 && x / 0x1_0000 / 256 == x / 0x100_0000;
    assert x / 0x100_0000 / 256 == x / 0x1_0000_0000;
    assert BE(x, n + 4) == BE(b, n + 3) + [x % 256];
    assert BE(b, n + 3) == BE(x / 0x1_0000, n + 2) + [b % 256];
    assert BE(x / 0x1_0000, n + 2) == BE(x / 0x100_0000, n + 1) + [x / 0x1_0000 % 256];
    assert BE(x / 0x100_0000, n + 1) == BE(x / 0x1_0000_0000, n) + [x / 0x100_0000 % 256];
    Unroll4(x);
  }

  lemma Unroll8(x: int)
    ensures BE(x, 8) == [x / 0x100_0000_0000_0000 % 256, x / 0x1_0000_0000_0000 % 256,
                         x / 0x100_0000_0000 % 256, x / 0x1_0000_0000 % 256,
                         x / 0x100_0000 % 256, x / 0x1_0000 % 256, x / 0x100 % 256, x % 256]
  {
    var high := x / 0x1_0000_0000;
    Unroll4(high);
    BEUpper(x, 4);
    Unroll4(x);
    assert high / 0x100_0000 == x / 0x100_0000_0000_0000;
    assert high / 0x1_0000 == x / 0x1_0000_0000_0000;
    assert high / 0x100 == x / 0x100_0000_0000;
  }

  /** Reads from a frame. Each read says whether it stayed inside; reading past the end, which the
      source reports by an exception, makes it `ok == false`. */
  class Deserializer {
    const bigEndian: bool
    const data: seq<byte>
    var idx: nat

    constructor (bigEndian: bool, data: seq<byte>)
      ensures this.bigEndian == bigEndian && this.data == data && idx == 0
    {
      this.bigEndian, this.data, idx := bigEndian, data, 0;
    }

    method At() returns (ok: bool, b: byte)
      modifies this
      ensures ok == (old(idx) < |data|) && idx == old(idx) + 1
      ensures ok ==> b == data[old(idx)]
    {
      ok, b := idx < |data|, 0;
      if ok {
        b := data[idx];
      }
      idx := idx + 1;
    }

    method ReadInt8() returns (ok: bool, x: int8)
      modifies this
      ensures ok == (old(idx) < |data|)
      ensures ok ==> idx == old(idx) + 1 && x == Signed([data[old(idx)]])
    {
      var b: byte;
      ok, b := At();
      x := if b < 128 then b else b - 256;
    }

    method ReadInt32() returns (ok: bool, x: int32)
      modifies this
      ensures ok == (old(idx) + 4 <= |data|)
      ensures ok ==> idx == old(idx) + 4 && x == Signed(data[old(idx)..idx])
    {
      x := 0;
      var b3, b2, b1, b0;
      ok, b3 := At();
      if !ok { return; }
      ok, b2 := At();
      if !ok { return; }
      ok, b1 := At();
      if !ok { return; }
      ok, b0 := At();
      if !ok { return; }
      var u: int := 0x100_0000 * (b3 as int) + 0x1_0000 * (b2 as int) + 0x100 * (b1 as int) + b0 as int;
      x := if u < 0x8000_0000 then u else u - 0x1_0000_0000;
      assert data[old(idx)..idx] == [b3, b2, b1, b0];
      Signed4([b3, b2, b1, b0]);
    }

    method ReadInt64() returns (ok: bool, x: int64)
      modifies this
      ensures ok == (old(idx) + 8 <= |data|)
      ensures ok ==> idx == old(idx) + 8 && x == Signed(data[old(idx)..idx])
    {
      x, ok := 0, true;
      var u: nat := 0;
      for k := 0 to 8
        invariant idx == old(idx) + k && (k > 0 ==> idx <= |data|)
        invariant u == if k == 0 then 0 else Unsigned(data[old(idx)..idx])
      {
        var b;
        ok, b := At();
        if !ok { return; }
        assert data[old(idx)..idx][..k] == data[old(idx)..idx - 1];
        u := 256 * u + b;
      }
      UnsignedBound8(data[old(idx)..idx]);
      x := if u < 0x8000_0000_0000_0000 then u else u - 0x1_0000_0000_0000_0000;
    }

    method ReadDouble() returns (ok: bool, x: Double)
      modifies this
      ensures ok == (old(idx) + 8 <= |data|)
      ensures ok ==> idx == old(idx) + 8 && x == DoubleWire(bigEndian, data[old(idx)..idx])
    {
      x := [0, 0, 0, 0, 0, 0, 0, 0];
      ok := true;
      hide Signed, DoublesAt;
      if bigEndian {
        for k := 0 to 8
          invariant ok && idx == old(idx) + k && (k > 0 ==> idx <= |data|)
          invariant forall j :: 0 <= j < k ==> x[j] == data[old(idx) + j]
        {
          var b;
          ok, b := At();
          if !ok { return; }
          x := x[k := b];
        }
        assert x == data[old(idx)..idx];
      } else {
        for k := 0 to 8
          invariant ok && idx == old(idx) + k && (k > 0 ==> idx <= |data|)
          invariant forall j :: 8 - k <= j < 8 ==> x[j] == data[old(idx) + 7 - j]
        {
          var b;
          ok, b := At();
          if !ok { return; }
          x := x[7 - k := b];
        }
        ghost var bytes := data[old(idx)..idx];
        assert forall j :: 0 <= j < 8 ==> x[j] == Reverse(bytes)[j];
      }
    }

    method ReadTwoDoubles() returns (ok: bool, x: Double, y: Double)
      modifies this
      ensures ok == (old(idx) + 16 <= |data|)
      ensures ok ==> idx == old(idx) + 16 && [x, y] == DoublesAt(bigEndian, data[old(idx)..idx])
    {
      y := [0, 0, 0, 0, 0, 0, 0, 0];
      ok, x := ReadDouble();
      if ok {
        ok, y := ReadDouble();
      }
      if ok {
        var s := data[old(idx)..idx];
        assert s[..8] == data[old(idx)..old(idx) + 8] && s[8..][..8] == data[old(idx) + 8..idx];
        assert s[8..][8..] == [];
      }
    }

    method ReadSixDoubles() returns (ok: bool, fs: seq<Double>)
      modifies this
      ensures ok == (old(idx) + 48 <= |data|)
      ensures ok ==> idx == old(idx) + 48 && |fs| == 6 && fs == DoublesAt(bigEndian, data[old(idx)..idx])
    {
      var a, b, va, vb, aa, ab;
      fs := [];
      ghost var i := idx;
      ok, a, b := ReadTwoDoubles();
      if !ok { return; }
      ok, va, vb := ReadTwoDoubles();
      if !ok { return; }
      ok, aa, ab := ReadTwoDoubles();
      if !ok { return; }
      SixDoubles(bigEndian, data, i);
      fs := [a, b] + [va, vb] + [aa, ab];
    }

    method ReadTrack() returns (ok: bool, c: Command)
      modifies this
      ensures ok == (old(idx) + 56 <= |data|)
      ensures ok ==> c == Make(3, data[old(idx)..old(idx) + 8], DoublesAt(bigEndian, data[old(idx) + 8..old(idx) + 56]))
    {
      c := Stop;
      var time, fs;
      ok, time := ReadInt64();
      if !ok { return; }
      ok, fs := ReadSixDoubles();
      if !ok { return; }
      c := Track(time, fs[0], fs[1], fs[2], fs[3], fs[4], fs[5]);
    }

    /** The static factory, which gets a deserializer of its own. `None` is the null result. */
    static method Deserialize(source: Deserializer) returns (c: Option<Command>)
      ensures c == if source.idx <= |source.data| then Parse(source.bigEndian, source.data[source.idx..]) else None
    {
      var deserializer := new Deserializer(source.bigEndian, source.data);
      deserializer.idx := source.idx;
      ghost var i, data := source.idx, source.data;
      var ok, id := deserializer.ReadInt8();
      if !ok {
        return None;
      }
      FrameParts(data, i);
      hide Parse, DoublesAt, Make;
      if id == 0 {
        ParsedStop(source.bigEndian, data[i..]);
        return Some(Stop);
      }
      if id == 3 {
        var cmd;
        ok, cmd := deserializer.ReadTrack();
        ParsedTrack(source.bigEndian, data[i..]);
        return if ok then Some(cmd) else None;
      }
      if id == 1 || id == 2 || id == 4 {
        var x, y;
        ok, x, y := deserializer.ReadTwoDoubles();
        ParsedTwo(source.bigEndian, data[i..], x, y);
        if !ok {
          return None;
        }
        return Some(if id == 1 then Goto(x, y) else if id == 2 then Speed(x, y) else SetPosition(x, y));
      }
      ParsedNone(source.bigEndian, data[i..]);
      return None;
    }
  }

  lemma SixDoubles(bigEndian: bool, data: seq<byte>, i: nat)
    requires i + 48 <= |data|
    ensures DoublesAt(bigEndian, data[i..i + 48])
            == DoublesAt(bigEndian, data[i..i + 16]) + DoublesAt(bigEndian, data[i + 16..i + 32])
               + DoublesAt(bigEndian, data[i + 32..i + 48])
  {
    var a, b, c := data[i..i + 16], data[i + 16..i + 32], data[i + 32..i + 48];
    hide DoublesAt;
    assert data[i..i + 48] == a + b + c;
    DoublesAtAppend(bigEndian, a, b);
    DoublesAtAppend(bigEndian, a + b, c);
  }

  /** The parts of the frame that starts at position `i`. */
  lemma FrameParts(data: seq<byte>, i: nat)
    requires i < |data|
    ensures data[i..][0] == data[i]
    ensures i + 17 <= |data| ==> data[i..][1..17] == data[i + 1..i + 17]
    ensures i + 57 <= |data| ==> data[i..][1..9] == data[i + 1..i + 9] && data[i..][9..57] == data[i + 9..i + 57]
  {
  }

  lemma ParsedStop(bigEndian: bool, d: seq<byte>)
    requires d != [] && d[0] == 0
    ensures Parse(bigEndian, d) == Some(Stop)
  {
  }

  lemma ParsedTrack(bigEndian: bool, d: seq<byte>)
    requires d != [] && d[0] == 3
    ensures Parse(bigEndian, d) == if |d| < 57 then None else Some(Make(3, d[1..9], DoublesAt(bigEndian, d[9..57])))
  {
    hide DoublesAt, Make;
  }

  lemma ParsedTwo(bigEndian: bool, d: seq<byte>, x: Double, y: Double)
    requires d != [] && (d[0] == 1 || d[0] == 2 || d[0] == 4)
    requires |d| >= 17 ==> [x, y] == DoublesAt(bigEndian, d[1..17])
    ensures Parse(bigEndian, d)
            == if |d| < 17 then None
               else Some(if d[0] == 1 then Goto(x, y) else if d[0] == 2 then Speed(x, y) else SetPosition(x, y))
  {
    hide DoublesAt;
  }

  lemma ParsedNone(bigEndian: bool, d: seq<byte>)
    requires d == [] || d[0] > 4
    ensures Parse(bigEndian, d) == None
  {
  }

  function Unsigned(s: seq<byte>): nat {
    if s == [] then 0 else 256 * Unsigned(s[..|s| - 1]) + s[|s| - 1]
  }

  lemma Signed4(s: seq<byte>)
    requires |s| == 4
    ensures var top: int := if s[0] < 128 then s[0] as int else s[0] as int - 256;
            Signed(s) == 0x100_0000 * top + 0x1_0000 * (s[1] as int) + 0x100 * (s[2] as int) + s[3] as int
  {
    assert s[..3][..2] == s[..2] && s[..2][..1] == s[..1];
    assert Signed(s[..2]) == 256 * Signed(s[..1]) + s[1];
    assert Signed(s[..3]) == 256 * Signed(s[..2]) + s[2];
  }

  lemma {:induction false} UnsignedBound(s: seq<byte>)
    requires s != []
    ensures Unsigned(s) < Pow256(|s|)
    ensures Signed(s) == if Unsigned(s) < 128 * Pow256(|s| - 1) then Unsigned(s) else Unsigned(s) - Pow256(|s|)
  {
    if |s| > 1 {
      UnsignedBound(s[..|s| - 1]);
    } else {
      assert s[..0] == [] && Unsigned(s) == s[0] && Pow256(1) == 256 * Pow256(0) && Pow256(0) == 1;
    }
  }

  lemma UnsignedBound8(s: seq<byte>)
    requires |s| == 8
    ensures Unsigned(s) < 0x1_0000_0000_0000_0000
    ensures Signed(s) == if Unsigned(s) < 0x8000_0000_0000_0000 then Unsigned(s) else Unsigned(s) - 0x1_0000_0000_0000_0000
  {
    UnsignedBound(s);
    assert Pow256(3) == 0x100_0000;
    assert Pow256(5) == 0x100_0000_0000;
    assert Pow256(7) == 0x100_0000_0000_0000;
  }

  // ----- commands

  datatype Command =
    | Stop
    | Goto(alpha: Double, beta: Double)
    | Speed(alphaSpeed: Double, betaSpeed: Double)
    | Track(time: int64, alpha: Double, beta: Double, alphaSpeed: Double, betaSpeed: Double,
            alphaAcceleration: Double, betaAcceleration: Double)
    | SetPosition(alpha: Double, beta: Double)

  function Id(c: Command): (id: byte)
    ensures id <= 4
  {
    match c
    case Stop => 0
    case Goto(_, _) => 1
    case Speed(_, _) => 2
    case Track(_, _, _, _, _, _, _) => 3
    case SetPosition(_, _) => 4
  }

  /** The double fields, in the order in which they are written. */
  function Fields(c: Command): seq<Double> {
    match c
    case Stop => []
    case Goto(a, b) => [a, b]
    case Speed(va, vb) => [va, vb]
    case Track(_, a, b, va, vb, aa, ab) => [a, b, va, vb, aa, ab]
    case SetPosition(a, b) => [a, b]
  }

  /** The concatenated wire images of a list of doubles. */
  function Doubles(bigEndian: bool, fs: seq<Double>): (s: seq<byte>)
    ensures |s| == 8 * |fs|
  {
    if fs == [] then [] else DoubleWire(bigEndian, fs[0]) + Doubles(bigEndian, fs[1..])
  }

  function DoublesAt(bigEndian: bool, s: seq<byte>): (fs: seq<Double>)
    requires |s| % 8 == 0
    ensures |fs| == |s| / 8
  {
    if s == [] then [] else [DoubleWire(bigEndian, s[..8])] + DoublesAt(bigEndian, s[8..])
  }

  function Body(bigEndian: bool, c: Command): seq<byte> {
    (if c.Track? then BE(c.time, 8) else []) + Doubles(bigEndian, Fields(c))
  }

  function Wire(bigEndian: bool, c: Command): (w: seq<byte>)
    ensures |w| > 0
  {
    [Id(c)] + Body(bigEndian, c)
  }

  function FieldCount(id: byte): nat {
    if id == 0 then 0 else if id == 3 then 6 else 2
  }

  function Make(id: byte, time: seq<byte>, fs: seq<Double>): Command
    requires id <= 4 && |time| == 8 && |fs| == FieldCount(id)
  {
    if id == 0 then Stop
    else if id == 1 then Goto(fs[0], fs[1])
    else if id == 2 then Speed(fs[0], fs[1])
    else if id == 4 then SetPosition(fs[0], fs[1])
    else UnsignedBound8(time); Track(Signed(time), fs[0], fs[1], fs[2], fs[3], fs[4], fs[5])
  }

  const NO_TIME: seq<byte> := [0, 0, 0, 0, 0, 0, 0, 0]

  /** The command that a frame starts with, if any. */
  function Parse(bigEndian: bool, d: seq<byte>): Option<Command> {
    if d == [] || d[0] > 4 then None
    else
      var from := From(d[0]);
      var end := from + 8 * FieldCount(d[0]);
      if |d| < end then None
      else Some(Make(d[0], if d[0] == 3 then d[1..9] else NO_TIME, DoublesAt(bigEndian, d[from..end])))
  }

  // ----- the codec's law

  lemma {:induction false} DoublesAppend(bigEndian: bool, a: seq<Double>, b: seq<Double>)
    ensures Doubles(bigEndian, a + b) == Doubles(bigEndian, a) + Doubles(bigEndian, b)
    decreases |a|
  {
    if a == [] {
      assert a + b == b;
    } else {
      DoublesAppend(bigEndian, a[1..], b);
      assert (a + b)[0] == a[0] && (a + b)[1..] == a[1..] + b;
      var w, x, y := DoubleWire(bigEndian, a[0]), Doubles(bigEndian, a[1..]), Doubles(bigEndian, b);
      assert w + (x + y) == (w + x) + y;
    }
  }

  lemma DoublesAppendTwice(bigEndian: bool, a: seq<Double>, b: seq<Double>, c: seq<Double>)
    ensures Doubles(bigEndian, a + b + c) == Doubles(bigEndian, a) + Doubles(bigEndian, b) + Doubles(bigEndian, c)
  {
    DoublesAppend(bigEndian, a, b);
    DoublesAppend(bigEndian, a + b, c);
  }

  lemma {:induction false} DoublesAtAppend(bigEndian: bool, s: seq<byte>, t: seq<byte>)
    requires |s| % 8 == 0 && |t| % 8 == 0
    ensures DoublesAt(bigEndian, s + t) == DoublesAt(bigEndian, s) + DoublesAt(bigEndian, t)
    decreases |s|
  {
    if s == [] {
      assert s + t == t;
    } else {
      DoublesAtAppend(bigEndian, s[8..], t);
      assert (s + t)[8..] == s[8..] + t && (s + t)[..8] == s[..8];
    }
  }

  lemma {:induction false} DoublesBytes(bigEndian: bool, fs: seq<Double>, s: seq<byte>)
    requires |s| == 8 * |fs|
    ensures DoublesAt(bigEndian, s) == fs <==> s == Doubles(bigEndian, fs)
    decreases |fs|
  {
    if fs != [] {
      DoublesBytes(bigEndian, fs[1..], s[8..]);
      DoubleWireTwice(bigEndian, fs[0]);
      DoubleWireTwice(bigEndian, s[..8]);
      assert s == s[..8] + s[8..] && fs == [fs[0]] + fs[1..];
      var w := Doubles(bigEndian, fs);
      assert w[..8] == DoubleWire(bigEndian, fs[0]) && w[8..] == Doubles(bigEndian, fs[1..]);
    }
  }

  lemma TimeBytes(t: int64, s: seq<byte>)
    requires |s| == 8
    ensures Signed(s) == t <==> s == BE(t, 8)
  {
    Int64RoundTrip(t);
    BEOfSigned(s);
  }

  lemma MakeIff(c: Command, time: seq<byte>, fs: seq<Double>)
    requires |time| == 8 && |fs| == FieldCount(Id(c))
    ensures Make(Id(c), time, fs) == c <==> fs == Fields(c) && (c.Track? ==> time == BE(c.time, 8))
  {
    if c.Track? {
      TimeBytes(c.time, time);
    }
  }

  /** Where the first double starts in a serialization. */
  function From(id: byte): nat {
    if id == 3 then 9 else 1
  }

  lemma WireParts(bigEndian: bool, c: Command)
    ensures var w := Wire(bigEndian, c); var from := From(Id(c));
            && |w| == from + 8 * FieldCount(Id(c)) && w[0] == Id(c)
            && w[from..] == Doubles(bigEndian, Fields(c)) && (c.Track? ==> w[1..from] == BE(c.time, 8))
  {
    var head, ds := if c.Track? then BE(c.time, 8) else [], Doubles(bigEndian, Fields(c));
    assert |Fields(c)| == FieldCount(Id(c));
    assert Wire(bigEndian, c) == [Id(c)] + (head + ds);
    Assoc([Id(c)], head, ds);
    TakeAppend([Id(c)] + head, ds);
  }

  /** Only a frame that is long enough and starts with the command's code can be read as the command. */
  lemma ParsedHead(bigEndian: bool, c: Command, d: seq<byte>)
    ensures Parse(bigEndian, d) == Some(c) ==> d != [] && d[0] == Id(c) && |d| >= From(Id(c)) + 8 * FieldCount(Id(c))
  {
    hide DoublesAt;
  }

  /** A frame is read as the command `c` exactly when it starts with the serialization of `c`. */
  lemma ParseIffPrefix(bigEndian: bool, c: Command, d: seq<byte>)
    ensures Parse(bigEndian, d) == Some(c) <==> Wire(bigEndian, c) <= d
  {
    var w, id := Wire(bigEndian, c), Id(c);
    WireParts(bigEndian, c);
    ParsedHead(bigEndian, c, d);
    hide Parse, Wire, Doubles, DoublesAt, Fields, BE;
    if d == [] || d[0] != w[0] || |d| < |w| {
      assert !(w <= d);
    } else {
      ParseSameShape(bigEndian, c, d);
      PrefixByParts(w, d, From(id));
      DoublesBytes(bigEndian, Fields(c), d[From(id)..|w|]);
    }
  }

  lemma ParseSameShape(bigEndian: bool, c: Command, d: seq<byte>)
    requires d != [] && d[0] == Id(c) && |d| >= From(Id(c)) + 8 * FieldCount(Id(c))
    ensures var end := From(Id(c)) + 8 * FieldCount(Id(c));
            Parse(bigEndian, d) == Some(c)
            <==> DoublesAt(bigEndian, d[From(Id(c))..end]) == Fields(c)
                 && (c.Track? ==> d[1..From(Id(c))] == BE(c.time, 8))
  {
    var id := Id(c);
    var end := From(id) + 8 * FieldCount(id);
    MakeIff(c, if id == 3 then d[1..9] else NO_TIME, DoublesAt(bigEndian, d[From(id)..end]));
  }

  lemma PrefixByParts(w: seq<byte>, d: seq<byte>, from: nat)
    requires |w| <= |d| && 1 <= from <= |w| && w[0] == d[0]
    ensures w <= d <==> w[1..from] == d[1..from] && w[from..] == d[from..|w|]
  {
    assert w == [w[0]] + w[1..from] + w[from..];
    assert d[..|w|] == [d[0]] + d[1..from] + d[from..|w|];
    if w <= d {
      assert w == d[..|w|];
      assert w[1..from] == d[..|w|][1..from] && w[from..] == d[..|w|][from..];
    }
  }

  /** Every serialization reads back, and none of its strict prefixes reads as any command. */
  lemma SerializeRoundTrip(bigEndian: bool, c: Command)
    ensures Parse(bigEndian, Wire(bigEndian, c)) == Some(c)
    ensures forall n :: 0 <= n < |Wire(bigEndian, c)| ==> Parse(bigEndian, Wire(bigEndian, c)[..n]) == None
  {
    var w := Wire(bigEndian, c);
    ParseIffPrefix(bigEndian, c, w);
    forall n | 0 <= n < |w| ensures Parse(bigEndian, w[..n]) == None {
      WireParts(bigEndian, c);
    }
  }

  // ----- hosts of different byte order

  /** The command with the bytes of its doubles in the opposite order: the same numbers on the other kind of host. */
  function OtherOrder(c: Command): Command {
    match c
    case Stop => Stop
    case Goto(a, b) => Goto(Reverse(a), Reverse(b))
    case Speed(va, vb) => Speed(Reverse(va), Reverse(vb))
    case Track(time, a, b, va, vb, aa, ab) =>
      Track(time, Reverse(a), Reverse(b), Reverse(va), Reverse(vb), Reverse(aa), Reverse(ab))
    case SetPosition(a, b) => SetPosition(Reverse(a), Reverse(b))
  }

  function ReverseEach(fs: seq<Double>): (r: seq<Double>)
    ensures |r| == |fs|
  {
    seq(|fs|, i requires 0 <= i < |fs| => Reverse(fs[i]))
  }

  lemma FieldsOther(c: Command)
    ensures Fields(OtherOrder(c)) == ReverseEach(Fields(c)) && Id(OtherOrder(c)) == Id(c)
    ensures c.Track? <==> OtherOrder(c).Track?
    ensures c.Track? ==> OtherOrder(c).time == c.time
  {
    hide Reverse;
  }

  lemma {:induction false} DoublesOther(bigEndian: bool, fs: seq<Double>)
    ensures Doubles(!bigEndian, ReverseEach(fs)) == Doubles(bigEndian, fs)
  {
    if fs != [] {
      DoublesOther(bigEndian, fs[1..]);
      assert ReverseEach(fs)[1..] == ReverseEach(fs[1..]);
      ReverseTwice(fs[0]);
    }
  }

  lemma WireOther(bigEndian: bool, c: Command)
    ensures Wire(!bigEndian, OtherOrder(c)) == Wire(bigEndian, c)
  {
    FieldsOther(c);
    DoublesOther(bigEndian, Fields(c));
    hide Doubles, Fields, OtherOrder, ReverseEach, BE;
  }

  /** Whatever the byte orders of the two hosts, the receiver reads the command that was sent: every double has the same
      bytes, in the receiver's own order. */
  lemma CrossHost(sender: bool, receiver: bool, c: Command)
    ensures Parse(receiver, Wire(sender, c)) == Some(if sender == receiver then c else OtherOrder(c))
  {
    hide Parse, Wire, OtherOrder;
    if sender == receiver {
      SerializeRoundTrip(sender, c);
    } else {
      WireOther(sender, c);
      SerializeRoundTrip(receiver, OtherOrder(c));
    }
  }

  // ----- commands over the framing

  function WireAll(bigEndian: bool, cs: seq<Command>): seq<seq<byte>> {
    if cs == [] then [] else [Wire(bigEndian, cs[0])] + WireAll(bigEndian, cs[1..])
  }

  function ParseAll(bigEndian: bool, frames: seq<seq<byte>>): seq<Option<Command>> {
    if frames == [] then [] else [Parse(bigEndian, frames[0])] + ParseAll(bigEndian, frames[1..])
  }

  function SomeAll(cs: seq<Command>): seq<Option<Command>> {
    seq(|cs|, i requires 0 <= i < |cs| => Some(cs[i]))
  }

  lemma {:induction false} WireAllParses(bigEndian: bool, cs: seq<Command>)
    ensures Slip.NonEmpty(WireAll(bigEndian, cs)) == WireAll(bigEndian, cs)
    ensures ParseAll(bigEndian, WireAll(bigEndian, cs)) == SomeAll(cs)
  {
    if cs != [] {
      SerializeRoundTrip(bigEndian, cs[0]);
      WireAllParses(bigEndian, cs[1..]);
      assert SomeAll(cs) == [Some(cs[0])] + SomeAll(cs[1..]);
    }
  }

  /** Commands sent through the framing arrive as the same list, on any link that was idle,
      and after the first END also on a link that was not. */
  lemma CommandsOverSlip(bigEndian: bool, s: Slip.State, noise: seq<byte>, cs: seq<Command>)
    ensures var stream := Slip.EncodedAll(WireAll(bigEndian, cs));
            && ParseAll(bigEndian, Slip.Run(Slip.INITIAL, stream).frames) == SomeAll(cs)
            && var before := Slip.Run(s, noise + [Slip.END]).frames;
               var after := Slip.Run(s, noise + [Slip.END] + stream).frames;
               before <= after && ParseAll(bigEndian, after[|before|..]) == SomeAll(cs)
  {
    var wires := WireAll(bigEndian, cs);
    WireAllParses(bigEndian, cs);
    Slip.RoundTrip(Slip.INITIAL, wires);
    assert [] + wires == wires;
    Slip.SelfSynchronises(s, noise, wires);
  }
}
