/** Byte-stuffed framing (common/turret/slip.cpp), after the PROTOCOL section of RFC 1055. */
module Slip {
  import opened Bytes
  import opened Sequences

  const END: byte := 0xC0
  const ESC: byte := 0xDB
  const ESC_END: byte := 0xDC
  const ESC_ESC: byte := 0xDD

  /** What the decoder holds between two bytes, and what it has reported so far. */
  datatype State = State(decoded: seq<byte>, esc: bool, errors: nat, frames: seq<seq<byte>>)

  const INITIAL := State([], false, 0, [])

  /** One received byte. */
  function Step(s: State, b: byte): State {
    if b == END then
      State([], false, s.errors, if s.decoded == [] then s.frames else s.frames + [s.decoded])
    else if s.esc then
      if b == ESC_END then s.(decoded := s.decoded + [END], esc := false)
      else if b == ESC_ESC then s.(decoded := s.decoded + [ESC], esc := false)
      else s.(errors := s.errors + 1, esc := false)
    else if b == ESC then s.(esc := true)
    else s.(decoded := s.decoded + [b])
  }

  function Run(s: State, input: seq<byte>): State
    decreases |input|
  {
    if input == [] then s else Run(Step(s, input[0]), input[1..])
  }

  /** The receiver. The frame callback is modelled by the list of the frames passed to it. */
  class Decoder {
    var decoded: seq<byte>
    var esc: bool
    var frameErrorCount: nat
    var reported: seq<seq<byte>>

    function View(): State
      reads this
    {
      State(decoded, esc, frameErrorCount, reported)
    }

    constructor ()
      ensures View() == INITIAL
    {
      decoded, esc, frameErrorCount, reported := [], false, 0, [];
    }

    method ProcessFrame()
      modifies this
      ensures decoded == [] && esc == old(esc) && frameErrorCount == old(frameErrorCount)
      ensures reported == if old(decoded) == [] then old(reported) else old(reported) + [old(decoded)]
    {
      if decoded != [] {
        reported := reported + [decoded];
        decoded := [];
      }
    }

    method DecodeByte(b: byte)
      modifies this
      ensures View() == Step(old(View()), b)
    {
      if b == END {
        ProcessFrame();
        esc := false;
        return;
      }
      if esc {
        if b == ESC_END {
          decoded := decoded + [END];
        } else if b == ESC_ESC {
          decoded := decoded + [ESC];
        } else {
          frameErrorCount := frameErrorCount + 1;
        }
        esc := false;
      } else {
        if b == ESC {
          esc := true;
        } else {
          decoded := decoded + [b];
        }
      }
    }

    method Decode(data: seq<byte>)
      modifies this
      ensures View() == Run(old(View()), data)
    {
      for i := 0 to |data|
        invariant Run(View(), data[i..]) == Run(old(View()), data)
      {
        assert data[i..][1..] == data[i + 1..];
        DecodeByte(data[i]);
      }
    }

    method Reset()
      modifies this
      ensures View() == INITIAL.(frames := old(reported))
    {
      esc, frameErrorCount, decoded := false, 0, [];
    }
  }

  // ----- sending

  function Stuff(b: byte): (s: seq<byte>)
    ensures END !in s
  {
    if b == END then [ESC, ESC_END] else if b == ESC then [ESC, ESC_ESC] else [b]
  }

  function StuffAll(frame: seq<byte>): (s: seq<byte>)
    ensures END !in s
  {
    if frame == [] then [] else Stuff(frame[0]) + StuffAll(frame[1..])
  }

  function Encoded(frame: seq<byte>): seq<byte> {
    StuffAll(frame) + [END]
  }

  function EncodedAll(frames: seq<seq<byte>>): seq<byte> {
    if frames == [] then [] else Encoded(frames[0]) + EncodedAll(frames[1..])
  }

  /** Appends one encoded frame to `output`. */
  method Encode(frame: seq<byte>, output: seq<byte>) returns (extended: seq<byte>)
    ensures extended == output + Encoded(frame)
  {
    extended := output;
    for i := 0 to |frame|
      invariant extended + StuffAll(frame[i..]) == output + StuffAll(frame)
    {
      StuffNext(frame, i);
      Assoc(extended, Stuff(frame[i]), StuffAll(frame[i + 1..]));
      hide StuffAll;
      if frame[i] == END {
        TwoBytes(extended, ESC, ESC_END);
        extended := extended + [ESC];
        extended := extended + [ESC_END];
      } else if frame[i] == ESC {
        TwoBytes(extended, ESC, ESC_ESC);
        extended := extended + [ESC];
        extended := extended + [ESC_ESC];
      } else {
        extended := extended + [frame[i]];
      }
    }
    assert frame[|frame|..] == [] && extended + [] == extended;
    Assoc(output, StuffAll(frame), [END]);
    extended := extended + [END];
  }

  lemma StuffNext(frame: seq<byte>, i: nat)
    requires i < |frame|
    ensures StuffAll(frame[i..]) == Stuff(frame[i]) + StuffAll(frame[i + 1..])
  {
    assert frame[i..][1..] == frame[i + 1..];
  }

  lemma TwoBytes(s: seq<byte>, a: byte, b: byte)
    ensures s + [a] + [b] == s + [a, b]
  {
  }

  // ----- the decoder undoes the encoder

  function NonEmpty(frames: seq<seq<byte>>): seq<seq<byte>> {
    if frames == [] then []
    else NonEmpty1(frames[0]) + NonEmpty(frames[1..])
  }

  lemma {:induction false} RunAppend(s: State, a: seq<byte>, b: seq<byte>)
    ensures Run(s, a + b) == Run(Run(s, a), b)
    decreases |a|
  {
    if a == [] {
      assert a + b == b;
    } else {
      assert (a + b)[1..] == a[1..] + b;
      RunAppend(Step(s, a[0]), a[1..], b);
    }
  }

  lemma RunStuff(s: State, b: byte)
    requires !s.esc
    ensures Run(s, Stuff(b)) == s.(decoded := s.decoded + [b])
  {
    if b == END || b == ESC {
      assert Stuff(b)[1..][1..] == [];
      assert Run(s, Stuff(b)) == Run(Step(Step(s, ESC), Stuff(b)[1]), []);
    } else {
      assert Run(s, Stuff(b)) == Run(Step(s, b), []);
    }
  }

  lemma {:induction false} RunStuffAll(s: State, frame: seq<byte>)
    requires !s.esc
    ensures Run(s, StuffAll(frame)) == s.(decoded := s.decoded + frame)
    decreases |frame|
  {
    if frame == [] {
      assert s.decoded + [] == s.decoded;
    } else {
      var first, rest := frame[0], frame[1..];
      assert StuffAll(frame) == Stuff(first) + StuffAll(rest);
      hide Run, Stuff, StuffAll;
      RunAppend(s, Stuff(first), StuffAll(rest));
      RunStuff(s, first);
      RunStuffAll(s.(decoded := s.decoded + [first]), rest);
      Assoc(s.decoded, [first], rest);
      assert [first] + rest == frame;
    }
  }

  lemma RunEncoded(s: State, f: seq<byte>)
    requires s.decoded == [] && !s.esc
    ensures Run(s, Encoded(f)) == s.(frames := s.frames + NonEmpty1(f))
  {
    RunAppend(s, StuffAll(f), [END]);
    RunStuffAll(s, f);
    assert s.decoded + f == f;
    assert Run(s, Encoded(f)) == Run(Step(s.(decoded := f), END), []);
  }

  /** Between frames, decoding an encoded stream reports every non-empty frame and nothing else:
      the decoder is again between frames and has counted no error. */
  lemma {:induction false} RoundTrip(s: State, frames: seq<seq<byte>>)
    requires s.decoded == [] && !s.esc
    ensures Run(s, EncodedAll(frames)) == s.(frames := s.frames + NonEmpty(frames))
    decreases |frames|
  {
    if frames == [] {
      assert s.frames + NonEmpty(frames) == s.frames;
    } else {
      var f := frames[0];
      RunAppend(s, Encoded(f), EncodedAll(frames[1..]));
      RunEncoded(s, f);
      var s1 := Run(s, Encoded(f));
      RoundTrip(s1, frames[1..]);
      Assoc(s.frames, NonEmpty1(f), NonEmpty(frames[1..]));
    }
  }

  /** Self-synchronisation: whatever the decoder held, and whatever noise preceded the first END,
      every non-empty frame sent after that END is reported exactly. */
  lemma SelfSynchronises(s: State, noise: seq<byte>, frames: seq<seq<byte>>)
    ensures var s1 := Run(s, noise + [END]);
            Run(s, noise + [END] + EncodedAll(frames)) == State([], false, s1.errors, s1.frames + NonEmpty(frames))
  {
    RunAppend(s, noise, [END]);
    assert Run(s, noise + [END]) == Step(Run(s, noise), END);
    RunAppend(s, noise + [END], EncodedAll(frames));
    RoundTrip(Run(s, noise + [END]), frames);
  }

  // ----- what the decoder computes on an arbitrary stream

  /** The segments of a stream: the pieces ended by END, and the unfinished last piece. */
  function Pieces(input: seq<byte>): (p: seq<seq<byte>>)
    ensures |p| > 0
  {
    if input == [] then [[]]
    else if input[0] == END then [[]] + Pieces(input[1..])
    else var rest := Pieces(input[1..]); [[input[0]] + rest[0]] + rest[1..]
  }

  /** One segment without its stuffing: an invalid escape loses both of its bytes. */
  function Unstuff(piece: seq<byte>): seq<byte> {
    if piece == [] then []
    else if piece[0] != ESC then [piece[0]] + Unstuff(piece[1..])
    else if |piece| == 1 then []
    else (if piece[1] == ESC_END then [END] else if piece[1] == ESC_ESC then [ESC] else []) + Unstuff(piece[2..])
  }

  /** The invalid escapes of one segment; an ESC directly before END is not counted. */
  function BadEscapes(piece: seq<byte>): nat {
    if piece == [] then 0
    else if piece[0] != ESC then BadEscapes(piece[1..])
    else if |piece| == 1 then 0
    else (if piece[1] == ESC_END || piece[1] == ESC_ESC then 0 else 1) + BadEscapes(piece[2..])
  }

  function UnstuffEach(pieces: seq<seq<byte>>): seq<seq<byte>> {
    if pieces == [] then [] else [Unstuff(pieces[0])] + UnstuffEach(pieces[1..])
  }

  function CountBad(pieces: seq<seq<byte>>): nat {
    if pieces == [] then 0 else BadEscapes(pieces[0]) + CountBad(pieces[1..])
  }

  lemma {:induction false} RunPiece(s: State, piece: seq<byte>)
    requires !s.esc && END !in piece
    ensures var r := Run(s, piece);
            r.decoded == s.decoded + Unstuff(piece) && r.frames == s.frames
            && r.errors == s.errors + BadEscapes(piece)
    decreases |piece|
  {
    if piece == [] {
    } else if piece[0] != ESC {
      var s1 := Step(s, piece[0]);
      RunPiece(s1, piece[1..]);
      assert s1.decoded + Unstuff(piece[1..]) == s.decoded + ([piece[0]] + Unstuff(piece[1..]));
    } else if |piece| == 1 {
      assert Run(s, piece) == Run(Step(s, ESC), []);
    } else {
      var s2 := Step(Step(s, ESC), piece[1]);
      assert Run(s, piece) == Run(s2, piece[2..]) by {
        assert piece[1..][1..] == piece[2..];
      }
      RunPiece(s2, piece[2..]);
      var plain := if piece[1] == ESC_END then [END] else if piece[1] == ESC_ESC then [ESC] else [];
      assert s2.decoded == s.decoded + plain;
      assert s2.decoded + Unstuff(piece[2..]) == s.decoded + (plain + Unstuff(piece[2..]));
    }
  }

  lemma {:induction false} PiecesSplit(input: seq<byte>)
    ensures END !in Pieces(input)[0]
    ensures |Pieces(input)| == 1 ==> input == Pieces(input)[0]
    ensures |Pieces(input)| > 1 ==>
              var k := |Pieces(input)[0]|;
              k < |input| && input == Pieces(input)[0] + [END] + input[k + 1..]
              && Pieces(input)[1..] == Pieces(input[k + 1..])
  {
    if input != [] {
      var first, tail := input[0], input[1..];
      assert input == [first] + tail;
      if first == END {
        assert [] + [END] == [END];
      } else {
        PiecesSplit(tail);
        var rest := Pieces(tail);
        PiecesCons(input);
        hide Pieces;
        if |rest| > 1 {
          SplitCons(first, rest[0], input, tail);
        }
      }
    }
  }

  lemma PiecesCons(input: seq<byte>)
    requires input != [] && input[0] != END
    ensures var rest, p := Pieces(input[1..]), Pieces(input);
            p[0] == [input[0]] + rest[0] && |p| == |rest| && p[1..] == rest[1..]
  {
  }

  lemma SplitCons(first: byte, piece: seq<byte>, input: seq<byte>, tail: seq<byte>)
    requires input == [first] + tail && |piece| < |tail| && tail == piece + [END] + tail[|piece| + 1..]
    ensures var k := |piece| + 1; k < |input| && tail[k..] == input[k + 1..]
    ensures input == [first] + piece + [END] + input[|piece| + 2..]
  {
    var after := tail[|piece| + 1..];
    assert input[|piece| + 2..] == after;
    Assoc([first], piece, [END]);
    Assoc([first], piece + [END], after);
  }

  /** For every stream the decoder reports exactly the non-empty unstuffed END-terminated segments,
      keeps the unstuffed unfinished segment, and counts exactly the invalid escapes. */
  lemma {:induction false} DecoderMeaning(s: State, input: seq<byte>)
    requires s.decoded == [] && !s.esc
    ensures var p := Pieces(input); var last := |p| - 1; var r := Run(s, input);
            && r.frames == s.frames + NonEmpty(UnstuffEach(p[..last]))
            && r.decoded == Unstuff(p[last])
            && r.errors == s.errors + CountBad(p)
    decreases |input|
  {
    var p := Pieces(input);
    PiecesSplit(input);
    hide Run, Pieces, Unstuff, BadEscapes;
    if |p| == 1 {
      RunPiece(s, p[0]);
      assert p[..0] == [] && p[1..] == [];
    } else {
      var rest, last := input[|p[0]| + 1..], |p| - 1;
      RunTerminatedPiece(s, p[0], rest);
      DecoderMeaning(AfterPiece(s, p[0]), rest);
      var inner := p[1..][..last - 1];
      assert p[..last][0] == p[0] && p[..last][1..] == inner;
      Assoc(s.frames, NonEmpty1(Unstuff(p[0])), NonEmpty(UnstuffEach(inner)));
    }
  }

  function NonEmpty1(frame: seq<byte>): seq<seq<byte>> {
    if frame == [] then [] else [frame]
  }

  function AfterPiece(s: State, piece: seq<byte>): State {
    State([], false, s.errors + BadEscapes(piece), s.frames + NonEmpty1(Unstuff(piece)))
  }

  lemma RunTerminatedPiece(s: State, piece: seq<byte>, rest: seq<byte>)
    requires s.decoded == [] && !s.esc && END !in piece
    ensures Run(s, piece + [END] + rest) == Run(AfterPiece(s, piece), rest)
  {
    RunAppend(s, piece + [END], rest);
    RunAppend(s, piece, [END]);
    RunPiece(s, piece);
    var mid := Run(s, piece);
    RunOne(mid, END);
    hide Run, Unstuff, BadEscapes;
    assert [] + Unstuff(piece) == Unstuff(piece);
    assert s.frames + [] == s.frames;
    assert Step(mid, END) == AfterPiece(s, piece);
  }

  lemma RunOne(s: State, b: byte)
    ensures Run(s, [b]) == Step(s, b)
  {
    assert Run(s, [b]) == Run(Step(s, b), []);
  }
}
