/** The message stream between the programs: the sender (common/model/m_rpc_d_former.cpp) and the
    incremental reader (common/model/m_rpc_sink.cpp). */
module RpcFraming {
  import opened Bytes
  import opened Sequences

  const MAX_MSG_LEN := 100 * 1024 * 1024
  const HEART_BEAT_TYPE: byte := 0
  const DATA_TYPE: byte := 1

  /** What a stream carries. */
  datatype Event = HeartBeat | Message(payload: seq<byte>)

  /** The 32-bit message counter, which wraps around. */
  function Next(index: nat): (n: nat)
    ensures n < U32
  {
    (index + 1) % U32
  }

  // ----- the reader, one byte at a time

  /** Where the reader stands inside a message, with the bytes of the current field read so far. */
  datatype Parser = Index(buf: seq<byte>) | Type | Len(buf: seq<byte>) | Body(need: nat, buf: seq<byte>) | TooLong

  datatype State = State(parser: Parser, index: nat, events: seq<Event>)

  /** The result of reading: `rest` holds the unread bytes when the reader asked to break. */
  datatype Outcome = Outcome(state: State, rest: seq<byte>, broke: bool)

  /** The next state, and whether the reader asks to break the connection. */
  function Step(s: State, b: byte): (State, bool)
    requires !s.parser.TooLong?
  {
    match s.parser
    case Index(buf) =>
      if |buf| < 3 then (s.(parser := Index(buf + [b])), false)
      else (State(Type, Next(s.index), s.events), FromLE(buf + [b]) != Next(s.index))
    case Type =>
      if b == HEART_BEAT_TYPE then (State(Index([]), s.index, s.events + [HeartBeat]), false)
      else (s.(parser := Len([])), false)
    case Len(buf) =>
      if |buf| < 3 then (s.(parser := Len(buf + [b])), false)
      else
        var len := FromLE(buf + [b]);
        if len > MAX_MSG_LEN then (s.(parser := TooLong), true)
        else if len == 0 then (State(Index([]), s.index, s.events + [Message([])]), false)
        else (s.(parser := Body(len, [])), false)
    case Body(need, buf) =>
      if |buf| + 1 < need then (s.(parser := Body(need, buf + [b])), false)
      else (State(Index([]), s.index, s.events + [Message(buf + [b])]), false)
  }

  function Feed(s: State, data: seq<byte>): Outcome
    decreases |data|
  {
    if data == [] then Outcome(s, [], false)
    else if s.parser.TooLong? then Outcome(s, data, true)
    else
      var (next, broke) := Step(s, data[0]);
      if broke then Outcome(next, data[1..], true) else Feed(next, data[1..])
  }

  const FRESH := State(Index([]), 0, [])

  // ----- the reader, field by field and block by block

  datatype Stage = StageIndex | StageType | StageLen | StageBody

  lemma OneByteMore(buf: seq<byte>, at: nat, before: seq<byte>, data: seq<byte>, k: nat)
    requires at < |buf| && k < |data| && buf[..at] == before + data[..k]
    ensures buf[at := data[k]][..at + 1] == before + data[..k + 1]
  {
    var next := buf[at := data[k]];
    assert next[..at + 1] == next[..at] + [data[k]] && next[..at] == buf[..at];
    assert data[..k + 1] == data[..k] + [data[k]];
    Assoc(before, data[..k], [data[k]]);
  }

  /** The reader. The virtual callbacks are modelled by the list of what was passed to them. */
  class RpcSink {
    var rdStage: Stage
    var msgType: byte
    var msgIndex: nat
    var msgLen: nat
    var rdData: seq<byte>
    var stageNumRead: nat
    var received: seq<Event>

    /** The field being read fits into the scratch buffer that all stages share. */
    predicate Valid()
      reads this
    {
      && |rdData| >= 1024
      && match rdStage
         case StageIndex => stageNumRead < 4
         case StageType => stageNumRead == 4
         case StageLen => stageNumRead < 4 || (stageNumRead == 4 && FromLE(rdData[..4]) > MAX_MSG_LEN)
         case StageBody => stageNumRead < msgLen <= |rdData|
    }

    function View(): State
      requires Valid()
      reads this
    {
      State(
        match rdStage
        case StageIndex => Index(rdData[..stageNumRead])
        case StageType => Type
        case StageLen => if stageNumRead < 4 then Len(rdData[..stageNumRead]) else TooLong
        case StageBody => Body(msgLen, rdData[..stageNumRead]),
        msgIndex, received)
    }

    constructor ()
      ensures Valid() && View() == FRESH
    {
      rdStage, msgType, msgIndex, msgLen, stageNumRead, received := StageIndex, 0, 0, 0, 0, [];
      rdData := seq(1024, _ => 0);
    }

    /** Copies bytes into the scratch buffer until the four bytes of a field are there. */
    method FillField(data: seq<byte>) returns (numConsumed: nat)
      requires stageNumRead <= 4 <= |rdData|
      modifies this`rdData, this`stageNumRead
      ensures numConsumed <= |data| && stageNumRead == old(stageNumRead) + numConsumed <= 4
      ensures stageNumRead < 4 ==> numConsumed == |data|
      ensures |rdData| == old(|rdData|)
      ensures rdData[..stageNumRead] == old(rdData[..stageNumRead]) + data[..numConsumed]
    {
      numConsumed := 0;
      while numConsumed < |data| && stageNumRead < 4
        invariant numConsumed <= |data| && stageNumRead == old(stageNumRead) + numConsumed <= 4
        invariant |rdData| == old(|rdData|)
        invariant rdData[..stageNumRead] == old(rdData[..stageNumRead]) + data[..numConsumed]
      {
        OneByteMore(rdData, stageNumRead, old(rdData[..stageNumRead]), data, numConsumed);
        rdData := rdData[stageNumRead := data[numConsumed]];
        stageNumRead := stageNumRead + 1;
        numConsumed := numConsumed + 1;
      }
    }

    method ReadStageMsgIndex(data: seq<byte>) returns (numConsumed: nat, breakConn: bool)
      requires Valid() && rdStage == StageIndex && data != []
      modifies this
      ensures Valid() && 0 < numConsumed <= |data|
      ensures Feed(old(View()), data) == Continue(View(), data[numConsumed..], breakConn)
    {
      ghost var s := View();
      numConsumed := FillField(data);
      FeedIndex(s, data, numConsumed);
      breakConn := false;
      if stageNumRead == 4 {
        var rdMsgIndex := FromLE(rdData[..4]);
        msgIndex := (msgIndex + 1) % U32;
        if rdMsgIndex != msgIndex {
          breakConn := true;
        }
        rdStage := StageType;
      }
    }

    method ReadStageMsgType(data: seq<byte>) returns (numConsumed: nat)
      requires Valid() && rdStage == StageType && data != []
      modifies this
      ensures Valid() && numConsumed == 1
      ensures Feed(old(View()), data) == Feed(View(), data[1..])
    {
      msgType := data[0];
      if msgType == HEART_BEAT_TYPE {
        received := received + [HeartBeat];
        rdStage := StageIndex;
      } else {
        rdStage := StageLen;
      }
      stageNumRead := 0;
      return 1;
    }

    method ReadStageMsgLen(data: seq<byte>) returns (numConsumed: nat, breakConn: bool)
      requires Valid() && rdStage == StageLen && data != []
      modifies this
      ensures Valid() && numConsumed <= |data| && (!breakConn ==> 0 < numConsumed)
      ensures Feed(old(View()), data) == Continue(View(), data[numConsumed..], breakConn)
    {
      ghost var s := View();
      numConsumed := FillField(data);
      if s.parser.TooLong? {
        assert data[..numConsumed] == [] && rdData[..4] == old(rdData[..4]);
      } else {
        FeedLen(s, data, numConsumed);
      }
      breakConn := false;
      if stageNumRead == 4 {
        msgLen := FromLE(rdData[..4]);
        if msgLen > MAX_MSG_LEN {
          breakConn := true;
        } else if msgLen != 0 {
          rdStage := StageBody;
          stageNumRead := 0;
          if |rdData| < msgLen {
            rdData := rdData + seq(msgLen - |rdData|, _ => 0);
          }
        } else {
          received := received + [Message([])];
          stageNumRead := 0;
          rdStage := StageIndex;
        }
      }
    }

    method ReadStageMsgBody(data: seq<byte>) returns (canRead: nat)
      requires Valid() && rdStage == StageBody && data != []
      modifies this
      ensures Valid() && 0 < canRead <= |data|
      ensures Feed(old(View()), data) == Feed(View(), data[canRead..])
    {
      ghost var s := View();
      var needBytesToFullMsg := msgLen - stageNumRead;
      canRead := if |data| < needBytesToFullMsg then |data| else needBytesToFullMsg;
      FeedBody(s, data, canRead);
      rdData := rdData[..stageNumRead] + data[..canRead] + rdData[stageNumRead + canRead..];
      stageNumRead := stageNumRead + canRead;
      assert rdData[..stageNumRead] == s.parser.buf + data[..canRead];
      if stageNumRead == msgLen {
        received := received + [Message(rdData[..msgLen])];
        stageNumRead := 0;
        rdStage := StageIndex;
      }
    }

    method ReadNextStage(data: seq<byte>) returns (numProc: nat, breakConn: bool)
      requires Valid() && data != []
      modifies this
      ensures Valid() && numProc <= |data| && (!breakConn ==> 0 < numProc)
      ensures Feed(old(View()), data) == Continue(View(), data[numProc..], breakConn)
    {
      breakConn := false;
      match rdStage
      case StageIndex => numProc, breakConn := ReadStageMsgIndex(data);
      case StageType => numProc := ReadStageMsgType(data);
      case StageLen => numProc, breakConn := ReadStageMsgLen(data);
      case StageBody => numProc := ReadStageMsgBody(data);
    }

    /** One call with the bytes that a socket read returned. `breakBefore` is the caller's flag, which
        an empty read leaves alone. What follows a break request inside one read is dropped. */
    method OnNextRawRead(data: seq<byte>, breakBefore: bool) returns (breakConn: bool)
      requires Valid()
      modifies this
      ensures Valid()
      ensures View() == Feed(old(View()), data).state
      ensures breakConn == if data == [] then breakBefore else Feed(old(View()), data).broke
    {
      breakConn := breakBefore;
      var pos := 0;
      while pos < |data|
        invariant Valid() && 0 <= pos <= |data|
        invariant Feed(old(View()), data) == Feed(View(), data[pos..])
        invariant breakConn == if pos == 0 then breakBefore else false
      {
        var numProc;
        var pending := data[pos..];
        numProc, breakConn := ReadNextStage(pending);
        if breakConn {
          break;
        }
        assert pending[numProc..] == data[pos + numProc..];
        pos := pos + numProc;
      }
    }
  }

  /** What remains to be read after part of a call. */
  function Continue(s: State, rest: seq<byte>, broke: bool): Outcome {
    if broke then Outcome(s, rest, true) else Feed(s, rest)
  }

  /** The first of `n` bytes, moved from the data to the field. */
  lemma Peel(buf: seq<byte>, data: seq<byte>, n: nat)
    requires 0 < n <= |data|
    ensures buf + data[..n] == buf + [data[0]] + data[1..][..n - 1]
    ensures data[1..][n - 1..] == data[n..]
    ensures n == 1 ==> data[..n] == [data[0]]
  {
  }

  function AfterIndex(s: State, field: seq<byte>): (State, bool) {
    if |field| < 4 then (s.(parser := Index(field)), false)
    else (State(Type, Next(s.index), s.events), FromLE(field) != Next(s.index))
  }

  lemma NoBytes(buf: seq<byte>, data: seq<byte>)
    ensures buf + data[..0] == buf && data[0..] == data
  {
  }

  lemma FeedStep(s: State, data: seq<byte>)
    requires data != [] && !s.parser.TooLong?
    ensures Feed(s, data) == var (next, broke) := Step(s, data[0]); Continue(next, data[1..], broke)
  {
    hide Step;
  }

  lemma {:induction false} FeedIndex(s: State, data: seq<byte>, n: nat)
    requires s.parser.Index? && |s.parser.buf| < 4
    requires n <= |data| && |s.parser.buf| + n <= 4
    ensures var (next, broke) := AfterIndex(s, s.parser.buf + data[..n]);
            Feed(s, data) == Continue(next, data[n..], broke)
    decreases n
  {
    var buf := s.parser.buf;
    if n == 0 {
      NoBytes(buf, data);
    } else {
      IndexStep(s, data[0], buf + data[..n]);
      FeedStep(s, data);
      Peel(buf, data, n);
      hide Feed, Step, AfterIndex;
      if |buf| < 3 {
        FeedIndex(s.(parser := Index(buf + [data[0]])), data[1..], n - 1);
      }
    }
  }

  lemma IndexStep(s: State, b: byte, field: seq<byte>)
    requires s.parser.Index? && |s.parser.buf| < 4
    ensures var buf := s.parser.buf; var next := s.(parser := Index(buf + [b]));
            && Step(s, b) == (if |buf| < 3 then (next, false) else AfterIndex(s, buf + [b]))
            && AfterIndex(next, field) == AfterIndex(s, field)
  {
    hide FromLE;
  }

  function AfterLen(s: State, field: seq<byte>): (State, bool) {
    if |field| < 4 then (s.(parser := Len(field)), false)
    else if FromLE(field) > MAX_MSG_LEN then (s.(parser := TooLong), true)
    else if FromLE(field) == 0 then (State(Index([]), s.index, s.events + [Message([])]), false)
    else (s.(parser := Body(FromLE(field), [])), false)
  }

  lemma {:induction false} FeedLen(s: State, data: seq<byte>, n: nat)
    requires s.parser.Len? && |s.parser.buf| < 4
    requires n <= |data| && |s.parser.buf| + n <= 4
    ensures var (next, broke) := AfterLen(s, s.parser.buf + data[..n]);
            Feed(s, data) == Continue(next, data[n..], broke)
    decreases n
  {
    var buf := s.parser.buf;
    if n == 0 {
      NoBytes(buf, data);
    } else {
      LenStep(s, data[0], buf + data[..n]);
      FeedStep(s, data);
      Peel(buf, data, n);
      hide Feed, Step, AfterLen;
      if |buf| < 3 {
        FeedLen(s.(parser := Len(buf + [data[0]])), data[1..], n - 1);
      }
    }
  }

  lemma LenStep(s: State, b: byte, field: seq<byte>)
    requires s.parser.Len? && |s.parser.buf| < 4
    ensures var buf := s.parser.buf; var next := s.(parser := Len(buf + [b]));
            && Step(s, b) == (if |buf| < 3 then (next, false) else AfterLen(s, buf + [b]))
            && AfterLen(next, field) == AfterLen(s, field)
  {
    hide FromLE;
  }

  function AfterBody(s: State, need: nat, field: seq<byte>): State {
    if |field| < need then s.(parser := Body(need, field))
    else State(Index([]), s.index, s.events + [Message(field)])
  }

  /** A block copied into the body is what its bytes would have been one by one. */
  lemma {:induction false} FeedBody(s: State, data: seq<byte>, n: nat)
    requires s.parser.Body? && |s.parser.buf| < s.parser.need
    requires n <= |data| && |s.parser.buf| + n <= s.parser.need
    ensures Feed(s, data) == Feed(AfterBody(s, s.parser.need, s.parser.buf + data[..n]), data[n..])
    decreases n
  {
    var buf, need := s.parser.buf, s.parser.need;
    if n == 0 {
      NoBytes(buf, data);
    } else {
      BodyStep(s, data[0], buf + data[..n]);
      FeedStep(s, data);
      Peel(buf, data, n);
      hide Feed, Step, AfterBody;
      if |buf| + 1 < need {
        FeedBody(s.(parser := Body(need, buf + [data[0]])), data[1..], n - 1);
      }
    }
  }

  lemma BodyStep(s: State, b: byte, field: seq<byte>)
    requires s.parser.Body? && |s.parser.buf| < s.parser.need
    ensures var buf, need := s.parser.buf, s.parser.need; var next := s.(parser := Body(need, buf + [b]));
            && Step(s, b) == (if |buf| + 1 < need then next else AfterBody(s, need, buf + [b]), false)
            && AfterBody(next, need, field) == AfterBody(s, need, field)
            && AfterBody(s, need, buf) == s
  {
  }

  // ----- the sender

  function DataFrame(index: nat, payload: seq<byte>): seq<byte> {
    ToLE(index, 4) + [DATA_TYPE] + ToLE(|payload| % U32, 4) + payload
  }

  function HeartBeatFrame(index: nat): seq<byte> {
    ToLE(index, 4) + [HEART_BEAT_TYPE]
  }

  function Frame(index: nat, e: Event): (f: seq<byte>)
    ensures |f| > 4
  {
    match e
    case HeartBeat => HeartBeatFrame(index)
    case Message(payload) => DataFrame(index, payload)
  }

  const AUX_MSG_HEADER_LEN := 9
  const AUX_HB_HEADER_LEN := 5
  const HEART_BEAT_INTERVAL_MS := 30000

  /** Overwrites part of a buffer. */
  function Put(buf: seq<byte>, at: nat, bytes: seq<byte>): (r: seq<byte>)
    requires at + |bytes| <= |buf|
    ensures |r| == |buf|
  {
    buf[..at] + bytes + buf[at + |bytes|..]
  }

  lemma PutTwice(buf: seq<byte>, at: nat, a: seq<byte>, b: seq<byte>)
    requires at + |a| + |b| <= |buf|
    ensures Put(Put(buf, at, a), at + |a|, b) == Put(buf, at, a + b)
  {
  }

  /** The sender. A formed message is a prefix of the buffer that every message reuses. */
  class RpcDataFormer {
    var formedData: seq<byte>
    var msgIndex: nat
    var lastHbTime: int

    constructor (now: int)
      ensures msgIndex == 0
    {
      formedData, msgIndex, lastHbTime := [], 0, now;
    }

    method Grow(len: nat)
      modifies this`formedData
      ensures |formedData| >= len && |formedData| >= old(|formedData|)
    {
      if |formedData| < len {
        formedData := formedData + seq(len - |formedData|, _ => 0);
      }
    }

    method FormNextMsg(payload: seq<byte>) returns (span: seq<byte>)
      modifies this`formedData, this`msgIndex
      ensures msgIndex == Next(old(msgIndex))
      ensures span == Frame(msgIndex, Message(payload)) && span <= formedData
    {
      var fullMsgLen := AUX_MSG_HEADER_LEN + |payload|;
      Grow(fullMsgLen);
      ghost var buf := formedData;
      msgIndex := (msgIndex + 1) % U32;
      ghost var index, len := ToLE(msgIndex, 4), ToLE(|payload| % U32, 4);
      formedData := Put(formedData, 0, ToLE(msgIndex, 4));
      formedData := Put(formedData, 4, [DATA_TYPE]);
      formedData := Put(formedData, 5, ToLE(|payload| % U32, 4));
      formedData := Put(formedData, AUX_MSG_HEADER_LEN, payload);
      PutTwice(buf, 0, index, [DATA_TYPE]);
      PutTwice(buf, 0, index + [DATA_TYPE], len);
      PutTwice(buf, 0, index + [DATA_TYPE] + len, payload);
      span := formedData[..fullMsgLen];
    }

    /** `now` is the clock, in milliseconds. Nothing is sent, and no index used, when it is too early. */
    method CheckHeartBeat(forceFormHb: bool, now: int) returns (span: seq<byte>)
      modifies this
      ensures var due := forceFormHb || now - old(lastHbTime) >= 30000;
              if due then msgIndex == Next(old(msgIndex)) && span == Frame(msgIndex, HeartBeat) && lastHbTime == now
              else span == [] && msgIndex == old(msgIndex) && lastHbTime == old(lastHbTime)
    {
      var timeSinceLastHb := now - lastHbTime;
      if !forceFormHb && timeSinceLastHb < HEART_BEAT_INTERVAL_MS {
        return [];
      }
      lastHbTime := now;
      Grow(AUX_HB_HEADER_LEN);
      ghost var buf := formedData;
      msgIndex := (msgIndex + 1) % U32;
      formedData := Put(formedData, 0, ToLE(msgIndex, 4));
      formedData := Put(formedData, 4, [HEART_BEAT_TYPE]);
      PutTwice(buf, 0, ToLE(msgIndex, 4), [HEART_BEAT_TYPE]);
      span := formedData[..AUX_HB_HEADER_LEN];
    }

    method Reset(now: int)
      modifies this
      ensures msgIndex == 0 && lastHbTime == now
    {
      msgIndex := 0;
      lastHbTime := now;
    }
  }

  /** The bytes of consecutive messages of a sender whose counter stands at `index`. */
  function Stream(index: nat, events: seq<Event>): seq<byte>
    decreases |events|
  {
    if events == [] then [] else Frame(Next(index), events[0]) + Stream(Next(index), events[1..])
  }

  // ----- any chunking reads the same

  /** A session: reads are passed on until the sink asks to break. */
  function FeedChunks(s: State, chunks: seq<seq<byte>>): Outcome
    decreases |chunks|
  {
    if chunks == [] then Outcome(s, [], false)
    else
      var o := Feed(s, chunks[0]);
      if o.broke then Outcome(o.state, o.rest + Flatten(chunks[1..]), true) else FeedChunks(o.state, chunks[1..])
  }

  lemma {:induction false} FeedAppend(s: State, a: seq<byte>, b: seq<byte>)
    ensures var o := Feed(s, a);
            Feed(s, a + b) == if o.broke then Outcome(o.state, o.rest + b, true) else Feed(o.state, b)
    decreases |a|
  {
    if a == [] {
      assert a + b == b;
    } else if !s.parser.TooLong? {
      assert (a + b)[1..] == a[1..] + b;
      FeedAppend(Step(s, a[0]).0, a[1..], b);
    }
  }

  /** However the stream is cut into reads, the session sees what one read of the whole would show. */
  lemma {:induction false} ChunkingIsInvisible(s: State, chunks: seq<seq<byte>>)
    ensures FeedChunks(s, chunks) == Feed(s, Flatten(chunks))
    decreases |chunks|
  {
    if chunks != [] {
      FeedAppend(s, chunks[0], Flatten(chunks[1..]));
      if !Feed(s, chunks[0]).broke {
        ChunkingIsInvisible(Feed(s, chunks[0]).state, chunks[1..]);
      }
    }
  }

  // ----- the reader undoes the sender

  predicate Idle(s: State) {
    s.parser == Index([])
  }

  lemma FieldRoundTrip(v: nat)
    requires v < U32
    ensures FromLE(ToLE(v, 4)) == v
  {
    Pow256Four();
    FromToLE(v, 4);
  }

  /** One whole message whose index field is `index`, at an idle reader. */
  lemma FeedFrameIndex(s: State, index: nat, e: Event, rest: seq<byte>)
    requires Idle(s) && index < U32
    ensures var tail := Frame(index, e)[4..] + rest; var s1 := State(Type, Next(s.index), s.events);
            Feed(s, Frame(index, e) + rest) == Continue(s1, tail, index != Next(s.index))
  {
    var all := Frame(index, e) + rest;
    FieldRoundTrip(index);
    FrameStart(index, e, rest);
    FeedIndex(s, all, 4);
    hide Feed, ToLE, FromLE, Frame;
    assert [] + ToLE(index, 4) == ToLE(index, 4);
  }

  lemma FrameStart(index: nat, e: Event, rest: seq<byte>)
    ensures |Frame(index, e)| >= 4
    ensures (Frame(index, e) + rest)[..4] == ToLE(index, 4) && (Frame(index, e) + rest)[4..] == Frame(index, e)[4..] + rest
  {
    hide ToLE;
  }

  lemma FeedHeartBeat(s: State, rest: seq<byte>)
    requires s.parser.Type?
    ensures Feed(s, [HEART_BEAT_TYPE] + rest) == Feed(State(Index([]), s.index, s.events + [HeartBeat]), rest)
  {
    assert ([HEART_BEAT_TYPE] + rest)[1..] == rest;
  }

  lemma FeedPayload(s: State, payload: seq<byte>, rest: seq<byte>)
    requires s.parser.Type? && |payload| < U32
    ensures Feed(s, [DATA_TYPE] + ToLE(|payload|, 4) + payload + rest)
            == if |payload| > MAX_MSG_LEN then Outcome(s.(parser := TooLong), payload + rest, true)
               else Feed(State(Index([]), s.index, s.events + [Message(payload)]), rest)
  {
    var len, s1 := ToLE(|payload|, 4), s.(parser := Len([]));
    var tail := len + (payload + rest);
    assert [DATA_TYPE] + len + payload + rest == [DATA_TYPE] + tail;
    assert Feed(s, [DATA_TYPE] + tail) == Feed(s1, tail);
    FieldRoundTrip(|payload|);
    FeedLen(s1, tail, 4);
    TakeAppend(len, payload + rest);
    assert [] + tail[..4] == len;
    if 0 < |payload| <= MAX_MSG_LEN {
      var s2 := s.(parser := Body(|payload|, []));
      FeedBody(s2, payload + rest, |payload|);
      TakeAppend(payload, rest);
      assert [] + payload == payload;
    } else if payload == [] {
      assert payload + rest == rest;
    }
  }

  predicate Fits(e: Event) {
    e.Message? ==> |e.payload| <= MAX_MSG_LEN
  }

  predicate Encodable(e: Event) {
    e.Message? ==> |e.payload| < U32
  }

  /** The outcome of one whole message: a wrong index breaks after the index field, an oversized
      payload after the length field, and anything else is delivered. */
  lemma FeedFrame(s: State, index: nat, e: Event, rest: seq<byte>)
    requires Idle(s) && index < U32 && Encodable(e)
    ensures var o := Feed(s, Frame(index, e) + rest); var next := Next(s.index);
            if index != next then o == Outcome(State(Type, next, s.events), Frame(index, e)[4..] + rest, true)
            else if Fits(e) then o == Feed(State(Index([]), next, s.events + [e]), rest)
            else o == Outcome(State(TooLong, next, s.events), e.payload + rest, true)
  {
    hide Feed, Frame, Next;
    FeedFrameIndex(s, index, e, rest);
    FrameTail(index, e);
    var s1 := State(Type, Next(s.index), s.events);
    match e
    case HeartBeat =>
      FeedHeartBeat(s1, rest);
    case Message(payload) =>
      FeedPayload(s1, payload, rest);
  }

  lemma FrameTail(index: nat, e: Event)
    requires Encodable(e)
    ensures Frame(index, e)[4..] == match e
                                    case HeartBeat => [HEART_BEAT_TYPE]
                                    case Message(payload) => [DATA_TYPE] + ToLE(|payload|, 4) + payload
  {
  }

  /** Every type but that of a heart-beat starts a message with a payload: the reader does not look further. */
  lemma OtherTypesAreData(s: State, index: seq<byte>, typ: byte, rest: seq<byte>)
    requires Idle(s) && |index| == 4 && FromLE(index) == Next(s.index) && typ != 0
    ensures Feed(s, index + [typ] + rest) == Feed(s, index + [1] + rest)
    ensures Feed(s, index + [typ]) == Outcome(State(Len([]), Next(s.index), s.events), [], false)
  {
    FeedType(s, index, typ);
    FeedType(s, index, 1);
    FeedAppend(s, index + [typ], rest);
    FeedAppend(s, index + [1], rest);
    hide Feed;
  }

  lemma FeedType(s: State, index: seq<byte>, typ: byte)
    requires Idle(s) && |index| == 4 && FromLE(index) == Next(s.index) && typ != 0
    ensures Feed(s, index + [typ]) == Outcome(State(Len([]), Next(s.index), s.events), [], false)
  {
    var s1 := State(Type, Next(s.index), s.events);
    FeedIndex(s, index + [typ], 4);
    assert (index + [typ])[..4] == index && (index + [typ])[4..] == [typ];
    assert s.parser.buf + index == index;
    var s2 := State(Len([]), Next(s.index), s.events);
    assert Step(s1, typ) == (s2, false);
    assert [typ][1..] == [] && Feed(s2, []) == Outcome(s2, [], false);
    assert Feed(s1, [typ]) == Feed(s2, []);
  }

  /** The events before the first one with an oversized payload. */
  function FitPrefix(events: seq<Event>): (r: seq<Event>)
    ensures r <= events && (|r| < |events| ==> !Fits(events[|r|]))
    ensures forall e :: e in r ==> Fits(e)
  {
    if events == [] || !Fits(events[0]) then [] else [events[0]] + FitPrefix(events[1..])
  }

  /** A stream that starts where the reader's counter stands is delivered exactly, in order, up to the
      first payload over 100 MiB; the reader asks to break if and only if there is such a payload. */
  lemma {:induction false} StreamDelivered(s: State, events: seq<Event>)
    requires Idle(s) && s.index < U32 && forall e :: e in events ==> Encodable(e)
    ensures var o := Feed(s, Stream(s.index, events));
            && o.state.events == s.events + FitPrefix(events)
            && o.broke == (FitPrefix(events) != events)
            && (!o.broke ==> Idle(o.state) && o.state.index == (s.index + |events|) % U32)
    decreases |events|
  {
    hide Feed, Frame, Next, Fits, Encodable;
    if events == [] {
      FeedNothing(s);
    } else {
      var e, next := events[0], Next(s.index);
      var s1 := State(Index([]), next, s.events + [e]);
      assert e in events;
      FitsEncodable(e);
      FeedFrame(s, next, e, Stream(next, events[1..]));
      if FitPrefix(events) != [] {
        StreamDelivered(s1, events[1..]);
        Assoc(s.events, [e], FitPrefix(events[1..]));
        assert events == [e] + events[1..];
        WrapAdd(s.index, |events| - 1);
      }
    }
  }

  lemma FeedNothing(s: State)
    ensures Feed(s, []) == Outcome(s, [], false)
  {
  }

  lemma FitsEncodable(e: Event)
    ensures Fits(e) ==> Encodable(e)
  {
  }

  lemma WrapAdd(a: nat, b: nat)
    ensures (Next(a) + b) % U32 == (a + (b + 1)) % U32
  {
  }

  /** The session as a whole: every event arrives, whatever the reads were. */
  lemma SessionDelivers(events: seq<Event>, chunks: seq<seq<byte>>)
    requires forall e :: e in events ==> Fits(e)
    requires Flatten(chunks) == Stream(0, events)
    ensures FeedChunks(FRESH, chunks).state.events == events && !FeedChunks(FRESH, chunks).broke
  {
    hide Feed, FeedChunks, Stream, Fits, Encodable;
    forall e | e in events ensures Encodable(e) {
      FitsEncodable(e);
    }
    ChunkingIsInvisible(FRESH, chunks);
    StreamDelivered(FRESH, events);
    var r := FitPrefix(events);
    assert forall i :: 0 <= i < |events| ==> events[i] in events;
    assert r == events;
  }

  // ----- lost, repeated and reordered messages

  /** A whole message, with the value of its index field. */
  datatype Packet = Packet(index: nat, event: Event)

  function BytesOf(packets: seq<Packet>): seq<byte> {
    if packets == [] then [] else Frame(packets[0].index, packets[0].event) + BytesOf(packets[1..])
  }

  /** The packets of a sender whose counter stands at `index`. */
  function Numbered(index: nat, events: seq<Event>): (ps: seq<Packet>)
    ensures |ps| == |events|
    ensures forall i :: 0 <= i < |ps| ==> ps[i] == Packet(index + 1 + i, events[i])
    decreases |events|
  {
    if events == [] then [] else [Packet(index + 1, events[0])] + Numbered(index + 1, events[1..])
  }

  /** The longest common prefix. */
  function Common<T(==)>(a: seq<T>, b: seq<T>): (r: seq<T>)
    ensures r <= a && r <= b && (|r| < |a| && |r| < |b| ==> a[|r|] != b[|r|])
  {
    if a == [] || b == [] || a[0] != b[0] then [] else [a[0]] + Common(a[1..], b[1..])
  }

  function EventsOf(packets: seq<Packet>): seq<Event> {
    if packets == [] then [] else [packets[0].event] + EventsOf(packets[1..])
  }

  /** Every received packet that is not an old one is one of those still to come. */
  ghost predicate Pending(index: nat, pending: seq<Packet>, received: seq<Packet>) {
    && (forall i :: 0 <= i < |pending| ==> pending[i].index == index + 1 + i)
    && (forall p :: p in received ==> 0 < p.index < U32 && Fits(p.event))
    && (forall p :: p in received && p.index > index ==>
          p.index - index - 1 < |pending| && pending[p.index - index - 1] == p)
  }

  /** The first received packet is either the next one to come or differs from it. */
  lemma PendingStep(index: nat, pending: seq<Packet>, received: seq<Packet>)
    requires Pending(index, pending, received) && received != []
    ensures var p := received[0];
            && 0 < p.index < U32 && Fits(p.event)
            && if p.index == index + 1
               then pending != [] && pending[0] == p && Pending(index + 1, pending[1..], received[1..])
               else Common(received, pending) == []
  {
    assert received[0] in received;
  }

  lemma {:induction false} ReceivedFrom(s: State, pending: seq<Packet>, received: seq<Packet>)
    requires Idle(s) && s.index + |pending| < U32 && Pending(s.index, pending, received)
    ensures var o, common := Feed(s, BytesOf(received)), Common(received, pending);
            && o.state.events == s.events + EventsOf(common)
            && o.broke == (common != received)
            && (o.broke ==> o.rest == BytesOf(received[|common|..])[4..])
    decreases |received|
  {
    hide Feed, Frame, Next, Fits, Pending, Common;
    if received == [] {
      FeedNothing(s);
      CommonEmpty(pending);
    } else {
      var p, s1 := received[0], State(Index([]), s.index + 1, s.events + [received[0].event]);
      PendingStep(s.index, pending, received);
      NextCases(s.index);
      if p.index == s.index + 1 {
        FitsEncodable(p.event);
        FeedFrame(s, p.index, p.event, BytesOf(received[1..]));
        ReceivedFrom(s1, pending[1..], received[1..]);
        CommonCons(p, received, pending);
        Assoc(s.events, [p.event], EventsOf(Common(received[1..], pending[1..])));
      } else {
        WrongIndex(s, p, received[1..]);
        assert received[0..] == received;
      }
    }
  }

  lemma CommonEmpty(b: seq<Packet>)
    ensures Common([], b) == []
  {
  }

  lemma CommonCons(p: Packet, a: seq<Packet>, b: seq<Packet>)
    requires a != [] && b != [] && a[0] == p && b[0] == p
    ensures var inner := Common(a[1..], b[1..]);
            && EventsOf(Common(a, b)) == [p.event] + EventsOf(inner)
            && (Common(a, b) == a <==> inner == a[1..])
            && a[|Common(a, b)|..] == a[1..][|inner|..]
  {
    hide *;
    var inner, rest := Common(a[1..], b[1..]), a[1..];
    CommonUnfold(p, a, b);
    EventsCons(p, inner);
    HeadOff(p, inner, rest);
  }

  lemma CommonUnfold(p: Packet, a: seq<Packet>, b: seq<Packet>)
    requires a != [] && b != [] && a[0] == p && b[0] == p
    ensures Common(a, b) == [p] + Common(a[1..], b[1..]) && a == [p] + a[1..] && Common(a[1..], b[1..]) <= a[1..]
  {
  }

  lemma EventsCons(p: Packet, rest: seq<Packet>)
    ensures EventsOf([p] + rest) == [p.event] + EventsOf(rest)
  {
    assert ([p] + rest)[1..] == rest;
  }

  lemma HeadOff<T>(x: T, part: seq<T>, whole: seq<T>)
    requires part <= whole
    ensures [x] + part == [x] + whole <==> part == whole
    ensures ([x] + whole)[|[x] + part|..] == whole[|part|..]
  {
    if [x] + part == [x] + whole {
      assert ([x] + part)[1..] == part && ([x] + whole)[1..] == whole;
    }
  }

  lemma NextCases(index: nat)
    requires index < U32
    ensures Next(index) == if index + 1 < U32 then index + 1 else 0
  {
  }

  lemma WrongIndex(s: State, p: Packet, rest: seq<Packet>)
    requires Idle(s) && p.index < U32 && Fits(p.event) && p.index != Next(s.index)
    ensures var o := Feed(s, Frame(p.index, p.event) + BytesOf(rest));
            o.broke && o.state.events == s.events && o.rest == (Frame(p.index, p.event) + BytesOf(rest))[4..]
  {
    hide Feed, Frame, Next, BytesOf;
    FitsEncodable(p.event);
    FeedFrame(s, p.index, p.event, BytesOf(rest));
    var f, tail := Frame(p.index, p.event), BytesOf(rest);
    assert (f + tail)[4..] == f[4..] + tail;
  }

  /** Whatever of fewer than 2^32 sent messages is lost, repeated or reordered, and however the bytes
      are cut, a fresh sink delivers exactly the longest common prefix of the received and the sent
      messages, and breaks right after the index field of the first message that differs. */
  lemma OnlyCommonPrefixDelivered(events: seq<Event>, received: seq<Packet>, chunks: seq<seq<byte>>)
    requires |events| < U32 && forall e :: e in events ==> Fits(e)
    requires forall p :: p in received ==> p in Numbered(0, events)
    requires Flatten(chunks) == BytesOf(received)
    ensures var o, common := FeedChunks(FRESH, chunks), Common(received, Numbered(0, events));
            && o.state.events == EventsOf(common)
            && o.broke == (common != received)
            && (o.broke ==> o.rest == BytesOf(received[|common|..])[4..])
  {
    hide Feed, FeedChunks, Fits, BytesOf;
    ChunkingIsInvisible(FRESH, chunks);
    var sent := Numbered(0, events);
    forall p | p in received ensures 0 < p.index < U32 && Fits(p.event) && sent[p.index - 1] == p {
      var i :| 0 <= i < |sent| && sent[i] == p;
      assert events[i] in events;
    }
    assert Pending(0, sent, received);
    ReceivedFrom(FRESH, sent, received);
    assert [] + EventsOf(Common(received, sent)) == EventsOf(Common(received, sent));
  }
}
