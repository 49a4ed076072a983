/** The whole way of a result from datapro1 to datapro2: marshalled into the store, framed by the former, cut into
    arbitrary pieces by the connection, reassembled by the sink, and unmarshalled. */
module ResultLink {
  import opened Bytes
  import opened Marshalling
  import opened MemStore
  import opened RpcFraming
  import opened Sequences

  datatype Sent = Beat | Record(kind: nat, res: DataRes<Mat>)

  /** A record whose message is within the limits of the store and of the sink. */
  ghost predicate Sendable(s: Sent) {
    s.Record? ==>
      && s.kind < 0x1_0000 && ProperRes(s.res) && SingleChannel(s.res.calib)
      && |MessageBytes(s.kind, s.res)| <= MAX_CONTENT && Fits(Message(MessageBytes(s.kind, s.res)))
  }

  function EventOf(s: Sent): Event
    requires Sendable(s)
  {
    match s
    case Beat => HeartBeat
    case Record(kind, res) => Message(MessageBytes(kind, res))
  }

  function Events(sent: seq<Sent>): (events: seq<Event>)
    requires forall i :: 0 <= i < |sent| ==> Sendable(sent[i])
    ensures |events| == |sent|
  {
    seq(|sent|, i requires 0 <= i < |sent| => EventOf(sent[i]))
  }

  /** The event is what was sent. */
  ghost predicate Received(s: Sent, e: Event)
    requires Sendable(s)
  {
    match s
    case Beat => e == HeartBeat
    case Record(kind, res) =>
      && e.Message? && |e.payload| >= 2 && FromLE(e.payload[..2]) == kind
      && ParseRes(e.payload[2..]) == Got(ResView(res), [])
  }

  lemma EventReceived(s: Sent)
    requires Sendable(s)
    ensures Received(s, EventOf(s)) && Fits(EventOf(s))
  {
    hide ParseRes, ResBytes, ProperRes, SingleChannel, ResView;
    match s
    case Beat =>
    case Record(kind, res) =>
      assert |MessageBytes(kind, res)| == 2 + |ResBytes(res)|;
      MessageRoundTrip(kind, res);
  }

  /** However the stream is cut, datapro2 gets exactly the records that were sent, in order, and the connection is kept. */
  lemma RecordsArrive(sent: seq<Sent>, chunks: seq<seq<byte>>)
    requires forall i :: 0 <= i < |sent| ==> Sendable(sent[i])
    requires Flatten(chunks) == Stream(0, Events(sent))
    ensures var r := FeedChunks(FRESH, chunks);
            && !r.broke && |r.state.events| == |sent|
            && forall i :: 0 <= i < |sent| ==> Received(sent[i], r.state.events[i])
  {
    hide Sendable, EventOf, Received, FeedChunks, Stream, Fits;
    forall i | 0 <= i < |sent| ensures Received(sent[i], EventOf(sent[i])) && Fits(EventOf(sent[i])) {
      EventReceived(sent[i]);
    }
    forall e | e in Events(sent) ensures Fits(e) {
      var i :| 0 <= i < |sent| && Events(sent)[i] == e;
    }
    SessionDelivers(Events(sent), chunks);
  }
}
