/**
 * The socket as the client reads it, and readFrame as a function of the pending buffer and of
 * what the socket will deliver. The socket is a script of events; once the script is used up
 * the socket stays silent, so every readiness check times out.
 */
module Wire {
  import opened Wrappers
  import opened Errors
  import opened Text
  import opened Frames
  import opened Sequences

  /**
   * One thing the socket does when the client looks at it: the readiness check times out, the
   * readiness check itself fails, fgets returns a chunk (possibly ""), or fgets returns false.
   */
  datatype Event = Silence | SelectFailure | Chunk(text: string) | Closed

  /** What readFrame returns: `false` (no frame to read) or a frame. */
  datatype Item = NoFrame | Got(frame: Frame)

  /** The outcome of the chunk-reading loop: the connection was lost, or a frame's text is complete. */
  datatype Gathered = Lost(rest: seq<Event>) | Complete(data: string, rest: seq<Event>)

  /**
   * readFrame's do...while: append chunks to `data` until a NUL has been seen and at least two
   * characters are held; on the chunk that brings the NUL in, the text loses its surrounding
   * newlines. A chunk that is "" or a read that returns false loses the connection.
   */
  function Gather(events: seq<Event>, data: string, end: bool): (g: Gathered)
    ensures |g.rest| < |events| || (events == [] && g == Lost([]))
    decreases |events|
  {
    if events == [] || !events[0].Chunk? || events[0].text == "" then Lost(if events == [] then [] else events[1..])
    else
      var read := data + events[0].text;
      var terminated := '\0' in read;
      var data' := if terminated then Trim(read, {'\n'}) else read;
      var end' := end || terminated;
      if |data'| < 2 || !end' then Gather(events[1..], data', end') else Complete(data', events[1..])
  }

  /** A read's result and the pending buffer and socket script it leaves behind. */
  datatype ReadStep = ReadStep(result: Result<Item, StompError>, waitbuf: seq<Item>, inbound: seq<Event>)

  /**
   * hasFrameToRead: the readiness check fails without an open socket or when stream_select fails,
   * reports nothing when it times out, and reports a frame when the socket has something to give
   * (a chunk, or the end of the stream), which it leaves for fgets.
   */
  function Probe(inbound: seq<Event>, open: bool): (r: (Result<bool, StompError>, seq<Event>))
    ensures r.0 == Success(true) <==> open && inbound != [] && (inbound[0].Chunk? || inbound[0].Closed?)
    ensures r.0 == Success(true) ==> r.1 == inbound
    ensures r.0 == Success(false) ==> open && (inbound == [] || inbound[0] == Silence) && (r.1 == if inbound == [] then [] else inbound[1..])
    ensures r.0.Failure? ==> r.0.error == ReadabilityCheckFailed && (!open || (inbound != [] && inbound[0] == SelectFailure))
  {
    if !open then (Failure(ReadabilityCheckFailed), inbound)
    else if inbound == [] then (Success(false), [])
    else
      match inbound[0]
      case Silence => (Success(false), inbound[1..])
      case SelectFailure => (Failure(ReadabilityCheckFailed), inbound[1..])
      case _ => (Success(true), inbound)
  }

  /** readFrame past its buffer check: hasFrameToRead, then the chunk loop and the decoding. */
  function TransportRead(inbound: seq<Event>, open: bool): (r: ReadStep)
    ensures r.waitbuf == []
    ensures r.result.Success? ==>
      |r.inbound| < |inbound| || (inbound == [] && r == ReadStep(Success(NoFrame), [], []))
  {
    var probe := Probe(inbound, open);
    match probe.0
    case Failure(e) => ReadStep(Failure(e), [], probe.1)
    case Success(ready) =>
      if !ready then ReadStep(Success(NoFrame), [], probe.1)
      else
        match Gather(inbound, "", false)
        case Lost(rest) => ReadStep(Failure(ConnectionLost), [], rest)
        case Complete(d, rest) => ReadStep(Success(Got(DecodeFrame(d))), [], rest)
  }

  /** readFrame: the head of the pending buffer if there is one, otherwise a read from the socket. */
  function ReadFrameSpec(waitbuf: seq<Item>, inbound: seq<Event>, open: bool): (r: ReadStep)
    ensures r.result.Success? ==>
      |r.waitbuf| + |r.inbound| < |waitbuf| + |inbound|
      || (waitbuf == [] && inbound == [] && r == ReadStep(Success(NoFrame), [], []))
  {
    if waitbuf != [] then ReadStep(Success(waitbuf[0]), waitbuf[1..], inbound)
    else TransportRead(inbound, open)
  }

  /** The events for fgets returning each text in turn. */
  function Chunks(texts: seq<string>): (r: seq<Event>)
    ensures |r| == |texts|
    ensures forall i :: 0 <= i < |texts| ==> r[i] == Chunk(texts[i])
  {
    if texts == [] then [] else [Chunk(texts[0])] + Chunks(texts[1..])
  }

  /** The texts one after another, as `$data .= $read` leaves them. */
  function Concat(texts: seq<string>): string
  {
    if texts == [] then "" else texts[0] + Concat(texts[1..])
  }

  /**
   * How fgets delivers a frame: one or more non-empty chunks, where the NUL arrives with the last
   * one and with no earlier one.
   */
  predicate FrameChunks(texts: seq<string>)
  {
    texts != []
    && (forall i :: 0 <= i < |texts| ==> texts[i] != "")
    && (forall i :: 0 <= i < |texts| - 1 ==> '\0' !in texts[i])
    && '\0' in texts[|texts| - 1]
  }

  /** Dropping the first chunk of a frame of several chunks leaves the chunks of the rest of it. */
  lemma FrameChunksTail(texts: seq<string>)
    requires FrameChunks(texts) && |texts| >= 2
    ensures FrameChunks(texts[1..]) && '\0' !in texts[0] && texts[0] != ""
  {
    var tail := texts[1..];
    forall i | 0 <= i < |tail| - 1
      ensures '\0' !in tail[i]
    {
      assert tail[i] == texts[i + 1];
    }
  }

  /**
   * The chunk loop over a frame's chunks, started on text without a NUL: every chunk before the
   * last is appended as it is, and the last completes the frame with the whole text trimmed.
   */
  lemma {:induction false} GatherChunks(texts: seq<string>, rest: seq<Event>, data: string)
    requires FrameChunks(texts) && '\0' !in data
    requires |Trim(data + Concat(texts), {'\n'})| >= 2
    ensures Gather(Chunks(texts) + rest, data, false) == Complete(Trim(data + Concat(texts), {'\n'}), rest)
    decreases |texts|
  {
    ChunksCons(texts, rest);
    if |texts| == 1 {
      assert Concat(texts) == texts[0] + "";
      AppendEmpty(texts[0]);
      EmptyAppend(rest);
    } else {
      FrameChunksTail(texts);
      GatherStep(texts[0], Chunks(texts[1..]) + rest, data);
      AppendAssociates(data, texts[0], Concat(texts[1..]));
      GatherChunks(texts[1..], rest, data + texts[0]);
    }
  }

  /** The events of a first chunk and what follows it. */
  lemma ChunksCons(texts: seq<string>, rest: seq<Event>)
    requires texts != []
    ensures (Chunks(texts) + rest)[0] == Chunk(texts[0])
    ensures (Chunks(texts) + rest)[1..] == Chunks(texts[1..]) + rest
  {
    var tail := Chunks(texts[1..]);
    assert Chunks(texts) == [Chunk(texts[0])] + tail;
    HeadAppend(Chunk(texts[0]), tail, rest);
  }

  /** A non-empty chunk without a NUL, on text without one, is appended and the loop goes on. */
  lemma GatherStep(text: string, events: seq<Event>, data: string)
    requires text != "" && '\0' !in text && '\0' !in data
    ensures Gather([Chunk(text)] + events, data, false) == Gather(events, data + text, false)
  {
    ConsTail(Chunk(text), events);
  }


  /** A read of a frame delivered in several chunks returns that frame, decoded from the trimmed text. */
  lemma {:induction false} ChunkedFrame(texts: seq<string>, rest: seq<Event>)
    requires FrameChunks(texts) && |Trim(Concat(texts), {'\n'})| >= 2
    ensures ReadFrameSpec([], Chunks(texts) + rest, true)
      == ReadStep(Success(Got(DecodeFrame(Trim(Concat(texts), {'\n'})))), [], rest)
  {
    ChunksCons(texts, rest);
    EmptyAppend(Concat(texts));
    GatherChunks(texts, rest, "");
  }

  /**
   * Chunks without a NUL followed by a read that gives false or "": the connection is lost, and the
   * text read so far with it.
   */
  lemma {:induction false} GatherLost(texts: seq<string>, last: Event, rest: seq<Event>, data: string)
    requires forall i :: 0 <= i < |texts| ==> texts[i] != "" && '\0' !in texts[i]
    requires last == Closed || last == Chunk("")
    requires '\0' !in data
    ensures Gather(Chunks(texts) + [last] + rest, data, false) == Lost(rest)
    decreases |texts|
  {
    var events := Chunks(texts) + [last] + rest;
    if texts == [] {
      assert events == [last] + rest;
      ConsTail(last, rest);
    } else {
      assert events[0] == Chunk(texts[0]);
      assert events[1..] == Chunks(texts[1..]) + [last] + rest;
      var tail := texts[1..];
      forall i | 0 <= i < |tail|
        ensures tail[i] != "" && '\0' !in tail[i]
      {
        assert tail[i] == texts[i + 1];
      }
      GatherLost(tail, last, rest, data + texts[0]);
    }
  }
}
