/**
 * Synchronous requests: tagging a frame with a `receipt` header (_prepareReceipt) and waiting
 * for the broker's RECEIPT (_waitForReceipt), with the frames that arrive in the meantime kept
 * for later reads in the pending buffer.
 */
module Receipts {
  import opened Wrappers
  import opened Errors
  import opened OrderedMaps
  import opened Frames
  import opened Wire
  import opened Text

  /** The per-call `sync` argument, when given, overrides the session's setting. */
  function EffectiveSync(sessionSync: bool, sync: Option<bool>): (r: bool)
    ensures sync.Some? ==> r == sync.value
    ensures sync.None? ==> r == sessionSync
  {
    match sync
    case Some(b) => b
    case None => sessionSync
  }

  /** _prepareReceipt: a fresh `receipt` header exactly when the effective setting is true. */
  function PrepareReceipt(h: Headers, sessionSync: bool, sync: Option<bool>, ticket: string): (r: Headers)
    ensures EffectiveSync(sessionSync, sync) ==> Get(r, "receipt") == Some(ticket)
    ensures !EffectiveSync(sessionSync, sync) ==> r == h
    ensures forall k :: k != "receipt" ==> Get(r, k) == Get(h, k)
  {
    if EffectiveSync(sessionSync, sync) then Put(h, "receipt", ticket) else h
  }

  /** The receipt id _waitForReceipt waits for: none when the wait is off or the id is null or "". */
  function AwaitedReceipt(h: Headers, sessionSync: bool, sync: Option<bool>): (r: Option<string>)
    ensures r.Some? <==> EffectiveSync(sessionSync, sync) && Get(h, "receipt").Some? && Get(h, "receipt").value != ""
    ensures r.Some? ==> Get(h, "receipt") == r
  {
    if !EffectiveSync(sessionSync, sync) then None
    else match Get(h, "receipt")
      case Some(id) => if id == "" then None else Some(id)
      case None => None
  }

  /**
   * A tagged frame is waited on for exactly its tag; an untagged frame is sent unchanged and not
   * waited on, whatever `receipt` header the caller put on it.
   */
  lemma ReceiptTagging(h: Headers, sessionSync: bool, sync: Option<bool>, ticket: string)
    requires ticket != ""
    ensures EffectiveSync(sessionSync, sync) ==>
      Get(PrepareReceipt(h, sessionSync, sync, ticket), "receipt") == Some(ticket)
      && AwaitedReceipt(PrepareReceipt(h, sessionSync, sync, ticket), sessionSync, sync) == Some(ticket)
    ensures !EffectiveSync(sessionSync, sync) ==>
      PrepareReceipt(h, sessionSync, sync, ticket) == h
      && AwaitedReceipt(PrepareReceipt(h, sessionSync, sync, ticket), sessionSync, sync) == None
    ensures forall k :: k != "receipt" ==>
      Get(PrepareReceipt(h, sessionSync, sync, ticket), k) == Get(h, k)
  {
  }

  predicate IsReceipt(item: Item) {
    item.Got? && item.frame.command == "RECEIPT"
  }

  /**
   * What the pending buffer can hold: never a RECEIPT, and a "no frame" entry only at its head
   * (the one a wait that saw silence first leaves behind).
   */
  ghost predicate Pending(w: seq<Item>) {
    forall i :: 0 <= i < |w| ==> !IsReceipt(w[i]) && (w[i] == NoFrame ==> i == 0)
  }

  /** A wait's result and the pending buffer and socket script it leaves behind. */
  datatype WaitStep = WaitStep(result: Result<bool, StompError>, waitbuf: seq<Item>, inbound: seq<Event>)

  /**
   * The while(true) of _waitForReceipt, from the frames collected so far (`buf`): a "no frame"
   * read after something was collected gives up with `false`; a RECEIPT ends the wait, with
   * success when its receipt-id is the awaited one; anything else is collected.
   */
  function Await(id: string, buf: seq<Item>, waitbuf: seq<Item>, inbound: seq<Event>, open: bool): WaitStep
    decreases |waitbuf| + |inbound|, if buf == [] then 1 else 0
  {
    var step := ReadFrameSpec(waitbuf, inbound, open);
    match step.result
    case Failure(e) => WaitStep(Failure(e), step.waitbuf, step.inbound)
    case Success(item) =>
      if item == NoFrame && buf != [] then WaitStep(Success(false), buf, step.inbound)
      else if IsReceipt(item) then
        var got := Get(item.frame.headers, "receipt-id");
        if got == Some(id) then WaitStep(Success(true), buf, step.inbound)
        else WaitStep(Failure(UnexpectedReceipt(got, item.frame.body)), step.waitbuf, step.inbound)
      else Await(id, buf + [item], step.waitbuf, step.inbound, open)
  }

  /** _waitForReceipt as a whole: no wait at all unless there is a receipt id to wait for. */
  function WaitForReceiptSpec(h: Headers, sessionSync: bool, sync: Option<bool>, waitbuf: seq<Item>, inbound: seq<Event>, open: bool): (r: WaitStep)
    ensures AwaitedReceipt(h, sessionSync, sync).None? ==> r == WaitStep(Success(true), waitbuf, inbound)
    ensures r.result == Success(false) ==> r.waitbuf != []
    ensures r.result.Failure? ==>
      r.result.error == ReadabilityCheckFailed || r.result.error == ConnectionLost
      || (r.result.error.UnexpectedReceipt? && r.result.error.receiptId != AwaitedReceipt(h, sessionSync, sync))
  {
    match AwaitedReceipt(h, sessionSync, sync)
    case None => WaitStep(Success(true), waitbuf, inbound)
    case Some(id) =>
      AwaitResults(id, [], waitbuf, inbound, open);
      Await(id, [], waitbuf, inbound, open)
  }

  lemma PendingSuffix(w: seq<Item>)
    requires Pending(w) && w != []
    ensures Pending(w[1..])
  {
  }

  /** A wait leaves the pending buffer in the shape readers expect. */
  lemma {:induction false} AwaitKeepsPending(id: string, buf: seq<Item>, waitbuf: seq<Item>, inbound: seq<Event>, open: bool)
    requires Pending(buf) && Pending(waitbuf)
    ensures Pending(Await(id, buf, waitbuf, inbound, open).waitbuf)
    decreases |waitbuf| + |inbound|, if buf == [] then 1 else 0
  {
    var step := ReadFrameSpec(waitbuf, inbound, open);
    if waitbuf != [] {
      PendingSuffix(waitbuf);
    }
    assert Pending(step.waitbuf);
    if step.result.Success? {
      var item := step.result.value;
      if !(item == NoFrame && buf != []) && !IsReceipt(item) {
        PendingAppend(buf, item);
        AwaitKeepsPending(id, buf + [item], step.waitbuf, step.inbound, open);
      }
    }
  }

  lemma PendingNext(buf: seq<Item>, waitbuf: seq<Item>)
    requires Pending(buf + waitbuf) && waitbuf != []
    ensures !IsReceipt(waitbuf[0]) && (waitbuf[0] == NoFrame ==> buf == [])
  {
    assert (buf + waitbuf)[|buf|] == waitbuf[0];
  }

  lemma PendingAppend(buf: seq<Item>, item: Item)
    requires Pending(buf) && !IsReceipt(item) && (item == NoFrame ==> buf == [])
    ensures Pending(buf + [item])
  {
    var buf' := buf + [item];
    forall i | 0 <= i < |buf'| ensures !IsReceipt(buf'[i]) && (buf'[i] == NoFrame ==> i == 0) {
      if i < |buf| { assert buf'[i] == buf[i]; }
    }
  }

  ghost predicate StartsWith(w: seq<Item>, prefix: seq<Item>) {
    |prefix| <= |w| && w[..|prefix|] == prefix
  }

  /** When the item read ends the wait, a successful end leaves exactly the collected frames pending. */
  lemma AwaitStops(id: string, buf: seq<Item>, waitbuf: seq<Item>, inbound: seq<Event>, open: bool)
    requires Pending(buf + waitbuf)
    requires var step := ReadFrameSpec(waitbuf, inbound, open);
      step.result.Success? && ((step.result.value == NoFrame && buf != []) || IsReceipt(step.result.value))
    ensures var r := Await(id, buf, waitbuf, inbound, open);
      r.result.Success? ==> waitbuf == [] && r.waitbuf == buf
  {
    if waitbuf != [] {
      PendingNext(buf, waitbuf);
    }
  }

  /** When the item read is collected, the wait goes on with a longer backlog that keeps the old one. */
  lemma AwaitCollects(id: string, buf: seq<Item>, waitbuf: seq<Item>, inbound: seq<Event>, open: bool)
    requires Pending(buf + waitbuf)
    requires var step := ReadFrameSpec(waitbuf, inbound, open);
      step.result.Success? && !(step.result.value == NoFrame && buf != []) && !IsReceipt(step.result.value)
    ensures var step := ReadFrameSpec(waitbuf, inbound, open);
      var buf' := buf + [step.result.value];
      && Await(id, buf, waitbuf, inbound, open) == Await(id, buf', step.waitbuf, step.inbound, open)
      && Pending(buf' + step.waitbuf)
      && StartsWith(buf' + step.waitbuf, buf + waitbuf)
  {
    var step := ReadFrameSpec(waitbuf, inbound, open);
    var item := step.result.value;
    var buf' := buf + [item];
    if waitbuf != [] {
      PendingNext(buf, waitbuf);
      assert buf' + step.waitbuf == buf + waitbuf;
    } else {
      assert Pending(buf) by { assert buf + waitbuf == buf; }
      PendingAppend(buf, item);
      assert buf' + step.waitbuf == buf';
      assert buf'[..|buf|] == buf;
    }
  }

  lemma StartsWithTransitive(w: seq<Item>, u: seq<Item>, v: seq<Item>)
    requires StartsWith(w, u) && StartsWith(u, v)
    ensures StartsWith(w, v)
  {
    assert w[..|v|] == w[..|u|][..|v|];
  }

  /**
   * A wait that ends without an error keeps the earlier backlog: the frames collected before,
   * followed by what was pending, come first in the new pending buffer, in the same order.
   */
  lemma {:induction false} AwaitKeepsBacklog(id: string, buf: seq<Item>, waitbuf: seq<Item>, inbound: seq<Event>, open: bool)
    requires Pending(buf + waitbuf)
    ensures var r := Await(id, buf, waitbuf, inbound, open);
      r.result.Success? ==> StartsWith(r.waitbuf, buf + waitbuf)
    decreases |waitbuf| + |inbound|, if buf == [] then 1 else 0
  {
    var step := ReadFrameSpec(waitbuf, inbound, open);
    if step.result.Success? {
      var item := step.result.value;
      if (item == NoFrame && buf != []) || IsReceipt(item) {
        AwaitStops(id, buf, waitbuf, inbound, open);
        if Await(id, buf, waitbuf, inbound, open).result.Success? {
          assert buf + waitbuf == buf;
        }
      } else {
        var buf' := buf + [item];
        AwaitCollects(id, buf, waitbuf, inbound, open);
        AwaitKeepsBacklog(id, buf', step.waitbuf, step.inbound, open);
        var r := Await(id, buf, waitbuf, inbound, open);
        if r.result.Success? {
          StartsWithTransitive(r.waitbuf, buf' + step.waitbuf, buf + waitbuf);
        }
      }
    }
  }

  /**
   * The silence quirk: on a socket that stays silent the first "no frame" read is itself
   * collected, the second gives up, and the pending buffer is left holding one "no frame".
   */
  lemma SilenceIsBuffered(id: string)
    ensures Await(id, [], [], [], true) == WaitStep(Success(false), [NoFrame], [])
  {
    assert Await(id, [NoFrame], [], [], true) == WaitStep(Success(false), [NoFrame], []);
  }

  /**
   * One turn of the wait, for every input: a failing read ends it with the read's error; a "no
   * frame" read after something was collected ends it with false and the collected frames left
   * pending; a RECEIPT ends it with true when its receipt-id is the awaited one, and otherwise with
   * the unexpected-receipt error, the collected frames dropped; anything else is collected.
   */
  lemma AwaitOutcome(id: string, buf: seq<Item>, waitbuf: seq<Item>, inbound: seq<Event>, open: bool)
    ensures var step := ReadFrameSpec(waitbuf, inbound, open);
      step.result.Failure? ==>
        Await(id, buf, waitbuf, inbound, open) == WaitStep(Failure(step.result.error), step.waitbuf, step.inbound)
    ensures var step := ReadFrameSpec(waitbuf, inbound, open);
      step.result == Success(NoFrame) && buf != [] ==>
        Await(id, buf, waitbuf, inbound, open) == WaitStep(Success(false), buf, step.inbound)
    ensures var step := ReadFrameSpec(waitbuf, inbound, open);
      step.result.Success? && IsReceipt(step.result.value) ==>
        var got := Get(step.result.value.frame.headers, "receipt-id");
        Await(id, buf, waitbuf, inbound, open) ==
          if got == Some(id) then WaitStep(Success(true), buf, step.inbound)
          else WaitStep(Failure(UnexpectedReceipt(got, step.result.value.frame.body)), step.waitbuf, step.inbound)
    ensures var step := ReadFrameSpec(waitbuf, inbound, open);
      step.result.Success? && !(step.result.value == NoFrame && buf != []) && !IsReceipt(step.result.value) ==>
        Await(id, buf, waitbuf, inbound, open) == Await(id, buf + [step.result.value], step.waitbuf, step.inbound, open)
  {
  }

  /**
   * What a wait can end with: false only with something left pending, and as errors only a failed
   * readiness check, a lost connection, or a receipt for another id than the awaited one.
   */
  lemma {:induction false} AwaitResults(id: string, buf: seq<Item>, waitbuf: seq<Item>, inbound: seq<Event>, open: bool)
    ensures var r := Await(id, buf, waitbuf, inbound, open);
      && (r.result == Success(false) ==> r.waitbuf != [])
      && (r.result.Failure? ==>
            r.result.error == ReadabilityCheckFailed || r.result.error == ConnectionLost
            || (r.result.error.UnexpectedReceipt? && r.result.error.receiptId != Some(id)))
    decreases |waitbuf| + |inbound|, if buf == [] then 1 else 0
  {
    var step := ReadFrameSpec(waitbuf, inbound, open);
    if step.result.Success? {
      var item := step.result.value;
      if !(item == NoFrame && buf != []) && !IsReceipt(item) {
        AwaitResults(id, buf + [item], step.waitbuf, step.inbound, open);
      }
    }
  }

  /**
   * The matching receipt arriving first, in however many chunks, ends the wait at once with
   * nothing left pending.
   */
  lemma ReceiptFirst(id: string, h: Headers, body: string, texts: seq<string>, rest: seq<Event>)
    requires Get(h, "receipt-id") == Some(id)
    requires FrameChunks(texts) && |Trim(Concat(texts), {'\n'})| >= 2
    requires DecodeFrame(Trim(Concat(texts), {'\n'})) == Frame("RECEIPT", h, body)
    ensures Await(id, [], [], Chunks(texts) + rest, true) == WaitStep(Success(true), [], rest)
  {
    ChunkedFrame(texts, rest);
    assert IsReceipt(Got(Frame("RECEIPT", h, body)));
  }

  /** A receipt for another id, read first, ends the wait with the unexpected-receipt error. */
  lemma WrongReceiptFirst(id: string, h: Headers, body: string, texts: seq<string>, rest: seq<Event>)
    requires Get(h, "receipt-id") != Some(id)
    requires FrameChunks(texts) && |Trim(Concat(texts), {'\n'})| >= 2
    requires DecodeFrame(Trim(Concat(texts), {'\n'})) == Frame("RECEIPT", h, body)
    ensures Await(id, [], [], Chunks(texts) + rest, true)
      == WaitStep(Failure(UnexpectedReceipt(Get(h, "receipt-id"), body)), [], rest)
  {
    ChunkedFrame(texts, rest);
    assert IsReceipt(Got(Frame("RECEIPT", h, body)));
  }
}
