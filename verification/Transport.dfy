/** What the results of `recv` and `send` do to a connection, told of whole scripts: how much moves,
    and what ends the connection. `EAGAIN` never does. */
module Transport {
  import opened Wrappers
  import opened Resp

  /** What `recv` returns: some bytes, EAGAIN, end of stream, or another error. */
  datatype RecvResult = Chunk(data: Bytes) | RecvBlocked | RecvEnded | RecvFailed

  /** What `send` returns: a number of bytes taken, EAGAIN, or another error. */
  datatype SendResult = Taken(count: nat) | SendBlocked | SendFailed

  /** The chunks one readable event delivers: those before the first other result. */
  function ChunksOf(script: seq<RecvResult>): seq<Bytes>
    decreases |script|
  {
    if script == [] || !script[0].Chunk? then [] else [script[0].data] + ChunksOf(script[1..])
  }

  /** The read loop ends because the socket would block, not because the stream is over. */
  predicate EndsOpen(script: seq<RecvResult>)
    decreases |script|
  {
    script == [] || script[0].RecvBlocked? || (script[0].Chunk? && EndsOpen(script[1..]))
  }

  /** What one `send` does with `left` bytes: how many it takes, and, if it ends the event,
      whether the connection survives. */
  function SendTurn(left: nat, event: SendResult): (r: (nat, Option<bool>))
    ensures r.0 <= left
  {
    match event
    case SendBlocked => (0, Some(true))
    case SendFailed => (0, Some(false))
    case Taken(count) => if count == 0 then (0, Some(true)) else (if count < left then count else left, None)
  }

  /** How many of `left` bytes one writable event sends, and whether the connection survives. */
  function SendAll(left: nat, script: seq<SendResult>): (r: (nat, bool))
    ensures r.0 <= left
    decreases |script|
  {
    if left == 0 || script == [] then (0, true)
    else
      var (n, end) := SendTurn(left, script[0]);
      if end.Some? then (n, end.value) else Plus(n, SendAll(left - n, script[1..]))
  }

  function Plus(done: nat, r: (nat, bool)): (nat, bool) {
    (done + r.0, r.1)
  }

  // ---- sending -----------------------------------------------------------------------

  function Sum(counts: seq<nat>): nat {
    if counts == [] then 0 else counts[0] + Sum(counts[1..])
  }

  function Accepting(counts: seq<nat>): (script: seq<SendResult>)
    ensures |script| == |counts|
  {
    seq(|counts|, i requires 0 <= i < |counts| => Taken(counts[i]))
  }

  predicate AllPositive(counts: seq<nat>) {
    forall i | 0 <= i < |counts| :: counts[i] > 0
  }

  /** The socket takes nothing more for now: EAGAIN, a count of 0, or no further call. */
  predicate TakesNoMore(tail: seq<SendResult>) {
    tail == [] || tail[0] == SendBlocked || tail[0] == Taken(0)
  }

  predicate NoSendFails(script: seq<SendResult>) {
    forall i | 0 <= i < |script| :: script[i] != SendFailed
  }

  lemma AcceptingFirst(counts: seq<nat>, tail: seq<SendResult>)
    requires counts != []
    ensures Accepting(counts) + tail != [] && (Accepting(counts) + tail)[0] == Taken(counts[0])
    ensures (Accepting(counts) + tail)[1..] == Accepting(counts[1..]) + tail
  {
  }

  /** Some positive counts, and what follows them. If they reach what was left, everything is sent
      and the connection is fine, whatever follows. If they do not, exactly their sum is sent: the
      connection is fine if the socket takes no more for now, and lost if a `send` fails. */
  lemma {:induction false} SendingOutcome(left: nat, counts: seq<nat>, tail: seq<SendResult>)
    requires AllPositive(counts)
    ensures Sum(counts) >= left ==> SendAll(left, Accepting(counts) + tail) == (left, true)
    ensures Sum(counts) < left && TakesNoMore(tail) ==> SendAll(left, Accepting(counts) + tail) == (Sum(counts), true)
    ensures Sum(counts) < left && tail != [] && tail[0] == SendFailed ==>
              SendAll(left, Accepting(counts) + tail) == (Sum(counts), false)
    decreases |counts|
  {
    if counts == [] {
      assert Accepting(counts) + tail == tail;
    } else {
      AcceptingFirst(counts, tail);
      if counts[0] <= left {
        SendingOutcome(left - counts[0], counts[1..], tail);
      }
    }
  }

  /** These are all the scripts there are. */
  lemma {:induction false} EveryScript(script: seq<SendResult>) returns (counts: seq<nat>, tail: seq<SendResult>)
    ensures AllPositive(counts) && script == Accepting(counts) + tail
    ensures TakesNoMore(tail) || tail[0] == SendFailed
    decreases |script|
  {
    if script == [] || !script[0].Taken? || script[0].count == 0 {
      counts, tail := [], script;
      assert Accepting(counts) + tail == tail;
    } else {
      var rest;
      rest, tail := EveryScript(script[1..]);
      counts := [script[0].count] + rest;
      AcceptingFirst(counts, tail);
      assert counts[1..] == rest;
      assert script == [script[0]] + script[1..];
    }
  }

  /** A connection is never lost by sending unless a `send` fails. */
  lemma NoFailureNoLoss(left: nat, script: seq<SendResult>)
    requires NoSendFails(script)
    ensures SendAll(left, script).1
  {
    var counts, tail := EveryScript(script);
    if tail != [] {
      assert script[|counts|] == tail[0];
    }
    SendingOutcome(left, counts, tail);
  }

  // ---- receiving ---------------------------------------------------------------------

  function Delivering(chunks: seq<Bytes>): (script: seq<RecvResult>)
    ensures |script| == |chunks|
  {
    seq(|chunks|, i requires 0 <= i < |chunks| => Chunk(chunks[i]))
  }

  predicate NoRecvEnds(script: seq<RecvResult>) {
    forall i | 0 <= i < |script| :: script[i] != RecvEnded && script[i] != RecvFailed
  }

  /** Some chunks, and a first result that is none: the chunks and nothing else are received, and the
      stream stays open exactly if that result is EAGAIN or there is none. */
  lemma {:induction false} ReceivingOutcome(chunks: seq<Bytes>, tail: seq<RecvResult>)
    requires tail == [] || !tail[0].Chunk?
    ensures ChunksOf(Delivering(chunks) + tail) == chunks
    ensures EndsOpen(Delivering(chunks) + tail) <==> tail == [] || tail[0] == RecvBlocked
    decreases |chunks|
  {
    var script := Delivering(chunks) + tail;
    if chunks == [] {
      assert script == tail;
    } else {
      assert script[0] == Chunk(chunks[0]) && script[1..] == Delivering(chunks[1..]) + tail;
      ReceivingOutcome(chunks[1..], tail);
    }
  }

  lemma {:induction false} NoEndStaysOpen(script: seq<RecvResult>)
    requires NoRecvEnds(script)
    ensures EndsOpen(script)
    decreases |script|
  {
    if script != [] && script[0].Chunk? {
      forall i | 0 <= i < |script[1..]| ensures script[1..][i] != RecvEnded && script[1..][i] != RecvFailed {
        assert script[1..][i] == script[i + 1];
      }
      NoEndStaysOpen(script[1..]);
    }
  }
}
