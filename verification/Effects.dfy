/** What one event reported by the kernel does to one connection. */
module Effects {
  import opened Wrappers
  import opened Folds
  import opened Resp
  import opened RespLaws
  import opened Keyspace
  import opened Service
  import opened Clients
  import opened Transport

  /** What `accept4` returns: a descriptor, with the outcome of registering it, or an error. */
  datatype AcceptResult = Connected(fd: int, registered: bool) | AcceptFailed

  /** One event that `epoll_wait` reports, with what the system calls in its callback will
      return: reads, writes, changes of registration, accepts, and whether a termination
      signal is pending. */
  datatype Event = Event(fd: int, broken: bool, input: bool, output: bool,
                         recvs: seq<RecvResult>, sends: seq<SendResult>,
                         armed: bool, disarmed: bool,
                         accepts: seq<AcceptResult>, terminate: bool)

  /** The stream is still open and well formed after a readable event. */
  predicate ReadSurvives(inbox: Bytes, recvs: seq<RecvResult>) {
    EndsOpen(recvs) && !Drain(inbox + Concat(ChunksOf(recvs))).failed
  }

  /** The connection survives the input part of an event: the stream is open and well formed, and
      the kernel grants the interest in writing if there is something to write. */
  predicate StaysAfterRead(before: Face, mid: Face, e: Event) {
    ReadSurvives(before.inbox, e.recvs) && (Left(mid) != [] ==> e.armed)
  }

  /** It survives the output part: no send fails, and the kernel drops the interest in writing once
      everything is sent. */
  predicate StaysAfterWrite(mid: Face, e: Event) {
    var (n, good) := SendAll(|Left(mid)|, e.sends);
    good && (n == |Left(mid)| ==> e.disarmed)
  }

  // ---- kept closed -------------------------------------------------------------------

  ghost predicate Read(h: Handler, clock: Clock, before: Moment, after: Moment, e: Event, stays: bool) {
    forall u {:trigger Open((before, after, stays), u)} | Open((before, after, stays), u) :: ReadOpen(h, clock, before, after, e, stays)
  }

  /** The frames that became whole are answered, in order, on the keyspace as the replies before
      left it; nothing is sent yet. */
  ghost predicate ReadOpen(h: Handler, clock: Clock, before: Moment, after: Moment, e: Event, stays: bool) {
    && Answered(h, before.face.inbox, after.face.inbox, before.data, after.data,
                before.face.replies, after.face.replies, clock, before.tick, after.tick)
    && after.face.sent == before.face.sent
    && after.face.inbox <= before.face.inbox + Concat(ChunksOf(e.recvs))
    && (stays ==> after.face.inbox == before.face.inbox + Concat(ChunksOf(e.recvs)))
    && stays == StaysAfterRead(before.face, after.face, e)
  }

  ghost predicate Written(before: Face, after: Face, e: Event, stays: bool) {
    forall u {:trigger Open((before, after, stays), u)} | Open((before, after, stays), u) :: WrittenOpen(before, after, e, stays)
  }

  /** Exactly the bytes the transport took have left. */
  ghost predicate WrittenOpen(before: Face, after: Face, e: Event, stays: bool) {
    Wrote(before, after, e.sends) && stays == StaysAfterWrite(before, e)
  }

  ghost predicate Handled(h: Handler, clock: Clock, before: Moment, after: Moment, e: Event, stays: bool) {
    forall u {:trigger Open((before, after, stays), u)} | Open((before, after, stays), u) :: HandledOpen(h, clock, before, after, e, stays)
  }

  /** Between input and output: answered, but nothing sent yet. */
  function Midway(before: Moment, after: Moment): Moment {
    after.(face := after.face.(sent := before.face.sent))
  }

  /** A whole event: a broken connection is closed unserved; otherwise input comes before output,
      and output is tried only if the connection survived the input. */
  ghost predicate HandledOpen(h: Handler, clock: Clock, before: Moment, after: Moment, e: Event, stays: bool) {
    if e.broken then after == before && !stays
    else
      var mid := Midway(before, after);
      var read := !e.input || StaysAfterRead(before.face, mid.face, e);
      && (if e.input then ReadOpen(h, clock, before, mid, e, read) else mid == before)
      && (if read && e.output then WrittenOpen(mid.face, after.face, e, stays)
          else after == mid && stays == read)
  }

  lemma TurnIsRead(h: Handler, clock: Clock, before: Moment, after: Moment, e: Event, ok: bool, writing: bool)
    requires InputTurn(h, clock, before, after, e.recvs, ok, writing)
    ensures Read(h, clock, before, after, e, ok && (writing ==> e.armed))
  {
    assert Open((before, after, ok), true);
    if ok {
      FailureStaysOut(after.face.inbox, before.face.inbox + Concat(ChunksOf(e.recvs)));
    }
  }

  /** A prefix of a well-formed stream is well formed. */
  lemma FailureStaysOut(inbox: Bytes, all: Bytes)
    requires inbox <= all && !Drain(all).failed
    ensures !Drain(inbox).failed
  {
    assert inbox + all[|inbox|..] == all;
    if Drain(inbox).failed {
      FailureStays(inbox, all[|inbox|..]);
    }
  }

  lemma TurnIsWritten(before: Face, after: Face, e: Event, ok: bool, idle: bool)
    requires OutputTurn(before, after, e.sends, ok, idle)
    ensures Written(before, after, e, ok && (idle ==> e.disarmed))
  {
    assert Open((before, after, ok), true);
  }

  lemma ReadIsAnswered(h: Handler, clock: Clock, before: Moment, after: Moment, e: Event, stays: bool)
    requires Read(h, clock, before, after, e, stays)
    ensures Answered(h, before.face.inbox, after.face.inbox, before.data, after.data,
                     before.face.replies, after.face.replies, clock, before.tick, after.tick)
  {
    assert Open((before, after, stays), true);
  }

  lemma WrittenKeeps(before: Face, after: Face, e: Event, stays: bool)
    requires Written(before, after, e, stays)
    ensures after.inbox == before.inbox && after.replies == before.replies
  {
    assert Open((before, after, stays), true);
  }

  lemma BrokenIsHandled(h: Handler, clock: Clock, before: Moment, e: Event)
    requires e.broken
    ensures Handled(h, clock, before, before, e, false)
  {
  }

  /** Input, if there was any, and no output after it. */
  lemma ReadIsHandled(h: Handler, clock: Clock, before: Moment, after: Moment, e: Event, stays: bool)
    requires !e.broken && (stays ==> !e.output)
    requires if e.input then Read(h, clock, before, after, e, stays) else after == before && stays
    ensures Handled(h, clock, before, after, e, stays)
  {
    assert Open((before, after, stays), true);
    if e.input {
      assert Midway(before, after) == after;
    }
  }

  /** Input, if there was any, and output. */
  lemma WrittenIsHandled(h: Handler, clock: Clock, before: Moment, mid: Moment, after: Moment, e: Event, stays: bool)
    requires !e.broken && e.output && after == mid.(face := after.face)
    requires if e.input then Read(h, clock, before, mid, e, true) else mid == before
    requires Written(mid.face, after.face, e, stays)
    ensures Handled(h, clock, before, after, e, stays)
  {
    assert Open((before, mid, true), true);
    assert Open((mid.face, after.face, stays), true);
    assert Midway(before, after) == mid;
  }

  // ---- what does not end a connection ------------------------------------------------

  /** Exactly the bytes the counts add up to have left, or all there were; the connection is lost by
      a `send` that fails before that, and otherwise stays if the kernel, once nothing is left, drops
      the interest in writing. */
  lemma WritingOutcome(before: Face, after: Face, e: Event, stays: bool, counts: seq<nat>, tail: seq<SendResult>)
    requires Written(before, after, e, stays)
    requires AllPositive(counts) && e.sends == Accepting(counts) + tail
    requires TakesNoMore(tail) || tail[0] == SendFailed
    ensures after.sent == before.sent + if Sum(counts) < |Left(before)| then Left(before)[..Sum(counts)] else Left(before)
    ensures stays <==> if Sum(counts) < |Left(before)| then TakesNoMore(tail) else e.disarmed
  {
    assert Open((before, after, stays), true);
    SendingOutcome(|Left(before)|, counts, tail);
  }

  /** A readable event answers in order the frames that have become whole, on the keyspace as the
      replies before left it; the connection is lost exactly if the stream ends or fails, if what
      came is no RESP, or if there is something to write and the kernel does not grant the interest. */
  lemma ReadingOutcome(h: Handler, clock: Clock, before: Moment, after: Moment, e: Event, stays: bool,
                       chunks: seq<Bytes>, tail: seq<RecvResult>)
    requires Read(h, clock, before, after, e, stays)
    requires e.recvs == Delivering(chunks) + tail && (tail == [] || !tail[0].Chunk?)
    ensures var all := before.face.inbox + Concat(chunks);
            && after.face.sent == before.face.sent && after.face.inbox <= all
            && (stays ==> after.face.inbox == all)
            && (stays <==> (tail == [] || tail[0] == RecvBlocked) && !Drain(all).failed
                           && (Left(after.face) == [] || e.armed))
            && var came := Drain(after.face.inbox).values;
               && Drain(before.face.inbox).values <= came
               && var served := Fold(h, before.data, clock, before.tick, came[|Drain(before.face.inbox).values|..]);
                  after.data == served.state && after.face.replies == before.face.replies + served.outputs
  {
    assert Open((before, after, stays), true);
    ReceivingOutcome(chunks, tail);
  }

  /** A broken connection is closed as it is. */
  lemma BrokenIsClosed(h: Handler, clock: Clock, before: Moment, after: Moment, e: Event, stays: bool)
    requires Handled(h, clock, before, after, e, stays) && e.broken
    ensures after == before && !stays
  {
    assert Open((before, after, stays), true);
  }

  /** Otherwise input comes first, and output only if the connection has survived it. */
  lemma InputThenOutput(h: Handler, clock: Clock, before: Moment, after: Moment, e: Event, stays: bool)
    returns (mid: Moment, read: bool)
    requires Handled(h, clock, before, after, e, stays) && !e.broken
    ensures if e.input then Read(h, clock, before, mid, e, read) else mid == before && read
    ensures if read && e.output then Written(mid.face, after.face, e, stays) && after == mid.(face := after.face)
            else after == mid && stays == read
  {
    assert Open((before, after, stays), true);
    mid := Midway(before, after);
    read := !e.input || StaysAfterRead(before.face, mid.face, e);
  }

  /** A full socket costs nobody the connection. */
  lemma HealthyWriteStays(before: Face, after: Face, e: Event, stays: bool)
    requires Written(before, after, e, stays) && NoSendFails(e.sends) && e.disarmed
    ensures stays
  {
    assert Open((before, after, stays), true);
    NoFailureNoLoss(|Left(before)|, e.sends);
  }

  /** Nothing is reported broken, ended or failed, and every change of interest is granted. */
  predicate Healthy(e: Event) {
    !e.broken && NoRecvEnds(e.recvs) && NoSendFails(e.sends) && e.armed && e.disarmed
  }

  /** A healthy event that brings no bytes that are no RESP. */
  predicate Harmless(e: Event, inbox: Bytes) {
    Healthy(e) && (e.input ==> !Drain(inbox + Concat(ChunksOf(e.recvs))).failed)
  }

  /** It never loses the connection. */
  lemma HealthyStays(h: Handler, clock: Clock, before: Moment, after: Moment, e: Event, stays: bool)
    requires Handled(h, clock, before, after, e, stays) && Harmless(e, before.face.inbox)
    ensures stays
  {
    assert Open((before, after, stays), true);
    NoEndStaysOpen(e.recvs);
    NoFailureNoLoss(|Left(Midway(before, after).face)|, e.sends);
  }
}
