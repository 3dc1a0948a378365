/** `Client`: one connection. Bytes come in through the parser, replies go out through a write
    buffer that the transport empties a part at a time. What the environment does (how many
    bytes a read or a write moves, when it would block, when it fails) is the argument of the
    two event methods. */
module Clients {
  import opened Wrappers
  import opened Resp
  import opened RespLaws
  import opened Folds
  import opened Transport
  import opened Keyspace
  import opened Command
  import opened Alignment
  import opened Service
  import opened Stores
  import opened Dispatcher

  datatype ClientState = Reading | Writing | Closing

  /** A connection as its peer knows it: what the peer sent, what it was answered, and how much of
      that has left. */
  datatype Face = Face(inbox: Bytes, replies: seq<Reply>, sent: Bytes)

  /** What has not left yet. */
  function Left(f: Face): Bytes {
    if |f.sent| <= |RenderAll(f.replies)| then RenderAll(f.replies)[|f.sent|..] else []
  }

  /** A connection at an instant, with the keyspace and the number of requests executed. */
  datatype Moment = Moment(data: DataMap, tick: nat, face: Face)

  class Client {
    const fd: int
    const parser: RespParser
    var writeBuf: Bytes
    var writeOffset: nat
    var state: ClientState

    /** What one request does to the keyspace (see `Service.Faithful`). */
    ghost const handler: Handler

    /** Everything received, every reply given, and everything the transport has taken. */
    ghost var inbox: Bytes
    ghost var replies: seq<Reply>
    ghost var sent: Bytes

    constructor (fd: int, ghost handler: Handler)
      ensures Valid() && fresh(this) && fresh(parser)
      ensures Sound() && this.fd == fd && parser.fd == fd && this.handler == handler
      ensures inbox == [] && replies == [] && sent == [] && state == Reading
    {
      this.handler := handler;
      this.fd := fd;
      parser := new RespParser(fd);
      writeBuf, writeOffset, state := [], 0, Reading;
      inbox, replies, sent := [], [], [];
    }

    ghost function Unsent(): Bytes
      requires writeOffset <= |writeBuf|
      reads this
    {
      writeBuf[writeOffset..]
    }

    ghost function Seen(): Face
      reads this
    {
      Face(inbox, replies, sent)
    }

    /** No reply byte is lost, doubled or reordered, and the client is in the writing state
        exactly while there is something left to send. */
    ghost predicate Conserved()
      reads this
    {
      && writeOffset <= |writeBuf|
      && sent + Unsent() == RenderAll(replies)
      && (state == Writing <==> Unsent() != [])
      && state != Closing
    }

    /** The parser holds the tail of the received bytes that is not a whole frame yet, and
        every whole frame has been answered once. */
    ghost predicate InStep()
      reads this, parser
    {
      && Drain(inbox) == Stream(Drain(inbox).values, parser.buf, false)
      && |replies| == |Drain(inbox).values|
    }

    ghost predicate Valid()
      reads this, parser
    {
      Conserved() && InStep()
    }

    /** `Valid`, kept closed. */
    ghost predicate Sound()
      reads this, parser
    {
      forall u {:trigger Open(this, u)} | Open(this, u) :: Valid()
    }

    lemma Unseal()
      requires Sound()
      ensures Valid()
    {
      assert Open(this, true);
    }

    /** `enqueue_response`. */
    method EnqueueResponse(data: Bytes, ghost reply: Reply)
      requires Conserved() && data == Render(reply)
      modifies this
      ensures Conserved() && state == Writing
      ensures replies == old(replies) + [reply] && sent == old(sent) && inbox == old(inbox)
    {
      RenderOneMore(replies, reply);
      RepliesAreNotEmpty(reply);
      AppendUnsent(sent, writeBuf, writeOffset, data);
      writeBuf := writeBuf + data;
      state := Writing;
      replies := replies + [reply];
    }

    /** The body of the drain loop: one frame in, one reply out. */
    method HandleFrame(v: RespValue, store: Store, now: nat)
      requires Conserved() && Faithful(handler)
      modifies this, store
      ensures Conserved()
      ensures store.data == handler(old(store.data), now, v).0
      ensures replies == old(replies) + [handler(old(store.data), now, v).1] && state == Writing
      ensures sent == old(sent) && inbox == old(inbox)
    {
      assert Asked(store.data, now, v);
      var request := ParseCommand(v);
      match request {
        case Refused(reply) =>
          var out := RenderReply(reply);
          EnqueueResponse(out, reply);
        case Accepted(cmd) =>
          ghost var reply := Exec(store.data, now, PlanOf(cmd, now)).1;
          var out := Dispatch(cmd, store, now);
          EnqueueResponse(out, reply);
      }
    }

    /** One turn of the drain loop. */
    method TryFrame(store: Store, now: nat) returns (result: ParseResult)
      requires Conserved() && Faithful(handler)
      modifies this, parser, store
      ensures Conserved() && sent == old(sent) && inbox == old(inbox) && (state == Writing || state == old(state))
      ensures result == Parse(old(parser.buf))
      ensures parser.buf == if result.Complete? then old(parser.buf)[result.consumed..]
                            else if result.Incomplete? then old(parser.buf)
                            else []
      ensures if result.Complete?
              then (store.data, replies) == Applied(handler(old(store.data), now, result.value), old(replies))
              else store.data == old(store.data) && replies == old(replies)
    {
      result := parser.TryParse();
      if result.Complete? {
        HandleFrame(result.value, store, now);
      } else if result.Error? {
        parser.Reset();
      }
    }

    /** The drain loop of `on_readable`: handle every whole frame in the parser. */
    method DrainFrames(store: Store, clock: Clock, tick: nat) returns (ok: bool, next: nat)
      requires Conserved() && Faithful(handler)
      modifies this, parser, store
      ensures Conserved() && sent == old(sent) && inbox == old(inbox) && (state == Writing || state == old(state))
      ensures ok == !Drain(old(parser.buf)).failed && parser.buf == Drain(old(parser.buf)).rest
      ensures Progress(handler, old(store.data), store.data, old(replies), replies, clock, tick, next,
                       Drain(old(parser.buf)).values)
    {
      ghost var values: seq<RespValue> := [];
      next := tick;
      PrependNone(parser.buf);
      AppendNone(replies);
      while true
        invariant Conserved() && sent == old(sent) && inbox == old(inbox) && (state == Writing || state == old(state))
        invariant Prepend(values, Drain(parser.buf)) == Drain(old(parser.buf))
        invariant Progress(handler, old(store.data), store.data, old(replies), replies, clock, tick, next, values)
        decreases |parser.buf|
      {
        ghost var buf, d, r := parser.buf, store.data, replies;
        var result := TryFrame(store, clock(next));
        DrainTurn(values, buf);
        if !result.Complete? {
          return result.Incomplete?, next;
        }
        ProgressStep(handler, old(store.data), d, old(replies), r, clock, tick, next, values, result.value);
        values := values + [result.value];
        next := next + 1;
      }
    }

    /** One successful `recv`: feed the parser and drain it. */
    method TakeChunk(data: Bytes, store: Store, clock: Clock, tick: nat) returns (ok: bool, next: nat)
      requires Valid() && Faithful(handler)
      modifies this, parser, store
      ensures Conserved() && sent == old(sent) && (state == Writing || state == old(state))
      ensures inbox == old(inbox) + data && ok == !Drain(inbox).failed
      ensures ok ==> Valid()
      ensures Answered(handler, old(inbox), inbox, old(store.data), store.data, old(replies), replies, clock, tick, next)
    {
      ghost var d, r := store.data, replies;
      parser.Feed(data);
      ok, next := DrainFrames(store, clock, tick);
      inbox := inbox + data;
      AnsweredChunk(handler, old(inbox), data, d, store.data, r, replies, clock, tick, next);
    }

    /** `on_readable`: read until the socket would block, answering as frames complete. */
    method OnReadable(script: seq<RecvResult>, store: Store, clock: Clock, tick: nat)
      returns (ok: bool, next: nat)
      requires Valid() && Faithful(handler)
      modifies this, parser, store
      ensures Conserved() && sent == old(sent) && (state == Writing || state == old(state))
      ensures ok ==> Valid()
      ensures ok <==> EndsOpen(script) && !Drain(old(inbox) + Concat(ChunksOf(script))).failed
      ensures inbox <= old(inbox) + Concat(ChunksOf(script))
      ensures !Drain(inbox).failed ==> inbox == old(inbox) + Concat(ChunksOf(script))
      ensures Answered(handler, old(inbox), inbox, old(store.data), store.data, old(replies), replies, clock, tick, next)
    {
      next := tick;
      ghost var total := inbox + Concat(ChunksOf(script));
      AnsweredNothing(handler, inbox, store.data, replies, clock, tick);
      assert script[0..] == script;
      for i := 0 to |script|
        invariant Valid() && sent == old(sent) && (state == Writing || state == old(state))
        invariant inbox + Concat(ChunksOf(script[i..])) == total
        invariant EndsOpen(script) == EndsOpen(script[i..])
        invariant Answered(handler, old(inbox), inbox, old(store.data), store.data, old(replies), replies, clock, tick, next)
      {
        ghost var inbox1, data1, replies1, mid := inbox, store.data, replies, next;
        ScriptStep(inbox, script[i..]);
        assert script[i..][1..] == script[i + 1..];
        match script[i] {
          case RecvEnded => return false, next;
          case RecvFailed => return false, next;
          case RecvBlocked => return true, next;
          case Chunk(data) =>
            var good;
            good, next := TakeChunk(data, store, clock, next);
            AnsweredChain(handler, old(inbox), inbox1, inbox, old(store.data), data1, store.data,
                          old(replies), replies1, replies, clock, tick, mid, next);
            if !good {
              FailureStays(inbox, Concat(ChunksOf(script[i + 1..])));
              return false, next;
            }
        }
      }
      AppendNone(inbox);
      return true, next;
    }

    /** One `send`. */
    method TrySend(event: SendResult) returns (end: Option<bool>, ghost n: nat)
      requires writeOffset < |writeBuf|
      modifies `sent, `writeOffset
      ensures writeOffset <= |writeBuf| && (n, end) == SendTurn(|old(Unsent())|, event)
      ensures sent == old(sent) + old(Unsent())[..n] && Unsent() == old(Unsent())[n..]
      ensures event == SendBlocked || event == Taken(0) ==> n == 0 && end == Some(true)
      ensures event == SendFailed ==> n == 0 && end == Some(false)
      ensures event.Taken? && event.count > 0 ==>
                end == None && n == if event.count < |old(Unsent())| then event.count else |old(Unsent())|
    {
      n := 0;
      end := None;
      AppendNone(sent);
      match event {
        case SendBlocked => end := Some(true);
        case SendFailed => end := Some(false);
        case Taken(count) =>
          if count == 0 {
            end := Some(true);
          } else {
            ghost var all := Unsent();
            n := Min(count, |writeBuf| - writeOffset);
            assert writeBuf[writeOffset + n..] == all[n..];
            sent := sent + all[..n];
            writeOffset := writeOffset + Min(count, |writeBuf| - writeOffset);
          }
      }
    }

    /** `on_writable`: hand the unsent bytes to the transport until it takes no more. */
    method OnWritable(script: seq<SendResult>) returns (ok: bool)
      requires Conserved()
      modifies this
      ensures Conserved() && replies == old(replies) && inbox == old(inbox)
      ensures state == Reading || state == old(state)
      ensures SentUpTo(old(sent), old(Unsent()), SendAll(|old(Unsent())|, script).0, sent)
      ensures ok == SendAll(|old(Unsent())|, script).1 && (NoSendFails(script) ==> ok)
    {
      ghost var all, done: nat := Unsent(), 0;
      var i := 0;
      if NoSendFails(script) {
        NoFailureNoLoss(|all|, script);
      }
      SendingStarts(sent, all, script);
      while writeOffset < |writeBuf| && i < |script|
        invariant writeOffset <= |writeBuf| && i <= |script| && writeBuf == old(writeBuf)
        invariant Sending(old(sent), all, done, sent, Unsent(), script, i)
        invariant replies == old(replies) && inbox == old(inbox) && state == old(state)
      {
        ghost var sentWas, unsentWas := sent, Unsent();
        ghost var n;
        var end;
        end, n := TrySend(script[i]);
        SendingTurn(old(sent), all, done, sentWas, unsentWas, script, i, n, end, sent, Unsent());
        if end.Some? {
          return end.value;
        }
        done, i := done + n, i + 1;
      }
      SendingEnds(old(sent), all, done, sent, Unsent(), script, i);
      if writeOffset < |writeBuf| {
        return true;
      }
      AppendNone(sent);
      writeBuf, writeOffset, state := [], 0, Reading;
      return true;
    }

    // ---- the two events, as the server uses them -----------------------------------

    method Input(script: seq<RecvResult>, store: Store, clock: Clock, tick: nat)
      returns (ok: bool, next: nat)
      requires Sound() && Faithful(handler)
      modifies this, parser, store
      ensures (ok ==> Sound()) && (state == Writing || state == old(state))
      ensures InputTurn(handler, clock, Moment(old(store.data), tick, old(Seen())),
                        Moment(store.data, next, Seen()), script, ok, state == Writing)
    {
      Unseal();
      ok, next := OnReadable(script, store, clock, tick);
      LeftIsUnsent(this);
    }

    method Output(script: seq<SendResult>) returns (ok: bool)
      requires Sound()
      modifies this
      ensures Sound() && (state == Reading || state == old(state))
      ensures OutputTurn(old(Seen()), Seen(), script, ok, state == Reading)
      ensures NoSendFails(script) ==> ok
    {
      Unseal();
      LeftIsUnsent(this);
      ghost var before := Seen();
      ok := OnWritable(script);
      LeftIsUnsent(this);
      LeftAfterSending(before, Seen(), SendAll(|Left(before)|, script).0);
    }
  }

  /** What a readable event does to a connection and the keyspace, kept closed: the frames that
      became whole are answered and executed, nothing is sent; the connection is fit to go on if
      the stream is open and well formed; it then waits to write exactly if something is left. */
  ghost predicate InputTurn(h: Handler, clock: Clock, before: Moment, after: Moment, script: seq<RecvResult>,
                            ok: bool, writing: bool)
  {
    forall u {:trigger Open((before, after, ok), u)} | Open((before, after, ok), u) :: InputTurnOpen(h, clock, before, after, script, ok, writing)
  }

  ghost predicate InputTurnOpen(h: Handler, clock: Clock, before: Moment, after: Moment, script: seq<RecvResult>,
                                ok: bool, writing: bool)
  {
    var sent := before.face.inbox + Concat(ChunksOf(script));
    && Answered(h, before.face.inbox, after.face.inbox, before.data, after.data,
                before.face.replies, after.face.replies, clock, before.tick, after.tick)
    && after.face.sent == before.face.sent && after.face.inbox <= sent
    && (!Drain(after.face.inbox).failed ==> after.face.inbox == sent)
    && (ok <==> EndsOpen(script) && !Drain(sent).failed)
    && (writing <==> Left(after.face) != [])
  }

  /** What a writable event does to a connection, kept closed: the transport takes the next bytes;
      the connection is idle exactly if it took all there were. */
  ghost predicate OutputTurn(before: Face, after: Face, script: seq<SendResult>, ok: bool, idle: bool) {
    forall u {:trigger Open((before, after, ok), u)} | Open((before, after, ok), u) :: OutputTurnOpen(before, after, script, ok, idle)
  }

  ghost predicate OutputTurnOpen(before: Face, after: Face, script: seq<SendResult>, ok: bool, idle: bool) {
    var (n, good) := SendAll(|Left(before)|, script);
    && Wrote(before, after, script) && ok == good
    && (idle <==> n == |Left(before)|)
  }

  ghost predicate Wrote(before: Face, after: Face, script: seq<SendResult>) {
    && after.inbox == before.inbox && after.replies == before.replies
    && SentUpTo(before.sent, Left(before), SendAll(|Left(before)|, script).0, after.sent)
  }

  lemma LeftAfterSending(before: Face, after: Face, n: nat)
    requires before.replies == after.replies && before.sent + Left(before) == RenderAll(before.replies)
    requires n <= |Left(before)| && after.sent == before.sent + Left(before)[..n]
    ensures Left(after) == Left(before)[n..]
  {
  }

  // ---- what the event methods keep ---------------------------------------------------

  /** Between two moments of a connection: exactly the frames that became whole were answered,
      one reply each, in order, by executing them in order on the keyspace. */
  ghost predicate Answered(h: Handler, inbox0: Bytes, inbox1: Bytes, d0: DataMap, d1: DataMap,
                           replies0: seq<Reply>, replies1: seq<Reply>, clock: Clock, tick: nat, next: nat)
  {
    && inbox0 <= inbox1
    && Drain(inbox0).values <= Drain(inbox1).values
    && Progress(h, d0, d1, replies0, replies1, clock, tick, next,
                Drain(inbox1).values[|Drain(inbox0).values|..])
  }

  function Applied(r: (DataMap, Reply), replies: seq<Reply>): (DataMap, seq<Reply>) {
    (r.0, replies + [r.1])
  }

  /** Some requests have been executed in order, one reply each. */
  ghost predicate Progress(h: Handler, d0: DataMap, d1: DataMap, replies0: seq<Reply>, replies1: seq<Reply>,
                           clock: Clock, tick: nat, next: nat, values: seq<RespValue>)
  {
    var served := Fold(h, d0, clock, tick, values);
    d1 == served.state && replies1 == replies0 + served.outputs && next == tick + |values|
  }

  lemma ProgressStep(h: Handler, d0: DataMap, d1: DataMap, replies0: seq<Reply>, replies1: seq<Reply>,
                     clock: Clock, tick: nat, next: nat, values: seq<RespValue>, v: RespValue)
    requires Progress(h, d0, d1, replies0, replies1, clock, tick, next, values)
    ensures var (d2, replies2) := Applied(h(d1, clock(next), v), replies1);
            Progress(h, d0, d2, replies0, replies2, clock, tick, next + 1, values + [v])
  {
    FoldOneMore(h, d0, clock, tick, values, v);
    Assoc(replies0, Fold(h, d0, clock, tick, values).outputs, [h(d1, clock(next), v).1]);
  }

  /** What one turn of the drain loop does to the stream. */
  lemma DrainTurn(values: seq<RespValue>, buf: Bytes)
    ensures var r := Parse(buf);
            Prepend(values, Drain(buf)) ==
            if r.Complete? then Prepend(values + [r.value], Drain(buf[r.consumed..]))
            else if r.Incomplete? then Stream(values, buf, false)
            else Stream(values, [], true)
  {
    AppendNone(values);
    var r := Parse(buf);
    if r.Complete? {
      PrependPrepend(values, [r.value], Drain(buf[r.consumed..]));
    }
  }

  lemma RenderOne(reply: Reply)
    ensures RenderAll([reply]) == Render(reply)
  {
    assert [reply][..|[reply]| - 1] == [];
    assert Join(PRINT, []) + PRINT(reply) == Render(reply);
  }

  lemma RenderOneMore(replies: seq<Reply>, reply: Reply)
    ensures RenderAll(replies + [reply]) == RenderAll(replies) + Render(reply)
  {
    JoinAppend(PRINT, replies, [reply]);
    RenderOne(reply);
  }

  lemma AppendUnsent(sent: Bytes, buf: Bytes, offset: nat, data: Bytes)
    requires offset <= |buf|
    ensures sent + (buf + data)[offset..] == sent + buf[offset..] + data
  {
  }

  lemma AnsweredNothing(h: Handler, inbox: Bytes, d: DataMap, replies: seq<Reply>, clock: Clock, tick: nat)
    ensures Answered(h, inbox, inbox, d, d, replies, replies, clock, tick, tick)
  {
    AppendNone(replies);
  }

  lemma ProgressJoin(h: Handler, d0: DataMap, d1: DataMap, d2: DataMap, replies0: seq<Reply>,
                     replies1: seq<Reply>, replies2: seq<Reply>, clock: Clock, tick: nat, mid: nat, next: nat,
                     a: seq<RespValue>, b: seq<RespValue>)
    requires Progress(h, d0, d1, replies0, replies1, clock, tick, mid, a)
    requires Progress(h, d1, d2, replies1, replies2, clock, mid, next, b)
    ensures Progress(h, d0, d2, replies0, replies2, clock, tick, next, a + b)
  {
    FoldAppend(h, d0, clock, tick, a, b);
    Assoc(replies0, Fold(h, d0, clock, tick, a).outputs, Fold(h, d1, clock, mid, b).outputs);
  }

  lemma AnsweredChunk(h: Handler, inbox: Bytes, chunk: Bytes, d0: DataMap, d1: DataMap,
                      replies0: seq<Reply>, replies1: seq<Reply>, clock: Clock, tick: nat, next: nat)
    requires !Drain(inbox).failed
    requires Progress(h, d0, d1, replies0, replies1, clock, tick, next, Drain(Drain(inbox).rest + chunk).values)
    ensures Answered(h, inbox, inbox + chunk, d0, d1, replies0, replies1, clock, tick, next)
    ensures Drain(inbox + chunk) == Prepend(Drain(inbox).values, Drain(Drain(inbox).rest + chunk))
  {
    DrainAppend(inbox, chunk);
  }

  lemma AnsweredChain(h: Handler, inbox0: Bytes, inbox1: Bytes, inbox2: Bytes, d0: DataMap, d1: DataMap, d2: DataMap,
                      replies0: seq<Reply>, replies1: seq<Reply>, replies2: seq<Reply>,
                      clock: Clock, tick: nat, mid: nat, next: nat)
    requires Answered(h, inbox0, inbox1, d0, d1, replies0, replies1, clock, tick, mid)
    requires Answered(h, inbox1, inbox2, d1, d2, replies1, replies2, clock, mid, next)
    ensures Answered(h, inbox0, inbox2, d0, d2, replies0, replies2, clock, tick, next)
  {
    var v0, v1, v2 := Drain(inbox0).values, Drain(inbox1).values, Drain(inbox2).values;
    PrefixChain(v0, v1, v2);
    ProgressJoin(h, d0, d1, d2, replies0, replies1, replies2, clock, tick, mid, next, v1[|v0|..], v2[|v1|..]);
  }

  lemma PrefixChain<T>(a: seq<T>, b: seq<T>, c: seq<T>)
    requires a <= b && b <= c
    ensures a <= c && c[|a|..] == b[|a|..] + c[|b|..]
  {
  }

  /** Exactly the first `n` bytes of what was unsent have been sent. */
  ghost predicate SentUpTo(sent0: Bytes, all: Bytes, n: nat, sent1: Bytes) {
    n <= |all| && sent1 == sent0 + all[..n]
  }

  lemma LeftIsUnsent(c: Client)
    requires c.Conserved()
    ensures Left(c.Seen()) == c.Unsent() && (c.state == Writing <==> Left(c.Seen()) != [])
  {
    assert (c.sent + c.Unsent())[|c.sent|..] == c.Unsent();
  }

  /** Midway through the send loop: `done` bytes of `all` have gone, and what the rest of the
      script will do completes what the whole script does. Kept closed. */
  ghost predicate Sending(sent0: Bytes, all: Bytes, done: nat, sent: Bytes, unsent: Bytes,
                          script: seq<SendResult>, i: nat)
  {
    forall u {:trigger Open((sent, unsent, i), u)} | Open((sent, unsent, i), u) ::
      SendingOpen(sent0, all, done, sent, unsent, script, i)
  }

  ghost predicate SendingOpen(sent0: Bytes, all: Bytes, done: nat, sent: Bytes, unsent: Bytes,
                              script: seq<SendResult>, i: nat)
  {
    && SentUpTo(sent0, all, done, sent) && unsent == all[done..] && i <= |script|
    && SendAll(|all|, script) == Plus(done, SendAll(|unsent|, script[i..]))
  }

  lemma SendingStarts(sent: Bytes, all: Bytes, script: seq<SendResult>)
    ensures Sending(sent, all, 0, sent, all, script, 0)
  {
    assert script[0..] == script && all[0..] == all && sent + all[..0] == sent;
  }

  /** One `send`: the loop goes on, or this was the last one. */
  lemma SendingTurn(sent0: Bytes, all: Bytes, done: nat, sent1: Bytes, unsent1: Bytes, script: seq<SendResult>, i: nat,
                    n: nat, end: Option<bool>, sent2: Bytes, unsent2: Bytes)
    requires Sending(sent0, all, done, sent1, unsent1, script, i) && i < |script| && unsent1 != []
    requires (n, end) == SendTurn(|unsent1|, script[i]) && sent2 == sent1 + unsent1[..n] && unsent2 == unsent1[n..]
    ensures end.None? ==> Sending(sent0, all, done + n, sent2, unsent2, script, i + 1)
    ensures end.Some? ==> SendAll(|all|, script) == (done + n, end.value) && SentUpTo(sent0, all, done + n, sent2)
    ensures sent2 + unsent2 == sent0 + all
  {
    assert Open((sent1, unsent1, i), true);
    SendingBytes(sent0, all, done, sent1, n, sent2);
    SendingTotal(|unsent1|, done, SendAll(|all|, script), script, i);
  }

  lemma SendingBytes(sent0: Bytes, all: Bytes, done: nat, sent1: Bytes, n: nat, sent2: Bytes)
    requires SentUpTo(sent0, all, done, sent1) && done + n <= |all| && sent2 == sent1 + all[done..][..n]
    ensures SentUpTo(sent0, all, done + n, sent2) && all[done..][n..] == all[done + n..]
    ensures sent2 + all[done + n..] == sent0 + all
  {
    CutMore(all, done, n);
    Assoc(sent0, all[..done], all[done..][..n]);
    Assoc(sent0, all[..done + n], all[done + n..]);
  }

  lemma SendingTotal(left: nat, done: nat, total: (nat, bool), script: seq<SendResult>, i: nat)
    requires left > 0 && i < |script| && total == Plus(done, SendAll(left, script[i..]))
    ensures var (n, end) := SendTurn(left, script[i]);
            if end.Some? then total == (done + n, end.value)
            else total == Plus(done + n, SendAll(left - n, script[i + 1..]))
  {
    assert script[i..][1..] == script[i + 1..];
  }

  lemma CutMore(all: Bytes, done: nat, n: nat)
    requires done + n <= |all|
    ensures all[..done] + all[done..][..n] == all[..done + n] && all[done..][n..] == all[done + n..]
    ensures all[..done + n] + all[done + n..] == all
  {
  }

  lemma SendingEnds(sent0: Bytes, all: Bytes, done: nat, sent: Bytes, unsent: Bytes, script: seq<SendResult>, i: nat)
    requires Sending(sent0, all, done, sent, unsent, script, i) && (unsent == [] || i >= |script|)
    ensures SendAll(|all|, script) == (done, true) && SentUpTo(sent0, all, done, sent)
    ensures sent + unsent == sent0 + all
  {
    assert Open((sent, unsent, i), true);
    CutMore(all, done, 0);
    Assoc(sent0, all[..done], all[done..]);
  }

  /** What one `recv` leaves of a script. */
  lemma ScriptStep(inbox: Bytes, script: seq<RecvResult>)
    requires script != []
    ensures script[0].Chunk? ==>
            inbox + Concat(ChunksOf(script)) == inbox + script[0].data + Concat(ChunksOf(script[1..]))
    ensures !script[0].Chunk? ==> inbox + Concat(ChunksOf(script)) == inbox
    ensures EndsOpen(script) == (script[0].RecvBlocked? || (script[0].Chunk? && EndsOpen(script[1..])))
  {
    if script[0].Chunk? {
      var rest := ChunksOf(script[1..]);
      assert ([script[0].data] + rest)[1..] == rest;
      Assoc(inbox, script[0].data, Concat(rest));
    } else {
      AppendNone(inbox);
    }
  }

  lemma FailureStays(inbox: Bytes, more: Bytes)
    requires Drain(inbox).failed
    ensures Drain(inbox + more).failed
  {
    DrainAppend(inbox, more);
  }
}
