/** What a connection is served: every frame received is answered by exactly one reply, in
    order, each computed on the keyspace as the replies before it left it. */
module Service {
  import opened Int64
  import opened Resp
  import opened RespLaws
  import opened Folds
  import opened Keyspace
  import opened Command
  import opened Alignment

  /** One frame: refused by `parse_command`, or executed. */
  function Handle(d: DataMap, now: nat, v: RespValue): (DataMap, Reply) {
    match RequestOf(v)
    case Refused(reply) => (d, reply)
    case Accepted(cmd) => Exec(d, now, PlanOf(cmd, now))
  }

  type Handler = (DataMap, nat, RespValue) -> (DataMap, Reply)

  const HANDLE: Handler := (d: DataMap, now: nat, v: RespValue) => Handle(d, now, v)

  /** `h` is the program's handler. The connection code (`Clients`, `Servers`) never looks
      inside it, so it is kept abstract there; `Asked` brings out what `h` does on one input. */
  ghost predicate Faithful(h: Handler) {
    forall d, now, v {:trigger Asked(d, now, v)} :: Asked(d, now, v) ==> h(d, now, v) == HANDLE(d, now, v)
  }

  ghost predicate Asked(d: DataMap, now: nat, v: RespValue) {
    true
  }

  /** The keyspace after some requests, and their replies; request n runs at `clock(tick + n)`. */
  function Serve(d: DataMap, clock: Clock, tick: nat, values: seq<RespValue>): Trace<DataMap, Reply> {
    Fold(HANDLE, d, clock, tick, values)
  }

  lemma FaithfulServes(h: Handler, d: DataMap, clock: Clock, tick: nat, values: seq<RespValue>)
    requires Faithful(h)
    ensures Fold(h, d, clock, tick, values) == Serve(d, clock, tick, values)
  {
    forall i | 0 <= i < |values| ensures AgreeAt(h, HANDLE, d, clock, tick, values, i) {
      assert Asked(Fold(HANDLE, d, clock, tick, values[..i]).state, clock(tick + i), values[i]);
    }
    FoldCongruence(h, HANDLE, d, clock, tick, values);
  }

  // ---- alignment over a whole connection ---------------------------------------------

  predicate CleanRequest(v: RespValue) {
    RequestOf(v).Accepted? ==> CleanName(RequestOf(v).cmd)
  }

  /** The keyspace and the requests stay within the address space at every step. */
  ghost predicate Roomy(d: DataMap, clock: Clock, tick: nat, values: seq<RespValue>) {
    && (forall i | 0 <= i <= |values| :: Fits(Serve(d, clock, tick, values[..i]).state))
    && (forall i | 0 <= i < |values| :: Encodable(values[i]))
  }

  /** No unknown command name carries a line terminator. */
  ghost predicate Clean(values: seq<RespValue>) {
    forall i | 0 <= i < |values| :: CleanRequest(values[i])
  }

  lemma {:induction false} ElementsEncodable(vs: seq<RespValue>, i: nat)
    requires AllEncodable(vs) && i < |vs|
    ensures Encodable(vs[i])
    decreases |vs|
  {
    if i > 0 {
      ElementsEncodable(vs[1..], i - 1);
    }
  }

  lemma RequestShape(v: RespValue)
    requires RequestOf(v).Accepted?
    ensures v.Array? && |v.elems| == |RequestOf(v).cmd.args| + 1
    ensures forall i | 0 <= i < |RequestOf(v).cmd.args| ::
              v.elems[i + 1].Bulk? && v.elems[i + 1].text == RequestOf(v).cmd.args[i]
  {
    var args := RequestOf(v).cmd.args;
    assert v.Array? && v.elems != [];
    assert forall i | 0 <= i < |v.elems| :: v.elems[i].Bulk?;
    assert |args| == |v.elems| - 1;
    forall i | 0 <= i < |args| ensures v.elems[i + 1].text == args[i] {
      assert args[i] == TextOf(v.elems[i + 1]);
    }
  }

  /** The arguments of a request that came over the wire fit. */
  lemma RequestsFit(v: RespValue)
    requires Encodable(v) && RequestOf(v).Accepted?
    ensures FitsCommand(RequestOf(v).cmd)
  {
    RequestShape(v);
    var args := RequestOf(v).cmd.args;
    forall i | 0 <= i < |args| ensures Short(args[i]) {
      ElementsEncodable(v.elems, i + 1);
      assert v.elems[i + 1].text == args[i];
    }
  }

  lemma RefusalsAreWireable(v: RespValue)
    requires RequestOf(v).Refused?
    ensures Wireable(RequestOf(v).reply)
  {
    ShapeErrorsAreWireable();
    NameErrorsAreWireable();
  }

  lemma HandledIsWireable(d: DataMap, now: nat, v: RespValue)
    requires Encodable(v) && CleanRequest(v) && Fits(d) && Fits(HANDLE(d, now, v).0)
    ensures WIREABLE(HANDLE(d, now, v).1)
  {
    if RequestOf(v).Refused? {
      RefusalsAreWireable(v);
    } else {
      RequestsFit(v);
      CommandAligns(d, now, RequestOf(v).cmd);
    }
  }

  const WIREABLE: Reply -> bool := (r: Reply) => Wireable(r)

  lemma ServedIsWireable(d: DataMap, clock: Clock, tick: nat, values: seq<RespValue>)
    requires Roomy(d, clock, tick, values) && Clean(values)
    ensures AllWireable(Serve(d, clock, tick, values).outputs)
  {
    forall i | 0 <= i < |values|
      ensures WIREABLE(HANDLE(Fold(HANDLE, d, clock, tick, values[..i]).state, clock(tick + i), values[i]).1)
    {
      var before := Fold(HANDLE, d, clock, tick, values[..i]).state;
      assert Fits(Serve(d, clock, tick, values[..i]).state);
      assert Fits(Serve(d, clock, tick, values[..i + 1]).state);
      FoldStep(HANDLE, d, clock, tick, values, i);
      HandledIsWireable(before, clock(tick + i), values[i]);
    }
    FoldOutputs(HANDLE, d, clock, tick, values, WIREABLE);
  }

  lemma UncleanReply(d: DataMap, now: nat, v: RespValue)
    requires !CleanRequest(v)
    ensures HANDLE(d, now, v).1.Data? && !Encodable(HANDLE(d, now, v).1.value)
  {
    UnknownCommandIsWireable(RequestOf(v).cmd.name);
  }

  lemma UncleanRequestMisaligns(d: DataMap, clock: Clock, tick: nat, values: seq<RespValue>, i: nat)
    requires i < |values| && !CleanRequest(values[i])
    requires |RenderAll(Serve(d, clock, tick, values).outputs)| <= INT64_MAX
    ensures var replies := Serve(d, clock, tick, values).outputs;
            Drain(RenderAll(replies)) != Stream(Meanings(replies), [], false)
  {
    FoldOutput(HANDLE, d, clock, tick, values, i);
    UncleanReply(Serve(d, clock, tick, values[..i]).state, clock(tick + i), values[i]);
    OneBadReplyMisaligns(Serve(d, clock, tick, values).outputs, i);
  }

  /** Everything the server writes in answer to a stream of requests decodes, with the same
      parser, to exactly one value per request, in order, with nothing left over, if no request
      names an unknown command with a line terminator; and only then. */
  lemma ConversationAligns(d: DataMap, clock: Clock, tick: nat, values: seq<RespValue>)
    requires Roomy(d, clock, tick, values)
    ensures var replies := Serve(d, clock, tick, values).outputs;
            && |Meanings(replies)| == |values|
            && (Clean(values) ==> Drain(RenderAll(replies)) == Stream(Meanings(replies), [], false))
            && (|RenderAll(replies)| <= INT64_MAX ==>
                  (Drain(RenderAll(replies)) == Stream(Meanings(replies), [], false) <==> Clean(values)))
  {
    var replies := Serve(d, clock, tick, values).outputs;
    if Clean(values) {
      ServedIsWireable(d, clock, tick, values);
      RepliesAlign(replies);
    } else if |RenderAll(replies)| <= INT64_MAX {
      var i :| 0 <= i < |values| && !CleanRequest(values[i]);
      UncleanRequestMisaligns(d, clock, tick, values, i);
    }
  }

  /** The transport is invisible from end to end: however the request bytes are cut, the same
      replies are written and the keyspace ends the same. */
  lemma TransportIsInvisible(d: DataMap, clock: Clock, tick: nat, chunks: seq<Bytes>, other: seq<Bytes>)
    requires Concat(chunks) == Concat(other)
    ensures ReceiveAll(START, chunks) == ReceiveAll(START, other)
    ensures Serve(d, clock, tick, ReceiveAll(START, chunks).values) ==
            Serve(d, clock, tick, ReceiveAll(START, other).values)
  {
    SplitIndependence(chunks);
    SplitIndependence(other);
  }

  lemma RepliesAreNotEmpty(r: Reply)
    ensures |Render(r)| > 0
  {
    assert r.Data? ==> |Encode(r.value)| > 0;
  }
}
