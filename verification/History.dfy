/** What a server has served so far: a log of requests in the order of their execution, each
    with the connection that sent it. The keyspace is what the log makes of the empty keyspace,
    and what a connection sent and was answered is its part of the log. */
module History {
  import opened Wrappers
  import opened Folds
  import opened Resp
  import opened RespLaws
  import opened Keyspace
  import opened Alignment
  import opened Service
  import opened Clients

  datatype Served<C> = Served(who: C, value: RespValue)

  function RequestsIn<C>(log: seq<Served<C>>): (r: seq<RespValue>)
    ensures |r| == |log|
  {
    seq(|log|, i requires 0 <= i < |log| => log[i].value)
  }

  /** The requests that came over one connection. */
  ghost function RequestsOf<C>(log: seq<Served<C>>, who: C): seq<RespValue> {
    if log == [] then []
    else
      var init, last := log[..|log| - 1], log[|log| - 1];
      RequestsOf(init, who) + if last.who == who then [last.value] else []
  }

  /** The outputs that answer them. */
  ghost function RepliesFor<C>(log: seq<Served<C>>, outputs: seq<Reply>, who: C): seq<Reply>
    requires |log| == |outputs|
  {
    if log == [] then []
    else
      var n := |log| - 1;
      RepliesFor(log[..n], outputs[..n], who) + if log[n].who == who then [outputs[n]] else []
  }

  function From<C>(who: C, values: seq<RespValue>): (r: seq<Served<C>>)
    ensures |r| == |values|
  {
    seq(|values|, i requires 0 <= i < |values| => Served(who, values[i]))
  }

  /** The keyspace after the whole log, and the reply to every entry. */
  ghost function Past<C>(h: Handler, clock: Clock, log: seq<Served<C>>): (t: Trace<DataMap, Reply>)
    ensures |t.outputs| == |log|
  {
    Fold(h, map[], clock, 0, RequestsIn(log))
  }

  /** The log accounts for a connection: its requests are the whole frames it received, and it was
      given their replies. Kept closed. */
  ghost predicate Told<C>(h: Handler, clock: Clock, log: seq<Served<C>>, who: C, inbox: Bytes, replies: seq<Reply>) {
    forall u {:trigger Open((log, who), u)} | Open((log, who), u) :: ToldOpen(h, clock, log, who, inbox, replies)
  }

  ghost predicate ToldOpen<C>(h: Handler, clock: Clock, log: seq<Served<C>>, who: C, inbox: Bytes, replies: seq<Reply>) {
    && RequestsOf(log, who) == Drain(inbox).values
    && RepliesFor(log, Past(h, clock, log).outputs, who) == replies
  }

  /** The keyspace is what the log makes of an empty one. Kept closed. */
  ghost predicate Summed<C>(h: Handler, clock: Clock, log: seq<Served<C>>, d: DataMap, tick: nat) {
    forall u {:trigger Open((log, d), u)} | Open((log, d), u) :: Past(h, clock, log).state == d && |log| == tick
  }

  lemma NothingServed<C>(h: Handler, clock: Clock)
    ensures Summed<C>(h, clock, [], map[], 0)
  {
  }

  lemma RequestsInMore<C>(log: seq<Served<C>>, who: C, values: seq<RespValue>)
    ensures RequestsIn(log + From(who, values)) == RequestsIn(log) + values
  {
  }

  lemma LastOff<T>(a: seq<T>, b: seq<T>)
    requires b != []
    ensures (a + b)[..|a + b| - 1] == a + b[..|b| - 1] && (a + b)[|a + b| - 1] == b[|b| - 1]
  {
  }

  lemma {:induction false} RequestsOfMore<C>(log: seq<Served<C>>, who: C, values: seq<RespValue>, other: C)
    ensures RequestsOf(log + From(who, values), other) ==
            RequestsOf(log, other) + if who == other then values else []
    decreases |values|
  {
    if values == [] {
      assert log + From(who, values) == log;
    } else {
      var n := |values| - 1;
      RequestsOfMore(log, who, values[..n], other);
      LastOff(log, From(who, values));
      assert From(who, values)[..n] == From(who, values[..n]);
    }
  }

  lemma {:induction false} RepliesForMore<C>(log: seq<Served<C>>, outputs: seq<Reply>, who: C,
                                            values: seq<RespValue>, more: seq<Reply>, other: C)
    requires |log| == |outputs| && |values| == |more|
    ensures RepliesFor(log + From(who, values), outputs + more, other) ==
            RepliesFor(log, outputs, other) + if who == other then more else []
    decreases |values|
  {
    if values == [] {
      assert log + From(who, values) == log && outputs + more == outputs;
    } else {
      var n := |values| - 1;
      RepliesForMore(log, outputs, who, values[..n], more[..n], other);
      LastOff(log, From(who, values));
      LastOff(outputs, more);
      assert From(who, values)[..n] == From(who, values[..n]);
    }
  }

  lemma PastMore<C>(h: Handler, clock: Clock, log: seq<Served<C>>, who: C, values: seq<RespValue>)
    ensures var before := Past(h, clock, log);
            var now := Fold(h, before.state, clock, |log|, values);
            Past(h, clock, log + From(who, values)) == Trace(now.state, before.outputs + now.outputs)
  {
    RequestsInMore(log, who, values);
    FoldAppend(h, map[], clock, 0, RequestsIn(log), values);
  }

  /** The frames that became whole between two moments of a connection. */
  function NewFrames(inbox0: Bytes, inbox1: Bytes): seq<RespValue> {
    var before, all := Drain(inbox0).values, Drain(inbox1).values;
    if |before| <= |all| then all[|before|..] else []
  }

  /** The log grows by the new frames of one connection. Kept closed. */
  ghost predicate Entered<C>(log: seq<Served<C>>, more: seq<Served<C>>, who: C, inbox0: Bytes, inbox1: Bytes) {
    forall u {:trigger Open((log, more), u)} | Open((log, more), u) :: more == log + From(who, NewFrames(inbox0, inbox1))
  }

  lemma Enter<C>(log: seq<Served<C>>, who: C, inbox0: Bytes, inbox1: Bytes) returns (more: seq<Served<C>>)
    ensures Entered(log, more, who, inbox0, inbox1)
  {
    more := log + From(who, NewFrames(inbox0, inbox1));
  }

  lemma NothingEntered<C>(log: seq<Served<C>>, who: C, inbox: Bytes)
    ensures Entered(log, log, who, inbox, inbox)
  {
  }

  lemma LogOnlyGrows<C>(log: seq<Served<C>>, more: seq<Served<C>>, who: C, inbox0: Bytes, inbox1: Bytes)
    requires Entered(log, more, who, inbox0, inbox1)
    ensures log <= more
  {
    assert Open((log, more), true);
  }

  /** After a turn of one connection the log, extended by its new frames, accounts for it, */
  lemma TurnIsTold<C>(h: Handler, clock: Clock, log: seq<Served<C>>, who: C, before: Moment, after: Moment)
    requires Told(h, clock, log, who, before.face.inbox, before.face.replies)
    requires Summed(h, clock, log, before.data, before.tick)
    requires Answered(h, before.face.inbox, after.face.inbox, before.data, after.data,
                      before.face.replies, after.face.replies, clock, before.tick, after.tick)
    ensures var more := log + From(who, NewFrames(before.face.inbox, after.face.inbox));
            && Told(h, clock, more, who, after.face.inbox, after.face.replies)
            && Summed(h, clock, more, after.data, after.tick)
  {
    assert Open((log, who), true);
    assert Open((log, before.data), true);
    var values := NewFrames(before.face.inbox, after.face.inbox);
    var past := Past(h, clock, log);
    PastMore(h, clock, log, who, values);
    RequestsOfMore(log, who, values, who);
    RepliesForMore(log, past.outputs, who, values, Fold(h, past.state, clock, |log|, values).outputs, who);
    assert Drain(before.face.inbox).values + values == Drain(after.face.inbox).values;
  }

  /** and for every other connection as before. */
  lemma OthersAreTold<C>(h: Handler, clock: Clock, log: seq<Served<C>>, who: C, values: seq<RespValue>,
                         other: C, inbox: Bytes, replies: seq<Reply>)
    requires other != who && Told(h, clock, log, other, inbox, replies)
    ensures Told(h, clock, log + From(who, values), other, inbox, replies)
  {
    assert Open((log, other), true);
    var past := Past(h, clock, log);
    PastMore(h, clock, log, who, values);
    RequestsOfMore(log, who, values, other);
    RepliesForMore(log, past.outputs, who, values, Fold(h, past.state, clock, |log|, values).outputs, other);
  }

  lemma EnteredIsTold<C>(h: Handler, clock: Clock, log: seq<Served<C>>, more: seq<Served<C>>, who: C,
                         before: Moment, after: Moment)
    requires Entered(log, more, who, before.face.inbox, after.face.inbox)
    requires Told(h, clock, log, who, before.face.inbox, before.face.replies)
    requires Summed(h, clock, log, before.data, before.tick)
    requires Answered(h, before.face.inbox, after.face.inbox, before.data, after.data,
                      before.face.replies, after.face.replies, clock, before.tick, after.tick)
    ensures Told(h, clock, more, who, after.face.inbox, after.face.replies)
    ensures Summed(h, clock, more, after.data, after.tick)
  {
    assert Open((log, more), true);
    TurnIsTold(h, clock, log, who, before, after);
  }

  lemma EnteredByOthers<C>(h: Handler, clock: Clock, log: seq<Served<C>>, more: seq<Served<C>>, who: C,
                           inbox0: Bytes, inbox1: Bytes, other: C, inbox: Bytes, replies: seq<Reply>)
    requires Entered(log, more, who, inbox0, inbox1)
    requires other != who && Told(h, clock, log, other, inbox, replies)
    ensures Told(h, clock, more, other, inbox, replies)
  {
    assert Open((log, more), true);
    OthersAreTold(h, clock, log, who, NewFrames(inbox0, inbox1), other, inbox, replies);
  }

  lemma EnteredNames(log: seq<Served<Client>>, more: seq<Served<Client>>, who: Client,
                     inbox0: Bytes, inbox1: Bytes, known: set<object>)
    requires Entered(log, more, who, inbox0, inbox1)
    requires who in known && forall i | 0 <= i < |log| :: log[i].who in known
    ensures forall i | 0 <= i < |more| :: more[i].who in known
  {
    assert Open((log, more), true);
  }

  /** A connection that is not in the log has received nothing. */
  lemma StrangerIsTold<C>(h: Handler, clock: Clock, log: seq<Served<C>>, who: C)
    requires forall i | 0 <= i < |log| :: log[i].who != who
    ensures Told(h, clock, log, who, [], [])
  {
    NothingOfStranger(log, Past(h, clock, log).outputs, who);
  }

  lemma {:induction false} NothingOfStranger<C>(log: seq<Served<C>>, outputs: seq<Reply>, who: C)
    requires |log| == |outputs| && forall i | 0 <= i < |log| :: log[i].who != who
    ensures RequestsOf(log, who) == [] && RepliesFor(log, outputs, who) == []
    decreases |log|
  {
    if log != [] {
      NothingOfStranger(log[..|log| - 1], outputs[..|log| - 1], who);
    }
  }

  /** The replies of one connection are among all the replies. */
  lemma {:induction false} RepliesAreOutputs<C>(log: seq<Served<C>>, outputs: seq<Reply>, who: C)
    requires |log| == |outputs| && AllWireable(outputs)
    ensures AllWireable(RepliesFor(log, outputs, who))
    decreases |log|
  {
    if log != [] {
      var n := |log| - 1;
      RepliesAreOutputs(log[..n], outputs[..n], who);
    }
  }

  /** What the program's handler makes of a log is the sequential execution of its requests. */
  lemma PastIsServed<C>(h: Handler, clock: Clock, log: seq<Served<C>>)
    requires Faithful(h)
    ensures Past(h, clock, log) == Serve(map[], clock, 0, RequestsIn(log))
  {
    FaithfulServes(h, map[], clock, 0, RequestsIn(log));
  }

  /** So if the requests are clean and fit, every connection's replies are whole values. */
  lemma ToldIsWireable<C>(h: Handler, clock: Clock, log: seq<Served<C>>, who: C, inbox: Bytes, replies: seq<Reply>)
    requires Faithful(h) && Told(h, clock, log, who, inbox, replies)
    requires Roomy(map[], clock, 0, RequestsIn(log)) && Clean(RequestsIn(log))
    ensures AllWireable(replies)
  {
    assert Open((log, who), true);
    PastIsServed(h, clock, log);
    ServedIsWireable(map[], clock, 0, RequestsIn(log));
    RepliesAreOutputs(log, Past(h, clock, log).outputs, who);
  }
}
