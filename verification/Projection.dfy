/** Runs of commands seen from one key. Any run, whatever it does to other keys and however
    often it only reads this one, does to the key what the writes on the key do alone: so the
    laws of `Runs` and `Ends`, told there of a single entry, hold of whole runs of the program. */
module Projection {
  import opened Wrappers
  import opened Values
  import opened Keyspace
  import opened Command
  import opened Expiry
  import opened Locality
  import opened Runs
  import opened Ends

  function PlanAt(t: Timed): Plan {
    PlanOf(t.cmd, t.now)
  }

  /** The command is an operation on this very key. */
  predicate Own(t: Timed, key: string) {
    PlanAt(t).Write? && PlanAt(t).key == key
  }

  function StepOf(t: Timed): Step
    requires PlanAt(t).Write?
  {
    Step(t.now, PlanAt(t).wop)
  }

  /** The operations on the key, in order. */
  function Steps(run: seq<Timed>, key: string): seq<Step> {
    if run == [] then []
    else if Own(run[0], key) then [StepOf(run[0])] + Steps(run[1..], key)
    else Steps(run[1..], key)
  }

  /** The replies they drew. */
  function OwnReplies(run: seq<Timed>, key: string, replies: seq<Reply>): seq<Reply>
    requires |run| == |replies|
  {
    if run == [] then []
    else if Own(run[0], key) then [replies[0]] + OwnReplies(run[1..], key, replies[1..])
    else OwnReplies(run[1..], key, replies[1..])
  }

  /** Nobody else writes the key, and nobody gives it a deadline. */
  ghost predicate Steady(t: Timed, key: string) {
    if Own(t, key) then !PlanAt(t).wop.PExpire? else !MayChange(PlanAt(t), key)
  }

  ghost predicate AllSteady(run: seq<Timed>, key: string) {
    forall i | 0 <= i < |run| :: Steady(run[i], key)
  }

  predicate Unexpired(e: Option<Entry>, now: nat) {
    e.Some? ==> !Expired(e.value, now)
  }

  /** The deadline the entry starts with is not reached during the run. */
  ghost predicate Lasts(e: Option<Entry>, run: seq<Timed>) {
    forall i | 0 <= i < |run| :: Unexpired(e, run[i].now)
  }

  /** An operation other than PEXPIRE keeps the deadline or drops it. */
  lemma {:induction false} DeadlineKeptOrDropped(op: WriteOp, now: nat, e: Option<Entry>, later: nat)
    requires !op.PExpire? && Unexpired(e, later)
    ensures Unexpired(WriteChange(op, now, e).entry, later)
  {
  }

  /** One step on the key itself. */
  lemma {:induction false} OwnStep(d: DataMap, t: Timed, key: string)
    requires Own(t, key) && Unexpired(Find(d, key), t.now)
    ensures var c := WriteChange(PlanAt(t).wop, t.now, Find(d, key));
            var (after, reply) := Exec(d, t.now, PlanAt(t));
            Find(after, key) == c.entry && reply == c.result
  {
    assert FindLive(d, key, t.now) == Find(d, key);
  }

  lemma {:induction false} LastsOn(e: Option<Entry>, run: seq<Timed>, key: string)
    requires run != [] && Lasts(e, run) && AllSteady(run, key)
    ensures AllSteady(run[1..], key)
    ensures Own(run[0], key) ==> Lasts(WriteChange(PlanAt(run[0]).wop, run[0].now, e).entry, run[1..])
    ensures Lasts(e, run[1..])
  {
    if Own(run[0], key) {
      assert Steady(run[0], key);
      forall i | 0 <= i < |run[1..]|
        ensures Unexpired(WriteChange(PlanAt(run[0]).wop, run[0].now, e).entry, run[1..][i].now)
      {
        assert run[1..][i] == run[i + 1];
        DeadlineKeptOrDropped(PlanAt(run[0]).wop, run[0].now, e, run[i + 1].now);
      }
    }
  }

  /** The projection. */
  lemma {:induction false} SeenFromTheKey(d: DataMap, run: seq<Timed>, key: string)
    requires AllSteady(run, key) && Lasts(Find(d, key), run)
    ensures |ExecAll(d, run).replies| == |run|
    ensures KeyRun(Find(ExecAll(d, run).data, key), OwnReplies(run, key, ExecAll(d, run).replies)) ==
            StepsOn(Find(d, key), Steps(run, key))
    decreases |run|
  {
    OneReplyEach(d, run);
    if run != [] {
      var t := run[0];
      var (d', reply) := Exec(d, t.now, PlanAt(t));
      var rest := ExecAll(d', run[1..]).replies;
      OneReplyEach(d', run[1..]);
      assert ExecAll(d, run).replies == [reply] + rest && ([reply] + rest)[1..] == rest;
      LastsOn(Find(d, key), run, key);
      if Own(t, key) {
        OwnStep(d, t, key);
        StepsFirst(Find(d, key), StepOf(t), Steps(run[1..], key));
      } else {
        assert Steady(t, key);
        CommandsAreLocal(d, t.now, PlanAt(t), key);
      }
      SeenFromTheKey(d', run[1..], key);
    }
  }

  lemma {:induction false} StepsFirst(e: Option<Entry>, first: Step, rest: seq<Step>)
    ensures var c := WriteChange(first.op, first.now, e);
            StepsOn(e, [first] + rest) ==
            KeyRun(StepsOn(c.entry, rest).entry, [c.result] + StepsOn(c.entry, rest).replies)
  {
    assert ([first] + rest)[1..] == rest;
  }

  // ---- the laws, of whole runs -------------------------------------------------------

  /** What the key holds after a run, and what its own commands were answered. */
  function KeyEnd(d: DataMap, run: seq<Timed>, key: string): KeyRun {
    OneReplyEach(d, run);
    KeyRun(Find(ExecAll(d, run).data, key), OwnReplies(run, key, ExecAll(d, run).replies))
  }

  lemma {:induction false} KeyEndIsSteps(d: DataMap, run: seq<Timed>, key: string)
    requires Undisturbed(d, run, key)
    ensures KeyEnd(d, run, key) == StepsOn(Find(d, key), Steps(run, key))
  {
    SeenFromTheKey(d, run, key);
  }

  ghost predicate Undisturbed(d: DataMap, run: seq<Timed>, key: string) {
    AllSteady(run, key) && Lasts(Find(d, key), run)
  }

  ghost predicate OnlyCounts(steps: seq<Step>) {
    forall i | 0 <= i < |steps| :: Counts(steps[i].op)
  }

  /** The number is the first one plus the accepted deltas. The entry is untouched if all were
      refused; otherwise it is the canonical text of the number, under the deadline it had. */
  ghost predicate CountedUp(e: Option<Entry>, n: int, steps: seq<Step>, end: KeyRun)
    requires OnlyCounts(steps)
  {
    && |end.replies| == |steps|
    && CounterOf(end.entry) == Some(n + AcceptedSum(steps, end.replies))
    && end.entry == CounterEnd(e, n, steps, end.replies)
    && DeadlineOf(end.entry) == DeadlineOf(e)
  }

  lemma {:induction false} CountersOn(e: Option<Entry>, n: int, steps: seq<Step>)
    requires OnlyCounts(steps) && CounterOf(e) == Some(n)
    ensures CountedUp(e, n, steps, StepsOn(e, steps))
  {
    CounterRun(e, n, steps);
    DeadlineIsKept(e, n, steps, StepsOn(e, steps).replies);
  }

  /** Counters, over any run with no other writer of the key and no expiry. */
  lemma {:induction false} CountersAddUp(d: DataMap, run: seq<Timed>, key: string, n: int)
    requires Undisturbed(d, run, key) && OnlyCounts(Steps(run, key)) && CounterOf(Find(d, key)) == Some(n)
    ensures CountedUp(Find(d, key), n, Steps(run, key), KeyEnd(d, run, key))
  {
    KeyEndIsSteps(d, run, key);
    CountersOn(Find(d, key), n, Steps(run, key));
  }

  lemma {:induction false} DeadlineIsKept(e: Option<Entry>, n: int, steps: seq<Step>, replies: seq<Reply>)
    requires |steps| == |replies| && OnlyCounts(steps)
    ensures DeadlineOf(CounterEnd(e, n, steps, replies)) == DeadlineOf(e)
  {
  }

  /** Lists: what was there and what was pushed is what was popped and what is left. */
  lemma {:induction false} ListsConserve(d: DataMap, run: seq<Timed>, key: string)
    requires Undisturbed(d, run, key) && AllOnLists(Steps(run, key)) && IsList(Find(d, key))
    ensures var end, steps := KeyEnd(d, run, key), Steps(run, key);
            && |end.replies| == |steps| && IsList(end.entry)
            && multiset(ItemsOf(Find(d, key))) + multiset(Pushed(steps)) ==
               multiset(Popped(steps, end.replies)) + multiset(ItemsOf(end.entry))
  {
    KeyEndIsSteps(d, run, key);
    ListConservation(Find(d, key), Steps(run, key));
  }

  ghost predicate AllAre(steps: seq<Step>, push: WriteOp -> bool, pop: WriteOp -> bool) {
    forall i | 0 <= i < |steps| :: push(steps[i].op) || pop(steps[i].op)
  }

  /** RPUSH with LPOP is first in, first out. */
  lemma {:induction false} ListsQueue(d: DataMap, run: seq<Timed>, key: string)
    requires Undisturbed(d, run, key) && IsList(Find(d, key))
    requires AllAre(Steps(run, key), (op: WriteOp) => op.RPush?, (op: WriteOp) => op.LPop?)
    ensures var end, steps := KeyEnd(d, run, key), Steps(run, key);
            && |end.replies| == |steps| && IsList(end.entry)
            && ItemsOf(Find(d, key)) + Pushed(steps) == Popped(steps, end.replies) + ItemsOf(end.entry)
  {
    KeyEndIsSteps(d, run, key);
    ListQueue(Find(d, key), Steps(run, key));
  }

  /** So is LPUSH with RPOP. */
  lemma {:induction false} ListsQueueBackwards(d: DataMap, run: seq<Timed>, key: string)
    requires Undisturbed(d, run, key) && IsList(Find(d, key))
    requires AllAre(Steps(run, key), (op: WriteOp) => op.LPush?, (op: WriteOp) => op.RPop?)
    ensures var end, steps := KeyEnd(d, run, key), Steps(run, key);
            && |end.replies| == |steps| && IsList(end.entry)
            && Reverse(ItemsOf(Find(d, key))) + Pushed(steps) ==
               Popped(steps, end.replies) + Reverse(ItemsOf(end.entry))
  {
    KeyEndIsSteps(d, run, key);
    LeftToRightQueue(Find(d, key), Steps(run, key));
  }

  /** Two runs of which one works on the reversed list and exchanges left and right draw the same
      replies and leave lists that are each other's reverse, whatever else either does. */
  lemma {:induction false} ListsMirror(d: DataMap, run: seq<Timed>, d': DataMap, run': seq<Timed>, key: string)
    requires Undisturbed(d, run, key) && Undisturbed(d', run', key)
    requires AllOnLists(Steps(run, key)) && Steps(run', key) == Mirrored(Steps(run, key))
    requires IsList(Find(d, key)) && Find(d', key) == MirrorEntry(Find(d, key))
    ensures IsList(KeyEnd(d, run, key).entry)
    ensures KeyEnd(d', run', key) == KeyRun(MirrorEntry(KeyEnd(d, run, key).entry), KeyEnd(d, run, key).replies)
  {
    KeyEndIsSteps(d, run, key);
    KeyEndIsSteps(d', run', key);
    MirrorRun(Find(d, key), Steps(run, key));
  }

  /** The operations on the key are one push and then as many pops as it pushed. */
  ghost predicate PushThenPops(steps: seq<Step>, push: WriteOp, pop: WriteOp, size: nat) {
    steps != [] && steps[0].op == push && |steps| == 1 + size && AllPops(steps[1..], pop)
  }

  /** A push and as many pops at the same end return the values in reverse and restore the key:
      absent if it was absent, under its deadline if it had one. */
  lemma {:induction false} ListsStack(d: DataMap, run: seq<Timed>, key: string, values: seq<string>, left: bool)
    requires Undisturbed(d, run, key) && IsList(Find(d, key)) && NonEmptyEntry(Find(d, key)) && values != []
    requires PushThenPops(Steps(run, key), if left then LPush(values) else RPush(values),
                          if left then LPop else RPop, |values|)
    ensures var end, steps := KeyEnd(d, run, key), Steps(run, key);
            && end.entry == Find(d, key) && |end.replies| == |steps|
            && Popped(steps, end.replies) == Reverse(values)
  {
    var e, steps := Find(d, key), Steps(run, key);
    var push, pops := steps[0], steps[1..];
    KeyEndIsSteps(d, run, key);
    assert steps == [push] + pops;
    StepsFirst(e, push, pops);
    if left {
      LeftStack(e, values, push.now, pops);
    } else {
      RightStack(e, values, push.now, pops);
    }
    PushPopsNothing(push, pops, WriteChange(push.op, push.now, e).result,
                    StepsOn(WriteChange(push.op, push.now, e).entry, pops).replies);
  }

  lemma {:induction false} PushPopsNothing(push: Step, pops: seq<Step>, first: Reply, rest: seq<Reply>)
    requires |pops| == |rest| && (push.op.LPush? || push.op.RPush?)
    ensures Popped([push] + pops, [first] + rest) == Popped(pops, rest)
  {
    assert ([push] + pops)[1..] == pops && ([first] + rest)[1..] == rest;
  }
}
