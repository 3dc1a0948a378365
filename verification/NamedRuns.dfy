/** Whole runs of commands, told by their names: queues and counters as clients use them, among any
    other commands on other keys, and any that only read. */
module NamedRuns {
  import opened Wrappers
  import opened Int64
  import opened Numerals
  import opened Resp
  import opened Values
  import opened Keyspace
  import opened Command
  import opened Requests
  import opened Locality
  import opened Expiry
  import opened Runs
  import opened Ends
  import opened Projection
  import opened Answers
  import opened StringCommands

  // ---- what a command may touch ------------------------------------------------------

  /** By its name and arguments, the command may change the key. */
  predicate Touches(cmd: Command, key: string) {
    || cmd.name == "FLUSHDB"
    || ((cmd.name == "DEL" || cmd.name == "RENAME") && key in cmd.args)
    || (cmd.name == "MSET" && key in NamesIn(cmd.args))
    || (IsWriteCommand(cmd) && cmd.args != [] && cmd.args[0] == key)
  }

  /** The key of a write on one key is its first argument. */
  lemma FirstIsKey(verb: Verb, args: seq<string>, now: nat)
    requires PlanFor(verb, args, now).Write?
    ensures args != [] && PlanFor(verb, args, now).key == args[0]
  {
    hide ParseI64, ParseU64, ReadOptions, Complain, PairsFrom, Tail;
  }

  lemma OnlySetStores(verb: Verb, args: seq<string>, now: nat)
    requires PlanFor(verb, args, now).Store?
    ensures verb == SET && args != [] && PlanFor(verb, args, now).key == args[0]
  {
    hide ParseI64, ParseU64, ReadOptions, Complain, PairsFrom, Tail;
  }

  lemma OnlyDelDeletes(verb: Verb, args: seq<string>, now: nat)
    requires PlanFor(verb, args, now).Delete?
    ensures verb == DEL && PlanFor(verb, args, now).keys == args
  {
    hide ParseI64, ParseU64, ReadOptions, Complain, PairsFrom;
  }

  lemma OnlyFlushClears(verb: Verb, args: seq<string>, now: nat)
    requires PlanFor(verb, args, now).Clear?
    ensures verb == FLUSHDB
  {
    hide ParseI64, ParseU64, ReadOptions, Complain, PairsFrom;
  }

  lemma OnlyRenameRenames(verb: Verb, args: seq<string>, now: nat)
    requires PlanFor(verb, args, now).Rename?
    ensures verb == RENAME && args == [PlanFor(verb, args, now).src, PlanFor(verb, args, now).dst]
  {
    hide ParseI64, ParseU64, ReadOptions, Complain, PairsFrom;
  }

  lemma OnlyMsetStoresAll(verb: Verb, args: seq<string>, now: nat)
    requires PlanFor(verb, args, now).StoreAll?
    ensures verb == MSET && PlanFor(verb, args, now).pairs == PairsFrom(args, 0)
  {
    hide ParseI64, ParseU64, ReadOptions, Complain, PairsFrom;
  }

  lemma UntouchedIsSpared(cmd: Command, now: nat, key: string)
    requires !Touches(cmd, key)
    ensures !MayChange(PlanOf(cmd, now), key)
  {
    hide PlanFor, VerbOf, IsWriteCommand;
    OnlyWritersPlanWrites(cmd, now);
    if VerbOf(cmd.name).Some? {
      var verb := VerbOf(cmd.name).value;
      TableExactly(cmd.name, verb);
      var plan := PlanFor(verb, cmd.args, now);
      if plan.Write? {
        FirstIsKey(verb, cmd.args, now);
      } else if plan.Store? {
        OnlySetStores(verb, cmd.args, now);
      } else if plan.Delete? {
        OnlyDelDeletes(verb, cmd.args, now);
      } else if plan.Clear? {
        OnlyFlushClears(verb, cmd.args, now);
      } else if plan.Rename? {
        OnlyRenameRenames(verb, cmd.args, now);
      } else if plan.StoreAll? {
        OnlyMsetStoresAll(verb, cmd.args, now);
        PairsAreFlat(cmd.args);
        forall i | 0 <= i < |plan.pairs| ensures plan.pairs[i].0 != key {
          assert plan.pairs[i].0 in Names(plan.pairs);
        }
      }
    }
  }

  /** A command leaves every key it does not touch. */
  lemma UntouchedIsLeft(d: DataMap, now: nat, cmd: Command, key: string)
    requires !Touches(cmd, key)
    ensures Find(Do(d, now, cmd.name, cmd.args).0, key) == Find(d, key)
  {
    hide Touches, PlanOf, Exec, MayChange;
    UntouchedIsSpared(cmd, now, key);
    CommandsAreLocal(d, now, PlanOf(cmd, now), key);
    assert cmd == Command(cmd.name, cmd.args);
  }

  // ---- one key over a run ------------------------------------------------------------

  /** The key's deadline, if it has one, is not reached while the run goes on. */
  ghost predicate StaysThere(d: DataMap, key: string, run: seq<Timed>) {
    key in d ==> forall i | 0 <= i < |run| :: There(d, key, run[i].now)
  }

  lemma ThereLasts(d: DataMap, key: string, run: seq<Timed>)
    requires StaysThere(d, key, run)
    ensures Lasts(Find(d, key), run)
  {
    forall i | 0 <= i < |run| ensures Unexpired(Find(d, key), run[i].now) {
      assert key in d ==> There(d, key, run[i].now);
    }
  }

  // ---- lists -------------------------------------------------------------------------

  predicate Pushes(cmd: Command, key: string) {
    (cmd.name == "LPUSH" || cmd.name == "RPUSH") && |cmd.args| >= 2 && cmd.args[0] == key
  }

  predicate Pops(cmd: Command, key: string) {
    (cmd.name == "LPOP" || cmd.name == "RPOP") && cmd.args == [key]
  }

  /** The key is only pushed to and popped from. */
  ghost predicate OnlyAsList(run: seq<Timed>, key: string) {
    forall i | 0 <= i < |run| :: Pushes(run[i].cmd, key) || Pops(run[i].cmd, key) || !Touches(run[i].cmd, key)
  }

  /** What the pushes carried, in the order of the commands. */
  function AllPushed(run: seq<Timed>, key: string): seq<string> {
    if run == [] then []
    else (if Pushes(run[0].cmd, key) then run[0].cmd.args[1..] else []) + AllPushed(run[1..], key)
  }

  /** What the pops were answered. */
  function AllPopped(run: seq<Timed>, key: string, replies: seq<Reply>): seq<string>
    requires |run| == |replies|
  {
    if run == [] then []
    else (if Pops(run[0].cmd, key) && replies[0].Data? && replies[0].value.Bulk? then [replies[0].value.text] else [])
         + AllPopped(run[1..], key, replies[1..])
  }

  function OpOf(cmd: Command): WriteOp
    requires cmd.args != []
  {
    if cmd.name == "LPUSH" then WriteOp.LPush(cmd.args[1..])
    else if cmd.name == "RPUSH" then WriteOp.RPush(cmd.args[1..])
    else if cmd.name == "LPOP" then WriteOp.LPop else WriteOp.RPop
  }

  lemma ListPlan(cmd: Command, now: nat, key: string)
    requires Pushes(cmd, key) || Pops(cmd, key)
    ensures PlanOf(cmd, now) == Write(key, OpOf(cmd))
  {
    hide VerbOf;
    NamedIsFound(LPUSH);
    NamedIsFound(RPUSH);
    NamedIsFound(LPOP);
    NamedIsFound(RPOP);
  }

  lemma ListTurn(t: Timed, key: string)
    requires Pushes(t.cmd, key) || Pops(t.cmd, key) || !Touches(t.cmd, key)
    ensures Steady(t, key)
    ensures Own(t, key) <==> Pushes(t.cmd, key) || Pops(t.cmd, key)
    ensures Own(t, key) ==> StepOf(t) == Step(t.now, OpOf(t.cmd))
  {
    hide PlanOf, IsWriteCommand, OpOf;
    if Pushes(t.cmd, key) || Pops(t.cmd, key) {
      ListPlan(t.cmd, t.now, key);
      assert !OpOf(t.cmd).PExpire? by { NotExpiry(t.cmd); }
    } else {
      UntouchedIsSpared(t.cmd, t.now, key);
    }
  }

  lemma NotExpiry(cmd: Command)
    requires cmd.args != []
    ensures OnLists(OpOf(cmd)) && !OpOf(cmd).PExpire?
  {
  }

  lemma {:induction false} ListSteps(run: seq<Timed>, key: string, replies: seq<Reply>)
    requires OnlyAsList(run, key) && |replies| == |run|
    ensures AllSteady(run, key) && AllOnLists(Steps(run, key))
    ensures |OwnReplies(run, key, replies)| == |Steps(run, key)|
    ensures Pushed(Steps(run, key)) == AllPushed(run, key)
    ensures Popped(Steps(run, key), OwnReplies(run, key, replies)) == AllPopped(run, key, replies)
  {
    if run != [] {
      hide Touches, PlanOf;
      forall i | 0 <= i < |run| ensures Steady(run[i], key) {
        ListTurn(run[i], key);
      }
      ListTurn(run[0], key);
      ListSteps(run[1..], key, replies[1..]);
      if Own(run[0], key) {
        NotExpiry(run[0].cmd);
        FirstStep(StepOf(run[0]), Steps(run[1..], key), replies[0], OwnReplies(run[1..], key, replies[1..]));
      }
    }
  }

  lemma FirstStep(first: Step, rest: seq<Step>, reply: Reply, replies: seq<Reply>)
    requires |rest| == |replies|
    ensures Pushed([first] + rest) == PushedBy(first.op) + Pushed(rest)
    ensures Popped([first] + rest, [reply] + replies) == PoppedBy(first.op, reply) + Popped(rest, replies)
  {
    assert ([first] + rest)[1..] == rest && ([reply] + replies)[1..] == replies;
  }

  /** What the key holds as a list, nothing if it is absent. */
  function Held(d: DataMap, key: string): seq<string> {
    if key in d && d[key].value.ListValue? then d[key].value.items else []
  }

  predicate ListOrAbsent(d: DataMap, key: string) {
    key in d ==> d[key].value.ListValue?
  }

  /** A run in which the key is only pushed to and popped from, and nobody else touches it. */
  ghost predicate ListRun(d: DataMap, run: seq<Timed>, key: string) {
    OnlyAsList(run, key) && StaysThere(d, key, run) && ListOrAbsent(d, key)
  }

  ghost predicate NamesAre(run: seq<Timed>, key: string, push: string, pop: string) {
    forall i | 0 <= i < |run| ::
      && (Pushes(run[i].cmd, key) ==> run[i].cmd.name == push)
      && (Pops(run[i].cmd, key) ==> run[i].cmd.name == pop)
  }

  lemma ListEnd(d: DataMap, run: seq<Timed>, key: string)
    requires ListRun(d, run, key)
    ensures Undisturbed(d, run, key) && AllOnLists(Steps(run, key)) && IsList(Find(d, key))
    ensures |ExecAll(d, run).replies| == |run|
    ensures Held(d, key) == ItemsOf(Find(d, key))
    ensures var end, steps, r := KeyEnd(d, run, key), Steps(run, key), ExecAll(d, run);
            && |end.replies| == |steps| && end.entry == Find(r.data, key)
            && Pushed(steps) == AllPushed(run, key) && Popped(steps, end.replies) == AllPopped(run, key, r.replies)
  {
    OneReplyEach(d, run);
    ListSteps(run, key, ExecAll(d, run).replies);
    ThereLasts(d, key, run);
  }

  /** Pushes and pops, whatever happens elsewhere: what was there and what was pushed is what was
      answered and what is left. */
  lemma ListsConserveElements(d: DataMap, run: seq<Timed>, key: string)
    requires ListRun(d, run, key)
    ensures |ExecAll(d, run).replies| == |run|
    ensures var r := ExecAll(d, run);
            && ListOrAbsent(r.data, key)
            && multiset(Held(d, key)) + multiset(AllPushed(run, key)) ==
               multiset(AllPopped(run, key, r.replies)) + multiset(Held(r.data, key))
  {
    ListEnd(d, run, key);
    ListsConserve(d, run, key);
  }

  lemma {:induction false} QueueSteps(run: seq<Timed>, key: string)
    requires OnlyAsList(run, key) && NamesAre(run, key, "RPUSH", "LPOP")
    ensures AllAre(Steps(run, key), (op: WriteOp) => op.RPush?, (op: WriteOp) => op.LPop?)
  {
    if run != [] {
      ListTurn(run[0], key);
      QueueSteps(run[1..], key);
    }
  }

  /** RPUSH and LPOP make a queue: first in, first out. */
  lemma QueueIsFirstInFirstOut(d: DataMap, run: seq<Timed>, key: string)
    requires ListRun(d, run, key) && NamesAre(run, key, "RPUSH", "LPOP")
    ensures |ExecAll(d, run).replies| == |run|
    ensures var r := ExecAll(d, run);
            && ListOrAbsent(r.data, key)
            && Held(d, key) + AllPushed(run, key) == AllPopped(run, key, r.replies) + Held(r.data, key)
  {
    ListEnd(d, run, key);
    QueueSteps(run, key);
    ListsQueue(d, run, key);
  }

  // ---- counters ----------------------------------------------------------------------

  /** What a counter command adds. */
  function DeltaOf(cmd: Command): int {
    if cmd.name == "INCR" then 1
    else if cmd.name == "DECR" then -1
    else if |cmd.args| != 2 then 0
    else if cmd.name == "INCRBY" then Denoted(cmd.args[1]) else -Denoted(cmd.args[1])
  }

  predicate Adds(cmd: Command, key: string) {
    Bumps(cmd.name, cmd.args, key, DeltaOf(cmd))
  }

  /** The key is only counted up and down, and nobody else touches it. */
  ghost predicate OnlyAsCounter(run: seq<Timed>, key: string) {
    forall i | 0 <= i < |run| :: Adds(run[i].cmd, key) || !Touches(run[i].cmd, key)
  }

  /** The sum of what was added by the commands that were not refused. */
  function SumAdded(run: seq<Timed>, key: string, replies: seq<Reply>): int
    requires |run| == |replies|
  {
    if run == [] then 0
    else (if Adds(run[0].cmd, key) && replies[0] != IntegerError() then DeltaOf(run[0].cmd) else 0)
         + SumAdded(run[1..], key, replies[1..])
  }

  ghost predicate NothingAdded(run: seq<Timed>, key: string, replies: seq<Reply>)
    requires |run| == |replies|
  {
    forall i | 0 <= i < |run| :: Adds(run[i].cmd, key) ==> replies[i] == IntegerError()
  }

  function CounterOp(cmd: Command): WriteOp
    requires exists key :: Adds(cmd, key)
  {
    if cmd.name == "INCR" then WriteOp.IncrBy(1)
    else if cmd.name == "DECR" then WriteOp.DecrBy(1)
    else if cmd.name == "INCRBY" then WriteOp.IncrBy(Denoted(cmd.args[1])) else WriteOp.DecrBy(Denoted(cmd.args[1]))
  }

  lemma CounterPlan(cmd: Command, now: nat, key: string)
    requires Adds(cmd, key)
    ensures PlanOf(cmd, now) == Write(key, CounterOp(cmd))
    ensures Counts(CounterOp(cmd)) && Signed(CounterOp(cmd)) == DeltaOf(cmd)
  {
    hide VerbOf, PlanFor, Denoted, Numeral;
    NamedIsFound(INCR);
    NamedIsFound(DECR);
    NamedIsFound(INCRBY);
    NamedIsFound(DECRBY);
    PlanOne(key, now);
    if cmd.name == "INCRBY" || cmd.name == "DECRBY" {
      PlanAmount(cmd.args, key, Denoted(cmd.args[1]), now);
    }
  }

  lemma CounterTurn(t: Timed, key: string)
    requires Adds(t.cmd, key) || !Touches(t.cmd, key)
    ensures Steady(t, key) && (Own(t, key) <==> Adds(t.cmd, key))
    ensures Own(t, key) ==> Counts(StepOf(t).op) && Signed(StepOf(t).op) == DeltaOf(t.cmd)
  {
    hide PlanOf, IsWriteCommand, CounterOp, DeltaOf;
    if Adds(t.cmd, key) {
      CounterPlan(t.cmd, t.now, key);
    } else {
      UntouchedIsSpared(t.cmd, t.now, key);
    }
  }

  lemma {:induction false} CounterSteps(run: seq<Timed>, key: string, replies: seq<Reply>)
    requires OnlyAsCounter(run, key) && |replies| == |run|
    ensures AllSteady(run, key) && OnlyCounts(Steps(run, key))
    ensures |OwnReplies(run, key, replies)| == |Steps(run, key)|
    ensures AcceptedSum(Steps(run, key), OwnReplies(run, key, replies)) == SumAdded(run, key, replies)
    ensures AllRefused(OwnReplies(run, key, replies)) <==> NothingAdded(run, key, replies)
  {
    hide Touches, PlanOf, IntegerError, ComplaintText, Adds, DeltaOf;
    ErrorLines();
    if run != [] {
      forall i | 0 <= i < |run| ensures Steady(run[i], key) {
        CounterTurn(run[i], key);
      }
      CounterTurn(run[0], key);
      CounterSteps(run[1..], key, replies[1..]);
      NothingFirst(run, key, replies);
      if Own(run[0], key) {
        FirstSum(StepOf(run[0]), Steps(run[1..], key), replies[0], OwnReplies(run[1..], key, replies[1..]));
      }
    }
  }

  lemma NothingFirst(run: seq<Timed>, key: string, replies: seq<Reply>)
    requires run != [] && |run| == |replies|
    ensures NothingAdded(run, key, replies) <==>
            (Adds(run[0].cmd, key) ==> replies[0] == IntegerError()) && NothingAdded(run[1..], key, replies[1..])
  {
    hide Adds, IntegerError;
    if NothingAdded(run[1..], key, replies[1..]) && (Adds(run[0].cmd, key) ==> replies[0] == IntegerError()) {
      forall i | 0 <= i < |run| ensures Adds(run[i].cmd, key) ==> replies[i] == IntegerError() {
        if i > 0 {
          assert run[1..][i - 1] == run[i] && replies[1..][i - 1] == replies[i];
        }
      }
    }
  }

  lemma FirstSum(first: Step, rest: seq<Step>, reply: Reply, replies: seq<Reply>)
    requires |rest| == |replies| && Counts(first.op) && OnlyCounts(rest)
    ensures OnlyCounts([first] + rest)
    ensures AcceptedSum([first] + rest, [reply] + replies) ==
            (if reply == Complain(BadInteger) then 0 else Signed(first.op)) + AcceptedSum(rest, replies)
    ensures AllRefused([reply] + replies) <==> reply == Complain(BadInteger) && AllRefused(replies)
  {
    hide Complain;
    var all := [reply] + replies;
    assert ([first] + rest)[1..] == rest && all[1..] == replies;
    if AllRefused(all) {
      forall i | 0 <= i < |replies| ensures replies[i] == Complain(BadInteger) { assert all[i + 1] == replies[i]; }
    }
  }

  /** Counter commands, whatever happens elsewhere: if none was accepted the key is as it was;
      otherwise it holds, under the deadline it had, the canonical numeral of the first number plus
      all that was added. */
  lemma CountersCount(d: DataMap, run: seq<Timed>, key: string)
    requires OnlyAsCounter(run, key) && StaysThere(d, key, run)
    requires key in d ==> d[key].value.StringValue? && IsInt64Text(d[key].value.data)
    ensures |ExecAll(d, run).replies| == |run|
    ensures var r := ExecAll(d, run);
            var n := (if key in d then Denoted(d[key].value.data) else 0) + SumAdded(run, key, r.replies);
            if NothingAdded(run, key, r.replies) then Find(r.data, key) == Find(d, key)
            else exists text :: IsCanonical(text) && Denoted(text) == n
                   && Find(r.data, key) == Some(Entry(StringValue(text), if key in d then d[key].expiresAt else 0))
  {
    hide IsInt64Text, Denoted, IsCanonical, ExecAll, Exec, PlanOf, Steps, OwnReplies, SumAdded, AcceptedSum,
         NothingAdded, AllRefused, StaysThere, Lasts, AllSteady;
    var r := ExecAll(d, run);
    OneReplyEach(d, run);
    CounterSteps(run, key, r.replies);
    ThereLasts(d, key, run);
    var first := if key in d then Denoted(d[key].value.data) else 0;
    if key in d {
      RefusesTheRest(d[key].value.data);
    }
    CountersAddUp(d, run, key, first);
    var n := first + SumAdded(run, key, r.replies);
    PrintsTheCanonicalNumeral(n, ToString(n));
  }
}
