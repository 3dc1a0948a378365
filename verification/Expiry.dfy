/** Lazy expiry: the program's map, which keeps dead entries until something erases them,
    answers every command as the reference map without dead entries does, at every time and
    over every run of a clock that does not go back. */
module Expiry {
  import opened Wrappers
  import opened Lex
  import opened Resp
  import opened Values
  import opened Keyspace
  import opened Command

  lemma FindInLive(d: DataMap, key: string, now: nat)
    ensures Find(Live(d, now), key) == FindLive(d, key, now)
  {
  }

  lemma LivePut(d: DataMap, key: string, e: Option<Entry>, now: nat)
    ensures Live(Put(d, key, e), now) == Live(Put(Live(d, now), key, e), now)
  {
  }

  lemma {:induction false} LiveAssigned(d: DataMap, pairs: seq<(string, Entry)>, now: nat)
    ensures Live(Assigned(d, pairs), now) == Live(Assigned(Live(d, now), pairs), now)
    decreases |pairs|
  {
    if pairs == [] {
      LiveLive(d, now, now);
    } else {
      var init, last := pairs[..|pairs| - 1], pairs[|pairs| - 1];
      LiveAssigned(d, init, now);
      LivePut(Assigned(d, init), last.0, Some(last.1), now);
      LivePut(Assigned(Live(d, now), init), last.0, Some(last.1), now);
    }
  }

  /** What is dead at one time is dead at every later time. */
  lemma LiveLive(d: DataMap, now: nat, later: nat)
    requires now <= later
    ensures Live(Live(d, now), later) == Live(d, later)
  {
  }

  lemma LiveErase(d: DataMap, keys: set<string>, now: nat)
    ensures Live(d - keys, now) == Live(Live(d, now) - keys, now)
  {
  }

  lemma LiveRename(d: DataMap, src: string, dst: string, e: Entry, now: nat)
    ensures Live((d - {src})[dst := e], now) == Live((Live(d, now) - {src})[dst := e], now)
    ensures src !in Live(d, now) ==> Live(d - {src}, now) == Live(d, now)
  {
  }

  /** One command: the reply is the reference's reply, and the live entries afterwards are
      the reference's live entries. */
  lemma LazyRefinesEager(d: DataMap, now: nat, plan: Plan)
    ensures Exec(d, now, plan).1 == SimpleExec(Live(d, now), now, plan).1
    ensures Live(Exec(d, now, plan).0, now) == Live(SimpleExec(Live(d, now), now, plan).0, now)
  {
    LiveLive(d, now, now);
    match plan
    case Read(key, op) => FindInLive(d, key, now);
    case Write(key, op) =>
      FindInLive(d, key, now);
      LivePut(d, key, WriteChange(op, now, FindLive(d, key, now)).entry, now);
    case Store(key, value, expiresAt, _, _) =>
      FindInLive(d, key, now);
      LivePut(d, key, Some(Entry(StringValue(value), expiresAt)), now);
    case StoreAll(pairs) => LiveAssigned(d, Texts(pairs), now);
    case Delete(keys) => LiveErase(d, Elements(keys), now);
    case Rename(src, dst) =>
      FindInLive(d, src, now);
      LiveErase(d, {src}, now);
      if src in Live(d, now) {
        LiveRename(d, src, dst, d[src], now);
      } else {
        assert Live(d, now) - {src} == Live(d, now);
      }
    case _ =>
  }

  // ---- runs --------------------------------------------------------------------------

  /** A command and the instant at which it runs. */
  datatype Timed = Timed(now: nat, cmd: Command)

  datatype Run = Run(data: DataMap, replies: seq<Reply>)

  ghost predicate Monotone(run: seq<Timed>) {
    forall i, j | 0 <= i <= j < |run| :: run[i].now <= run[j].now
  }

  function ExecAll(d: DataMap, run: seq<Timed>): Run
    decreases |run|
  {
    if run == [] then Run(d, [])
    else
      var (d', reply) := Exec(d, run[0].now, PlanOf(run[0].cmd, run[0].now));
      var rest := ExecAll(d', run[1..]);
      Run(rest.data, [reply] + rest.replies)
  }

  /** The reference run removes the dead entries before every command. */
  function SimpleExecAll(m: DataMap, run: seq<Timed>): Run
    decreases |run|
  {
    if run == [] then Run(m, [])
    else
      var (m', reply) := SimpleExec(Live(m, run[0].now), run[0].now, PlanOf(run[0].cmd, run[0].now));
      var rest := SimpleExecAll(m', run[1..]);
      Run(rest.data, [reply] + rest.replies)
  }

  /** Two maps that nobody can tell apart from `now` on. */
  ghost predicate SameLive(a: DataMap, b: DataMap, now: nat) {
    Live(a, now) == Live(b, now)
  }

  lemma SameLiveLater(a: DataMap, b: DataMap, now: nat, later: nat)
    requires SameLive(a, b, now) && now <= later
    ensures SameLive(a, b, later)
  {
    LiveLive(a, now, later);
    LiveLive(b, now, later);
  }

  /** The program's map may hold dead entries that another map does not: neither the reply
      nor the live entries afterwards depend on them. */
  lemma DeadEntriesAreInvisible(a: DataMap, b: DataMap, now: nat, plan: Plan)
    requires SameLive(a, b, now)
    ensures Exec(a, now, plan).1 == Exec(b, now, plan).1
    ensures SameLive(Exec(a, now, plan).0, Exec(b, now, plan).0, now)
  {
    LazyRefinesEager(a, now, plan);
    LazyRefinesEager(b, now, plan);
  }

  ghost predicate NotBefore(run: seq<Timed>, now: nat) {
    Monotone(run) && (run == [] || now <= run[0].now)
  }

  lemma NotBeforeTail(run: seq<Timed>, now: nat)
    requires NotBefore(run, now) && run != []
    ensures NotBefore(run[1..], run[0].now)
  {
  }

  ghost function EndTime(run: seq<Timed>, now: nat): nat {
    if run == [] then now else run[|run| - 1].now
  }

  /** Over every run: the same replies in the same order, and at the end and ever after the
      same live entries, as the reference that purges eagerly. */
  lemma {:induction false} RunsRefineEager(d: DataMap, m: DataMap, run: seq<Timed>, now: nat, later: nat)
    requires SameLive(d, m, now) && NotBefore(run, now) && EndTime(run, now) <= later
    ensures ExecAll(d, run).replies == SimpleExecAll(m, run).replies
    ensures SameLive(ExecAll(d, run).data, SimpleExecAll(m, run).data, later)
    decreases |run|
  {
    if run == [] {
      SameLiveLater(d, m, now, later);
    } else {
      var t := run[0].now;
      var plan := PlanOf(run[0].cmd, t);
      SameLiveLater(d, m, now, t);
      LazyRefinesEager(d, t, plan);
      NotBeforeTail(run, now);
      RunsRefineEager(Exec(d, t, plan).0, SimpleExec(Live(m, t), t, plan).0, run[1..], t, later);
    }
  }

  /** The same for two program maps that differ only in dead entries. */
  lemma {:induction false} RunsFromSameLive(a: DataMap, b: DataMap, run: seq<Timed>, now: nat, later: nat)
    requires SameLive(a, b, now) && NotBefore(run, now) && EndTime(run, now) <= later
    ensures ExecAll(a, run).replies == ExecAll(b, run).replies
    ensures SameLive(ExecAll(a, run).data, ExecAll(b, run).data, later)
    decreases |run|
  {
    if run == [] {
      SameLiveLater(a, b, now, later);
    } else {
      var t := run[0].now;
      var plan := PlanOf(run[0].cmd, t);
      SameLiveLater(a, b, now, t);
      DeadEntriesAreInvisible(a, b, t, plan);
      NotBeforeTail(run, now);
      RunsFromSameLive(Exec(a, t, plan).0, Exec(b, t, plan).0, run[1..], t, later);
    }
  }

  // ---- the write log -----------------------------------------------------------------

  /** The commands a log of `is_write_command` commands keeps. */
  function WritesOf(run: seq<Timed>): seq<Timed> {
    if run == [] then []
    else if IsWriteCommand(run[0].cmd) then [run[0]] + WritesOf(run[1..])
    else WritesOf(run[1..])
  }

  /** The replies that the logged commands drew. */
  function RepliesTo(run: seq<Timed>, replies: seq<Reply>): seq<Reply>
    requires |run| == |replies|
  {
    if run == [] then []
    else if IsWriteCommand(run[0].cmd) then [replies[0]] + RepliesTo(run[1..], replies[1..])
    else RepliesTo(run[1..], replies[1..])
  }

  lemma {:induction false} OneReplyEach(d: DataMap, run: seq<Timed>)
    ensures |ExecAll(d, run).replies| == |run|
    decreases |run|
  {
    if run != [] {
      OneReplyEach(Exec(d, run[0].now, PlanOf(run[0].cmd, run[0].now)).0, run[1..]);
    }
  }

  /** A command that is not a write command leaves the map as it is, dead entries included. */
  lemma ReadersChangeNothing(d: DataMap, now: nat, cmd: Command)
    requires !IsWriteCommand(cmd)
    ensures Exec(d, now, PlanOf(cmd, now)).0 == d
  {
    OnlyWritersPlanWrites(cmd, now);
  }

  /** Replaying only the write commands, at their times, rebuilds the very same map and draws
      the very same replies. */
  lemma {:induction false} LogSuffices(d: DataMap, run: seq<Timed>)
    ensures |ExecAll(d, run).replies| == |run|
    ensures ExecAll(d, WritesOf(run)).data == ExecAll(d, run).data
    ensures ExecAll(d, WritesOf(run)).replies == RepliesTo(run, ExecAll(d, run).replies)
    decreases |run|
  {
    OneReplyEach(d, run);
    if run != [] {
      var d' := Exec(d, run[0].now, PlanOf(run[0].cmd, run[0].now)).0;
      LogSuffices(d', run[1..]);
      assert ExecAll(d, run).replies[1..] == ExecAll(d', run[1..]).replies;
      if IsWriteCommand(run[0].cmd) {
        assert WritesOf(run)[1..] == WritesOf(run[1..]);
      } else {
        ReadersChangeNothing(d, run[0].now, run[0].cmd);
      }
    }
  }

  predicate IsErrorReply(r: Reply) {
    r.Data? && r.value.Err?
  }

  /** A refused write leaves every live entry as it was. (It may erase a dead one.) */
  lemma ErrorsChangeNothing(d: DataMap, now: nat, plan: Plan)
    requires IsErrorReply(Exec(d, now, plan).1)
    ensures SameLive(Exec(d, now, plan).0, d, now)
  {
    match plan
    case Write(key, op) =>
      RefusedWriteKeepsEntry(op, now, FindLive(d, key, now));
      LivePutBack(d, key, now);
    case Rename(src, dst) => LivePutBack(d, src, now);
    case _ =>
  }

  lemma RefusedHSet(e: Option<Entry>, pairs: seq<Pair>)
    ensures HSetOn(e, pairs).result < 0 ==> HSetOn(e, pairs).entry == e
  {
    if e.Some? && e.value.value.HashValue? {
      AssignedKeys(e.value.value.fields, pairs);
      SizeGrows(e.value.value.fields.Keys, Assigned(e.value.value.fields, pairs).Keys);
    }
  }

  lemma RefusedHDel(e: Option<Entry>, names: seq<string>)
    ensures HDelOn(e, names).result < 0 ==> HDelOn(e, names).entry == e
  {
    if e.Some? && e.value.value.HashValue? {
      SizeGrows((e.value.value.fields - Elements(names)).Keys, e.value.value.fields.Keys);
    }
  }

  lemma RefusedSAdd(e: Option<Entry>, names: seq<string>)
    ensures SAddOn(e, names).result < 0 ==> SAddOn(e, names).entry == e
  {
    if e.Some? && e.value.value.SetValue? {
      SizeGrows(e.value.value.members, e.value.value.members + Elements(names));
    }
  }

  lemma RefusedSRem(e: Option<Entry>, names: seq<string>)
    ensures SRemOn(e, names).result < 0 ==> SRemOn(e, names).entry == e
  {
    if e.Some? && e.value.value.SetValue? {
      SizeGrows(e.value.value.members - Elements(names), e.value.value.members);
    }
  }

  lemma RefusedWriteKeepsEntry(op: WriteOp, now: nat, e: Option<Entry>)
    requires IsErrorReply(WriteChange(op, now, e).result)
    ensures WriteChange(op, now, e).entry == e
  {
    match op
    case HSet(pairs) => RefusedHSet(e, pairs);
    case HDel(names) => RefusedHDel(e, names);
    case SAdd(names) => RefusedSAdd(e, names);
    case SRem(names) => RefusedSRem(e, names);
    case _ =>
  }

  lemma LivePutBack(d: DataMap, key: string, now: nat)
    ensures SameLive(Put(d, key, FindLive(d, key, now)), d, now)
  {
  }

  /** The write commands that were not answered by an error. */
  function EffectiveOf(d: DataMap, run: seq<Timed>): seq<Timed>
    decreases |run|
  {
    if run == [] then []
    else
      var (d', reply) := Exec(d, run[0].now, PlanOf(run[0].cmd, run[0].now));
      if IsWriteCommand(run[0].cmd) && !IsErrorReply(reply) then [run[0]] + EffectiveOf(d', run[1..])
      else EffectiveOf(d', run[1..])
  }

  lemma {:induction false} EffectiveEnds(d: DataMap, run: seq<Timed>, now: nat)
    requires NotBefore(run, now)
    ensures NotBefore(EffectiveOf(d, run), now)
    ensures EndTime(EffectiveOf(d, run), now) <= EndTime(run, now)
    decreases |run|
  {
    if run != [] {
      var t := run[0].now;
      var (d', reply) := Exec(d, t, PlanOf(run[0].cmd, t));
      NotBeforeTail(run, now);
      EffectiveEnds(d', run[1..], t);
      var rest := EffectiveOf(d', run[1..]);
      forall i, j | 0 <= i <= j < |[run[0]] + rest|
        ensures ([run[0]] + rest)[i].now <= ([run[0]] + rest)[j].now
      {
        if i == 0 && 0 < j { assert rest[0].now <= rest[j - 1].now; }
      }
    }
  }

  /** Leaving out the refused writes as well gives the same live entries from then on. */
  lemma {:induction false} EffectiveLogSuffices(a: DataMap, b: DataMap, run: seq<Timed>, now: nat, later: nat)
    requires SameLive(a, b, now) && NotBefore(run, now) && EndTime(run, now) <= later
    ensures SameLive(ExecAll(a, run).data, ExecAll(b, EffectiveOf(a, run)).data, later)
    decreases |run|
  {
    if run == [] {
      SameLiveLater(a, b, now, later);
    } else {
      var t := run[0].now;
      var plan := PlanOf(run[0].cmd, t);
      var (a', reply) := Exec(a, t, plan);
      SameLiveLater(a, b, now, t);
      NotBeforeTail(run, now);
      if IsWriteCommand(run[0].cmd) && !IsErrorReply(reply) {
        DeadEntriesAreInvisible(a, b, t, plan);
        EffectiveLogSuffices(a', Exec(b, t, plan).0, run[1..], t, later);
        assert EffectiveOf(a, run)[1..] == EffectiveOf(a', run[1..]);
      } else {
        if IsErrorReply(reply) {
          ErrorsChangeNothing(a, t, plan);
        } else {
          ReadersChangeNothing(a, t, run[0].cmd);
        }
        EffectiveLogSuffices(a', b, run[1..], t, later);
      }
    }
  }

  /** Replaying that shorter log on the reference that purges eagerly gives the program's live
      entries: the log needs neither the readers, nor the refused writes, nor lazy expiry. */
  lemma LogRebuildsReference(d: DataMap, m: DataMap, run: seq<Timed>, now: nat, later: nat)
    requires SameLive(d, m, now) && NotBefore(run, now) && EndTime(run, now) <= later
    ensures SameLive(ExecAll(d, run).data, SimpleExecAll(m, EffectiveOf(d, run)).data, later)
  {
    EffectiveLogSuffices(d, d, run, now, later);
    EffectiveEnds(d, run, now);
    RunsRefineEager(d, m, EffectiveOf(d, run), now, later);
  }
}
