/** Laws of the value types over whole runs of commands. */
module Runs {
  import opened Wrappers
  import opened Int64
  import opened Lex
  import opened Resp
  import opened Values
  import opened Keyspace
  import opened Command
  import opened Expiry

  // ---- no empty collections ----------------------------------------------------------

  predicate NonEmptyValue(v: Value) {
    match v
    case StringValue(_) => true
    case ListValue(items) => items != []
    case HashValue(fields) => fields != map[]
    case SetValue(members) => members != {}
  }

  predicate NonEmptyEntry(e: Option<Entry>) {
    e.Some? ==> NonEmptyValue(e.value.value)
  }

  ghost predicate NoEmptyCollections(d: DataMap) {
    forall k | k in d :: NonEmptyValue(d[k].value)
  }

  /** The arity checks of the handlers: an insertion carries something to insert. */
  predicate Inserts(op: WriteOp) {
    match op
    case LPush(values) => values != []
    case RPush(values) => values != []
    case HSet(pairs) => pairs != []
    case SAdd(names) => names != []
    case _ => true
  }

  lemma HandlersInsert(verb: Verb, args: seq<string>, now: nat)
    ensures PlanFor(verb, args, now).Write? ==> Inserts(PlanFor(verb, args, now).wop)
  {
    if CollectionWriter(verb) {
      CollectionHandlersInsert(verb, args, now);
    } else {
      OthersInsertNothing(verb, args, now);
    }
  }

  lemma CollectionHandlersInsert(verb: Verb, args: seq<string>, now: nat)
    requires CollectionWriter(verb)
    ensures PlanFor(verb, args, now).Write? ==> Inserts(PlanFor(verb, args, now).wop)
  {
  }

  predicate Collects(op: WriteOp) {
    op.LPush? || op.RPush? || op.HSet? || op.SAdd?
  }

  lemma OthersInsertNothing(verb: Verb, args: seq<string>, now: nat)
    requires !CollectionWriter(verb)
    ensures PlanFor(verb, args, now).Write? ==> !Collects(PlanFor(verb, args, now).wop)
  {
  }

  lemma DecodedWritesInsert(cmd: Command, now: nat)
    ensures PlanOf(cmd, now).Write? ==> Inserts(PlanOf(cmd, now).wop)
  {
    var verb := VerbOf(cmd.name);
    if verb.Some? {
      HandlersInsert(verb.value, cmd.args, now);
    }
  }

  lemma AssignedNonEmpty(fields: map<string, string>, pairs: seq<Pair>)
    requires pairs != []
    ensures Assigned(fields, pairs) != map[]
  {
    assert pairs[|pairs| - 1].0 in Assigned(fields, pairs);
  }

  lemma WritesKeepNonEmpty(op: WriteOp, now: nat, e: Option<Entry>)
    requires Inserts(op) && NonEmptyEntry(e)
    ensures NonEmptyEntry(WriteChange(op, now, e).entry)
  {
    match op
    case HSet(pairs) =>
      AssignedNonEmpty(if e.Some? && e.value.value.HashValue? then e.value.value.fields else map[], pairs);
    case SAdd(names) => assert names[0] in Elements(names);
    case _ =>
  }

  lemma {:induction false} TextsAreNonEmpty(d: DataMap, pairs: seq<(string, Entry)>)
    requires NoEmptyCollections(d) && forall i | 0 <= i < |pairs| :: NonEmptyValue(pairs[i].1.value)
    ensures NoEmptyCollections(Assigned(d, pairs))
    decreases |pairs|
  {
    if pairs != [] {
      TextsAreNonEmpty(d, pairs[..|pairs| - 1]);
    }
  }

  lemma CommandsKeepNonEmpty(d: DataMap, now: nat, cmd: Command)
    requires NoEmptyCollections(d)
    ensures NoEmptyCollections(Exec(d, now, PlanOf(cmd, now)).0)
  {
    var plan := PlanOf(cmd, now);
    match plan
    case Write(key, op) =>
      DecodedWritesInsert(cmd, now);
      WritesKeepNonEmpty(op, now, FindLive(d, key, now));
    case StoreAll(pairs) => TextsAreNonEmpty(d, Texts(pairs));
    case _ =>
  }

  /** In no state that commands can reach from the empty store is a list, hash or set empty. */
  lemma {:induction false} NeverEmpty(d: DataMap, run: seq<Timed>)
    requires NoEmptyCollections(d)
    ensures NoEmptyCollections(ExecAll(d, run).data)
    decreases |run|
  {
    if run != [] {
      CommandsKeepNonEmpty(d, run[0].now, run[0].cmd);
      NeverEmpty(Exec(d, run[0].now, PlanOf(run[0].cmd, run[0].now)).0, run[1..]);
    }
  }

  /** So the branch of LPOP and RPOP for an empty list is never taken: a pop on a live list
      always returns one of its elements. */
  lemma PopsSucceed(run: seq<Timed>, key: string, now: nat)
    ensures var d := ExecAll(map[], run).data;
            var e := FindLive(d, key, now);
            e.Some? && e.value.value.ListValue? ==> LPopOn(e).result.Ok? && RPopOn(e).result.Ok?
  {
    NeverEmpty(map[], run);
  }

  // ---- runs on one key ---------------------------------------------------------------

  datatype Step = Step(now: nat, op: WriteOp)

  datatype KeyRun = KeyRun(entry: Option<Entry>, replies: seq<Reply>)

  function StepsOn(e: Option<Entry>, steps: seq<Step>): KeyRun
    decreases |steps|
  {
    if steps == [] then KeyRun(e, [])
    else
      var c := WriteChange(steps[0].op, steps[0].now, e);
      var rest := StepsOn(c.entry, steps[1..]);
      KeyRun(rest.entry, [c.result] + rest.replies)
  }

  // ---- counters ----------------------------------------------------------------------

  predicate Counts(op: WriteOp) {
    op.IncrBy? || op.DecrBy?
  }

  function Signed(op: WriteOp): int
    requires Counts(op)
  {
    if op.IncrBy? then op.delta else -(op.delta as int)
  }

  /** The number under a key; an absent key counts as 0. */
  function CounterOf(e: Option<Entry>): Option<int> {
    match e
    case None => Some(0)
    case Some(entry) =>
      if !entry.value.StringValue? then None
      else match ParseI64(entry.value.data) case None => None case Some(n) => Some(n)
  }

  lemma AddStep(e: Option<Entry>, delta: int)
    requires CounterOf(e).Some?
    ensures var c := AddOn(e, delta);
            var n := CounterOf(e).value + delta;
            if InInt64(n)
            then c.result == Ok(n) && c.entry == Some(Entry(StringValue(ToString(n)), DeadlineOf(e)))
            else c.result == Fail(NotAnInteger) && c.entry == e
  {
  }

  function DeadlineOf(e: Option<Entry>): uint64 {
    if e.Some? then e.value.expiresAt else 0
  }

  /** What one step makes of the number. */
  function NextCount(n: int, op: WriteOp): int
    requires Counts(op)
  {
    if InInt64(n + Signed(op)) then n + Signed(op) else n
  }

  /** One step: accepted exactly when the sum fits; then the canonical text is stored, the
      deadline kept, and the new number returned; */
  lemma CounterAccepts(op: WriteOp, now: nat, e: Option<Entry>)
    requires Counts(op) && CounterOf(e).Some? && InInt64(CounterOf(e).value + Signed(op))
    ensures var c := WriteChange(op, now, e);
            var n := CounterOf(e).value + Signed(op);
            && c.result == Data(Integer(n)) && CounterOf(c.entry) == Some(n)
            && GetOf(c.entry) == Ok(ToString(n)) && DeadlineOf(c.entry) == DeadlineOf(e)
  {
    AddStep(e, Signed(op));
    ParseToString(CounterOf(e).value + Signed(op));
  }

  /** otherwise an error is returned and nothing changes. */
  lemma CounterRefuses(op: WriteOp, now: nat, e: Option<Entry>)
    requires Counts(op) && CounterOf(e).Some? && !InInt64(CounterOf(e).value + Signed(op))
    ensures WriteChange(op, now, e) == Change(e, Complain(BadInteger))
  {
    AddStep(e, Signed(op));
  }

  lemma CounterStep(op: WriteOp, now: nat, e: Option<Entry>, n: int)
    requires Counts(op) && CounterOf(e) == Some(n)
    ensures var c := WriteChange(op, now, e);
            && CounterOf(c.entry) == Some(NextCount(n, op)) && DeadlineOf(c.entry) == DeadlineOf(e)
            && c.entry == (if c.result == Complain(BadInteger) then e else Canonical(NextCount(n, op), DeadlineOf(e)))
            && NextCount(n, op) - n == if c.result == Complain(BadInteger) then 0 else Signed(op)
  {
    if InInt64(n + Signed(op)) {
      CounterAccepts(op, now, e);
      AddStep(e, Signed(op));
    } else {
      CounterRefuses(op, now, e);
    }
  }

  function Canonical(n: int, expiresAt: uint64): Option<Entry> {
    Some(Entry(StringValue(ToString(n)), expiresAt))
  }

  /** The sum of the deltas that were not refused. */
  function AcceptedSum(steps: seq<Step>, replies: seq<Reply>): int
    requires |steps| == |replies| && forall i | 0 <= i < |steps| :: Counts(steps[i].op)
    decreases |steps|
  {
    if steps == [] then 0
    else (if replies[0] == Complain(BadInteger) then 0 else Signed(steps[0].op)) + AcceptedSum(steps[1..], replies[1..])
  }

  predicate AllRefused(replies: seq<Reply>) {
    forall i | 0 <= i < |replies| :: replies[i] == Complain(BadInteger)
  }

  lemma {:induction false} NothingAccepted(steps: seq<Step>, replies: seq<Reply>)
    requires |steps| == |replies| && forall i | 0 <= i < |steps| :: Counts(steps[i].op)
    requires AllRefused(replies)
    ensures AcceptedSum(steps, replies) == 0
    decreases |steps|
  {
    if steps != [] {
      NothingAccepted(steps[1..], replies[1..]);
    }
  }

  lemma {:induction false} RepliesPerStep(e: Option<Entry>, steps: seq<Step>)
    ensures |StepsOn(e, steps).replies| == |steps|
    decreases |steps|
  {
    if steps != [] {
      RepliesPerStep(WriteChange(steps[0].op, steps[0].now, e).entry, steps[1..]);
    }
  }

  /** What a run of counter commands leaves: nothing new if all were refused, otherwise the
      canonical text of the sum under the old deadline. */
  function CounterEnd(e: Option<Entry>, n: int, steps: seq<Step>, replies: seq<Reply>): Option<Entry>
    requires |steps| == |replies| && forall i | 0 <= i < |steps| :: Counts(steps[i].op)
  {
    if AllRefused(replies) then e else Canonical(n + AcceptedSum(steps, replies), DeadlineOf(e))
  }

  lemma {:induction false} CounterEndFirst(e: Option<Entry>, n: int, steps: seq<Step>, first: Reply, rest: seq<Reply>, mid: Option<Entry>)
    requires |steps| == |rest| + 1 && forall i | 0 <= i < |steps| :: Counts(steps[i].op)
    requires DeadlineOf(mid) == DeadlineOf(e)
    requires mid == if first == Complain(BadInteger) then e else Canonical(NextCount(n, steps[0].op), DeadlineOf(e))
    requires NextCount(n, steps[0].op) - n == if first == Complain(BadInteger) then 0 else Signed(steps[0].op)
    ensures CounterEnd(mid, NextCount(n, steps[0].op), steps[1..], rest) == CounterEnd(e, n, steps, [first] + rest)
    ensures AcceptedSum(steps, [first] + rest) == NextCount(n, steps[0].op) - n + AcceptedSum(steps[1..], rest)
  {
    var all := [first] + rest;
    assert all[1..] == rest && all[0] == first;
    if AllRefused(rest) {
      NothingAccepted(steps[1..], rest);
      assert first == Complain(BadInteger) ==> AllRefused(all);
    } else {
      var i :| 0 <= i < |rest| && rest[i] != Complain(BadInteger);
      assert all[i + 1] != Complain(BadInteger);
    }
  }

  /** Over any run of counter commands the stored number is the initial one plus the accepted
      deltas. */
  lemma {:induction false} CounterRun(e: Option<Entry>, n: int, steps: seq<Step>)
    requires CounterOf(e) == Some(n) && forall i | 0 <= i < |steps| :: Counts(steps[i].op)
    ensures |StepsOn(e, steps).replies| == |steps|
    ensures StepsOn(e, steps).entry == CounterEnd(e, n, steps, StepsOn(e, steps).replies)
    ensures CounterOf(StepsOn(e, steps).entry) == Some(n + AcceptedSum(steps, StepsOn(e, steps).replies))
    decreases |steps|
  {
    RepliesPerStep(e, steps);
    if steps != [] {
      var c := WriteChange(steps[0].op, steps[0].now, e);
      CounterStep(steps[0].op, steps[0].now, e, n);
      CounterRun(c.entry, NextCount(n, steps[0].op), steps[1..]);
      CounterEndFirst(e, n, steps, c.result, StepsOn(c.entry, steps[1..]).replies, c.entry);
    }
  }

  // ---- lists -------------------------------------------------------------------------

  predicate OnLists(op: WriteOp) {
    op.LPush? || op.RPush? || op.LPop? || op.RPop?
  }

  predicate IsList(e: Option<Entry>) {
    e.Some? ==> e.value.value.ListValue?
  }

  function ItemsOf(e: Option<Entry>): seq<string>
    requires IsList(e)
  {
    if e.Some? then e.value.value.items else []
  }

  function PushedBy(op: WriteOp): seq<string> {
    if op.LPush? || op.RPush? then op.values else []
  }

  function PoppedBy(op: WriteOp, reply: Reply): seq<string> {
    if (op.LPop? || op.RPop?) && reply.Data? && reply.value.Bulk? then [reply.value.text] else []
  }

  function Pushed(steps: seq<Step>): seq<string>
    decreases |steps|
  {
    if steps == [] then [] else PushedBy(steps[0].op) + Pushed(steps[1..])
  }

  function Popped(steps: seq<Step>, replies: seq<Reply>): seq<string>
    requires |steps| == |replies|
    decreases |steps|
  {
    if steps == [] then [] else PoppedBy(steps[0].op, replies[0]) + Popped(steps[1..], replies[1..])
  }

  lemma {:induction false} ReverseSameElements(s: seq<string>)
    ensures multiset(Reverse(s)) == multiset(s)
  {
    if s != [] {
      ReverseSameElements(s[..|s| - 1]);
      assert s == s[..|s| - 1] + [s[|s| - 1]];
    }
  }

  lemma LPushStep(items: seq<string>, values: seq<string>)
    ensures multiset(Reverse(values) + items) == multiset(items) + multiset(values)
  {
    ReverseSameElements(values);
  }

  lemma PopStep(items: seq<string>)
    requires items != []
    ensures multiset(items) == multiset([items[0]]) + multiset(items[1..])
    ensures multiset(items) == multiset([items[|items| - 1]]) + multiset(items[..|items| - 1])
  {
    assert items == [items[0]] + items[1..];
    assert items == items[..|items| - 1] + [items[|items| - 1]];
  }

  ghost predicate Conserves(op: WriteOp, reply: Reply, before: Option<Entry>, after: Option<Entry>)
    requires IsList(before) && IsList(after)
  {
    multiset(ItemsOf(before)) + multiset(PushedBy(op)) == multiset(PoppedBy(op, reply)) + multiset(ItemsOf(after))
  }

  /** One step conserves elements. */
  lemma ListStep(op: WriteOp, now: nat, e: Option<Entry>)
    requires OnLists(op) && IsList(e)
    ensures IsList(WriteChange(op, now, e).entry)
    ensures Conserves(op, WriteChange(op, now, e).result, e, WriteChange(op, now, e).entry)
  {
    match op
    case LPush(values) => LPushConserves(values, now, e);
    case RPush(values) => RPushConserves(values, now, e);
    case LPop => LPopConserves(now, e);
    case RPop => RPopConserves(now, e);
  }

  lemma LPushConserves(values: seq<string>, now: nat, e: Option<Entry>)
    requires IsList(e)
    ensures IsList(WriteChange(LPush(values), now, e).entry)
    ensures multiset(ItemsOf(WriteChange(LPush(values), now, e).entry)) == multiset(ItemsOf(e)) + multiset(values)
  {
    LPushStep(ItemsOf(e), values);
    assert Reverse(values) + [] == Reverse(values);
  }

  lemma RPushConserves(values: seq<string>, now: nat, e: Option<Entry>)
    requires IsList(e)
    ensures IsList(WriteChange(RPush(values), now, e).entry)
    ensures ItemsOf(WriteChange(RPush(values), now, e).entry) == ItemsOf(e) + values
  {
    assert [] + values == values;
  }

  lemma LPopConserves(now: nat, e: Option<Entry>)
    requires IsList(e)
    ensures IsList(WriteChange(LPop, now, e).entry)
    ensures Conserves(LPop, WriteChange(LPop, now, e).result, e, WriteChange(LPop, now, e).entry)
  {
    if ItemsOf(e) != [] {
      PopStep(ItemsOf(e));
      assert ItemsOf(WriteChange(LPop, now, e).entry) == ItemsOf(e)[1..];
    }
  }

  lemma RPopConserves(now: nat, e: Option<Entry>)
    requires IsList(e)
    ensures IsList(WriteChange(RPop, now, e).entry)
    ensures Conserves(RPop, WriteChange(RPop, now, e).result, e, WriteChange(RPop, now, e).entry)
  {
    if ItemsOf(e) != [] {
      PopStep(ItemsOf(e));
      assert ItemsOf(WriteChange(RPop, now, e).entry) == ItemsOf(e)[..|ItemsOf(e)| - 1];
    }
  }

  lemma JoinMultisets(a: multiset<string>, p: multiset<string>, o: multiset<string>, b: multiset<string>,
                      p': multiset<string>, o': multiset<string>, c: multiset<string>)
    requires a + p == o + b && b + p' == o' + c
    ensures a + (p + p') == (o + o') + c
  {
    assert a + (p + p') == (a + p) + p';
    assert (o + b) + p' == o + (b + p');
  }

  /** Over any run of pushes and pops on one key: what was there and what was pushed is what
      was popped and what is left, each element as often. */
  lemma {:induction false} ListConservation(e: Option<Entry>, steps: seq<Step>)
    requires IsList(e) && forall i | 0 <= i < |steps| :: OnLists(steps[i].op)
    ensures |StepsOn(e, steps).replies| == |steps| && IsList(StepsOn(e, steps).entry)
    ensures multiset(ItemsOf(e)) + multiset(Pushed(steps)) ==
            multiset(Popped(steps, StepsOn(e, steps).replies)) + multiset(ItemsOf(StepsOn(e, steps).entry))
    decreases |steps|
  {
    RepliesPerStep(e, steps);
    if steps != [] {
      var op := steps[0].op;
      var c := WriteChange(op, steps[0].now, e);
      var r := StepsOn(c.entry, steps[1..]);
      ListStep(op, steps[0].now, e);
      ListConservation(c.entry, steps[1..]);
      assert StepsOn(e, steps).replies[1..] == r.replies;
      JoinMultisets(multiset(ItemsOf(e)), multiset(PushedBy(op)), multiset(PoppedBy(op, c.result)),
                    multiset(ItemsOf(c.entry)), multiset(Pushed(steps[1..])),
                    multiset(Popped(steps[1..], r.replies)), multiset(ItemsOf(r.entry)));
    }
  }

  lemma QueueStep(op: WriteOp, now: nat, e: Option<Entry>)
    requires (op.RPush? || op.LPop?) && IsList(e)
    ensures IsList(WriteChange(op, now, e).entry)
    ensures ItemsOf(e) + PushedBy(op) ==
            PoppedBy(op, WriteChange(op, now, e).result) + ItemsOf(WriteChange(op, now, e).entry)
  {
  }

  lemma JoinSequences(a: seq<string>, p: seq<string>, o: seq<string>, b: seq<string>,
                      p': seq<string>, o': seq<string>, c: seq<string>)
    requires a + p == o + b && b + p' == o' + c
    ensures a + (p + p') == (o + o') + c
  {
    assert a + (p + p') == (a + p) + p';
    assert (o + b) + p' == o + (b + p');
    assert o + (o' + c) == (o + o') + c;
  }

  /** RPUSH with LPOP is a queue: elements leave in the order in which they came. */
  lemma {:induction false} ListQueue(e: Option<Entry>, steps: seq<Step>)
    requires IsList(e) && forall i | 0 <= i < |steps| :: steps[i].op.RPush? || steps[i].op.LPop?
    ensures |StepsOn(e, steps).replies| == |steps| && IsList(StepsOn(e, steps).entry)
    ensures ItemsOf(e) + Pushed(steps) ==
            Popped(steps, StepsOn(e, steps).replies) + ItemsOf(StepsOn(e, steps).entry)
    decreases |steps|
  {
    RepliesPerStep(e, steps);
    if steps != [] {
      var op := steps[0].op;
      var c := WriteChange(op, steps[0].now, e);
      var r := StepsOn(c.entry, steps[1..]);
      QueueStep(op, steps[0].now, e);
      ListQueue(c.entry, steps[1..]);
      assert StepsOn(e, steps).replies[1..] == r.replies;
      JoinSequences(ItemsOf(e), PushedBy(op), PoppedBy(op, c.result), ItemsOf(c.entry),
                    Pushed(steps[1..]), Popped(steps[1..], r.replies), ItemsOf(r.entry));
    }
  }

  /** LRANGE i i is LINDEX i, or empty exactly when LINDEX is out of range. */
  lemma SliceOfOne(e: Entry, i: int64)
    requires e.value.ListValue?
    ensures LRangeOf(Some(e), i, i) ==
            match LIndexOf(Some(e), i) case Ok(x) => Ok([x]) case Fail(_) => Ok([])
    ensures LIndexOf(Some(e), i).Fail? ==> LIndexOf(Some(e), i).error == OutOfRange
  {
    var items := e.value.items;
    var n := NormalizeIndex(i, |items|);
    assert 0 <= n < |items| ==> items[n..n + 1] == [items[n]];
  }

  /** Cutting a list in two loses nothing, wherever the cut. */
  lemma SlicesJoin(items: seq<string>, k: nat)
    ensures Slice(items, 0, k) + Slice(items, k + 1, -1) == items
    ensures Slice(items, 0, -1) == items
  {
    var cut := if k < |items| then k + 1 else |items|;
    assert Slice(items, 0, k) == items[..cut];
    assert Slice(items, k + 1, -1) == items[cut..];
  }

  // ---- sets --------------------------------------------------------------------------

  /** SUNION and SINTER depend only on which keys are named, not on order or repetition. */
  lemma SetAlgebraIgnoresOrder(m: DataMap, a: seq<string>, b: seq<string>)
    requires Elements(a) == Elements(b)
    ensures UnionOf(m, a) == UnionOf(m, b) && InterOf(m, a) == InterOf(m, b)
    ensures SetReply(m, a, UnionOf(m, a)) == SetReply(m, b, UnionOf(m, b))
    ensures SetReply(m, a, InterOf(m, a)) == SetReply(m, b, InterOf(m, b))
  {
    assert forall k :: k in a <==> k in Elements(a);
    assert forall k :: k in b <==> k in Elements(b);
    assert a != [] ==> a[0] in Elements(a);
    assert b != [] ==> b[0] in Elements(b);
  }

  function FieldsIn(e: Option<Entry>): set<string>
    requires e.Some? ==> e.value.value.HashValue?
  {
    if e.Some? then e.value.value.fields.Keys else {}
  }

  function MembersIn(e: Option<Entry>): set<string>
    requires e.Some? ==> e.value.value.SetValue?
  {
    if e.Some? then e.value.value.members else {}
  }

  /** The replies of HSET and HDEL are exact: each name counts once, and only if it was new,
      respectively there; an absent key has no fields. */
  lemma FieldCountsAreExact(e: Option<Entry>, pairs: seq<Pair>, names: seq<string>)
    requires e.Some? ==> e.value.value.HashValue?
    ensures HSetOn(e, pairs).result == |Names(pairs) - FieldsIn(e)|
    ensures HDelOn(e, names).result == |FieldsIn(e) * Elements(names)|
  {
    var fields: map<string, string> := if e.Some? then e.value.value.fields else map[];
    AssignedKeys(fields, pairs);
    Gained(FieldsIn(e), Names(pairs));
    Lost(FieldsIn(e), Elements(names));
    assert |Assigned(fields, pairs)| == |Assigned(fields, pairs).Keys|;
    assert (fields - Elements(names)).Keys == FieldsIn(e) - Elements(names);
  }

  /** So are those of SADD and SREM. */
  lemma MemberCountsAreExact(e: Option<Entry>, names: seq<string>)
    requires e.Some? ==> e.value.value.SetValue?
    ensures SAddOn(e, names).result == |Elements(names) - MembersIn(e)|
    ensures SRemOn(e, names).result == |MembersIn(e) * Elements(names)|
  {
    Gained(MembersIn(e), Elements(names));
    Lost(MembersIn(e), Elements(names));
    assert {} + Elements(names) == Elements(names);
    assert {} * Elements(names) == {};
  }

  lemma Gained(a: set<string>, b: set<string>)
    ensures |a + b| - |a| == |b - a|
  {
    assert a + b == a + (b - a);
  }

  lemma Lost(a: set<string>, b: set<string>)
    ensures |a| - |a - b| == |a * b|
  {
    assert a == (a - b) + (a * b);
  }
}
