/** What one command does to the effect of another: which commands take each other back, and
    what a reader sees after a writer. */
module Laws {
  import opened Wrappers
  import opened Int64
  import opened Lex
  import opened Resp
  import opened Values
  import opened Keyspace
  import opened Expiry
  import opened Locality
  import opened Runs
  import opened Timeline

  // ---- commands that take each other back --------------------------------------------

  /** INCRBY and then DECRBY of the same amount, when the first was accepted: the second is
      accepted and the number and the deadline are back. The stored text is back exactly if
      the key was there and its text canonical. */
  lemma DecrementUndoes(e: Option<Entry>, delta: int64, now: nat, later: nat)
    requires CounterOf(e).Some? && InInt64(CounterOf(e).value + delta)
    ensures var n := CounterOf(e).value;
            var c := WriteChange(DecrBy(delta), later, WriteChange(IncrBy(delta), now, e).entry);
            && c.result == Data(Integer(n)) && CounterOf(c.entry) == Some(n)
            && DeadlineOf(c.entry) == DeadlineOf(e)
            && (c.entry == e <==> e.Some? && e.value.value.data == ToString(n))
  {
    var n := CounterOf(e).value;
    var up := AddOn(e, delta).entry;
    assert WriteChange(IncrBy(delta), now, e).entry == up;
    AddBack(e, delta);
    var back := WriteChange(DecrBy(delta), later, up);
    assert back == Change(AddOn(up, -(delta as int)).entry, Data(Integer(n)));
    NumberAndDeadline(e, back.entry);
  }

  lemma NumberAndDeadline(e: Option<Entry>, back: Option<Entry>)
    requires CounterOf(e).Some? && back == Some(Entry(StringValue(ToString(CounterOf(e).value)), DeadlineOf(e)))
    ensures CounterOf(back) == CounterOf(e) && DeadlineOf(back) == DeadlineOf(e)
    ensures back == e <==> e.Some? && e.value.value.data == ToString(CounterOf(e).value)
  {
    ParseToString(CounterOf(e).value);
  }

  lemma AddBack(e: Option<Entry>, delta: int)
    requires CounterOf(e).Some? && InInt64(CounterOf(e).value + delta)
    ensures var n := CounterOf(e).value;
            AddOn(AddOn(e, delta).entry, -delta) ==
            Change(Some(Entry(StringValue(ToString(n)), DeadlineOf(e))), Ok(n))
  {
    AddStep(e, delta);
    ParseToString(CounterOf(e).value + delta);
    AddStep(AddOn(e, delta).entry, -delta);
  }

  /** PEXPIRE and then PERSIST while the key still lives: the value is back, and so is the whole
      entry exactly if it had no deadline before; PERSIST reports a deadline unless the
      new one happened to be 0. */
  lemma PersistUndoes(d: DataMap, key: string, now: nat, ms: uint64, later: nat)
    requires Visible(d, key, now) && Visible(AfterPExpire(d, key, now, ms), key, later)
    ensures var (after, reply) := Exec(AfterPExpire(d, key, now, ms), later, Write(key, Persist));
            && after == d[key := d[key].(expiresAt := 0)]
            && (after == d <==> d[key].expiresAt == 0)
            && reply == FlagReply(Deadline(now, ms) != 0)
  {
    var after := Exec(AfterPExpire(d, key, now, ms), later, Write(key, Persist)).0;
    assert after[key] == d[key].(expiresAt := 0);
    if d[key].expiresAt == 0 {
      assert d[key].(expiresAt := 0) == d[key];
    }
  }

  /** SADD and then SREM of the same names restores the key exactly if no name was a member. */
  lemma RemoveUndoesAdd(e: Option<Entry>, names: seq<string>)
    requires NonEmptyEntry(e) && (e.Some? ==> e.value.value.SetValue?) && names != []
    ensures SRemOn(SAddOn(e, names).entry, names).entry == e <==>
            (e.Some? ==> e.value.value.members !! Elements(names))
  {
    assert names[0] in Elements(names);
    if e.Some? {
      var members, added := e.value.value.members, Elements(names);
      assert (members + added) - added == members <==> members !! added;
      if members !! added {
        assert (members + added) - added == members;
      }
    } else {
      assert Elements(names) - Elements(names) == {};
    }
  }

  /** HSET and then HDEL of the fields set restores the key exactly if every field was new. */
  lemma DeleteUndoesSet(e: Option<Entry>, pairs: seq<Pair>, names: seq<string>)
    requires NonEmptyEntry(e) && (e.Some? ==> e.value.value.HashValue?) && pairs != []
    requires Elements(names) == Names(pairs)
    ensures HDelOn(HSetOn(e, pairs).entry, names).entry == e <==>
            (e.Some? ==> e.value.value.fields.Keys !! Elements(names))
  {
    var fields: map<string, string> := if e.Some? then e.value.value.fields else map[];
    var after := Assigned(fields, pairs);
    AssignedKeys(fields, pairs);
    assert (after - Elements(names)).Keys == fields.Keys - Elements(names);
    if fields.Keys !! Elements(names) {
      forall k | k in fields ensures after[k] == fields[k] {
        AssignedOther(fields, pairs, k);
      }
      assert after - Elements(names) == fields;
    }
  }

  // ---- assignments -------------------------------------------------------------------

  /** The last value given to a name is the one that stays. */
  lemma {:induction false} AssignedLast<V>(m: map<string, V>, pairs: seq<(string, V)>, i: nat)
    requires i < |pairs| && forall j | i < j < |pairs| :: pairs[j].0 != pairs[i].0
    ensures pairs[i].0 in Assigned(m, pairs) && Assigned(m, pairs)[pairs[i].0] == pairs[i].1
    decreases |pairs|
  {
    if i < |pairs| - 1 {
      AssignedLast(m, pairs[..|pairs| - 1], i);
    }
  }

  /** MSET and then MGET, at any later time: the last value given to each key, whatever the key
      held before and whatever deadline it had. */
  lemma MultiGetAfterMultiSet(d: DataMap, now: nat, later: nat, pairs: seq<Pair>, keys: seq<string>, i: nat, j: nat)
    requires i < |keys| && j < |pairs| && pairs[j].0 == keys[i]
    requires forall k | j < k < |pairs| :: pairs[k].0 != keys[i]
    ensures var reply := Ask(Exec(d, now, StoreAll(pairs)).0, later, GetAll(keys));
            && reply.Data? && reply.value.Array? && |reply.value.elems| == |keys|
            && reply.value.elems[i] == Bulk(pairs[j].1)
  {
    AssignedLast(d, Texts(pairs), j);
    assert Texts(pairs)[j].0 == keys[i];
  }

  // ---- hashes and sets read back -----------------------------------------------------

  /** After SADD a name is a member exactly if it was one or was added, after SREM exactly if it
      was one and was not removed; SCARD moves by what the command answered. */
  lemma SetsReadBack(e: Option<Entry>, names: seq<string>, name: string, now: nat)
    requires e.Some? ==> e.value.value.SetValue?
    ensures var c := SAddOn(e, names);
            && ReadReply(SIsMember(name), now, c.entry) == FlagReply(name in MembersIn(e) || name in names)
            && ReadReply(SCard, now, c.entry) == Data(Integer(|MembersIn(e)| + c.result))
    ensures var c := SRemOn(e, names);
            && ReadReply(SIsMember(name), now, c.entry) == FlagReply(name in MembersIn(e) && name !in names)
            && ReadReply(SCard, now, c.entry) == Data(Integer(|MembersIn(e)| - c.result))
  {
    assert {} + Elements(names) == Elements(names);
    if e.Some? && MembersIn(e) - Elements(names) == {} && name in MembersIn(e) {
      assert name !in MembersIn(e) - Elements(names);
    }
  }

  /** After HSET, HGET reads the last value given to a field, and what it read before for a
      field not given; */
  lemma HashesReadBack(e: Option<Entry>, pairs: seq<Pair>, i: nat, now: nat)
    requires e.Some? ==> e.value.value.HashValue?
    requires i < |pairs| && forall j | i < j < |pairs| :: pairs[j].0 != pairs[i].0
    ensures ReadReply(HGet(pairs[i].0), now, HSetOn(e, pairs).entry) == Data(Bulk(pairs[i].1))
  {
    AssignedLast(if e.Some? then e.value.value.fields else map[], pairs, i);
  }

  lemma HashesKeepTheRest(e: Option<Entry>, pairs: seq<Pair>, name: string, now: nat)
    requires (e.Some? ==> e.value.value.HashValue?) && name !in Names(pairs)
    ensures ReadReply(HGet(name), now, HSetOn(e, pairs).entry) == ReadReply(HGet(name), now, e)
  {
    var fields: map<string, string> := if e.Some? then e.value.value.fields else map[];
    AssignedKeys(fields, pairs);
    if name in fields {
      AssignedOther(fields, pairs, name);
    }
    assert HGetOf(HSetOn(e, pairs).entry, name) == HGetOf(e, name);
  }

  /** after HDEL it reads null for the fields removed and the same for all others. */
  lemma HashesForget(e: Option<Entry>, names: seq<string>, name: string, now: nat)
    requires e.Some? ==> e.value.value.HashValue?
    ensures ReadReply(HGet(name), now, HDelOn(e, names).entry) ==
            if name in names then NULL_BULK else ReadReply(HGet(name), now, e)
  {
    if e.Some? {
      var fields := e.value.value.fields;
      assert name in fields - Elements(names) <==> name in fields && name !in names;
    }
  }

  // ---- SET, GETSET, APPEND, RENAME ---------------------------------------------------

  /** SET with NX or XX: it is obeyed exactly if the key is absent, respectively present; then a
      GET at any time before the new deadline reads the new value; otherwise nobody sees a
      change. A dead entry counts as absent. */
  lemma SetIsConditional(d: DataMap, now: nat, key: string, value: string, expiresAt: uint64,
                         onlyNew: bool, onlyOld: bool, later: nat)
    requires now <= later && (expiresAt == 0 || later < expiresAt)
    ensures var (after, reply) := Exec(d, now, Plan.Store(key, value, expiresAt, onlyNew, onlyOld));
            && (reply == OK <==> (onlyNew ==> !Visible(d, key, now)) && (onlyOld ==> Visible(d, key, now)))
            && (reply == OK ==> Ask(after, later, Read(key, ReadOp.Get)) == Data(Bulk(value)))
            && (reply != OK ==> reply == NULL_BULK && after == d)
            && forall other | other != key :: Find(after, other) == Find(d, other)
  {
  }

  /** GETSET answers what GET would, and the key then holds the new value for ever; a key of
      another type is left alone. */
  lemma GetSetReadsThenWrites(d: DataMap, now: nat, key: string, value: string, later: nat)
    requires now <= later
    ensures var (after, reply) := Exec(d, now, Write(key, GetSet(value)));
            && reply == Ask(d, now, Read(key, ReadOp.Get))
            && (!IsErrorReply(reply) ==>
                  && Ask(after, later, Read(key, ReadOp.Get)) == Data(Bulk(value))
                  && Ask(after, later, Read(key, ReadOp.Ttl)) == Data(Integer(-1)))
            && (IsErrorReply(reply) ==> Live(after, now) == Live(d, now))
  {
    hide ErrorText;
  }

  function TextAt(d: DataMap, key: string, now: nat): string {
    var e := FindLive(d, key, now);
    if e.Some? && e.value.value.StringValue? then e.value.value.data else ""
  }

  /** APPEND answers the length STRLEN then reports, and the text grows at its end; the deadline
      of the key stays. */
  lemma AppendGrowsTheText(d: DataMap, now: nat, key: string, suffix: string)
    ensures var (after, reply) := Exec(d, now, Write(key, Append(suffix)));
            && reply == (if IsErrorReply(reply) then Ask(d, now, Read(key, ReadOp.Strlen))
                         else Ask(after, now, Read(key, ReadOp.Strlen)))
            && (!IsErrorReply(reply) ==> TextAt(after, key, now) == TextAt(d, key, now) + suffix)
            && DeadlineOf(FindLive(after, key, now)) == DeadlineOf(FindLive(d, key, now))
  {
  }

  /** RENAME moves value and deadline: at every time from then on the new name shows what the old
      name would have shown; the old name is gone unless it is the new one; no other key is
      touched. */
  lemma RenameMoves(d: DataMap, now: nat, src: string, dst: string, later: nat)
    requires Visible(d, src, now) && now <= later
    ensures var (after, reply) := Exec(d, now, Plan.Rename(src, dst));
            && reply == OK
            && FindLive(after, dst, later) == FindLive(d, src, later)
            && (src != dst ==> src !in after)
            && forall other | other != src && other != dst :: Find(after, other) == Find(d, other)
  {
  }

  /** Renaming there and back restores every live entry exactly if the name was free (or the
      same). */
  lemma RenameBack(d: DataMap, now: nat, src: string, dst: string)
    requires Visible(d, src, now)
    ensures var back := Exec(Exec(d, now, Plan.Rename(src, dst)).0, now, Plan.Rename(dst, src)).0;
            Live(back, now) == Live(d, now) <==> src == dst || !Visible(d, dst, now)
  {
    var there := Exec(d, now, Plan.Rename(src, dst)).0;
    var back := Exec(there, now, Plan.Rename(dst, src)).0;
    assert back[src] == d[src];
    if src != dst && Visible(d, dst, now) {
      assert dst !in back;
      assert dst in Live(d, now) && dst !in Live(back, now);
    }
  }

  // ---- deadlines while others work ----------------------------------------------------

  /** The countdown that PEXPIRE starts is not disturbed by any run of commands that leave the
      key alone, however many other keys they change or expire meanwhile. */
  lemma CountdownGoesOn(d: DataMap, key: string, t0: uint64, ms: uint64, run: seq<Timed>, t: nat)
    requires Visible(d, key, t0) && 0 < t0 <= t && t0 + ms <= INT64_MAX && Spared(run, key)
    ensures var end := ExecAll(AfterPExpire(d, key, t0, ms), run).data;
            && Remaining(end, key, t) == (if t < t0 + ms then t0 + ms - t else -2)
            && (Visible(end, key, t) <==> t < t0 + ms)
  {
    Countdown(d, key, t0, ms, t);
    var start := AfterPExpire(d, key, t0, ms);
    var end := ExecAll(start, run).data;
    RunsSpare(start, run, key);
    SameFind(end, start, key, t);
  }

  lemma SameFind(a: DataMap, b: DataMap, key: string, now: nat)
    requires Find(a, key) == Find(b, key)
    ensures FindLive(a, key, now) == FindLive(b, key, now)
    ensures Visible(a, key, now) <==> Visible(b, key, now)
  {
    assert key in a <==> Find(a, key).Some?;
    assert key in b <==> Find(b, key).Some?;
  }
}
