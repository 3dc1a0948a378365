/** How long a key lives: one deadline watched over time, by everybody who can see the key. */
module Timeline {
  import opened Wrappers
  import opened Int64
  import opened Lex
  import opened Glob
  import opened Resp
  import opened Values
  import opened Keyspace

  /** What every command that can see a key says about it at one instant. */
  ghost predicate Visible(d: DataMap, key: string, now: nat) {
    key in Live(d, now)
  }

  function Ask(d: DataMap, now: nat, plan: Plan): Reply {
    Exec(d, now, plan).1
  }

  /** EXISTS, TYPE, TTL, DEL and DBSIZE agree at every instant on whether a key is there, */
  lemma ObserversAgree(d: DataMap, key: string, now: nat)
    ensures Visible(d, key, now) <==> Ask(d, now, Count([key])) == Data(Integer(1))
    ensures Visible(d, key, now) <==> Ask(d, now, Delete([key])) == Data(Integer(1))
    ensures Visible(d, key, now) <==> Ask(d, now, Read(key, ReadOp.Type)) != Status("none")
    ensures now > 1 ==> (Visible(d, key, now) <==> Ask(d, now, Read(key, ReadOp.Ttl)) != Data(Integer(-2)))
    ensures Ask(d, now, CountAll) ==
            Data(Integer(|Live(d - {key}, now)| + if Visible(d, key, now) then 1 else 0))
  {
    CountOne(Live(d, now), key);
    DeleteOne(Live(d, now), key);
    RemainingNotMinusTwo(FindLive(d, key, now), now);
    SizeWithout(d, key, now);
  }

  lemma SizeWithout(d: DataMap, key: string, now: nat)
    ensures |Live(d, now)| == |Live(d - {key}, now)| + if Visible(d, key, now) then 1 else 0
  {
    var all, others := Live(d, now).Keys, Live(d - {key}, now).Keys;
    assert |Live(d, now)| == |all| && |Live(d - {key}, now)| == |others|;
    if Visible(d, key, now) {
      assert all == others + {key};
    } else {
      assert all == others;
    }
  }

  /** KEYS lists it exactly then, if the pattern selects it (see `Glob`), and GET reads it exactly
      then, if it holds a string. */
  lemma ReadersAgree(d: DataMap, key: string, now: nat, pattern: string)
    ensures var reply := Ask(d, now, Plan.Keys(pattern));
            && reply.Data? && reply.value.Array?
            && (Bulk(key) in reply.value.elems <==> Visible(d, key, now) && GlobMatches(pattern, key))
    ensures !Visible(d, key, now) ==> Ask(d, now, Read(key, ReadOp.Get)) == NULL_BULK
    ensures Visible(d, key, now) && d[key].value.StringValue? ==>
            Ask(d, now, Read(key, ReadOp.Get)) == Data(Bulk(d[key].value.data))
  {
    ListedExactly(Sorted(Matching(Live(d, now), pattern)), key);
  }

  lemma ListedExactly(names: seq<string>, key: string)
    ensures Bulk(key) in Bulks(names) <==> key in names
  {
    if key in names {
      var i :| 0 <= i < |names| && names[i] == key;
      assert Bulks(names)[i] == Bulk(key);
    }
  }

  /** KEYS `*` therefore misses exactly the visible keys of two bytes and more that start with a
      star. */
  lemma KeysStarMisses(d: DataMap, key: string, now: nat)
    ensures var reply := Ask(d, now, Plan.Keys("*"));
            && reply.Data? && reply.value.Array?
            && (Bulk(key) in reply.value.elems <==>
                  Visible(d, key, now) && (key == "" || key[0] != '*' || key == "*"))
  {
    ReadersAgree(d, key, now, "*");
    LoneStar(key);
  }

  lemma CountOne(m: DataMap, key: string)
    ensures CountIn(m, [key]) == if key in m then 1 else 0
  {
    assert [key][..0] == [];
  }

  lemma DeleteOne(m: DataMap, key: string)
    ensures |m.Keys * Elements([key])| == if key in m then 1 else 0
  {
    assert m.Keys * Elements([key]) == if key in m then {key} else {};
  }

  /** The remaining time of a live entry is never mistaken for -2. (In the first two
      milliseconds of the epoch the cast to a signed number could produce it.) */
  lemma RemainingNotMinusTwo(e: Option<Entry>, now: nat)
    ensures e.None? ==> TtlOf(e, now) == -2
    ensures e.Some? && !Expired(e.value, now) && now > 1 ==> TtlOf(e, now) != -2
  {
  }

  // ---- one deadline, watched over time -----------------------------------------------

  /** The map after PEXPIRE on a live key. */
  function AfterPExpire(d: DataMap, key: string, t0: nat, ms: uint64): DataMap {
    Exec(d, t0, Write(key, PExpire(ms))).0
  }

  function Remaining(d: DataMap, key: string, t: nat): int {
    PttlOf(FindLive(d, key, t), t)
  }

  /** The countdown, for every amount. While the deadline fits 64 bits, PTTL shows the time left
      as a signed number until the deadline and -2 ever after, the key is visible exactly until
      then, and TTL is the time left rounded up to seconds. A deadline that wraps around to 0
      makes the key last for ever, one that wraps further makes it dead at once. */
  lemma Countdown(d: DataMap, key: string, t0: uint64, ms: uint64, t: nat)
    requires Visible(d, key, t0) && 0 < t0 <= t
    ensures var after, end := AfterPExpire(d, key, t0, ms), t0 + ms;
      && (end < UINT64_SPAN ==>
            && Remaining(after, key, t) == (if t < end then AsInt64(end - t) else -2)
            && (t < end <= INT64_MAX ==> Remaining(after, key, t) == end - t)
            && (Visible(after, key, t) <==> t < end)
            && (t < end && end - t <= INT64_MAX - 999 ==>
                  TtlOf(FindLive(after, key, t), t) == (end - t + 999) / 1000))
      && (end == UINT64_SPAN ==> Visible(after, key, t) && Remaining(after, key, t) == -1)
      && (end > UINT64_SPAN ==> !Visible(after, key, t) && Remaining(after, key, t) == -2)
  {
    var end := t0 + ms;
    assert Deadline(t0, ms) == if end < UINT64_SPAN then end else end - UINT64_SPAN;
  }

  /** When PTTL directly after PEXPIRE shows the time that was asked for: exactly when it is
      positive, fits a signed 64-bit number, and the deadline does not wrap around. */
  lemma CountdownStartsRight(d: DataMap, key: string, t0: uint64, ms: uint64)
    requires Visible(d, key, t0)
    ensures Remaining(AfterPExpire(d, key, t0, ms), key, t0) == ms <==>
            0 < ms <= INT64_MAX && t0 + ms < UINT64_SPAN
  {
    if t0 + ms < UINT64_SPAN {
      assert Deadline(t0, ms) == t0 + ms;
    } else {
      assert Deadline(t0, ms) == t0 + ms - UINT64_SPAN;
    }
  }

  /** SET with EX or PX starts the same countdown: at every later time the key shows what it
      would show had PEXPIRE set the deadline on it. */
  lemma SetStartsCountdown(d: DataMap, key: string, value: string, t0: uint64, ms: uint64, t: nat)
    requires 0 < t0 <= t
    ensures var plain := Exec(d, t0, Plan.Store(key, value, 0, false, false)).0;
            var timed := Exec(d, t0, Plan.Store(key, value, Deadline(t0, ms), false, false)).0;
            timed == AfterPExpire(plain, key, t0, ms) && Visible(plain, key, t0)
  {
  }
}
