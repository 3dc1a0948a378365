/** The commands on keys of any type, from their names to their replies. */
module KeyCommands {
  import opened Int64
  import opened Numerals
  import opened Lex
  import opened Glob
  import opened Resp
  import opened Values
  import opened Keyspace
  import opened Command
  import opened SetOptions
  import opened Answers

  // ---- which keys are there ----------------------------------------------------------

  /** DEL removes the keys and answers how many of them were there. */
  lemma Del(d: DataMap, now: nat, keys: seq<string>)
    requires keys != []
    ensures Do(d, now, "DEL", keys) ==
            (d - (set k | k in keys), Data(Integer(|set k | k in keys && There(d, k, now)|)))
  {
    hide Do, Elements;
    DoVerb(d, now, DEL, keys);
    ElementsAreGiven(keys);
    assert Live(d, now).Keys * Elements(keys) == set k | k in keys && There(d, k, now) by {
      forall k ensures k in Live(d, now) <==> There(d, k, now) { FoundExactly(d, k, now); }
    }
  }

  function PositionsThere(d: DataMap, now: nat, keys: seq<string>): set<int> {
    set i | 0 <= i < |keys| && There(d, keys[i], now)
  }

  /** EXISTS answers how many of the arguments name a key that is there, repetitions included. */
  lemma Exists(d: DataMap, now: nat, keys: seq<string>)
    requires keys != []
    ensures Do(d, now, "EXISTS", keys) ==
            (d, Data(Integer(|PositionsThere(d, now, keys)|)))
  {
    hide Do, CountIn, PositionsThere;
    DoVerb(d, now, EXISTS, keys);
    CountsPositions(d, now, keys);
  }

  lemma OneMorePosition(d: DataMap, now: nat, keys: seq<string>)
    requires keys != []
    ensures var n := |keys| - 1;
            |PositionsThere(d, now, keys)| == |PositionsThere(d, now, keys[..n])| + if There(d, keys[n], now) then 1 else 0
  {
    hide There;
    var n := |keys| - 1;
    var before := PositionsThere(d, now, keys[..n]);
    assert n !in before;
    assert PositionsThere(d, now, keys) == before + if There(d, keys[n], now) then {n} else {};
  }

  lemma {:induction false} CountsPositions(d: DataMap, now: nat, keys: seq<string>)
    ensures CountIn(Live(d, now), keys) == |PositionsThere(d, now, keys)|
  {
    if keys != [] {
      hide There, Live, PositionsThere;
      var n := |keys| - 1;
      CountsPositions(d, now, keys[..n]);
      FoundExactly(d, keys[n], now);
      OneMorePosition(d, now, keys);
    }
  }

  /** DBSIZE answers how many keys are there. */
  lemma Dbsize(d: DataMap, now: nat)
    ensures Do(d, now, "DBSIZE", []) == (d, Data(Integer(|set k | k in d && There(d, k, now)|)))
  {
    hide Do;
    DoVerb(d, now, DBSIZE, []);
    LiveKeys(d, now);
  }

  lemma LiveKeys(d: DataMap, now: nat)
    ensures Live(d, now).Keys == set k | k in d && There(d, k, now)
    ensures |Live(d, now)| == |set k | k in d && There(d, k, now)|
  {
    var there := set k | k in d && There(d, k, now);
    forall k ensures k in Live(d, now) <==> k in there { FoundExactly(d, k, now); }
    assert Live(d, now).Keys == there && |Live(d, now)| == |Live(d, now).Keys|;
  }

  function Selected(d: DataMap, now: nat, pattern: string): set<string> {
    set k | k in d && There(d, k, now) && GlobMatches(pattern, k)
  }

  /** KEYS lists in byte order those that the pattern selects. */
  lemma Keys(d: DataMap, now: nat, pattern: string)
    ensures var (after, reply) := Do(d, now, "KEYS", [pattern]);
            after == d && ListsInOrder(reply, Selected(d, now, pattern))
  {
    hide Do, ListsInOrder, GlobMatches;
    DoVerb(d, now, KEYS, [pattern]);
    var found := Matching(Live(d, now), pattern);
    SortedAscends(found);
    assert found == Selected(d, now, pattern) by {
      LiveKeys(d, now);
    }
  }

  /** FLUSHDB leaves nothing. */
  lemma Flushdb(d: DataMap, now: nat)
    ensures Do(d, now, "FLUSHDB", []) == (map[], Status("OK"))
  {
    hide Do;
    DoVerb(d, now, FLUSHDB, []);
  }

  /** TYPE answers what kind of value the key holds. */
  lemma Type(d: DataMap, now: nat, key: string)
    ensures Do(d, now, "TYPE", [key]) ==
            (d, Status(if !There(d, key, now) then "none"
                       else if d[key].value.StringValue? then "string"
                       else if d[key].value.ListValue? then "list"
                       else if d[key].value.HashValue? then "hash" else "set"))
  {
    hide Do;
    DoRead(d, now, TYPE, [key], key, ReadOp.Type);
  }

  /** RENAME moves the entry, deadline included, over whatever the new name held; a key that is not
      there is reported. */
  lemma Rename(d: DataMap, now: nat, src: string, dst: string)
    ensures Do(d, now, "RENAME", [src, dst]) ==
            if There(d, src, now) then ((d - {src})[dst := d[src]], Status("OK")) else (d - {src}, NoSuchKeyError())
  {
    hide Do, NoSuchKeyError, ComplaintText;
    ErrorLines();
    DoVerb(d, now, RENAME, [src, dst]);
    FoundExactly(d, src, now);
  }

  // ---- deadlines ---------------------------------------------------------------------

  /** The key with another deadline, if it is there. */
  function Redated(d: DataMap, now: nat, key: string, deadline: int): DataMap
    requires 0 <= deadline < 0x1_0000_0000_0000_0000
  {
    if There(d, key, now) then d[key := Entry(d[key].value, deadline)] else d - {key}
  }

  lemma PlanExpiry(key: string, amount: string, n: int, now: nat)
    requires SpellsU64(amount, n)
    ensures 0 <= n < UINT64_SPAN
    ensures PlanFor(EXPIRE, [key, amount], now) == Write(key, WriteOp.PExpire(SecondsToMs(n)))
    ensures PlanFor(PEXPIRE, [key, amount], now) == Write(key, WriteOp.PExpire(n))
  {
    hide SecondsToMs;
    ReadsExactlyUnsigned(amount, n);
  }

  /** EXPIRE sets the deadline so many seconds from now, counted in milliseconds and 64 unsigned
      bits, and answers whether the key is there; */
  lemma Expire(d: DataMap, now: nat, key: string, amount: string, n: int)
    requires SpellsU64(amount, n)
    ensures 0 <= n
    ensures Do(d, now, "EXPIRE", [key, amount]) ==
            (Redated(d, now, key, (now + 1000 * n) % 0x1_0000_0000_0000_0000),
             Data(Integer(if There(d, key, now) then 1 else 0)))
  {
    hide Do, PlanFor, Deadline, SecondsToMs;
    PlanExpiry(key, amount, n, now);
    SecondsAdd(now, n);
    DoWrite(d, now, EXPIRE, [key, amount], key, WriteOp.PExpire(SecondsToMs(n)));
  }

  /** PEXPIRE so many milliseconds. */
  lemma Pexpire(d: DataMap, now: nat, key: string, amount: string, n: int)
    requires SpellsU64(amount, n)
    ensures 0 <= n
    ensures Do(d, now, "PEXPIRE", [key, amount]) ==
            (Redated(d, now, key, (now + n) % 0x1_0000_0000_0000_0000),
             Data(Integer(if There(d, key, now) then 1 else 0)))
  {
    hide Do, PlanFor, Deadline, SecondsToMs;
    PlanExpiry(key, amount, n, now);
    SecondsAdd(now, n);
    DoWrite(d, now, PEXPIRE, [key, amount], key, WriteOp.PExpire(n));
  }

  /** Both refuse an amount that is no number of 64 unsigned bits. */
  lemma ExpiryIsChecked(d: DataMap, now: nat, key: string, amount: string)
    requires !IsU64Text(amount)
    ensures Do(d, now, "EXPIRE", [key, amount]) == Do(d, now, "PEXPIRE", [key, amount]) == (d, IntegerError())
  {
    hide Do, IsU64Text, ErrorText, ComplaintText, IntegerError;
    ErrorLines();
    RefusesTheUnsignedRest(amount);
    DoVerb(d, now, EXPIRE, [key, amount]);
    DoVerb(d, now, PEXPIRE, [key, amount]);
  }

  /** PERSIST takes the deadline away and answers whether there was one. */
  lemma Persist(d: DataMap, now: nat, key: string)
    ensures Do(d, now, "PERSIST", [key]) ==
            (Redated(d, now, key, 0), Data(Integer(if There(d, key, now) && d[key].expiresAt != 0 then 1 else 0)))
  {
    hide Do;
    DoWrite(d, now, PERSIST, [key], key, WriteOp.Persist);
    if There(d, key, now) && d[key].expiresAt == 0 {
      assert d[key] == Entry(d[key].value, 0);
    }
  }

  /** The milliseconds left, as a signed number of 64 bits; -1 without a deadline, -2 without a key. */
  function MillisecondsLeft(d: DataMap, key: string, now: nat): int {
    if !There(d, key, now) then -2
    else if d[key].expiresAt == 0 then -1
    else
      var left := d[key].expiresAt - now;
      if left <= 0x7fff_ffff_ffff_ffff then left else left - 0x1_0000_0000_0000_0000
  }

  /** PTTL answers these, */
  lemma Pttl(d: DataMap, now: nat, key: string)
    ensures Do(d, now, "PTTL", [key]) == (d, Data(Integer(MillisecondsLeft(d, key, now))))
  {
    hide Do;
    DoRead(d, now, PTTL, [key], key, ReadOp.Pttl);
  }

  /** TTL the seconds, rounded up. */
  lemma Ttl(d: DataMap, now: nat, key: string)
    ensures exists seconds ::
              && Do(d, now, "TTL", [key]) == (d, Data(Integer(seconds)))
              && var left := MillisecondsLeft(d, key, now);
                 if left <= 0 then seconds == left else 1000 * (seconds - 1) < left <= 1000 * seconds
  {
    hide Do;
    DoRead(d, now, TTL, [key], key, ReadOp.Ttl);
    var left := MillisecondsLeft(d, key, now);
    assert PttlOf(SeenAt(d, key, now), now) == left;
  }
}
