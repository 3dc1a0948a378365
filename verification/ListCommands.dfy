/** The list commands, from their names to their replies. */
module ListCommands {
  import opened Numerals
  import opened Resp
  import opened Values
  import opened Keyspace
  import opened Command
  import opened Answers

  predicate ListThere(d: DataMap, key: string, now: nat) {
    There(d, key, now) && d[key].value.ListValue?
  }

  predicate OtherThanList(d: DataMap, key: string, now: nat) {
    There(d, key, now) && !d[key].value.ListValue?
  }

  /** The list, empty if the key is not there. */
  function ListAt(d: DataMap, key: string, now: nat): seq<string> {
    if ListThere(d, key, now) then d[key].value.items else []
  }

  /** `back` is `front` from its end. */
  predicate Backwards(front: seq<string>, back: seq<string>) {
    |back| == |front| && forall i | 0 <= i < |front| :: back[i] == front[|front| - 1 - i]
  }

  lemma {:induction false} ReverseIsBackwards(s: seq<string>)
    ensures Backwards(s, Reverse(s))
  {
    if s != [] {
      ReverseIsBackwards(s[..|s| - 1]);
    }
  }

  /** RPUSH puts the values behind the list in their order, keeps the deadline, and answers the new
      length. */
  lemma Rpush(d: DataMap, now: nat, key: string, values: seq<string>)
    requires values != [] && !OtherThanList(d, key, now)
    ensures var items := ListAt(d, key, now) + values;
            Do(d, now, "RPUSH", [key] + values) ==
            (d[key := Entry(ListValue(items), DeadlineAt(d, key, now))], Data(Integer(|items|)))
  {
    hide Do;
    DoWrite(d, now, RPUSH, [key] + values, key, WriteOp.RPush(([key] + values)[1..]));
    assert ([key] + values)[1..] == values;
    assert [] + values == values;
  }

  /** LPUSH puts them in front, the last one first. */
  lemma Lpush(d: DataMap, now: nat, key: string, values: seq<string>)
    requires values != [] && !OtherThanList(d, key, now)
    ensures exists front ::
              && Backwards(values, front)
              && var items := front + ListAt(d, key, now);
                 Do(d, now, "LPUSH", [key] + values) ==
                 (d[key := Entry(ListValue(items), DeadlineAt(d, key, now))], Data(Integer(|items|)))
  {
    hide Do;
    DoWrite(d, now, LPUSH, [key] + values, key, WriteOp.LPush(([key] + values)[1..]));
    ReverseIsBackwards(values);
    assert ([key] + values)[1..] == values;
    assert Reverse(values) + [] == Reverse(values);
  }

  /** The list without an element; a list that becomes empty is erased. */
  function Shortened(d: DataMap, key: string, items: seq<string>): DataMap
    requires key in d
  {
    if items == [] then d - {key} else d[key := Entry(ListValue(items), d[key].expiresAt)]
  }

  /** LPOP answers the first element and leaves the others, */
  lemma Lpop(d: DataMap, now: nat, key: string, x: string, rest: seq<string>)
    requires ListThere(d, key, now) && d[key].value.items == [x] + rest
    ensures Do(d, now, "LPOP", [key]) == (Shortened(d, key, rest), Data(Bulk(x)))
  {
    hide Do;
    DoWrite(d, now, LPOP, [key], key, WriteOp.LPop);
    assert ([x] + rest)[1..] == rest;
  }

  /** RPOP the last one. */
  lemma Rpop(d: DataMap, now: nat, key: string, x: string, rest: seq<string>)
    requires ListThere(d, key, now) && d[key].value.items == rest + [x]
    ensures Do(d, now, "RPOP", [key]) == (Shortened(d, key, rest), Data(Bulk(x)))
  {
    hide Do;
    DoWrite(d, now, RPOP, [key], key, WriteOp.RPop);
    assert (rest + [x])[..|rest|] == rest;
  }

  /** On a key that is not there, or holds an empty list, both answer null and leave nothing. */
  lemma PopNothing(d: DataMap, now: nat, key: string)
    requires !OtherThanList(d, key, now) && ListAt(d, key, now) == []
    ensures Do(d, now, "LPOP", [key]) == Do(d, now, "RPOP", [key]) == (d - {key}, Data(Null))
  {
    hide Do;
    DoWrite(d, now, LPOP, [key], key, WriteOp.LPop);
    DoWrite(d, now, RPOP, [key], key, WriteOp.RPop);
  }

  /** The four refuse a value of another type and leave it. */
  lemma PushesRefuseOthers(d: DataMap, now: nat, key: string, values: seq<string>)
    requires OtherThanList(d, key, now) && values != []
    ensures Do(d, now, "LPUSH", [key] + values) == Do(d, now, "RPUSH", [key] + values) == (d, WrongTypeError())
  {
    hide Do, ErrorText, ComplaintText, WrongTypeError, IntegerError;
    ErrorLines();
    assert d[key := d[key]] == d;
    DoWrite(d, now, LPUSH, [key] + values, key, WriteOp.LPush(([key] + values)[1..]));
    DoWrite(d, now, RPUSH, [key] + values, key, WriteOp.RPush(([key] + values)[1..]));
  }

  lemma PopsRefuseOthers(d: DataMap, now: nat, key: string)
    requires OtherThanList(d, key, now)
    ensures Do(d, now, "LPOP", [key]) == Do(d, now, "RPOP", [key]) == (d, WrongTypeError())
  {
    hide Do, ErrorText, ComplaintText, WrongTypeError, IntegerError;
    ErrorLines();
    assert d[key := d[key]] == d;
    DoWrite(d, now, LPOP, [key], key, WriteOp.LPop);
    DoWrite(d, now, RPOP, [key], key, WriteOp.RPop);
  }

  /** LLEN answers the length, 0 if the key is not there. */
  lemma Llen(d: DataMap, now: nat, key: string)
    ensures Do(d, now, "LLEN", [key]) ==
            (d, if OtherThanList(d, key, now) then WrongTypeError() else Data(Integer(|ListAt(d, key, now)|)))
  {
    hide Do, ErrorText, ComplaintText, WrongTypeError, IntegerError;
    ErrorLines();
    DoRead(d, now, LLEN, [key], key, ReadOp.LLen);
  }

  /** LINDEX answers the element with this number, from 0 at the front, or from -1 at the back; null
      if there is none. */
  lemma Lindex(d: DataMap, now: nat, key: string, number: string, i: int)
    requires Spells64(number, i)
    ensures var items := ListAt(d, key, now);
            Do(d, now, "LINDEX", [key, number]) ==
            (d, if OtherThanList(d, key, now) then WrongTypeError()
                else if 0 <= i < |items| then Data(Bulk(items[i]))
                else if -|items| <= i < 0 then Data(Bulk(items[|items| + i]))
                else Data(Null))
  {
    hide Do, PlanFor, ErrorText, ComplaintText, WrongTypeError, IntegerError;
    ErrorLines();
    PlanLindex(key, number, i, now);
    DoRead(d, now, LINDEX, [key, number], key, ReadOp.LIndex(i));
  }

  lemma PlanLindex(key: string, number: string, i: int, now: nat)
    requires Spells64(number, i)
    ensures PlanFor(LINDEX, [key, number], now) == Read(key, ReadOp.LIndex(i))
  {
    ReadsExactlyNumerals(number, i);
  }

  /** A position counted from the front, or with a negative number from the back. */
  function Position(i: int, size: nat): int {
    if i < 0 then size + i else i
  }

  predicate Between(x: int, i: int, j: int, size: nat) {
    Position(i, size) <= x <= Position(j, size)
  }

  /** Just the elements from one position to another, both included, as far as there are any. */
  ghost predicate IsRange(items: seq<string>, i: int, j: int, part: seq<string>) {
    exists k, m | 0 <= k <= m <= |items| ::
      part == items[k..m] && forall x | 0 <= x < |items| :: Between(x, i, j, |items|) <==> k <= x < m
  }

  /** LRANGE answers the range between two numbers, nothing if the key is not there. */
  lemma Lrange(d: DataMap, now: nat, key: string, from: string, to: string, i: int, j: int)
    requires Spells64(from, i) && Spells64(to, j)
    ensures var (after, reply) := Do(d, now, "LRANGE", [key, from, to]);
            && after == d
            && (OtherThanList(d, key, now) ==> reply == WrongTypeError())
            && (!OtherThanList(d, key, now) ==> exists part :: Lists(reply, part) && IsRange(ListAt(d, key, now), i, j, part))
  {
    hide Do, PlanFor, ErrorText, ComplaintText, WrongTypeError, IntegerError;
    ErrorLines();
    PlanLrange(key, from, to, i, j, now);
    DoRead(d, now, LRANGE, [key, from, to], key, ReadOp.LRange(i, j));
    var part := Slice(ListAt(d, key, now), i, j);
    SliceIsRange(ListAt(d, key, now), i, j);
    BulksList(part);
  }

  lemma PlanLrange(key: string, from: string, to: string, i: int, j: int, now: nat)
    requires Spells64(from, i) && Spells64(to, j)
    ensures PlanFor(LRANGE, [key, from, to], now) == Read(key, ReadOp.LRange(i, j))
  {
    ReadsExactlyNumerals(from, i);
    ReadsExactlyNumerals(to, j);
  }

  lemma SliceIsRange(items: seq<string>, i: int, j: int)
    ensures IsRange(items, i, j, Slice(items, i, j))
  {
    var lo, hi := SliceFrom(i, |items|), SliceTo(j, |items|);
    if lo < hi {
      assert Slice(items, i, j) == items[lo..hi];
    } else {
      assert Slice(items, i, j) == items[0..0];
    }
  }

  /** LINDEX and LRANGE with a text that is no number answer an error. */
  lemma NumbersAreChecked(d: DataMap, now: nat, key: string, a: string, b: string)
    ensures !IsInt64Text(a) ==> Do(d, now, "LINDEX", [key, a]) == (d, IntegerError())
    ensures !IsInt64Text(a) || !IsInt64Text(b) ==> Do(d, now, "LRANGE", [key, a, b]) == (d, IntegerError())
  {
    hide Do, ErrorText, ComplaintText, WrongTypeError, IntegerError;
    ErrorLines();
    RefusesTheRest(a);
    RefusesTheRest(b);
    DoVerb(d, now, LINDEX, [key, a]);
    DoVerb(d, now, LRANGE, [key, a, b]);
  }
}
