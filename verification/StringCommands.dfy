/** The commands on texts, numbers included, from their names to their replies. */
module StringCommands {
  import opened Wrappers
  import opened Int64
  import opened Numerals
  import opened Resp
  import opened Values
  import opened Keyspace
  import opened Command
  import opened SetOptions
  import opened Locality
  import opened Laws
  import opened Answers

  predicate TextThere(d: DataMap, key: string, now: nat) {
    There(d, key, now) && d[key].value.StringValue?
  }

  predicate OtherThanText(d: DataMap, key: string, now: nat) {
    There(d, key, now) && !d[key].value.StringValue?
  }

  /** The text, empty if the key is not there. */
  function TextAt(d: DataMap, key: string, now: nat): string {
    if TextThere(d, key, now) then d[key].value.data else ""
  }

  // ---- texts -------------------------------------------------------------------------

  /** GET answers the text, null if the key is not there. */
  lemma Get(d: DataMap, now: nat, key: string)
    ensures Do(d, now, "GET", [key]) ==
            (d, if OtherThanText(d, key, now) then WrongTypeError()
                else if There(d, key, now) then Data(Bulk(TextAt(d, key, now))) else Data(Null))
  {
    hide Do, ErrorText, ComplaintText, WrongTypeError;
    ErrorLines();
    DoRead(d, now, GET, [key], key, ReadOp.Get);
  }

  /** STRLEN its length. */
  lemma Strlen(d: DataMap, now: nat, key: string)
    ensures Do(d, now, "STRLEN", [key]) ==
            (d, if OtherThanText(d, key, now) then WrongTypeError() else Data(Integer(|TextAt(d, key, now)|)))
  {
    hide Do, ErrorText, ComplaintText, WrongTypeError;
    ErrorLines();
    DoRead(d, now, STRLEN, [key], key, ReadOp.Strlen);
  }

  /** APPEND lengthens the text at its end, keeps the deadline, and answers the new length. */
  lemma Append(d: DataMap, now: nat, key: string, suffix: string)
    requires !OtherThanText(d, key, now)
    ensures var text := TextAt(d, key, now) + suffix;
            Do(d, now, "APPEND", [key, suffix]) ==
            (d[key := Entry(StringValue(text), DeadlineAt(d, key, now))], Data(Integer(|text|)))
  {
    hide Do;
    DoWrite(d, now, APPEND, [key, suffix], key, WriteOp.Append(suffix));
    assert "" + suffix == suffix;
  }

  /** GETSET answers what GET would, and stores the new text without a deadline. */
  lemma Getset(d: DataMap, now: nat, key: string, value: string)
    requires !OtherThanText(d, key, now)
    ensures Do(d, now, "GETSET", [key, value]) ==
            (d[key := Entry(StringValue(value), 0)],
             if There(d, key, now) then Data(Bulk(TextAt(d, key, now))) else Data(Null))
  {
    hide Do;
    DoWrite(d, now, GETSET, [key, value], key, WriteOp.GetSet(value));
  }

  /** Both refuse a value of another type and leave it. */
  lemma AppendRefusesOthers(d: DataMap, now: nat, key: string, text: string)
    requires OtherThanText(d, key, now)
    ensures Do(d, now, "APPEND", [key, text]) == (d, WrongTypeError())
  {
    hide Do, ErrorText, ComplaintText, WrongTypeError;
    ErrorLines();
    assert d[key := d[key]] == d;
    DoWrite(d, now, APPEND, [key, text], key, WriteOp.Append(text));
  }

  lemma GetsetRefusesOthers(d: DataMap, now: nat, key: string, text: string)
    requires OtherThanText(d, key, now)
    ensures Do(d, now, "GETSET", [key, text]) == (d, WrongTypeError())
  {
    hide Do, ErrorText, ComplaintText, WrongTypeError;
    ErrorLines();
    assert d[key := d[key]] == d;
    DoWrite(d, now, GETSET, [key, text], key, WriteOp.GetSet(text));
  }

  // ---- counters ----------------------------------------------------------------------

  /** The command adds `delta` to the number under the key. */
  predicate Bumps(name: string, args: seq<string>, key: string, delta: int) {
    || (name == "INCR" && args == [key] && delta == 1)
    || (name == "DECR" && args == [key] && delta == -1)
    || (name == "INCRBY" && |args| == 2 && args[0] == key && Spells64(args[1], delta))
    || (name == "DECRBY" && |args| == 2 && args[0] == key && Spells64(args[1], -delta))
  }

  /** The number under the key, 0 if it is not there. */
  function NumberAt(d: DataMap, key: string, now: nat): int {
    if There(d, key, now) then Denoted(TextAt(d, key, now)) else 0
  }

  predicate IsNumber(d: DataMap, key: string, now: nat) {
    There(d, key, now) ==> TextThere(d, key, now) && IsInt64Text(TextAt(d, key, now))
  }

  /** The keyspace with the number under the key: its canonical numeral, under the deadline the key
      had, and nothing else touched. */
  ghost predicate NumberStored(d: DataMap, now: nat, key: string, n: int, after: DataMap) {
    exists text :: IsCanonical(text) && Denoted(text) == n
                   && after == d[key := Entry(StringValue(text), DeadlineAt(d, key, now))]
  }

  /** An accepted counter command stores the sum and answers it; */
  lemma CounterAdds(d: DataMap, now: nat, name: string, args: seq<string>, key: string, delta: int)
    requires Bumps(name, args, key, delta) && IsNumber(d, key, now)
    requires -9223372036854775808 <= NumberAt(d, key, now) + delta <= 9223372036854775807
    ensures var n := NumberAt(d, key, now) + delta;
            var (after, reply) := Do(d, now, name, args);
            reply == Data(Integer(n)) && NumberStored(d, now, key, n, after)
  {
    hide Do, Numeral, Denoted, AddOn;
    var n := NumberAt(d, key, now) + delta;
    BumpIsAdd(d, now, name, args, key, delta);
    AddsUp(SeenAt(d, key, now), delta);
    PrintsTheCanonicalNumeral(n, ToString(n));
  }

  /** one whose sum does not fit 64 signed bits answers an error and stores nothing; */
  lemma CounterOverflows(d: DataMap, now: nat, name: string, args: seq<string>, key: string, delta: int)
    requires Bumps(name, args, key, delta) && IsNumber(d, key, now)
    requires !(-9223372036854775808 <= NumberAt(d, key, now) + delta <= 9223372036854775807)
    ensures Do(d, now, name, args) == (if There(d, key, now) then d else d - {key}, IntegerError())
  {
    hide Do, Numeral, Denoted, AddOn, ErrorText, ComplaintText, IntegerError;
    ErrorLines();
    BumpIsAdd(d, now, name, args, key, delta);
    AddsUp(SeenAt(d, key, now), delta);
    assert There(d, key, now) ==> d[key := d[key]] == d;
  }

  /** so does one on a text that is no numeral of 64 signed bits, or on another type; */
  lemma CounterRefusesTheRest(d: DataMap, now: nat, name: string, args: seq<string>, key: string, delta: int)
    requires Bumps(name, args, key, delta) && !IsNumber(d, key, now)
    ensures Do(d, now, name, args) == (d, if OtherThanText(d, key, now) then WrongTypeError() else IntegerError())
  {
    hide Do, Numeral, Denoted, AddOn, IsInt64Text, ErrorText, ComplaintText, IntegerError, WrongTypeError;
    ErrorLines();
    BumpIsAdd(d, now, name, args, key, delta);
    AddsNothing(SeenAt(d, key, now).value, delta);
    assert d[key := d[key]] == d;
  }

  /** and INCRBY or DECRBY with an amount that is none. */
  lemma AmountIsChecked(d: DataMap, now: nat, key: string, amount: string)
    requires !IsInt64Text(amount)
    ensures Do(d, now, "INCRBY", [key, amount]) == Do(d, now, "DECRBY", [key, amount]) == (d, IntegerError())
  {
    hide Do, IsInt64Text, ErrorText, ComplaintText, IntegerError;
    ErrorLines();
    RefusesTheRest(amount);
    DoVerb(d, now, INCRBY, [key, amount]);
    DoVerb(d, now, DECRBY, [key, amount]);
  }

  lemma BumpIsAdd(d: DataMap, now: nat, name: string, args: seq<string>, key: string, delta: int)
    requires Bumps(name, args, key, delta)
    ensures var c := AddOn(SeenAt(d, key, now), delta);
            Do(d, now, name, args) == (Put(d, key, c.entry), IntReply(c.result))
  {
    hide Do, Numeral, Denoted, AddOn, IntReply, PlanFor;
    if name == "INCR" {
      PlanOne(key, now);
      DoWrite(d, now, INCR, args, key, WriteOp.IncrBy(1));
    } else if name == "DECR" {
      PlanOne(key, now);
      DoWrite(d, now, DECR, args, key, WriteOp.DecrBy(1));
    } else if name == "INCRBY" {
      PlanAmount(args, key, delta, now);
      DoWrite(d, now, INCRBY, args, key, WriteOp.IncrBy(delta));
    } else {
      PlanAmount(args, key, -delta, now);
      DoWrite(d, now, DECRBY, args, key, WriteOp.DecrBy(-delta));
    }
  }

  lemma PlanOne(key: string, now: nat)
    ensures PlanFor(INCR, [key], now) == Write(key, WriteOp.IncrBy(1))
    ensures PlanFor(DECR, [key], now) == Write(key, WriteOp.DecrBy(1))
  {
  }

  lemma PlanAmount(args: seq<string>, key: string, amount: int, now: nat)
    requires |args| == 2 && args[0] == key && Spells64(args[1], amount)
    ensures PlanFor(INCRBY, args, now) == Write(key, WriteOp.IncrBy(amount))
    ensures PlanFor(DECRBY, args, now) == Write(key, WriteOp.DecrBy(amount))
  {
    ReadsExactlyNumerals(args[1], amount);
  }

  lemma AddsUp(e: Option<Entry>, delta: int)
    requires e.Some? ==> e.value.value.StringValue? && IsInt64Text(e.value.value.data)
    ensures var n := (if e.Some? then Denoted(e.value.value.data) else 0) + delta;
            AddOn(e, delta) ==
            if -9223372036854775808 <= n <= 9223372036854775807
            then Change(Some(Entry(StringValue(ToString(n)), if e.Some? then e.value.expiresAt else 0)), Ok(n))
            else Change(e, Fail(NotAnInteger))
  {
    if e.Some? {
      RefusesTheRest(e.value.value.data);
    }
  }

  lemma AddsNothing(e: Entry, delta: int)
    requires !(e.value.StringValue? && IsInt64Text(e.value.data))
    ensures AddOn(Some(e), delta) == Change(Some(e), Fail(if e.value.StringValue? then NotAnInteger else StoreError.WrongType))
  {
    if e.value.StringValue? {
      RefusesTheRest(e.value.data);
    }
  }

  // ---- several keys ------------------------------------------------------------------

  lemma PlanMset(flat: seq<string>, now: nat)
    requires |flat| >= 2 && |flat| % 2 == 0
    ensures PlanFor(MSET, flat, now) == StoreAll(PairsFrom(flat, 0))
  {
  }

  /** MSET stores every value under its key without a deadline, the last one if a key is named more
      than once, and leaves all other keys. */
  lemma Mset(d: DataMap, now: nat, flat: seq<string>)
    requires |flat| >= 2 && |flat| % 2 == 0
    ensures var (after, reply) := Do(d, now, "MSET", flat);
            && reply == Status("OK") && after.Keys == d.Keys + NamesIn(flat)
            && (forall i: nat | i < |flat| / 2 && LastOfItsName(flat, i) ::
                  after[flat[2 * i]] == Entry(StringValue(flat[2 * i + 1]), 0))
            && forall k | k in d && k !in NamesIn(flat) :: after[k] == d[k]
  {
    hide Do, PlanFor, NamesIn, LastOfItsName;
    PlanMset(flat, now);
    DoVerb(d, now, MSET, flat);
    TextsAreStored(d, flat);
  }

  lemma TextsAreStored(d: DataMap, flat: seq<string>)
    ensures var after := Assigned(d, Texts(PairsFrom(flat, 0)));
            && after.Keys == d.Keys + NamesIn(flat)
            && (forall i: nat | i < |flat| / 2 && LastOfItsName(flat, i) ::
                  after[flat[2 * i]] == Entry(StringValue(flat[2 * i + 1]), 0))
            && forall k | k in d && k !in NamesIn(flat) :: after[k] == d[k]
  {
    var texts := Texts(PairsFrom(flat, 0));
    PairsAreFlat(flat);
    AssignedKeys(d, texts);
    assert forall i | 0 <= i < |texts| :: texts[i].0 == PairsFrom(flat, 0)[i].0;
    assert Names(texts) == Names(PairsFrom(flat, 0));
    forall i: nat | i < |flat| / 2 && LastOfItsName(flat, i)
      ensures Assigned(d, texts)[flat[2 * i]] == Entry(StringValue(flat[2 * i + 1]), 0)
    {
      forall j | i < j < |texts| ensures texts[j].0 != texts[i].0 {
        assert flat[2 * j] != flat[2 * i];
      }
      AssignedLast(d, texts, i);
    }
    forall k | k in d && k !in NamesIn(flat) ensures Assigned(d, texts)[k] == d[k] {
      AssignedOther(d, texts, k);
    }
  }

  /** MGET answers, for each key in turn, its text, or null. */
  lemma Mget(d: DataMap, now: nat, keys: seq<string>)
    requires keys != []
    ensures var (after, reply) := Do(d, now, "MGET", keys);
            && after == d && reply.Data? && reply.value.Array? && |reply.value.elems| == |keys|
            && forall i | 0 <= i < |keys| ::
                 reply.value.elems[i] == if TextThere(d, keys[i], now) then Bulk(TextAt(d, keys[i], now)) else Null
  {
    hide Do;
    DoVerb(d, now, MGET, keys);
    forall i | 0 <= i < |keys|
      ensures TextsOf(Live(d, now), keys)[i] == if TextThere(d, keys[i], now) then Bulk(TextAt(d, keys[i], now)) else Null
    {
      FoundExactly(d, keys[i], now);
    }
  }

  // ---- SET ---------------------------------------------------------------------------

  /** SET with acceptable options: it is obeyed unless NX meets a key that is there or XX one that is
      not; then the key holds the text until the last deadline given. */
  lemma Set(d: DataMap, now: nat, key: string, value: string, options: seq<string>, choices: seq<Choice>)
    requires Spells(options, choices) && Acceptable(choices)
    ensures Do(d, now, "SET", [key, value] + options) ==
            if (IfAbsent in choices && There(d, key, now)) || (IfPresent in choices && !There(d, key, now))
            then (d, Data(Null))
            else (d[key := Entry(StringValue(value), LastDeadline(choices, now, 0))], Status("OK"))
  {
    hide Do, Spells, Acceptable, LastDeadline, PlanSet;
    var args := [key, value] + options;
    assert args[2..] == options;
    SetObeysItsOptions(args, now, choices);
    DoVerb(d, now, SET, args);
    FoundExactly(d, key, now);
  }

  /** SET with options that go wrong somewhere answers an error and changes nothing. */
  lemma SetIsRefused(d: DataMap, now: nat, key: string, value: string,
                     head: seq<string>, choices: seq<Choice>, rest: seq<string>)
    requires Spells(head, choices) && Acceptable(choices)
    requires BadAmount(rest) || BadWord(rest, IfAbsent in choices, IfPresent in choices)
    ensures Do(d, now, "SET", [key, value] + (head + rest)) ==
            (d, if BadAmount(rest) then IntegerError() else SyntaxFault())
  {
    hide Do, Spells, BadAmount, BadWord, ErrorText, ComplaintText, IntegerError, SyntaxFault, ReadOptions;
    ErrorLines();
    var args := [key, value] + (head + rest);
    assert args[2..] == head + rest;
    RefusedAtTheFirstFault(args, 2, now, NO_OPTIONS, head, choices, rest);
    DoVerb(d, now, SET, args);
  }

  // ---- without a key -----------------------------------------------------------------

  /** ECHO answers its argument, and so does PING if it has one. */
  lemma EchoAndPing(d: DataMap, now: nat, text: string)
    ensures Do(d, now, "ECHO", [text]) == Do(d, now, "PING", [text]) == (d, Data(Bulk(text)))
    ensures Do(d, now, "PING", []) == (d, Status("PONG"))
  {
    hide Do;
    DoVerb(d, now, ECHO, [text]);
    DoVerb(d, now, PING, [text]);
    DoVerb(d, now, PING, []);
  }
}
