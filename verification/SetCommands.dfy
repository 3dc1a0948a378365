/** The set commands, from their names to their replies. */
module SetCommands {
  import opened Wrappers
  import opened Lex
  import opened Resp
  import opened Values
  import opened Keyspace
  import opened Command
  import opened Runs
  import opened Answers

  predicate SetThere(d: DataMap, key: string, now: nat) {
    There(d, key, now) && d[key].value.SetValue?
  }

  predicate OtherThanSet(d: DataMap, key: string, now: nat) {
    There(d, key, now) && !d[key].value.SetValue?
  }

  /** The members, none if the key is not there. */
  function SetAt(d: DataMap, key: string, now: nat): set<string> {
    if SetThere(d, key, now) then d[key].value.members else {}
  }

  lemma AddsMembers(e: Option<Entry>, names: seq<string>)
    requires e.Some? ==> e.value.value.SetValue?
    ensures SAddOn(e, names) ==
            Change(Some(Entry(SetValue(MembersIn(e) + Elements(names)), DeadlineOf(e))), |Elements(names) - MembersIn(e)|)
  {
    Gained(MembersIn(e), Elements(names));
    assert {} + Elements(names) == Elements(names);
  }

  lemma RemovesMembers(e: Entry, names: seq<string>)
    requires e.value.SetValue?
    ensures SRemOn(Some(e), names) ==
            Change(if e.value.members <= Elements(names) then None
                   else Some(Entry(SetValue(e.value.members - Elements(names)), e.expiresAt)),
                   |e.value.members * Elements(names)|)
  {
    Lost(e.value.members, Elements(names));
    var rest := e.value.members - Elements(names);
    if e.value.members <= Elements(names) {
      assert rest == {};
    } else {
      var x :| x in e.value.members && x !in Elements(names);
      assert x in rest;
    }
  }

  /** SADD adds the names, keeps the deadline, and answers how many of them are new. */
  lemma Sadd(d: DataMap, now: nat, key: string, names: seq<string>)
    requires names != [] && !OtherThanSet(d, key, now)
    ensures var given, members := (set x | x in names), SetAt(d, key, now);
            Do(d, now, "SADD", [key] + names) ==
            (d[key := Entry(SetValue(members + given), DeadlineAt(d, key, now))], Data(Integer(|given - members|)))
  {
    hide Do, SAddOn, Elements;
    ElementsAreGiven(names);
    assert ([key] + names)[1..] == names;
    DoWrite(d, now, SADD, [key] + names, key, WriteOp.SAdd(names));
    AddsMembers(SeenAt(d, key, now), names);
  }

  /** SREM removes them, erases a set that becomes empty, and answers how many of them were there. */
  lemma Srem(d: DataMap, now: nat, key: string, names: seq<string>)
    requires names != [] && SetThere(d, key, now)
    ensures var given, members := (set x | x in names), SetAt(d, key, now);
            Do(d, now, "SREM", [key] + names) ==
            (if members <= given then d - {key} else d[key := Entry(SetValue(members - given), d[key].expiresAt)],
             Data(Integer(|members * given|)))
  {
    hide Do, SRemOn, Elements;
    ElementsAreGiven(names);
    assert ([key] + names)[1..] == names;
    DoWrite(d, now, SREM, [key] + names, key, WriteOp.SRem(names));
    RemovesMembers(d[key], names);
  }

  lemma SremNothing(d: DataMap, now: nat, key: string, names: seq<string>)
    requires names != [] && !There(d, key, now)
    ensures Do(d, now, "SREM", [key] + names) == (d - {key}, Data(Integer(0)))
  {
    hide Do;
    assert ([key] + names)[1..] == names;
    DoWrite(d, now, SREM, [key] + names, key, WriteOp.SRem(names));
  }

  /** Both refuse a value of another type and leave it. */
  lemma SaddRefusesOthers(d: DataMap, now: nat, key: string, names: seq<string>)
    requires OtherThanSet(d, key, now) && names != []
    ensures Do(d, now, "SADD", [key] + names) == (d, WrongTypeError())
  {
    hide Do, ErrorText, ComplaintText, WrongTypeError;
    ErrorLines();
    assert d[key := d[key]] == d;
    assert ([key] + names)[1..] == names;
    DoWrite(d, now, SADD, [key] + names, key, WriteOp.SAdd(names));
  }

  lemma SremRefusesOthers(d: DataMap, now: nat, key: string, names: seq<string>)
    requires OtherThanSet(d, key, now) && names != []
    ensures Do(d, now, "SREM", [key] + names) == (d, WrongTypeError())
  {
    hide Do, ErrorText, ComplaintText, WrongTypeError;
    ErrorLines();
    assert d[key := d[key]] == d;
    assert ([key] + names)[1..] == names;
    DoWrite(d, now, SREM, [key] + names, key, WriteOp.SRem(names));
  }

  /** SCARD answers the number of members, */
  lemma Scard(d: DataMap, now: nat, key: string)
    ensures Do(d, now, "SCARD", [key]) ==
            (d, if OtherThanSet(d, key, now) then WrongTypeError() else Data(Integer(|SetAt(d, key, now)|)))
  {
    hide Do, ErrorText, ComplaintText, WrongTypeError;
    ErrorLines();
    DoRead(d, now, SCARD, [key], key, ReadOp.SCard);
  }

  /** SISMEMBER whether a name is one of them. */
  lemma Sismember(d: DataMap, now: nat, key: string, name: string)
    ensures Do(d, now, "SISMEMBER", [key, name]) ==
            (d, if OtherThanSet(d, key, now) then WrongTypeError()
                else Data(Integer(if name in SetAt(d, key, now) then 1 else 0)))
  {
    hide Do, ErrorText, ComplaintText, WrongTypeError;
    ErrorLines();
    DoRead(d, now, SISMEMBER, [key, name], key, ReadOp.SIsMember(name));
  }

  /** SMEMBERS lists the members in byte order. */
  lemma Smembers(d: DataMap, now: nat, key: string)
    ensures var (after, reply) := Do(d, now, "SMEMBERS", [key]);
            && after == d
            && (OtherThanSet(d, key, now) ==> reply == WrongTypeError())
            && (!OtherThanSet(d, key, now) ==> ListsInOrder(reply, SetAt(d, key, now)))
  {
    hide Do, ErrorText, ComplaintText, WrongTypeError, ListsInOrder, Sorted, Bulks;
    ErrorLines();
    DoRead(d, now, SMEMBERS, [key], key, ReadOp.SMembers);
    SortedAscends(SetAt(d, key, now));
    EmptyInOrder();
  }

  // ---- several keys ------------------------------------------------------------------

  predicate AnyOther(d: DataMap, keys: seq<string>, now: nat) {
    exists k | k in keys :: OtherThanSet(d, k, now)
  }

  lemma MembersAgree(d: DataMap, now: nat, keys: seq<string>)
    ensures forall k :: MemberOf(Live(d, now), k) == SetAt(d, k, now) && (NotASet(Live(d, now), k) <==> OtherThanSet(d, k, now))
  {
    forall k ensures MemberOf(Live(d, now), k) == SetAt(d, k, now) && (NotASet(Live(d, now), k) <==> OtherThanSet(d, k, now)) {
      FoundExactly(d, k, now);
    }
  }

  lemma UnionAgrees(d: DataMap, now: nat, keys: seq<string>)
    ensures UnionOf(Live(d, now), keys) == set k, x | k in keys && x in SetAt(d, k, now) :: x
  {
    MembersAgree(d, now, keys);
  }

  lemma InterAgrees(d: DataMap, now: nat, keys: seq<string>)
    requires keys != []
    ensures InterOf(Live(d, now), keys) ==
            set x | x in SetAt(d, keys[0], now) && forall k | k in keys :: x in SetAt(d, k, now)
  {
    MembersAgree(d, now, keys);
  }

  lemma AlgebraPlans(keys: seq<string>, now: nat)
    requires keys != []
    ensures PlanFor(SUNION, keys, now) == Union(keys) && PlanFor(SINTER, keys, now) == Inter(keys)
  {
  }

  /** SUNION lists in byte order what is a member of any of the sets, */
  lemma Sunion(d: DataMap, now: nat, keys: seq<string>)
    requires keys != []
    ensures var (after, reply) := Do(d, now, "SUNION", keys);
            && after == d
            && (AnyOther(d, keys, now) ==> reply == WrongTypeError())
            && (!AnyOther(d, keys, now) ==> ListsInOrder(reply, set k, x | k in keys && x in SetAt(d, k, now) :: x))
  {
    hide Do, PlanFor, ErrorText, ComplaintText, WrongTypeError, ListsInOrder, UnionOf, InterOf, SetAt;
    ErrorLines();
    AlgebraPlans(keys, now);
    DoVerb(d, now, SUNION, keys);
    MembersAgree(d, now, keys);
    UnionAgrees(d, now, keys);
    SortedAscends(UnionOf(Live(d, now), keys));
  }

  /** SINTER what is a member of each; both refuse if one of the keys holds another type. */
  lemma Sinter(d: DataMap, now: nat, keys: seq<string>)
    requires keys != []
    ensures var (after, reply) := Do(d, now, "SINTER", keys);
            && after == d
            && (AnyOther(d, keys, now) ==> reply == WrongTypeError())
            && (!AnyOther(d, keys, now) ==>
                  ListsInOrder(reply, set x | x in SetAt(d, keys[0], now) && forall k | k in keys :: x in SetAt(d, k, now)))
  {
    hide Do, PlanFor, ErrorText, ComplaintText, WrongTypeError, ListsInOrder, UnionOf, InterOf, SetAt;
    ErrorLines();
    AlgebraPlans(keys, now);
    DoVerb(d, now, SINTER, keys);
    MembersAgree(d, now, keys);
    InterAgrees(d, now, keys);
    SortedAscends(InterOf(Live(d, now), keys));
  }
}
