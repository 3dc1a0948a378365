/** The hash commands, from their names to their replies. */
module HashCommands {
  import opened Wrappers
  import opened Lex
  import opened Resp
  import opened Values
  import opened Keyspace
  import opened Command
  import opened Requests
  import opened Locality
  import opened Runs
  import opened Laws
  import opened Answers

  predicate HashThere(d: DataMap, key: string, now: nat) {
    There(d, key, now) && d[key].value.HashValue?
  }

  predicate OtherThanHash(d: DataMap, key: string, now: nat) {
    There(d, key, now) && !d[key].value.HashValue?
  }

  /** The fields, none if the key is not there. */
  function HashAt(d: DataMap, key: string, now: nat): map<string, string> {
    if HashThere(d, key, now) then d[key].value.fields else map[]
  }

  // ---- pairs -------------------------------------------------------------------------

  /** The fields after the pairs have been given: the old names and the new ones, each new one with
      the last value it was given, the others with the value they had. */
  ghost predicate Given(before: map<string, string>, flat: seq<string>, after: map<string, string>) {
    && after.Keys == before.Keys + NamesIn(flat)
    && (forall i: nat | i < |flat| / 2 && LastOfItsName(flat, i) :: after[flat[2 * i]] == flat[2 * i + 1])
    && forall f | f in before && f !in NamesIn(flat) :: after[f] == before[f]
  }

  lemma AssignedIsGiven(before: map<string, string>, flat: seq<string>)
    ensures Given(before, flat, Assigned(before, PairsFrom(flat, 0)))
  {
    var pairs := PairsFrom(flat, 0);
    var after := Assigned(before, pairs);
    PairsAreFlat(flat);
    AssignedKeys(before, pairs);
    forall i: nat | i < |flat| / 2 && LastOfItsName(flat, i) ensures after[flat[2 * i]] == flat[2 * i + 1] {
      forall j | i < j < |pairs| ensures pairs[j].0 != pairs[i].0 {
        assert flat[2 * j] != flat[2 * i];
      }
      AssignedLast(before, pairs, i);
    }
    forall f | f in before && f !in NamesIn(flat) ensures after[f] == before[f] {
      AssignedOther(before, pairs, f);
    }
  }

  lemma PlanHset(key: string, flat: seq<string>, now: nat)
    requires |flat| >= 2 && |flat| % 2 == 0
    ensures PlanFor(HSET, [key] + flat, now) == Write(key, WriteOp.HSet(PairsFrom(flat, 0)))
  {
    var args := [key] + flat;
    assert |args| % 2 == 1;
    assert PairsFrom(args, 1) == PairsFrom(flat, 0);
  }

  // ---- writing -----------------------------------------------------------------------

  /** HSET gives the fields their values, keeps the deadline, and answers how many fields are new. */
  lemma Hset(d: DataMap, now: nat, key: string, flat: seq<string>)
    requires |flat| >= 2 && |flat| % 2 == 0 && !OtherThanHash(d, key, now)
    ensures exists fields ::
              && Given(HashAt(d, key, now), flat, fields)
              && Do(d, now, "HSET", [key] + flat) ==
                 (d[key := Entry(HashValue(fields), DeadlineAt(d, key, now))],
                  Data(Integer(|NamesIn(flat) - HashAt(d, key, now).Keys|)))
  {
    hide Do, Given, Assigned, PairsFrom, NamesIn, HashAt, OtherThanHash;
    HsetAssigns(d, now, key, flat);
    AssignedIsGiven(HashAt(d, key, now), flat);
  }

  lemma NameHset()
    ensures NameOf(HSET) == "HSET"
  {
  }

  lemma HashSeen(d: DataMap, key: string, now: nat)
    requires !OtherThanHash(d, key, now)
    ensures var e := SeenAt(d, key, now);
            && (e.Some? ==> e.value.value.HashValue?)
            && FieldsOf(e) == HashAt(d, key, now) && DeadlineOf(e) == DeadlineAt(d, key, now)
  {
  }

  lemma HsetAssigns(d: DataMap, now: nat, key: string, flat: seq<string>)
    requires |flat| >= 2 && |flat| % 2 == 0 && !OtherThanHash(d, key, now)
    ensures Do(d, now, "HSET", [key] + flat) ==
            (d[key := Entry(HashValue(Assigned(HashAt(d, key, now), PairsFrom(flat, 0))), DeadlineAt(d, key, now))],
             Data(Integer(|NamesIn(flat) - HashAt(d, key, now).Keys|)))
  {
    hide Do, PlanFor, HSetOn, Assigned, PairsFrom, Names, NamesIn, HashAt, DeadlineAt, There, SeenAt, NameOf;
    NameHset();
    var pairs := PairsFrom(flat, 0);
    HashSeen(d, key, now);
    PlanHset(key, flat, now);
    DoWrite(d, now, HSET, [key] + flat, key, WriteOp.HSet(pairs));
    AddsFields(SeenAt(d, key, now), pairs);
    assert Names(pairs) == NamesIn(flat) by { PairsAreFlat(flat); }
  }

  function FieldsOf(e: Option<Entry>): map<string, string>
    requires e.Some? ==> e.value.value.HashValue?
  {
    if e.Some? then e.value.value.fields else map[]
  }

  lemma AddsFields(e: Option<Entry>, pairs: seq<Pair>)
    requires e.Some? ==> e.value.value.HashValue?
    ensures HSetOn(e, pairs) ==
            Change(Some(Entry(HashValue(Assigned(FieldsOf(e), pairs)), DeadlineOf(e))), |Names(pairs) - FieldsOf(e).Keys|)
  {
    FieldCountsAreExact(e, pairs, []);
  }

  /** HDEL removes the fields, erases a hash that becomes empty, and answers how many were there. */
  lemma Hdel(d: DataMap, now: nat, key: string, names: seq<string>)
    requires names != [] && HashThere(d, key, now)
    ensures var given, fields := (set x | x in names), HashAt(d, key, now);
            Do(d, now, "HDEL", [key] + names) ==
            (if fields.Keys <= given then d - {key} else d[key := Entry(HashValue(fields - given), d[key].expiresAt)],
             Data(Integer(|fields.Keys * given|)))
  {
    hide Do, HDelOn, Elements;
    assert ([key] + names)[1..] == names;
    ElementsAreGiven(names);
    DoWrite(d, now, HDEL, [key] + names, key, WriteOp.HDel(names));
    RemovesFields(d[key], names);
  }

  lemma RemovesFields(e: Entry, names: seq<string>)
    requires e.value.HashValue?
    ensures HDelOn(Some(e), names) ==
            Change(if e.value.fields.Keys <= Elements(names) then None
                   else Some(Entry(HashValue(e.value.fields - Elements(names)), e.expiresAt)),
                   |e.value.fields.Keys * Elements(names)|)
  {
    FieldCountsAreExact(Some(e), [], names);
    var rest := e.value.fields - Elements(names);
    if e.value.fields.Keys <= Elements(names) {
      assert rest == map[];
    } else {
      var x :| x in e.value.fields && x !in Elements(names);
      assert x in rest;
    }
  }

  lemma HdelNothing(d: DataMap, now: nat, key: string, names: seq<string>)
    requires names != [] && !There(d, key, now)
    ensures Do(d, now, "HDEL", [key] + names) == (d - {key}, Data(Integer(0)))
  {
    hide Do;
    assert ([key] + names)[1..] == names;
    DoWrite(d, now, HDEL, [key] + names, key, WriteOp.HDel(names));
  }

  /** Both refuse a value of another type and leave it. */
  lemma HsetRefusesOthers(d: DataMap, now: nat, key: string, flat: seq<string>)
    requires |flat| >= 2 && |flat| % 2 == 0 && OtherThanHash(d, key, now)
    ensures Do(d, now, "HSET", [key] + flat) == (d, WrongTypeError())
  {
    hide Do, PlanFor, ErrorText, ComplaintText, WrongTypeError;
    ErrorLines();
    assert d[key := d[key]] == d;
    PlanHset(key, flat, now);
    DoWrite(d, now, HSET, [key] + flat, key, WriteOp.HSet(PairsFrom(flat, 0)));
  }

  lemma HdelRefusesOthers(d: DataMap, now: nat, key: string, names: seq<string>)
    requires OtherThanHash(d, key, now) && names != []
    ensures Do(d, now, "HDEL", [key] + names) == (d, WrongTypeError())
  {
    hide Do, ErrorText, ComplaintText, WrongTypeError;
    ErrorLines();
    assert d[key := d[key]] == d;
    assert ([key] + names)[1..] == names;
    DoWrite(d, now, HDEL, [key] + names, key, WriteOp.HDel(names));
  }

  // ---- reading -----------------------------------------------------------------------

  /** HGET answers the value of a field, null if there is no such field; */
  lemma Hget(d: DataMap, now: nat, key: string, name: string)
    ensures var fields := HashAt(d, key, now);
            Do(d, now, "HGET", [key, name]) ==
            (d, if OtherThanHash(d, key, now) then WrongTypeError()
                else if name in fields then Data(Bulk(fields[name])) else Data(Null))
  {
    hide Do, ErrorText, ComplaintText, WrongTypeError;
    ErrorLines();
    DoRead(d, now, HGET, [key, name], key, ReadOp.HGet(name));
  }

  /** HEXISTS whether there is; */
  lemma Hexists(d: DataMap, now: nat, key: string, name: string)
    ensures Do(d, now, "HEXISTS", [key, name]) ==
            (d, if OtherThanHash(d, key, now) then WrongTypeError()
                else Data(Integer(if name in HashAt(d, key, now) then 1 else 0)))
  {
    hide Do, ErrorText, ComplaintText, WrongTypeError;
    ErrorLines();
    DoRead(d, now, HEXISTS, [key, name], key, ReadOp.HExists(name));
  }

  /** HLEN how many there are. */
  lemma Hlen(d: DataMap, now: nat, key: string)
    ensures Do(d, now, "HLEN", [key]) ==
            (d, if OtherThanHash(d, key, now) then WrongTypeError() else Data(Integer(|HashAt(d, key, now)|)))
  {
    hide Do, ErrorText, ComplaintText, WrongTypeError;
    ErrorLines();
    DoRead(d, now, HLEN, [key], key, ReadOp.HLen);
  }

  /** HKEYS lists the fields in byte order, */
  lemma Hkeys(d: DataMap, now: nat, key: string)
    ensures var (after, reply) := Do(d, now, "HKEYS", [key]);
            && after == d
            && (OtherThanHash(d, key, now) ==> reply == WrongTypeError())
            && (!OtherThanHash(d, key, now) ==> ListsInOrder(reply, HashAt(d, key, now).Keys))
  {
    hide Do, ErrorText, ComplaintText, WrongTypeError, ListsInOrder, Sorted, Bulks, HashAt;
    ErrorLines();
    FieldsAt(d, key, now);
    DoRead(d, now, HKEYS, [key], key, ReadOp.HKeys);
    SortedAscends(HashAt(d, key, now).Keys);
    EmptyInOrder();
  }

  /** The fields in byte order. */
  ghost predicate InOrder(names: seq<string>, fields: map<string, string>) {
    Ascending(names) && |names| == |fields| && forall x :: x in names <==> x in fields
  }

  /** HVALS their values in that order, */
  ghost predicate ListsValues(r: Reply, fields: map<string, string>) {
    exists names, texts ::
      && InOrder(names, fields) && Lists(r, texts)
      && |texts| == |names| && forall i | 0 <= i < |names| :: texts[i] == fields[names[i]]
  }

  /** HGETALL each field followed by its value. */
  ghost predicate ListsFields(r: Reply, fields: map<string, string>) {
    exists names, texts ::
      && InOrder(names, fields) && Lists(r, texts)
      && |texts| == 2 * |names| && forall i | 0 <= i < |names| :: texts[2 * i] == names[i] && texts[2 * i + 1] == fields[names[i]]
  }

  lemma SortedInOrder(fields: map<string, string>)
    ensures InOrder(Sorted(fields.Keys), fields)
  {
    SortedAscends(fields.Keys);
    assert |fields.Keys| == |fields|;
  }

  lemma ValuesInOrder(fields: map<string, string>)
    ensures ListsValues(Data(Array(Bulks(ValuesAt(fields, Sorted(fields.Keys))))), fields)
  {
    hide InOrder, Bulks, Lists;
    var names := Sorted(fields.Keys);
    SortedInOrder(fields);
    BulksList(ValuesAt(fields, names));
  }

  lemma FieldsInOrder(fields: map<string, string>)
    ensures ListsFields(Data(Array(Bulks(FlatPairs(fields, Sorted(fields.Keys))))), fields)
  {
    hide InOrder, Bulks, Lists;
    var names := Sorted(fields.Keys);
    SortedInOrder(fields);
    BulksList(FlatPairs(fields, names));
  }

  lemma NothingInOrder()
    ensures ListsValues(Data(Array([])), map[]) && ListsFields(Data(Array([])), map[])
  {
    assert InOrder([], map[]) && Lists(Data(Array([])), []);
  }

  lemma FieldsAt(d: DataMap, key: string, now: nat)
    ensures !There(d, key, now) ==> HashAt(d, key, now) == map[]
    ensures HashThere(d, key, now) ==> HashAt(d, key, now) == d[key].value.fields
  {
  }

  lemma Hvals(d: DataMap, now: nat, key: string)
    ensures var (after, reply) := Do(d, now, "HVALS", [key]);
            && after == d
            && (OtherThanHash(d, key, now) ==> reply == WrongTypeError())
            && (!OtherThanHash(d, key, now) ==> ListsValues(reply, HashAt(d, key, now)))
  {
    hide Do, ErrorText, ComplaintText, WrongTypeError, ListsValues, ListsFields, ValuesAt, FlatPairs, Bulks, Sorted, HashAt;
    ErrorLines();
    DoRead(d, now, HVALS, [key], key, ReadOp.HVals);
    FieldsAt(d, key, now);
    ValuesInOrder(HashAt(d, key, now));
    NothingInOrder();
  }

  lemma Hgetall(d: DataMap, now: nat, key: string)
    ensures var (after, reply) := Do(d, now, "HGETALL", [key]);
            && after == d
            && (OtherThanHash(d, key, now) ==> reply == WrongTypeError())
            && (!OtherThanHash(d, key, now) ==> ListsFields(reply, HashAt(d, key, now)))
  {
    hide Do, ErrorText, ComplaintText, WrongTypeError, ListsValues, ListsFields, ValuesAt, FlatPairs, Bulks, Sorted, HashAt;
    ErrorLines();
    DoRead(d, now, HGETALL, [key], key, ReadOp.HGetAll);
    FieldsAt(d, key, now);
    FieldsInOrder(HashAt(d, key, now));
    NothingInOrder();
  }
}
