/** `Store`: the keyspace held in one mutable map and changed in place, with the loops the
    program uses. Every method is proved to leave exactly the map, and to return exactly the
    result, that `Keyspace` and `Values` define. Time is the argument `now`: the instant a
    command reads from the clock. */
module Stores {
  import opened Wrappers
  import opened Int64
  import opened Lex
  import opened Glob
  import opened Resp
  import opened Values
  import opened Keyspace

  const SWEEP_LIMIT: nat := 20

  class Store {
    var data: DataMap

    constructor ()
      ensures data == map[]
    {
      data := map[];
    }

    // ---- lookup ----------------------------------------------------------------------

    /** `find_live_mut`: a dead entry is erased on the way. */
    method FindLiveMut(key: string, now: nat) returns (e: Option<Entry>)
      modifies this
      ensures e == FindLive(old(data), key, now)
      ensures data == if key in old(data) && Expired(old(data)[key], now) then old(data) - {key} else old(data)
      ensures e == Find(data, key)
    {
      if key in data && Expired(data[key], now) {
        data := data - {key};
        return None;
      }
      e := Find(data, key);
    }

    // ---- strings ---------------------------------------------------------------------

    method Set(key: string, value: string, expiresAt: uint64)
      modifies this
      ensures data == old(data)[key := Entry(StringValue(value), expiresAt)]
    {
      data := data[key := Entry(StringValue(value), expiresAt)];
    }

    method Del(keys: seq<string>, now: nat) returns (removed: int)
      modifies this
      ensures data == old(data) - Elements(keys)
      ensures removed == |Live(old(data), now).Keys * Elements(keys)|
    {
      removed := 0;
      ghost var live := Live(data, now).Keys;
      for i := 0 to |keys|
        invariant data == old(data) - Elements(keys[..i])
        invariant removed == |live * Elements(keys[..i])|
      {
        ElementsSnoc(keys, i);
        CountStep(live, Elements(keys[..i]), keys[i]);
        EraseStep(old(data), Elements(keys[..i]), keys[i]);
        var e := FindLiveMut(keys[i], now);
        if e.Some? {
          data := data - {keys[i]};
          removed := removed + 1;
        }
      }
      assert keys[..|keys|] == keys;
    }

    method Exists(keys: seq<string>, now: nat) returns (count: int)
      ensures count == CountIn(Live(data, now), keys)
    {
      count := 0;
      for i := 0 to |keys|
        invariant count == CountIn(Live(data, now), keys[..i])
      {
        assert keys[..i + 1][..i] == keys[..i];
        if FindLive(data, keys[i], now).Some? {
          count := count + 1;
        }
      }
      assert keys[..|keys|] == keys;
    }

    /** INCRBY with `delta`, DECRBY with its negation, both under the overflow check. */
    method Add(key: string, delta: int, now: nat) returns (r: Outcome<int>)
      modifies this
      ensures data == Put(old(data), key, AddOn(FindLive(old(data), key, now), delta).entry)
      ensures r == AddOn(FindLive(old(data), key, now), delta).result
    {
      var e := FindLiveMut(key, now);
      if e.None? {
        if !InInt64(delta) {
          return Fail(NotAnInteger);
        }
        data := data[key := Entry(StringValue(ToString(delta)), 0)];
        return Ok(delta);
      }
      if !e.value.value.StringValue? {
        return Fail(WrongType);
      }
      var current := ParseI64(e.value.value.data);
      if current.None? || !InInt64(current.value + delta) {
        return Fail(NotAnInteger);
      }
      var next := current.value + delta;
      data := data[key := e.value.(value := StringValue(ToString(next)))];
      return Ok(next);
    }

    method Append(key: string, suffix: string, now: nat) returns (r: Outcome<int>)
      modifies this
      ensures data == Put(old(data), key, AppendOn(FindLive(old(data), key, now), suffix).entry)
      ensures r == AppendOn(FindLive(old(data), key, now), suffix).result
    {
      var e := FindLiveMut(key, now);
      if e.None? {
        data := data[key := Entry(StringValue(suffix), 0)];
        return Ok(|suffix|);
      }
      if !e.value.value.StringValue? {
        return Fail(WrongType);
      }
      var text := e.value.value.data + suffix;
      data := data[key := e.value.(value := StringValue(text))];
      return Ok(|text|);
    }

    method GetSet(key: string, value: string, now: nat) returns (r: Outcome<string>)
      modifies this
      ensures data == Put(old(data), key, GetSetOn(FindLive(old(data), key, now), value).entry)
      ensures r == GetSetOn(FindLive(old(data), key, now), value).result
    {
      var e := FindLiveMut(key, now);
      if e.None? {
        data := data[key := Entry(StringValue(value), 0)];
        return Fail(KeyNotFound);
      }
      if !e.value.value.StringValue? {
        return Fail(WrongType);
      }
      data := data[key := Entry(StringValue(value), 0)];
      return Ok(e.value.value.data);
    }

    method MSet(pairs: seq<Pair>)
      modifies this
      ensures data == Assigned(old(data), Texts(pairs))
    {
      for i := 0 to |pairs|
        invariant data == Assigned(old(data), Texts(pairs)[..i])
      {
        assert Texts(pairs)[..i + 1][..i] == Texts(pairs)[..i];
        data := data[pairs[i].0 := Entry(StringValue(pairs[i].1), 0)];
      }
      assert Texts(pairs)[..|pairs|] == Texts(pairs);
    }

    method MGet(keys: seq<string>, now: nat) returns (values: seq<RespValue>)
      ensures values == TextsOf(Live(data, now), keys)
    {
      values := [];
      for i := 0 to |keys|
        invariant |values| == i
        invariant forall j | 0 <= j < i :: values[j] == TextOrNull(Live(data, now), keys[j])
      {
        var e := FindLive(data, keys[i], now);
        if e.None? || !e.value.value.StringValue? {
          values := values + [Null];
        } else {
          values := values + [Bulk(e.value.value.data)];
        }
      }
    }

    // ---- expiry ----------------------------------------------------------------------

    method PExpire(key: string, ms: uint64, now: nat) returns (r: bool)
      modifies this
      ensures data == Put(old(data), key, PExpireOn(FindLive(old(data), key, now), now, ms).entry)
      ensures r == PExpireOn(FindLive(old(data), key, now), now, ms).result
    {
      var e := FindLiveMut(key, now);
      if e.None? {
        return false;
      }
      data := data[key := e.value.(expiresAt := Deadline(now, ms))];
      return true;
    }

    method Persist(key: string, now: nat) returns (r: bool)
      modifies this
      ensures data == Put(old(data), key, PersistOn(FindLive(old(data), key, now)).entry)
      ensures r == PersistOn(FindLive(old(data), key, now)).result
    {
      var e := FindLiveMut(key, now);
      if e.None? || e.value.expiresAt == 0 {
        return false;
      }
      data := data[key := e.value.(expiresAt := 0)];
      return true;
    }

    // ---- lists -----------------------------------------------------------------------

    method LPush(key: string, values: seq<string>, now: nat) returns (r: int)
      modifies this
      ensures data == Put(old(data), key, LPushOn(FindLive(old(data), key, now), values).entry)
      ensures r == LPushOn(FindLive(old(data), key, now), values).result
    {
      var e := FindLiveMut(key, now);
      if e.Some? && !e.value.value.ListValue? {
        return -1;
      }
      var items := PushFront(if e.Some? then e.value.value.items else [], values);
      data := data[key := Entry(ListValue(items), if e.Some? then e.value.expiresAt else 0)];
      return |items|;
    }

    method RPush(key: string, values: seq<string>, now: nat) returns (r: int)
      modifies this
      ensures data == Put(old(data), key, RPushOn(FindLive(old(data), key, now), values).entry)
      ensures r == RPushOn(FindLive(old(data), key, now), values).result
    {
      var e := FindLiveMut(key, now);
      if e.Some? && !e.value.value.ListValue? {
        return -1;
      }
      var items := PushBack(if e.Some? then e.value.value.items else [], values);
      data := data[key := Entry(ListValue(items), if e.Some? then e.value.expiresAt else 0)];
      return |items|;
    }

    method LPop(key: string, now: nat) returns (r: Outcome<string>)
      modifies this
      ensures data == Put(old(data), key, LPopOn(FindLive(old(data), key, now)).entry)
      ensures r == LPopOn(FindLive(old(data), key, now)).result
    {
      var e := FindLiveMut(key, now);
      if e.None? {
        return Fail(KeyNotFound);
      }
      if !e.value.value.ListValue? {
        return Fail(WrongType);
      }
      var items := e.value.value.items;
      if items == [] {
        data := data - {key};
        return Fail(KeyNotFound);
      }
      data := data[key := e.value.(value := ListValue(items[1..]))];
      if items[1..] == [] {
        data := data - {key};
      }
      return Ok(items[0]);
    }

    method RPop(key: string, now: nat) returns (r: Outcome<string>)
      modifies this
      ensures data == Put(old(data), key, RPopOn(FindLive(old(data), key, now)).entry)
      ensures r == RPopOn(FindLive(old(data), key, now)).result
    {
      var e := FindLiveMut(key, now);
      if e.None? {
        return Fail(KeyNotFound);
      }
      if !e.value.value.ListValue? {
        return Fail(WrongType);
      }
      var items := e.value.value.items;
      if items == [] {
        data := data - {key};
        return Fail(KeyNotFound);
      }
      var last := |items| - 1;
      data := data[key := e.value.(value := ListValue(items[..last]))];
      if items[..last] == [] {
        data := data - {key};
      }
      return Ok(items[last]);
    }

    method LRange(key: string, start: int64, stop: int64, now: nat) returns (r: Outcome<seq<string>>)
      ensures r == LRangeOf(FindLive(data, key, now), start, stop)
    {
      var e := FindLive(data, key, now);
      if e.None? {
        return Fail(KeyNotFound);
      }
      if !e.value.value.ListValue? {
        return Fail(WrongType);
      }
      var items := e.value.value.items;
      var size := |items|;
      var first := NormalizeIndex(start, size);
      var last := NormalizeIndex(stop, size);
      if first < 0 {
        first := 0;
      }
      if last >= size {
        last := size - 1;
      }
      var out: seq<string> := [];
      if size == 0 || first > last || first >= size || last < 0 {
        return Ok(out);
      }
      for i := first to last + 1
        invariant out == items[first..i]
      {
        out := out + [items[i]];
      }
      return Ok(out);
    }

    // ---- hashes ----------------------------------------------------------------------

    method HSet(key: string, pairs: seq<Pair>, now: nat) returns (r: int)
      modifies this
      ensures data == Put(old(data), key, HSetOn(FindLive(old(data), key, now), pairs).entry)
      ensures r == HSetOn(FindLive(old(data), key, now), pairs).result
    {
      var e := FindLiveMut(key, now);
      if e.Some? && !e.value.value.HashValue? {
        return -1;
      }
      var base := if e.Some? then e.value.value.fields else map[];
      var fields;
      fields, r := InsertOrAssign(base, pairs);
      data := data[key := Entry(HashValue(fields), if e.Some? then e.value.expiresAt else 0)];
    }

    method HDel(key: string, names: seq<string>, now: nat) returns (removed: int)
      modifies this
      ensures data == Put(old(data), key, HDelOn(FindLive(old(data), key, now), names).entry)
      ensures removed == HDelOn(FindLive(old(data), key, now), names).result
    {
      var e := FindLiveMut(key, now);
      if e.None? {
        return 0;
      }
      if !e.value.value.HashValue? {
        return -1;
      }
      var fields;
      fields, removed := EraseFields(e.value.value.fields, names);
      data := data[key := e.value.(value := HashValue(fields))];
      if fields == map[] {
        data := data - {key};
      }
    }

    method HGetAll(key: string, now: nat) returns (r: Outcome<seq<string>>)
      ensures r == HGetAllOf(FindLive(data, key, now))
    {
      var e := FindLive(data, key, now);
      if e.None? {
        return Fail(KeyNotFound);
      }
      if !e.value.value.HashValue? {
        return Fail(WrongType);
      }
      var fields := e.value.value.fields;
      var out := FlattenPairs(fields, Sorted(fields.Keys));
      return Ok(out);
    }

    method HVals(key: string, now: nat) returns (r: Outcome<seq<string>>)
      ensures r == HValsOf(FindLive(data, key, now))
    {
      var e := FindLive(data, key, now);
      if e.None? {
        return Fail(KeyNotFound);
      }
      if !e.value.value.HashValue? {
        return Fail(WrongType);
      }
      var fields := e.value.value.fields;
      var out := CollectValues(fields, Sorted(fields.Keys));
      return Ok(out);
    }

    // ---- sets ------------------------------------------------------------------------

    method SAdd(key: string, names: seq<string>, now: nat) returns (added: int)
      modifies this
      ensures data == Put(old(data), key, SAddOn(FindLive(old(data), key, now), names).entry)
      ensures added == SAddOn(FindLive(old(data), key, now), names).result
    {
      var e := FindLiveMut(key, now);
      var members;
      if e.None? {
        members, added := InsertMembers({}, names);
        assert members == Elements(names);
        data := data[key := Entry(SetValue(members), 0)];
        return;
      }
      if !e.value.value.SetValue? {
        return -1;
      }
      members, added := InsertMembers(e.value.value.members, names);
      data := data[key := e.value.(value := SetValue(members))];
    }

    method SRem(key: string, names: seq<string>, now: nat) returns (removed: int)
      modifies this
      ensures data == Put(old(data), key, SRemOn(FindLive(old(data), key, now), names).entry)
      ensures removed == SRemOn(FindLive(old(data), key, now), names).result
    {
      var e := FindLiveMut(key, now);
      if e.None? {
        return 0;
      }
      if !e.value.value.SetValue? {
        return -1;
      }
      var members;
      members, removed := EraseMembers(e.value.value.members, names);
      data := data[key := e.value.(value := SetValue(members))];
      if members == {} {
        data := data - {key};
      }
    }

    method SUnion(keys: seq<string>, now: nat) returns (out: seq<string>)
      ensures out == Sorted(UnionOf(Live(data, now), keys))
    {
      var result: set<string> := {};
      for i := 0 to |keys|
        invariant result == UnionOf(Live(data, now), keys[..i])
      {
        UnionSnoc(Live(data, now), keys, i);
        var e := FindLive(data, keys[i], now);
        if e.None? || !e.value.value.SetValue? {
          continue;
        }
        result := result + e.value.value.members;
      }
      assert keys[..|keys|] == keys;
      out := Sorted(result);
    }

    method SInter(keys: seq<string>, now: nat) returns (out: seq<string>)
      ensures out == Sorted(InterOf(Live(data, now), keys))
    {
      if keys == [] {
        return [];
      }
      var result: set<string> := {};
      var initialized := false;
      for i := 0 to |keys|
        invariant initialized == (i > 0)
        invariant i > 0 ==> result == InterOf(Live(data, now), keys[..i])
      {
        var e := FindLive(data, keys[i], now);
        if e.None? || !e.value.value.SetValue? {
          InterEmpty(Live(data, now), keys, i);
          return [];
        }
        var members := e.value.value.members;
        InterSnoc(Live(data, now), keys, i);
        if !initialized {
          result := members;
          initialized := true;
          continue;
        }
        result := KeepMembers(result, members);
        if result == {} {
          InterShrinks(Live(data, now), keys, i + 1);
          return [];
        }
      }
      assert keys[..|keys|] == keys;
      out := Sorted(result);
    }

    // ---- the whole keyspace ----------------------------------------------------------

    method DbSize(now: nat) returns (count: nat)
      ensures count == |Live(data, now)|
    {
      var names := InOrder(data.Keys);
      count := CountAlive(data, names, now);
    }

    method FlushDb()
      modifies this
      ensures data == map[]
    {
      data := map[];
    }

    method Keys(pattern: string, now: nat) returns (out: seq<string>)
      ensures out == Sorted(Matching(Live(data, now), pattern))
    {
      out := [];
      var names := Sorted(data.Keys);
      ghost var hits := Matching(Live(data, now), pattern);
      for i := 0 to |names|
        invariant Picked(out, names[..i], hits)
      {
        assert names[i] in names;
        PickedTurn(out, names, i, hits);
        if Expired(data[names[i]], now) {
          continue;
        }
        var hit, _ := GlobMatch(pattern, names[i]);
        if hit {
          out := out + [names[i]];
        }
      }
      AllPicked(out, names, hits);
    }

    method Rename(src: string, dst: string, now: nat) returns (r: bool)
      modifies this
      ensures r == FindLive(old(data), src, now).Some?
      ensures data == if r then (old(data) - {src})[dst := old(data)[src]] else old(data) - {src}
    {
      var e := FindLiveMut(src, now);
      if e.None? {
        return false;
      }
      data := data - {src};
      data := data[dst := e.value];
      return true;
    }

    /** `sweep_expired`: `at` is the iterator, a position in key order. Erasing the entry under it
        leaves it at the entry that followed. */
    method SweepExpired(now: nat)
      modifies this
      ensures data == Swept(old(data), now)
    {
      var at: nat, visited: nat := 0, 0;
      SweepStarts(data, now);
      while at < |data.Keys| && visited < SWEEP_LIMIT
        invariant MidSweep(old(data), data, at, visited, now)
        decreases SWEEP_LIMIT - visited
      {
        var key := KeyAt(data, at);
        SweepTurn(old(data), data, at, visited, now, key);
        visited := visited + 1;
        if Expired(data[key], now) {
          data := data - {key};
        } else {
          at := at + 1;
        }
      }
      SweepEnds(old(data), data, at, visited, now);
    }
  }

  // ---- the sweep ---------------------------------------------------------------------

  /** The keys a sweep looks at: the first ones in key order. */
  function Visited(d: DataMap): seq<string> {
    Sorted(d.Keys)[..Min(|d|, SWEEP_LIMIT)]
  }

  function Min(a: nat, b: nat): nat {
    if a <= b then a else b
  }

  /** The dead entries among some keys. */
  function DeadAmong(d: DataMap, keys: seq<string>, now: nat): set<string> {
    set k | k in keys && k in d && Expired(d[k], now)
  }

  function Swept(d: DataMap, now: nat): DataMap {
    d - DeadAmong(d, Visited(d), now)
  }

  /** The walk after `visited` turns: the iterator stands at the first entry of `d0` that has not
      been visited, and of the visited ones exactly the dead are gone. */
  ghost predicate MidSweep(d0: DataMap, d: DataMap, at: nat, visited: nat, now: nat) {
    forall u {:trigger Open((d, at, visited), u)} | Open((d, at, visited), u) :: MidSweepOpen(d0, d, at, visited, now)
  }

  ghost predicate MidSweepOpen(d0: DataMap, d: DataMap, at: nat, visited: nat, now: nat) {
    && at <= |d.Keys| && visited <= |d0.Keys| && visited <= SWEEP_LIMIT
    && Sorted(d.Keys)[at..] == Sorted(d0.Keys)[visited..]
    && d == d0 - DeadAmong(d0, Sorted(d0.Keys)[..visited], now)
  }

  ghost predicate SameTail(all: set<string>, left: set<string>, visited: nat, at: nat) {
    at <= |left| && visited <= |all| && Sorted(left)[at..] == Sorted(all)[visited..]
  }

  ghost predicate DeadGone(d0: DataMap, d: DataMap, visited: nat, now: nat) {
    visited <= |d0.Keys| && d == d0 - DeadAmong(d0, Sorted(d0.Keys)[..visited], now)
  }

  lemma SweepStarts(d: DataMap, now: nat)
    ensures MidSweep(d, d, 0, 0, now)
  {
    assert DeadAmong(d, [], now) == {};
  }

  lemma KeyUnderIterator(all: set<string>, left: set<string>, visited: nat, at: nat)
    requires SameTail(all, left, visited, at) && at < |left|
    ensures visited < |all| && Sorted(left)[at] == Sorted(all)[visited]
    ensures Sorted(left)[at] in left && Sorted(left)[at] in all
  {
    assert Sorted(left)[at] == Sorted(left)[at..][0];
    assert Sorted(left)[at] in Sorted(left) && Sorted(all)[visited] in Sorted(all);
  }

  /** One turn: an erased entry leaves the iterator at the one that followed it. */
  lemma SweepTurn(d0: DataMap, d: DataMap, at: nat, visited: nat, now: nat, key: string)
    requires MidSweep(d0, d, at, visited, now) && visited < SWEEP_LIMIT && StandsAt(d, at, key)
    ensures key in d
    ensures Expired(d[key], now) ==> MidSweep(d0, d - {key}, at, visited + 1, now)
    ensures !Expired(d[key], now) ==> MidSweep(d0, d, at + 1, visited + 1, now)
  {
    assert Open((d, at, visited), true) && Open((d, at, key), true);
    OpenTurn(d0, d, at, visited, now);
  }

  lemma OpenTurn(d0: DataMap, d: DataMap, at: nat, visited: nat, now: nat)
    requires MidSweepOpen(d0, d, at, visited, now) && visited < SWEEP_LIMIT && at < |d.Keys|
    ensures var key := Sorted(d.Keys)[at];
            && key in d
            && (if Expired(d[key], now) then MidSweepOpen(d0, d - {key}, at, visited + 1, now)
                else MidSweepOpen(d0, d, at + 1, visited + 1, now))
  {
    var key := Sorted(d.Keys)[at];
    KeyUnderIterator(d0.Keys, d.Keys, visited, at);
    TailMoves(d0.Keys, d.Keys, visited, at);
    DeadGoes(d0, d, visited, now);
    assert (d - {key}).Keys == d.Keys - {key};
  }

  /** The iterator stands at the key. Kept closed. */
  ghost predicate StandsAt(d: DataMap, at: nat, key: string) {
    forall u {:trigger Open((d, at, key), u)} | Open((d, at, key), u) :: at < |d.Keys| && Sorted(d.Keys)[at] == key
  }

  /** What the iterator points to. */
  method KeyAt(d: DataMap, at: nat) returns (key: string)
    requires at < |d.Keys|
    ensures StandsAt(d, at, key)
  {
    key := Sorted(d.Keys)[at];
  }

  lemma TailMoves(all: set<string>, left: set<string>, visited: nat, at: nat)
    requires SameTail(all, left, visited, at) && at < |left|
    ensures visited < |all| && SameTail(all, left, visited + 1, at + 1)
    ensures SameTail(all, left - {Sorted(left)[at]}, visited + 1, at)
  {
    KeyUnderIterator(all, left, visited, at);
    SortedErase(left, at);
    NextOf(Sorted(all), visited);
    NextOf(Sorted(left), at);
    AfterGap(Sorted(left), at);
  }

  lemma NextOf(q: seq<string>, i: nat)
    requires i < |q|
    ensures q[i..][1..] == q[i + 1..]
  {
  }

  lemma AfterGap(q: seq<string>, i: nat)
    requires i < |q|
    ensures (q[..i] + q[i + 1..])[i..] == q[i + 1..]
  {
  }

  lemma DeadGoes(d0: DataMap, d: DataMap, visited: nat, now: nat)
    requires visited < |d0.Keys| && DeadGone(d0, d, visited, now)
    ensures var key := Sorted(d0.Keys)[visited];
            key in d && d[key] == d0[key] &&
            DeadGone(d0, if Expired(d[key], now) then d - {key} else d, visited + 1, now)
  {
    assert Sorted(d0.Keys)[visited] in Sorted(d0.Keys);
    SweepStep(d0, Sorted(d0.Keys), visited, now);
  }

  lemma SweepEnds(d0: DataMap, d: DataMap, at: nat, visited: nat, now: nat)
    requires MidSweep(d0, d, at, visited, now) && (at >= |d.Keys| || visited >= SWEEP_LIMIT)
    ensures d == Swept(d0, now)
  {
    assert Open((d, at, visited), true);
    assert |Sorted(d.Keys)[at..]| == |d.Keys| - at && |Sorted(d0.Keys)[visited..]| == |d0.Keys| - visited;
    assert |d0.Keys| == |d0|;
  }

  /** The entry under the iterator is one the sweep has not touched. */
  lemma SweepStep(d: DataMap, order: seq<string>, i: nat, now: nat)
    requires StrictlySorted(order) && i < |order| && order[i] in d
    ensures var key := order[i];
            var seen := DeadAmong(d, order[..i], now);
            && key in d && key !in seen
            && DeadAmong(d, order[..i + 1], now) == seen + (if Expired(d[key], now) then {key} else {})
            && d - seen - {key} == d - (seen + {key})
  {
    NotBeforeIndex(order, i);
    assert order[..i + 1] == order[..i] + [order[i]];
    EraseStep(d, DeadAmong(d, order[..i], now), order[i]);
  }

  // ---- helpers of the loops ----------------------------------------------------------

  method PushFront(base: seq<string>, values: seq<string>) returns (items: seq<string>)
    ensures items == Reverse(values) + base
    ensures base == [] ==> items == Reverse(values)
  {
    items := base;
    for i := 0 to |values|
      invariant items == Reverse(values[..i]) + base
    {
      assert values[..i + 1][..i] == values[..i];
      items := [values[i]] + items;
    }
    assert values[..|values|] == values;
  }

  method PushBack(base: seq<string>, values: seq<string>) returns (items: seq<string>)
    ensures items == base + values
    ensures base == [] ==> items == values
  {
    items := base;
    for i := 0 to |values|
      invariant items == base + values[..i]
    {
      items := items + [values[i]];
    }
    assert values[..|values|] == values;
  }

  /** The loop of HSET: assign each pair and count the insertions. */
  method InsertOrAssign(fields: map<string, string>, pairs: seq<Pair>)
    returns (r: map<string, string>, added: int)
    ensures r == Assigned(fields, pairs)
    ensures added == |r| - |fields|
  {
    r, added := fields, 0;
    for i := 0 to |pairs|
      invariant r == Assigned(fields, pairs[..i])
      invariant added == |r.Keys| - |fields.Keys|
    {
      AssignedSnoc(fields, pairs, i);
      AssignStep(r, pairs[i].0, pairs[i].1);
      if pairs[i].0 !in r {
        added := added + 1;
      }
      r := r[pairs[i].0 := pairs[i].1];
    }
    assert pairs[..|pairs|] == pairs;
  }

  method EraseFields(all: map<string, string>, names: seq<string>)
    returns (fields: map<string, string>, removed: int)
    ensures fields == all - Elements(names)
    ensures removed == |all| - |fields|
  {
    fields, removed := all, 0;
    for i := 0 to |names|
      invariant fields == all - Elements(names[..i])
      invariant removed == |all.Keys| - |fields.Keys|
    {
      ElementsSnoc(names, i);
      EraseStep(all, Elements(names[..i]), names[i]);
      RemoveStep(fields.Keys, names[i]);
      if names[i] in fields {
        removed := removed + 1;
      }
      fields := fields - {names[i]};
    }
    assert names[..|names|] == names;
  }

  method InsertMembers(base: set<string>, names: seq<string>) returns (members: set<string>, added: int)
    ensures members == base + Elements(names)
    ensures added == |members| - |base|
  {
    members, added := base, 0;
    for i := 0 to |names|
      invariant members == base + Elements(names[..i])
      invariant added == |members| - |base|
    {
      ElementsSnoc(names, i);
      if names[i] !in members {
        added := added + 1;
      }
      members := members + {names[i]};
    }
    assert names[..|names|] == names;
  }

  method EraseMembers(all: set<string>, names: seq<string>) returns (members: set<string>, removed: int)
    ensures members == all - Elements(names)
    ensures removed == |all| - |members|
  {
    members, removed := all, 0;
    for i := 0 to |names|
      invariant members == all - Elements(names[..i])
      invariant removed == |all| - |members|
    {
      ElementsSnoc(names, i);
      RemoveStep(members, names[i]);
      if names[i] in members {
        removed := removed + 1;
      }
      members := members - {names[i]};
    }
    assert names[..|names|] == names;
  }

  /** What an iterator over a sorted container visits. */
  method InOrder(s: set<string>) returns (q: seq<string>)
    ensures StrictlySorted(q) && |q| == |s| && Elements(q) == s
  {
    q := Sorted(s);
  }

  method CountAlive(d: DataMap, names: seq<string>, now: nat) returns (count: nat)
    requires StrictlySorted(names) && Elements(names) == d.Keys
    ensures count == |Live(d, now)|
  {
    count := 0;
    for i := 0 to |names|
      invariant count == |Live(d, now).Keys * Elements(names[..i])|
    {
      OneMoreAlive(d, names, i, now);
      if !Expired(d[names[i]], now) {
        count := count + 1;
      }
    }
    assert names[..|names|] == names;
    assert Live(d, now).Keys * Elements(names) == Live(d, now).Keys;
  }

  lemma OneMoreAlive(d: DataMap, names: seq<string>, i: nat, now: nat)
    requires StrictlySorted(names) && Elements(names) == d.Keys && i < |names|
    ensures var live := Live(d, now).Keys;
            && names[i] in d
            && |live * Elements(names[..i + 1])| ==
               |live * Elements(names[..i])| + if Expired(d[names[i]], now) then 0 else 1
  {
    assert names[i] in Elements(names);
    ElementsSnoc(names, i);
    NotBeforeIndex(names, i);
    CountStep(Live(d, now).Keys, Elements(names[..i]), names[i]);
  }

  method FlattenPairs(fields: map<string, string>, names: seq<string>) returns (out: seq<string>)
    requires forall f | f in names :: f in fields
    ensures out == FlatPairs(fields, names)
  {
    out := [];
    for i := 0 to |names|
      invariant out == FlatPairs(fields, names[..i])
    {
      assert names[..i + 1][..i] == names[..i];
      out := out + [names[i], fields[names[i]]];
    }
    assert names[..|names|] == names;
  }

  method CollectValues(fields: map<string, string>, names: seq<string>) returns (out: seq<string>)
    requires forall f | f in names :: f in fields
    ensures out == ValuesAt(fields, names)
  {
    out := [];
    for i := 0 to |names|
      invariant |out| == i && forall j | 0 <= j < i :: out[j] == fields[names[j]]
    {
      out := out + [fields[names[i]]];
    }
    assert out == ValuesAt(fields, names);
  }

  /** The inner loop of SINTER. */
  method KeepMembers(result: set<string>, members: set<string>) returns (next: set<string>)
    ensures next == result * members
  {
    next := {};
    var names := InOrder(result);
    for i := 0 to |names|
      invariant next == Elements(names[..i]) * members
    {
      ElementsSnoc(names, i);
      if names[i] in members {
        next := next + {names[i]};
      }
    }
    assert names[..|names|] == names;
  }

  lemma AssignedSnoc<V>(m: map<string, V>, pairs: seq<(string, V)>, i: nat)
    requires i < |pairs|
    ensures Assigned(m, pairs[..i + 1]) == Assigned(m, pairs[..i])[pairs[i].0 := pairs[i].1]
  {
    assert pairs[..i + 1][..i] == pairs[..i];
  }

  lemma AssignStep<V>(m: map<string, V>, x: string, v: V)
    ensures |m[x := v].Keys| == |m.Keys| + if x in m then 0 else 1
  {
    if x in m {
      assert m[x := v].Keys == m.Keys;
    } else {
      assert m[x := v].Keys == m.Keys + {x};
    }
  }

  lemma ElementsSnoc(names: seq<string>, i: nat)
    requires i < |names|
    ensures Elements(names[..i + 1]) == Elements(names[..i]) + {names[i]}
  {
    assert names[..i + 1] == names[..i] + [names[i]];
  }

  lemma CountStep(live: set<string>, seen: set<string>, x: string)
    ensures |live * (seen + {x})| == |live * seen| + if x in live && x !in seen then 1 else 0
  {
    if x in live && x !in seen {
      assert live * (seen + {x}) == live * seen + {x};
    } else {
      assert live * (seen + {x}) == live * seen;
    }
  }

  lemma RemoveStep(members: set<string>, x: string)
    ensures |members - {x}| == |members| - if x in members then 1 else 0
  {
    if x !in members {
      assert members - {x} == members;
    }
  }

  lemma EraseStep<V>(all: map<string, V>, seen: set<string>, x: string)
    ensures all - seen - {x} == all - (seen + {x})
    ensures x !in all - seen ==> all - (seen + {x}) == all - seen
    ensures (all - seen - {x}).Keys == (all - seen).Keys - {x}
  {
  }

  lemma UnionSnoc(m: DataMap, keys: seq<string>, i: nat)
    requires i < |keys|
    ensures UnionOf(m, keys[..i + 1]) == UnionOf(m, keys[..i]) + MemberOf(m, keys[i])
  {
    assert keys[..i + 1] == keys[..i] + [keys[i]];
    forall x | x in MemberOf(m, keys[i]) ensures x in UnionOf(m, keys[..i + 1]) {
      assert keys[i] in keys[..i + 1];
    }
  }

  lemma InterSnoc(m: DataMap, keys: seq<string>, i: nat)
    requires i < |keys|
    ensures InterOf(m, keys[..i + 1]) ==
            if i == 0 then MemberOf(m, keys[0]) else InterOf(m, keys[..i]) * MemberOf(m, keys[i])
  {
    assert keys[..i + 1] == keys[..i] + [keys[i]];
    forall k ensures k in keys[..i + 1] <==> k in keys[..i] || k == keys[i] {
    }
  }

  lemma InterShrinks(m: DataMap, keys: seq<string>, i: nat)
    requires 0 < i <= |keys|
    ensures InterOf(m, keys) <= InterOf(m, keys[..i])
  {
    forall k ensures k in keys[..i] ==> k in keys {
    }
  }

  lemma InterEmpty(m: DataMap, keys: seq<string>, i: nat)
    requires i < |keys| && MemberOf(m, keys[i]) == {}
    ensures InterOf(m, keys) == {}
  {
    assert keys[i] in keys;
  }

  lemma NotBeforeIndex(names: seq<string>, i: nat)
    requires StrictlySorted(names) && i < |names|
    ensures names[i] !in names[..i]
  {
    if names[i] in names[..i] {
      var j :| 0 <= j < i && names[j] == names[i];
      LessTrichotomy(names[j], names[i]);
    }
  }

  /** The hits among some names, in order. */
  ghost predicate Picked(out: seq<string>, names: seq<string>, hits: set<string>) {
    StrictlySorted(out) && forall k :: k in out <==> k in names && k in hits
  }

  lemma PickedTurn(out: seq<string>, names: seq<string>, i: nat, hits: set<string>)
    requires StrictlySorted(names) && i < |names| && Picked(out, names[..i], hits)
    ensures Picked(if names[i] in hits then out + [names[i]] else out, names[..i + 1], hits)
  {
    assert names[..i + 1] == names[..i] + [names[i]];
    SortedSnoc(out, names, i);
  }

  lemma AllPicked(out: seq<string>, names: seq<string>, hits: set<string>)
    requires Picked(out, names[..|names|], hits) && forall k | k in hits :: k in names
    ensures out == Sorted(hits)
  {
    assert names[..|names|] == names;
    SortedUnique(out, hits);
  }

  lemma SortedSnoc(out: seq<string>, names: seq<string>, i: nat)
    requires StrictlySorted(names) && i < |names|
    requires StrictlySorted(out) && forall k | k in out :: k in names[..i]
    ensures StrictlySorted(out + [names[i]])
  {
    forall a | 0 <= a < |out| ensures Less(out[a], names[i]) {
      assert out[a] in names[..i];
      var j :| 0 <= j < i && names[j] == out[a];
    }
  }
}
