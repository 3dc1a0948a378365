/** Every command touches only the keys it names, dead entries included. */
module Locality {
  import opened Values
  import opened Keyspace
  import opened Command
  import opened Expiry

  lemma {:induction false} AssignedOther<V>(m: map<string, V>, pairs: seq<(string, V)>, key: string)
    requires key in m && key !in Names(pairs)
    ensures key in Assigned(m, pairs) && Assigned(m, pairs)[key] == m[key]
    decreases |pairs|
  {
    if pairs != [] {
      var init := pairs[..|pairs| - 1];
      assert pairs[|pairs| - 1].0 in Names(pairs);
      forall k | k in Names(init) ensures k in Names(pairs) {
        var i :| 0 <= i < |init| && init[i].0 == k;
        assert pairs[i].0 == k;
      }
      AssignedOther(m, init, key);
    }
  }

  /** MSET leaves every other key alone, deadline and type included. */
  lemma MultiSetIsLocal(d: DataMap, now: nat, pairs: seq<Pair>, key: string)
    requires forall j | 0 <= j < |pairs| :: pairs[j].0 != key
    ensures Find(Exec(d, now, StoreAll(pairs)).0, key) == Find(d, key)
  {
    var after := Assigned(d, Texts(pairs));
    AssignedKeys(d, Texts(pairs));
    assert key !in Names(Texts(pairs));
    if key in d {
      AssignedOther(d, Texts(pairs), key);
    }
  }

  /** The keys a command may change. */
  ghost predicate MayChange(plan: Plan, key: string) {
    match plan
    case Write(k, _) => key == k
    case Store(k, _, _, _, _) => key == k
    case StoreAll(pairs) => exists i | 0 <= i < |pairs| :: pairs[i].0 == key
    case Delete(keys) => key in keys
    case Rename(src, dst) => key == src || key == dst
    case Clear => true
    case _ => false
  }

  lemma CommandsAreLocal(d: DataMap, now: nat, plan: Plan, key: string)
    requires !MayChange(plan, key)
    ensures Find(Exec(d, now, plan).0, key) == Find(d, key)
  {
    match plan
    case StoreAll(pairs) => MultiSetIsLocal(d, now, pairs, key);
    case _ =>
  }

  ghost predicate Spared(run: seq<Timed>, key: string) {
    forall i | 0 <= i < |run| :: !MayChange(PlanOf(run[i].cmd, run[i].now), key)
  }

  lemma {:induction false} RunsSpare(d: DataMap, run: seq<Timed>, key: string)
    requires Spared(run, key)
    ensures Find(ExecAll(d, run).data, key) == Find(d, key)
    decreases |run|
  {
    if run != [] {
      var plan := PlanOf(run[0].cmd, run[0].now);
      CommandsAreLocal(d, run[0].now, plan, key);
      RunsSpare(Exec(d, run[0].now, plan).0, run[1..], key);
    }
  }
}
