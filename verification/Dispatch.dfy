/** `dispatch`: decode, act on the store, print the reply. */
module Dispatcher {
  import opened Wrappers
  import opened Resp
  import opened Values
  import opened Keyspace
  import opened Command
  import opened Stores

  /** The argument handling of the handlers, with the loops of SET, MSET and HSET. */
  method Decode(cmd: Command, now: nat) returns (plan: Plan)
    ensures plan == PlanOf(cmd, now)
  {
    var verb := VerbOf(cmd.name);
    if verb.None? {
      return Answer(UnknownCommand(cmd.name));
    }
    plan := DecodeVerb(verb.value, cmd.args, now);
  }

  method DecodeVerb(verb: Verb, args: seq<string>, now: nat) returns (plan: Plan)
    ensures plan == PlanFor(verb, args, now)
  {
    if verb == SET && |args| >= 2 {
      var options := ParseOptions(args, now);
      match options {
        case Rejected(reply) => return Answer(reply);
        case Options(expiresAt, onlyNew, onlyOld) =>
          return Plan.Store(args[0], args[1], expiresAt, onlyNew, onlyOld);
      }
    }
    if verb == MSET && |args| >= 2 && |args| % 2 == 0 {
      var pairs := CollectPairs(args, 0);
      return StoreAll(pairs);
    }
    if verb == HSET && |args| >= 3 && |args| % 2 == 1 {
      var pairs := CollectPairs(args, 1);
      return Write(args[0], WriteOp.HSet(pairs));
    }
    return PlanFor(verb, args, now);
  }

  method PerformRead(store: Store, now: nat, key: string, op: ReadOp) returns (reply: Reply)
    ensures reply == ReadReply(op, now, FindLive(store.data, key, now))
  {
    match op {
      case LRange(start, stop) =>
        var r := store.LRange(key, start, stop, now);
        return ArrayReply(r);
      case HGetAll =>
        var r := store.HGetAll(key, now);
        return ArrayReply(r);
      case HVals =>
        var r := store.HVals(key, now);
        return ArrayReply(r);
      case _ =>
        return ReadReply(op, now, FindLive(store.data, key, now));
    }
  }

  method PerformStringWrite(store: Store, now: nat, key: string, op: WriteOp) returns (reply: Reply)
    requires op.IncrBy? || op.DecrBy? || op.Append? || op.GetSet? || op.PExpire? || op.Persist?
    modifies store
    ensures store.data == Put(old(store.data), key, WriteChange(op, now, FindLive(old(store.data), key, now)).entry)
    ensures reply == WriteChange(op, now, FindLive(old(store.data), key, now)).result
  {
    match op {
      case IncrBy(delta) =>
        var r := store.Add(key, delta, now);
        return IntReply(r);
      case DecrBy(delta) =>
        var r := store.Add(key, -(delta as int), now);
        return IntReply(r);
      case Append(suffix) =>
        var r := store.Append(key, suffix, now);
        return IntReply(r);
      case GetSet(value) =>
        var r := store.GetSet(key, value, now);
        return BulkReply(r);
      case PExpire(ms) =>
        var r := store.PExpire(key, ms, now);
        return FlagReply(r);
      case Persist =>
        var r := store.Persist(key, now);
        return FlagReply(r);
    }
  }

  method PerformCollectionWrite(store: Store, now: nat, key: string, op: WriteOp) returns (reply: Reply)
    requires op.LPush? || op.RPush? || op.LPop? || op.RPop? || op.HSet? || op.HDel? || op.SAdd? || op.SRem?
    modifies store
    ensures store.data == Put(old(store.data), key, WriteChange(op, now, FindLive(old(store.data), key, now)).entry)
    ensures reply == WriteChange(op, now, FindLive(old(store.data), key, now)).result
  {
    var n: int;
    match op {
      case LPush(values) => n := store.LPush(key, values, now);
      case RPush(values) => n := store.RPush(key, values, now);
      case LPop =>
        var r := store.LPop(key, now);
        return BulkReply(r);
      case RPop =>
        var r := store.RPop(key, now);
        return BulkReply(r);
      case HSet(pairs) => n := store.HSet(key, pairs, now);
      case HDel(names) => n := store.HDel(key, names, now);
      case SAdd(names) => n := store.SAdd(key, names, now);
      case SRem(names) => n := store.SRem(key, names, now);
    }
    return CountReply(n);
  }

  method PerformWrite(store: Store, now: nat, key: string, op: WriteOp) returns (reply: Reply)
    modifies store
    ensures store.data == Put(old(store.data), key, WriteChange(op, now, FindLive(old(store.data), key, now)).entry)
    ensures reply == WriteChange(op, now, FindLive(old(store.data), key, now)).result
  {
    if op.IncrBy? || op.DecrBy? || op.Append? || op.GetSet? || op.PExpire? || op.Persist? {
      reply := PerformStringWrite(store, now, key, op);
    } else {
      reply := PerformCollectionWrite(store, now, key, op);
    }
  }

  /** The type check SUNION and SINTER make before they look at any member. */
  method AnyWrongType(store: Store, now: nat, keys: seq<string>) returns (found: bool)
    ensures found == exists k | k in keys :: NotASet(Live(store.data, now), k)
  {
    for i := 0 to |keys|
      invariant forall j | 0 <= j < i :: !NotASet(Live(store.data, now), keys[j])
    {
      var kind := TypeOf(FindLive(store.data, keys[i], now));
      if kind != "none" && kind != "set" {
        assert keys[i] in keys && NotASet(Live(store.data, now), keys[i]);
        return true;
      }
    }
    return false;
  }

  method PerformSetAlgebra(store: Store, now: nat, keys: seq<string>, union: bool) returns (reply: Reply)
    ensures var m := Live(store.data, now);
            reply == SetReply(m, keys, if union then UnionOf(m, keys) else InterOf(m, keys))
  {
    var wrong := AnyWrongType(store, now, keys);
    if wrong {
      return Complain(BadType);
    }
    var members;
    if union {
      members := store.SUnion(keys, now);
    } else {
      members := store.SInter(keys, now);
    }
    return Data(Array(Bulks(members)));
  }

  /** SET, after its options have been read. */
  method PerformStore(store: Store, now: nat, plan: Plan) returns (reply: Reply)
    requires plan.Store?
    modifies store
    ensures (store.data, reply) == Exec(old(store.data), now, plan)
  {
    var present := store.Exists([plan.key], now);
    assert [plan.key][..0] == [] && CountIn(Live(store.data, now), []) == 0;
    if Refuses(plan, present > 0) {
      return NULL_BULK;
    }
    store.Set(plan.key, plan.value, plan.expiresAt);
    return OK;
  }

  method Perform(store: Store, now: nat, plan: Plan) returns (reply: Reply)
    modifies store
    ensures (store.data, reply) == Exec(old(store.data), now, plan)
  {
    match plan {
      case Answer(r) => return r;
      case Read(key, op) => reply := PerformRead(store, now, key, op);
      case Write(key, op) => reply := PerformWrite(store, now, key, op);
      case Store(_, _, _, _, _) => reply := PerformStore(store, now, plan);
      case StoreAll(pairs) =>
        store.MSet(pairs);
        return OK;
      case Delete(keys) =>
        var n := store.Del(keys, now);
        return Data(Integer(n));
      case Count(keys) =>
        var n := store.Exists(keys, now);
        return Data(Integer(n));
      case GetAll(keys) =>
        var values := store.MGet(keys, now);
        return Data(Array(values));
      case Union(keys) => reply := PerformSetAlgebra(store, now, keys, true);
      case Inter(keys) => reply := PerformSetAlgebra(store, now, keys, false);
      case CountAll =>
        var n := store.DbSize(now);
        return Data(Integer(n));
      case Clear =>
        store.FlushDb();
        return OK;
      case Keys(pattern) =>
        var names := store.Keys(pattern, now);
        return Data(Array(Bulks(names)));
      case Rename(src, dst) =>
        var ok := store.Rename(src, dst, now);
        return if ok then OK else Complain(NoSuchKey);
    }
  }

  method RenderReply(reply: Reply) returns (out: Bytes)
    ensures out == Render(reply)
  {
    match reply {
      case Status(text) => return "+" + text + "\r\n";
      case Data(value) =>
        out := AppendEncoded(value, []);
        assert [] + Encode(value) == Encode(value);
    }
  }

  /** One command: the store ends as `Exec` says, and the bytes are the reply printed. */
  method Dispatch(cmd: Command, store: Store, now: nat) returns (out: Bytes)
    modifies store
    ensures store.data == Exec(old(store.data), now, PlanOf(cmd, now)).0
    ensures out == Render(Exec(old(store.data), now, PlanOf(cmd, now)).1)
  {
    var plan := Decode(cmd, now);
    var reply := Perform(store, now, plan);
    out := RenderReply(reply);
  }
}
