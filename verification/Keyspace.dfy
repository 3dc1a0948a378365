/** What a decoded command does to the whole keyspace. `Exec` is the program: entries past
    their deadline stay in the map until something erases them, and every lookup checks the
    deadline. `SimpleExec` is the reference: a plain map, looked up plainly, in which no dead
    entry is ever stored. */
module Keyspace {
  import opened Wrappers
  import opened Int64
  import opened Lex
  import opened Glob
  import opened Resp
  import opened Values

  type DataMap = map<string, Entry>

  /** The entries that are not past their deadline. */
  function Live(d: DataMap, now: nat): DataMap {
    map k | k in d && !Expired(d[k], now) :: d[k]
  }

  function Find(m: DataMap, key: string): Option<Entry> {
    if key in m then Some(m[key]) else None
  }

  function FindLive(d: DataMap, key: string, now: nat): Option<Entry> {
    if key in d && !Expired(d[key], now) then Some(d[key]) else None
  }

  function Put(d: DataMap, key: string, e: Option<Entry>): DataMap {
    match e
    case None => d - {key}
    case Some(entry) => d[key := entry]
  }

  // ---- replies -----------------------------------------------------------------------

  /** A status line, or a value in RESP. */
  datatype Reply = Status(text: string) | Data(value: RespValue)

  function Render(r: Reply): Bytes {
    match r
    case Status(text) => Line('+', text)
    case Data(value) => Encode(value)
  }

  const OK := Status("OK")
  const NULL_BULK := Data(Null)

  /** The errors that handlers report themselves. */
  datatype Complaint = SyntaxError | WrongArity | BadInteger | BadType | NoSuchKey

  function ComplaintText(c: Complaint): string {
    match c
    case SyntaxError => "ERR syntax error"
    case WrongArity => "wrong number of arguments"
    case BadInteger => ErrorText(NotAnInteger)
    case BadType => ErrorText(WrongType)
    case NoSuchKey => ErrorText(KeyNotFound)
  }

  function Complain(c: Complaint): Reply {
    Data(Err(ComplaintText(c)))
  }

  function ErrorText(error: StoreError): string {
    match error
    case KeyNotFound => "ERR no such key"
    case WrongType => "WRONGTYPE Operation against a key holding the wrong kind of value"
    case NotAnInteger => "ERR value is not an integer or out of range"
    case OutOfRange => "ERR index out of range"
  }

  function BulkReply(r: Outcome<string>): Reply {
    match r
    case Ok(text) => Data(Bulk(text))
    case Fail(KeyNotFound) => NULL_BULK
    case Fail(error) => Data(Err(ErrorText(error)))
  }

  function IndexReply(r: Outcome<string>): Reply {
    if r == Fail(OutOfRange) then NULL_BULK else BulkReply(r)
  }

  function IntReply(r: Outcome<int>): Reply {
    match r
    case Ok(n) => Data(Integer(n))
    case Fail(error) => Data(Err(ErrorText(error)))
  }

  /** Reads of an absent collection answer 0 or the empty array. */
  function SizeReply(r: Outcome<int>): Reply {
    if r == Fail(KeyNotFound) then Data(Integer(0)) else IntReply(r)
  }

  function BoolReply(r: Outcome<bool>): Reply {
    match r
    case Ok(b) => FlagReply(b)
    case Fail(KeyNotFound) => Data(Integer(0))
    case Fail(error) => Data(Err(ErrorText(error)))
  }

  function FlagReply(b: bool): Reply {
    Data(Integer(if b then 1 else 0))
  }

  function CountReply(n: int): Reply {
    if n < 0 then Complain(BadType) else Data(Integer(n))
  }

  function Bulks(texts: seq<string>): seq<RespValue> {
    seq(|texts|, i requires 0 <= i < |texts| => Bulk(texts[i]))
  }

  function ArrayReply(r: Outcome<seq<string>>): Reply {
    match r
    case Ok(texts) => Data(Array(Bulks(texts)))
    case Fail(KeyNotFound) => Data(Array([]))
    case Fail(error) => Data(Err(ErrorText(error)))
  }

  // ---- operations on one key ---------------------------------------------------------

  datatype ReadOp =
    | Get | Strlen | Ttl | Pttl | Type
    | LRange(start: int64, stop: int64) | LLen | LIndex(index: int64)
    | HGet(name: string) | HGetAll | HExists(name: string) | HLen | HKeys | HVals
    | SMembers | SIsMember(name: string) | SCard

  datatype WriteOp =
    | IncrBy(delta: int64) | DecrBy(delta: int64) | Append(suffix: string) | GetSet(value: string)
    | PExpire(ms: uint64) | Persist
    | LPush(values: seq<string>) | RPush(values: seq<string>) | LPop | RPop
    | HSet(pairs: seq<Pair>) | HDel(names: seq<string>)
    | SAdd(names: seq<string>) | SRem(names: seq<string>)

  function ReadReply(op: ReadOp, now: nat, e: Option<Entry>): Reply {
    match op
    case Get => BulkReply(GetOf(e))
    case Strlen => IntReply(StrlenOf(e))
    case Ttl => Data(Integer(TtlOf(e, now)))
    case Pttl => Data(Integer(PttlOf(e, now)))
    case Type => Status(TypeOf(e))
    case LRange(start, stop) => ArrayReply(LRangeOf(e, start, stop))
    case LLen => SizeReply(LLenOf(e))
    case LIndex(index) => IndexReply(LIndexOf(e, index))
    case HGet(name) => BulkReply(HGetOf(e, name))
    case HGetAll => ArrayReply(HGetAllOf(e))
    case HExists(name) => BoolReply(HExistsOf(e, name))
    case HLen => SizeReply(HLenOf(e))
    case HKeys => ArrayReply(HKeysOf(e))
    case HVals => ArrayReply(HValsOf(e))
    case SMembers => ArrayReply(SMembersOf(e))
    case SIsMember(name) => BoolReply(SIsMemberOf(e, name))
    case SCard => SizeReply(SCardOf(e))
  }

  function IntChange(c: Change<Outcome<int>>): Change<Reply> {
    Change(c.entry, IntReply(c.result))
  }

  function BulkChange(c: Change<Outcome<string>>): Change<Reply> {
    Change(c.entry, BulkReply(c.result))
  }

  function FlagChange(c: Change<bool>): Change<Reply> {
    Change(c.entry, FlagReply(c.result))
  }

  function CountChange(c: Change<int>): Change<Reply> {
    Change(c.entry, CountReply(c.result))
  }

  function WriteChange(op: WriteOp, now: nat, e: Option<Entry>): Change<Reply> {
    match op
    case IncrBy(delta) => IntChange(AddOn(e, delta))
    case DecrBy(delta) => IntChange(AddOn(e, -(delta as int)))
    case Append(suffix) => IntChange(AppendOn(e, suffix))
    case GetSet(value) => BulkChange(GetSetOn(e, value))
    case PExpire(ms) => FlagChange(PExpireOn(e, now, ms))
    case Persist => FlagChange(PersistOn(e))
    case LPush(values) => CountChange(LPushOn(e, values))
    case RPush(values) => CountChange(RPushOn(e, values))
    case LPop => BulkChange(LPopOn(e))
    case RPop => BulkChange(RPopOn(e))
    case HSet(pairs) => CountChange(HSetOn(e, pairs))
    case HDel(names) => CountChange(HDelOn(e, names))
    case SAdd(names) => CountChange(SAddOn(e, names))
    case SRem(names) => CountChange(SRemOn(e, names))
  }

  // ---- operations on several keys, as functions of a map without dead entries --------

  function MemberOf(m: DataMap, key: string): set<string> {
    if key in m && m[key].value.SetValue? then m[key].value.members else {}
  }

  function UnionOf(m: DataMap, keys: seq<string>): set<string> {
    set k, x | k in keys && x in MemberOf(m, k) :: x
  }

  /** The members common to all the keys; an absent key or a key of another type counts as
      the empty set. */
  function InterOf(m: DataMap, keys: seq<string>): set<string> {
    if keys == [] then {}
    else set x | x in MemberOf(m, keys[0]) && forall k | k in keys :: x in MemberOf(m, k)
  }

  predicate NotASet(m: DataMap, key: string) {
    key in m && !m[key].value.SetValue?
  }

  function CountIn(m: DataMap, keys: seq<string>): nat {
    if keys == [] then 0
    else CountIn(m, keys[..|keys| - 1]) + if keys[|keys| - 1] in m then 1 else 0
  }

  function TextOrNull(m: DataMap, key: string): RespValue {
    if key in m && m[key].value.StringValue? then Bulk(m[key].value.data) else Null
  }

  function TextsOf(m: DataMap, keys: seq<string>): seq<RespValue> {
    seq(|keys|, i requires 0 <= i < |keys| => TextOrNull(m, keys[i]))
  }

  function Matching(m: DataMap, pattern: string): set<string> {
    set k | k in m && GlobMatches(pattern, k)
  }

  function SetReply(m: DataMap, keys: seq<string>, members: set<string>): Reply {
    if exists k | k in keys :: NotASet(m, k) then Complain(BadType) else Data(Array(Bulks(Sorted(members))))
  }

  // ---- decoded commands --------------------------------------------------------------

  datatype Plan =
    | Answer(reply: Reply)
    | Read(key: string, rop: ReadOp)
    | Write(key: string, wop: WriteOp)
    | Store(key: string, value: string, expiresAt: uint64, onlyNew: bool, onlyOld: bool)
    | StoreAll(pairs: seq<Pair>)
    | Delete(keys: seq<string>)
    | Count(keys: seq<string>)
    | GetAll(keys: seq<string>)
    | Union(keys: seq<string>)
    | Inter(keys: seq<string>)
    | CountAll
    | Clear
    | Keys(pattern: string)
    | Rename(src: string, dst: string)

  function Texts(pairs: seq<Pair>): (r: seq<(string, Entry)>)
    ensures |r| == |pairs|
  {
    seq(|pairs|, i requires 0 <= i < |pairs| => (pairs[i].0, Entry(StringValue(pairs[i].1), 0)))
  }

  predicate Refuses(plan: Plan, present: bool)
    requires plan.Store?
  {
    (plan.onlyNew && present) || (plan.onlyOld && !present)
  }

  /** One command on the program's map at time `now`. */
  function Exec(d: DataMap, now: nat, plan: Plan): (DataMap, Reply) {
    match plan
    case Answer(reply) => (d, reply)
    case Read(key, op) => (d, ReadReply(op, now, FindLive(d, key, now)))
    case Write(key, op) =>
      var c := WriteChange(op, now, FindLive(d, key, now));
      (Put(d, key, c.entry), c.result)
    case Store(key, value, expiresAt, _, _) =>
      if Refuses(plan, FindLive(d, key, now).Some?) then (d, NULL_BULK)
      else (d[key := Entry(StringValue(value), expiresAt)], OK)
    case StoreAll(pairs) => (Assigned(d, Texts(pairs)), OK)
    case Delete(keys) => (d - Elements(keys), Data(Integer(|Live(d, now).Keys * Elements(keys)|)))
    case Count(keys) => (d, Data(Integer(CountIn(Live(d, now), keys))))
    case GetAll(keys) => (d, Data(Array(TextsOf(Live(d, now), keys))))
    case Union(keys) => (d, SetReply(Live(d, now), keys, UnionOf(Live(d, now), keys)))
    case Inter(keys) => (d, SetReply(Live(d, now), keys, InterOf(Live(d, now), keys)))
    case CountAll => (d, Data(Integer(|Live(d, now)|)))
    case Clear => (map[], OK)
    case Keys(pattern) => (d, Data(Array(Bulks(Sorted(Matching(Live(d, now), pattern))))))
    case Rename(src, dst) =>
      var e := FindLive(d, src, now);
      if e.None? then (d - {src}, Complain(NoSuchKey)) else ((d - {src})[dst := e.value], OK)
  }

  /** The reference: the same command on a map that knows nothing of deadlines. */
  function SimpleExec(m: DataMap, now: nat, plan: Plan): (DataMap, Reply) {
    match plan
    case Answer(reply) => (m, reply)
    case Read(key, op) => (m, ReadReply(op, now, Find(m, key)))
    case Write(key, op) =>
      var c := WriteChange(op, now, Find(m, key));
      (Put(m, key, c.entry), c.result)
    case Store(key, value, expiresAt, _, _) =>
      if Refuses(plan, key in m) then (m, NULL_BULK)
      else (m[key := Entry(StringValue(value), expiresAt)], OK)
    case StoreAll(pairs) => (Assigned(m, Texts(pairs)), OK)
    case Delete(keys) => (m - Elements(keys), Data(Integer(|m.Keys * Elements(keys)|)))
    case Count(keys) => (m, Data(Integer(CountIn(m, keys))))
    case GetAll(keys) => (m, Data(Array(TextsOf(m, keys))))
    case Union(keys) => (m, SetReply(m, keys, UnionOf(m, keys)))
    case Inter(keys) => (m, SetReply(m, keys, InterOf(m, keys)))
    case CountAll => (m, Data(Integer(|m|)))
    case Clear => (map[], OK)
    case Keys(pattern) => (m, Data(Array(Bulks(Sorted(Matching(m, pattern))))))
    case Rename(src, dst) =>
      if src !in m then (m, Complain(NoSuchKey)) else ((m - {src})[dst := m[src]], OK)
  }
}
