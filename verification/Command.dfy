/** Requests: from a parsed RESP value to a command, and from a command to what it asks of
    the keyspace. `PlanFor` holds the arity and argument checks of every handler in the
    dispatch table. */
module Command {
  import opened Wrappers
  import opened Int64
  import opened Resp
  import opened Values
  import opened Keyspace

  datatype Command = Command(name: string, args: seq<string>)

  datatype Verb =
    | APPEND | DBSIZE | DECR | DECRBY | DEL | ECHO | EXISTS | EXPIRE | FLUSHDB | GET | GETSET
    | HDEL | HEXISTS | HGET | HGETALL | HKEYS | HLEN | HSET | HVALS | INCR | INCRBY | KEYS
    | LINDEX | LLEN | LPOP | LPUSH | LRANGE | MGET | MSET | PERSIST | PEXPIRE | PING | PTTL
    | RENAME | RPOP | RPUSH | SADD | SCARD | SET | SINTER | SISMEMBER | SMEMBERS | SREM
    | STRLEN | SUNION | TTL | TYPE

  /** The dispatch table: names as they appear after upper-casing, by length. */
  function VerbOf(name: string): Option<Verb> {
    match |name|
    case 3 => ThreeLetters(name)
    case 4 => FourLetters(name)
    case 5 => FiveLetters(name)
    case 6 => SixLetters(name)
    case 7 => SevenLetters(name)
    case 8 => if name == "SMEMBERS" then Some(SMEMBERS) else None
    case 9 => if name == "SISMEMBER" then Some(SISMEMBER) else None
    case _ => None
  }

  function ThreeLetters(name: string): Option<Verb> {
    if name == "DEL" then Some(DEL) else if name == "GET" then Some(GET)
    else if name == "SET" then Some(SET) else if name == "TTL" then Some(TTL) else None
  }

  function FourLetters(name: string): Option<Verb> {
    if name == "DECR" then Some(DECR) else if name == "ECHO" then Some(ECHO)
    else if name == "HDEL" then Some(HDEL) else if name == "HGET" then Some(HGET)
    else if name == "HLEN" then Some(HLEN) else if name == "HSET" then Some(HSET)
    else if name == "INCR" then Some(INCR) else if name == "KEYS" then Some(KEYS)
    else if name == "LLEN" then Some(LLEN) else if name == "LPOP" then Some(LPOP)
    else if name == "MGET" then Some(MGET) else if name == "MSET" then Some(MSET)
    else if name == "PING" then Some(PING) else if name == "PTTL" then Some(PTTL)
    else if name == "RPOP" then Some(RPOP) else if name == "SADD" then Some(SADD)
    else if name == "SREM" then Some(SREM) else if name == "TYPE" then Some(TYPE) else None
  }

  function FiveLetters(name: string): Option<Verb> {
    if name == "HKEYS" then Some(HKEYS) else if name == "HVALS" then Some(HVALS)
    else if name == "LPUSH" then Some(LPUSH) else if name == "RPUSH" then Some(RPUSH)
    else if name == "SCARD" then Some(SCARD) else None
  }

  function SixLetters(name: string): Option<Verb> {
    if name == "APPEND" then Some(APPEND) else if name == "DBSIZE" then Some(DBSIZE)
    else if name == "DECRBY" then Some(DECRBY) else if name == "EXISTS" then Some(EXISTS)
    else if name == "EXPIRE" then Some(EXPIRE) else if name == "GETSET" then Some(GETSET)
    else if name == "INCRBY" then Some(INCRBY) else if name == "LINDEX" then Some(LINDEX)
    else if name == "LRANGE" then Some(LRANGE) else if name == "RENAME" then Some(RENAME)
    else if name == "SINTER" then Some(SINTER) else if name == "STRLEN" then Some(STRLEN)
    else if name == "SUNION" then Some(SUNION) else None
  }

  function SevenLetters(name: string): Option<Verb> {
    if name == "FLUSHDB" then Some(FLUSHDB) else if name == "HEXISTS" then Some(HEXISTS)
    else if name == "HGETALL" then Some(HGETALL) else if name == "PERSIST" then Some(PERSIST)
    else if name == "PEXPIRE" then Some(PEXPIRE) else None
  }

  /** `is_write_command`. */
  predicate IsWriteCommand(cmd: Command) {
    cmd.name in [
      "SET", "DEL", "INCR", "INCRBY", "DECR", "DECRBY", "APPEND",
      "GETSET", "MSET", "EXPIRE", "PEXPIRE", "PERSIST", "LPUSH", "RPUSH",
      "LPOP", "RPOP", "HSET", "HDEL", "SADD", "SREM", "FLUSHDB",
      "RENAME"]
  }

  // ---- from a value to a command -----------------------------------------------------

  /** `std::toupper` in the C locale. */
  function Upper(c: char): char {
    if 'a' <= c <= 'z' then ((c as int) - ('a' as int) + ('A' as int)) as char else c
  }

  function Uppercase(s: string): string {
    seq(|s|, i requires 0 <= i < |s| => Upper(s[i]))
  }

  datatype Request = Accepted(cmd: Command) | Refused(reply: Reply)

  datatype Malformed = NotAnArray | NoCommand | NotBulk | EmptyName

  function Malformation(m: Malformed): string {
    match m
    case NotAnArray => "expected array"
    case NoCommand => "expected command"
    case NotBulk => "expected bulk string"
    case EmptyName => "empty command"
  }

  function ProtocolError(m: Malformed): Request {
    Refused(Data(Err("ERR Protocol error: " + Malformation(m))))
  }

  function TextOf(v: RespValue): string {
    if v.Bulk? then v.text else ""
  }

  function RequestOf(v: RespValue): Request {
    if !v.Array? then ProtocolError(NotAnArray)
    else if v.elems == [] then ProtocolError(NoCommand)
    else if exists i | 0 <= i < |v.elems| :: !v.elems[i].Bulk? then ProtocolError(NotBulk)
    else if TextOf(v.elems[0]) == "" then ProtocolError(EmptyName)
    else
      Accepted(Command(Uppercase(TextOf(v.elems[0])),
                       seq(|v.elems| - 1, i requires 0 <= i < |v.elems| - 1 => TextOf(v.elems[i + 1]))))
  }

  method ParseCommand(v: RespValue) returns (r: Request)
    ensures r == RequestOf(v)
  {
    if !v.Array? {
      return ProtocolError(NotAnArray);
    }
    var elems := v.elems;
    if elems == [] {
      return ProtocolError(NoCommand);
    }
    var name := "";
    var args: seq<string> := [];
    for i := 0 to |elems|
      invariant forall j | 0 <= j < i :: elems[j].Bulk?
      invariant i > 0 ==> name == Uppercase(TextOf(elems[0]))
      invariant |args| == if i == 0 then 0 else i - 1
      invariant forall j | 0 <= j < |args| :: args[j] == TextOf(elems[j + 1])
    {
      if !elems[i].Bulk? {
        return ProtocolError(NotBulk);
      }
      if i == 0 {
        name := Uppercase(elems[i].text);
      } else {
        args := args + [elems[i].text];
      }
    }
    if name == "" {
      return ProtocolError(EmptyName);
    }
    return Accepted(Command(name, args));
  }

  // ---- SET options -------------------------------------------------------------------

  datatype Options = Options(expiresAt: uint64, onlyNew: bool, onlyOld: bool) | Rejected(reply: Reply)

  /** Read the options from the left; the last EX or PX counts, NX and XX exclude each other. */
  function ReadOptions(args: seq<string>, i: nat, now: nat, o: Options): Options
    requires o.Options?
    decreases |args| - i
  {
    if i >= |args| then o
    else
      var option := Uppercase(args[i]);
      if option == "EX" || option == "PX" then
        if i + 1 >= |args| then Rejected(Complain(SyntaxError))
        else
          match ParseU64(args[i + 1])
          case None => Rejected(Complain(BadInteger))
          case Some(amount) =>
            if amount == 0 then Rejected(Complain(BadInteger))
            else
              var ms := if option == "EX" then SecondsToMs(amount) else amount;
              ReadOptions(args, i + 2, now, o.(expiresAt := Deadline(now, ms)))
      else if option == "NX" then
        if o.onlyOld then Rejected(Complain(SyntaxError)) else ReadOptions(args, i + 1, now, o.(onlyNew := true))
      else if option == "XX" then
        if o.onlyNew then Rejected(Complain(SyntaxError)) else ReadOptions(args, i + 1, now, o.(onlyOld := true))
      else Rejected(Complain(SyntaxError))
  }

  const NO_OPTIONS := Options(0, false, false)

  method ParseOptions(args: seq<string>, now: nat) returns (r: Options)
    ensures r == ReadOptions(args, 2, now, NO_OPTIONS)
  {
    var expiresAt: uint64, onlyNew, onlyOld := 0, false, false;
    var i := 2;
    while i < |args|
      invariant ReadOptions(args, 2, now, NO_OPTIONS) ==
                ReadOptions(args, i, now, Options(expiresAt, onlyNew, onlyOld))
      decreases |args| - i
    {
      var option := Uppercase(args[i]);
      if option == "EX" || option == "PX" {
        if i + 1 >= |args| {
          return Rejected(Complain(SyntaxError));
        }
        i := i + 1;
        var amount := ParseU64(args[i]);
        if amount.None? || amount.value == 0 {
          return Rejected(Complain(BadInteger));
        }
        expiresAt := Deadline(now, if option == "EX" then SecondsToMs(amount.value) else amount.value);
      } else if option == "NX" {
        if onlyOld {
          return Rejected(Complain(SyntaxError));
        }
        onlyNew := true;
      } else if option == "XX" {
        if onlyNew {
          return Rejected(Complain(SyntaxError));
        }
        onlyOld := true;
      } else {
        return Rejected(Complain(SyntaxError));
      }
      i := i + 1;
    }
    return Options(expiresAt, onlyNew, onlyOld);
  }

  // ---- argument pairs ----------------------------------------------------------------

  function PairsFrom(args: seq<string>, from: nat): (r: seq<Pair>)
    requires from <= |args|
    ensures |r| == (|args| - from) / 2
  {
    seq((|args| - from) / 2, i requires 0 <= i < (|args| - from) / 2 => (args[from + 2 * i], args[from + 2 * i + 1]))
  }

  method CollectPairs(args: seq<string>, from: nat) returns (pairs: seq<Pair>)
    requires from <= |args| && (|args| - from) % 2 == 0
    ensures pairs == PairsFrom(args, from)
  {
    pairs := [];
    var i := from;
    while i < |args|
      invariant from <= i <= |args| && (i - from) % 2 == 0
      invariant |pairs| == (i - from) / 2
      invariant pairs == PairsFrom(args, from)[..|pairs|]
    {
      pairs := pairs + [(args[i], args[i + 1])];
      i := i + 2;
    }
  }

  // ---- from a command to a plan ------------------------------------------------------

  function UnknownCommand(name: string): Reply {
    Data(Err("ERR unknown command '" + name + "'"))
  }

  function PlanOf(cmd: Command, now: nat): Plan {
    match VerbOf(cmd.name)
    case None => Answer(UnknownCommand(cmd.name))
    case Some(verb) => PlanFor(verb, cmd.args, now)
  }

  function PlanSet(args: seq<string>, now: nat): Plan {
    if |args| < 2 then Answer(Complain(WrongArity))
    else
      match ReadOptions(args, 2, now, NO_OPTIONS)
      case Rejected(reply) => Answer(reply)
      case Options(expiresAt, onlyNew, onlyOld) => Store(args[0], args[1], expiresAt, onlyNew, onlyOld)
  }

  function PlanDelta(args: seq<string>, down: bool): Plan {
    if |args| != 2 then Answer(Complain(WrongArity))
    else
      match ParseI64(args[1])
      case None => Answer(Complain(BadInteger))
      case Some(delta) => Write(args[0], if down then DecrBy(delta) else IncrBy(delta))
  }

  function PlanExpire(args: seq<string>, seconds: bool): Plan {
    if |args| != 2 then Answer(Complain(WrongArity))
    else
      match ParseU64(args[1])
      case None => Answer(Complain(BadInteger))
      case Some(amount) => Write(args[0], PExpire(if seconds then SecondsToMs(amount) else amount))
  }

  function PlanRange(args: seq<string>): Plan {
    if |args| != 3 then Answer(Complain(WrongArity))
    else
      match (ParseI64(args[1]), ParseI64(args[2]))
      case (Some(start), Some(stop)) => Read(args[0], ReadOp.LRange(start, stop))
      case _ => Answer(Complain(BadInteger))
  }

  function PlanIndex(args: seq<string>): Plan {
    if |args| != 2 then Answer(Complain(WrongArity))
    else
      match ParseI64(args[1])
      case None => Answer(Complain(BadInteger))
      case Some(index) => Read(args[0], ReadOp.LIndex(index))
  }

  function PlanPing(args: seq<string>): Plan {
    if |args| == 0 then Answer(Status("PONG"))
    else if |args| == 1 then Answer(Data(Bulk(args[0])))
    else Answer(Complain(WrongArity))
  }

  /** A handler that takes exactly its key. */
  function ReadKey(args: seq<string>, op: ReadOp): Plan {
    if |args| == 1 then Read(args[0], op) else Answer(Complain(WrongArity))
  }

  function WriteKey(args: seq<string>, op: WriteOp): Plan {
    if |args| == 1 then Write(args[0], op) else Answer(Complain(WrongArity))
  }

  function Arity(ok: bool, plan: Plan): Plan {
    if ok then plan else Answer(Complain(WrongArity))
  }

  function Arg(args: seq<string>, i: nat): string {
    if i < |args| then args[i] else ""
  }

  function Tail(args: seq<string>): seq<string> {
    if args == [] then [] else args[1..]
  }

  function PlanFor(verb: Verb, args: seq<string>, now: nat): Plan {
    match verb
    case APPEND => Arity(|args| == 2, Write(Arg(args, 0), WriteOp.Append(Arg(args, 1))))
    case DBSIZE => Arity(args == [], CountAll)
    case DECR => WriteKey(args, WriteOp.DecrBy(1))
    case DECRBY => PlanDelta(args, true)
    case DEL => Arity(|args| >= 1, Delete(args))
    case ECHO => Arity(|args| == 1, Answer(Data(Bulk(Arg(args, 0)))))
    case EXISTS => Arity(|args| >= 1, Count(args))
    case EXPIRE => PlanExpire(args, true)
    case FLUSHDB => Arity(args == [], Clear)
    case GET => ReadKey(args, ReadOp.Get)
    case GETSET => Arity(|args| == 2, Write(Arg(args, 0), WriteOp.GetSet(Arg(args, 1))))
    case HDEL => Arity(|args| >= 2, Write(Arg(args, 0), WriteOp.HDel(Tail(args))))
    case HEXISTS => Arity(|args| == 2, Read(Arg(args, 0), ReadOp.HExists(Arg(args, 1))))
    case HGET => Arity(|args| == 2, Read(Arg(args, 0), ReadOp.HGet(Arg(args, 1))))
    case HGETALL => ReadKey(args, ReadOp.HGetAll)
    case HKEYS => ReadKey(args, ReadOp.HKeys)
    case HLEN => ReadKey(args, ReadOp.HLen)
    case HSET =>
      if |args| < 3 || |args| % 2 == 0 then Answer(Complain(WrongArity))
      else Write(args[0], WriteOp.HSet(PairsFrom(args, 1)))
    case HVALS => ReadKey(args, ReadOp.HVals)
    case INCR => WriteKey(args, WriteOp.IncrBy(1))
    case INCRBY => PlanDelta(args, false)
    case KEYS => Arity(|args| == 1, Plan.Keys(Arg(args, 0)))
    case LINDEX => PlanIndex(args)
    case LLEN => ReadKey(args, ReadOp.LLen)
    case LPOP => WriteKey(args, WriteOp.LPop)
    case LPUSH => Arity(|args| >= 2, Write(Arg(args, 0), WriteOp.LPush(Tail(args))))
    case LRANGE => PlanRange(args)
    case MGET => Arity(|args| >= 1, GetAll(args))
    case MSET =>
      if |args| < 2 || |args| % 2 != 0 then Answer(Complain(WrongArity)) else StoreAll(PairsFrom(args, 0))
    case PERSIST => WriteKey(args, WriteOp.Persist)
    case PEXPIRE => PlanExpire(args, false)
    case PING => PlanPing(args)
    case PTTL => ReadKey(args, ReadOp.Pttl)
    case RENAME => Arity(|args| == 2, Plan.Rename(Arg(args, 0), Arg(args, 1)))
    case RPOP => WriteKey(args, WriteOp.RPop)
    case RPUSH => Arity(|args| >= 2, Write(Arg(args, 0), WriteOp.RPush(Tail(args))))
    case SADD => Arity(|args| >= 2, Write(Arg(args, 0), WriteOp.SAdd(Tail(args))))
    case SCARD => ReadKey(args, ReadOp.SCard)
    case SET => PlanSet(args, now)
    case SINTER => Arity(|args| >= 1, Inter(args))
    case SISMEMBER => Arity(|args| == 2, Read(Arg(args, 0), ReadOp.SIsMember(Arg(args, 1))))
    case SMEMBERS => ReadKey(args, ReadOp.SMembers)
    case SREM => Arity(|args| >= 2, Write(Arg(args, 0), WriteOp.SRem(Tail(args))))
    case STRLEN => ReadKey(args, ReadOp.Strlen)
    case SUNION => Arity(|args| >= 1, Union(args))
    case TTL => ReadKey(args, ReadOp.Ttl)
    case TYPE => ReadKey(args, ReadOp.Type)
  }

  // ---- what decoding guarantees ------------------------------------------------------

  predicate WritingPlan(plan: Plan) {
    plan.Write? || plan.Store? || plan.StoreAll? || plan.Delete? || plan.Clear? || plan.Rename?
  }

  /** The handler of the verb can be made to change the keyspace. */
  ghost predicate WritingVerb(verb: Verb) {
    exists args, now :: WritingPlan(PlanFor(verb, args, now))
  }

  predicate StringWriter(verb: Verb) {
    verb == SET || verb == INCR || verb == INCRBY || verb == DECR || verb == DECRBY ||
    verb == APPEND || verb == GETSET || verb == MSET
  }

  predicate KeyWriter(verb: Verb) {
    verb == DEL || verb == EXPIRE || verb == PEXPIRE || verb == PERSIST || verb == FLUSHDB || verb == RENAME
  }

  predicate CollectionWriter(verb: Verb) {
    verb == LPUSH || verb == RPUSH || verb == LPOP || verb == RPOP ||
    verb == HSET || verb == HDEL || verb == SADD || verb == SREM
  }

  predicate Writer(verb: Verb) {
    StringWriter(verb) || KeyWriter(verb) || CollectionWriter(verb)
  }

  predicate DispatchesToWriter(name: string) {
    VerbOf(name).Some? && Writer(VerbOf(name).value)
  }

  lemma OnlyWritersWrite(verb: Verb, args: seq<string>, now: nat)
    requires WritingPlan(PlanFor(verb, args, now))
    ensures Writer(verb)
  {
  }

  /** Arguments with which a writing handler gets as far as writing. */
  function WritingArgs(verb: Verb): seq<string> {
    match verb
    case FLUSHDB => []
    case INCR | DECR | PERSIST | LPOP | RPOP | DEL => ["k"]
    case HSET => ["k", "1", "1"]
    case _ => ["k", "1"]
  }

  lemma OneIsANumber()
    ensures ParseI64("1") == Some(1) && ParseU64("1") == Some(1)
  {
    assert Digits(1) == "1";
    ParseToString(1);
    ParseU64ToString(1);
  }

  lemma StringWritersWrite(verb: Verb)
    requires StringWriter(verb)
    ensures WritingPlan(PlanFor(verb, WritingArgs(verb), 0))
  {
    OneIsANumber();
  }

  lemma KeyWritersWrite(verb: Verb)
    requires KeyWriter(verb)
    ensures WritingPlan(PlanFor(verb, WritingArgs(verb), 0))
  {
    OneIsANumber();
  }

  lemma CollectionWritersWrite(verb: Verb)
    requires CollectionWriter(verb)
    ensures WritingPlan(PlanFor(verb, WritingArgs(verb), 0))
  {
  }

  lemma WritersAreWriting(verb: Verb)
    ensures Writer(verb) <==> WritingVerb(verb)
  {
    if StringWriter(verb) {
      StringWritersWrite(verb);
    } else if KeyWriter(verb) {
      KeyWritersWrite(verb);
    } else if CollectionWriter(verb) {
      CollectionWritersWrite(verb);
    } else if WritingVerb(verb) {
      var args, now :| WritingPlan(PlanFor(verb, args, now));
      OnlyWritersWrite(verb, args, now);
    }
  }

  /** The two tables of the program agree: a name is in `write_commands` exactly when the
      dispatch table sends it to a handler that can change the keyspace. */
  lemma WriteTablesAgree(cmd: Command)
    ensures IsWriteCommand(cmd) <==> VerbOf(cmd.name).Some? && WritingVerb(VerbOf(cmd.name).value)
  {
    if IsWriteCommand(cmd) {
      ListedNamesDispatch(cmd);
    }
    if VerbOf(cmd.name).Some? {
      WritersAreWriting(VerbOf(cmd.name).value);
      if Writer(VerbOf(cmd.name).value) {
        DispatchedNamesAreListed(cmd);
      }
    }
  }

  lemma ListedNamesDispatch(cmd: Command)
    requires IsWriteCommand(cmd)
    ensures DispatchesToWriter(cmd.name)
  {
    if cmd.name in ["SET", "INCR", "INCRBY", "DECR", "DECRBY", "APPEND"] {
      StringWritersDispatch();
    } else if cmd.name in ["DEL", "EXPIRE", "PEXPIRE", "PERSIST", "FLUSHDB", "RENAME"] {
      KeyWritersDispatch();
    } else if cmd.name in ["LPUSH", "RPUSH", "LPOP", "RPOP"] {
      ListWritersDispatch();
    } else if cmd.name in ["HSET", "HDEL", "MSET"] {
      HashWritersDispatch();
    } else {
      SetWritersDispatch();
    }
  }

  lemma StringWritersDispatch()
    ensures VerbOf("SET") == Some(SET) && VerbOf("INCR") == Some(INCR)
    ensures VerbOf("INCRBY") == Some(INCRBY) && VerbOf("DECR") == Some(DECR)
    ensures VerbOf("DECRBY") == Some(DECRBY) && VerbOf("APPEND") == Some(APPEND)
  {
  }

  lemma KeyWritersDispatch()
    ensures VerbOf("DEL") == Some(DEL) && VerbOf("EXPIRE") == Some(EXPIRE)
    ensures VerbOf("PEXPIRE") == Some(PEXPIRE) && VerbOf("PERSIST") == Some(PERSIST)
    ensures VerbOf("FLUSHDB") == Some(FLUSHDB) && VerbOf("RENAME") == Some(RENAME)
  {
  }

  lemma ListWritersDispatch()
    ensures VerbOf("LPUSH") == Some(LPUSH) && VerbOf("RPUSH") == Some(RPUSH)
    ensures VerbOf("LPOP") == Some(LPOP) && VerbOf("RPOP") == Some(RPOP)
  {
  }

  lemma HashWritersDispatch()
    ensures VerbOf("HSET") == Some(HSET) && VerbOf("HDEL") == Some(HDEL)
    ensures VerbOf("MSET") == Some(MSET)
  {
  }

  lemma SetWritersDispatch()
    ensures VerbOf("SADD") == Some(SADD) && VerbOf("SREM") == Some(SREM)
    ensures VerbOf("GETSET") == Some(GETSET)
  {
  }

  lemma DispatchedNamesAreListed(cmd: Command)
    requires DispatchesToWriter(cmd.name)
    ensures IsWriteCommand(cmd)
  {
    var verb := VerbOf(cmd.name).value;
    if StringWriter(verb) {
      if |cmd.name| <= 4 {
        ShortStringWritersAreListed(cmd);
      } else {
        LongStringWritersAreListed(cmd);
      }
    } else if KeyWriter(verb) {
      KeyWritersAreListed(cmd);
    } else if |cmd.name| <= 4 {
      ShortCollectionWritersAreListed(cmd);
    } else {
      LongCollectionWritersAreListed(cmd);
    }
  }

  lemma ShortStringWritersAreListed(cmd: Command)
    requires VerbOf(cmd.name).Some? && StringWriter(VerbOf(cmd.name).value) && |cmd.name| <= 4
    ensures IsWriteCommand(cmd)
  {
  }

  lemma LongStringWritersAreListed(cmd: Command)
    requires VerbOf(cmd.name).Some? && StringWriter(VerbOf(cmd.name).value) && |cmd.name| > 4
    ensures IsWriteCommand(cmd)
  {
  }

  lemma KeyWritersAreListed(cmd: Command)
    requires VerbOf(cmd.name).Some? && KeyWriter(VerbOf(cmd.name).value)
    ensures IsWriteCommand(cmd)
  {
  }

  lemma ShortCollectionWritersAreListed(cmd: Command)
    requires VerbOf(cmd.name).Some? && CollectionWriter(VerbOf(cmd.name).value) && |cmd.name| <= 4
    ensures IsWriteCommand(cmd)
  {
  }

  lemma LongCollectionWritersAreListed(cmd: Command)
    requires VerbOf(cmd.name).Some? && CollectionWriter(VerbOf(cmd.name).value) && |cmd.name| > 4
    ensures IsWriteCommand(cmd)
  {
  }

  /** A command outside `is_write_command` never plans a change of the keyspace. */
  lemma OnlyWritersPlanWrites(cmd: Command, now: nat)
    ensures WritingPlan(PlanOf(cmd, now)) ==> IsWriteCommand(cmd)
  {
    if WritingPlan(PlanOf(cmd, now)) {
      OnlyWritersWrite(VerbOf(cmd.name).value, cmd.args, now);
      DispatchedNamesAreListed(cmd);
    }
  }
}
