/** The words in which the commands are told from outside, from a name and its arguments to the
    reply and the keyspace afterwards: when a key is there, what the error lines say, what it
    means for a reply to list some texts. Nothing here is shared with the way commands are
    decoded and executed. */
module Answers {
  import opened Wrappers
  import opened Int64
  import opened Lex
  import opened Resp
  import opened Values
  import opened Keyspace
  import opened Command
  import opened Requests
  import opened Service

  /** One command at one instant: the keyspace after it, and its reply. */
  function Do(d: DataMap, now: nat, name: string, args: seq<string>): (DataMap, Reply) {
    Exec(d, now, PlanOf(Command(name, args), now))
  }

  /** The key is there: stored, and its deadline, if it has one, lies ahead. */
  predicate There(d: DataMap, key: string, now: nat) {
    key in d && (d[key].expiresAt == 0 || now < d[key].expiresAt)
  }

  /** What a command finds under the key. */
  function SeenAt(d: DataMap, key: string, now: nat): Option<Entry> {
    if There(d, key, now) then Some(d[key]) else None
  }

  function DeadlineAt(d: DataMap, key: string, now: nat): uint64 {
    if There(d, key, now) then d[key].expiresAt else 0
  }

  lemma FoundExactly(d: DataMap, key: string, now: nat)
    ensures FindLive(d, key, now) == SeenAt(d, key, now)
    ensures key in Live(d, now) <==> There(d, key, now)
    ensures There(d, key, now) ==> Live(d, now)[key] == d[key]
  {
  }

  // ---- from the name to the operation ------------------------------------------------

  lemma DoVerb(d: DataMap, now: nat, verb: Verb, args: seq<string>)
    ensures Do(d, now, NameOf(verb), args) == Exec(d, now, PlanFor(verb, args, now))
  {
    hide VerbOf, PlanFor, Exec;
    NamedIsFound(verb);
  }

  lemma DoRead(d: DataMap, now: nat, verb: Verb, args: seq<string>, key: string, op: ReadOp)
    requires PlanFor(verb, args, now) == Read(key, op)
    ensures Do(d, now, NameOf(verb), args) == (d, ReadReply(op, now, SeenAt(d, key, now)))
  {
    hide Do, PlanFor, NameOf, ReadReply;
    DoVerb(d, now, verb, args);
    FoundExactly(d, key, now);
  }

  lemma DoWrite(d: DataMap, now: nat, verb: Verb, args: seq<string>, key: string, op: WriteOp)
    requires PlanFor(verb, args, now) == Write(key, op)
    ensures var c := WriteChange(op, now, SeenAt(d, key, now));
            Do(d, now, NameOf(verb), args) == (Put(d, key, c.entry), c.result)
  {
    hide Do, PlanFor, NameOf, WriteChange;
    DoVerb(d, now, verb, args);
    FoundExactly(d, key, now);
  }

  // ---- error lines -------------------------------------------------------------------

  function WrongTypeError(): Reply {
    Data(Err("WRONGTYPE Operation against a key holding the wrong kind of value"))
  }

  function IntegerError(): Reply {
    Data(Err("ERR value is not an integer or out of range"))
  }

  function NoSuchKeyError(): Reply {
    Data(Err("ERR no such key"))
  }

  function SyntaxFault(): Reply {
    Data(Err("ERR syntax error"))
  }

  function ArityError(): Reply {
    Data(Err("wrong number of arguments"))
  }

  /** The program's error replies say just this. */
  lemma ErrorLines()
    ensures Data(Err(ErrorText(StoreError.WrongType))) == Complain(BadType) == WrongTypeError()
    ensures Data(Err(ErrorText(NotAnInteger))) == Complain(BadInteger) == IntegerError()
    ensures Complain(NoSuchKey) == NoSuchKeyError() && Complain(SyntaxError) == SyntaxFault()
    ensures Complain(WrongArity) == ArityError()
  {
  }

  // ---- arrays of texts ---------------------------------------------------------------

  /** The reply is the array of these texts, in this order. */
  ghost predicate Lists(r: Reply, texts: seq<string>) {
    && r.Data? && r.value.Array? && |r.value.elems| == |texts|
    && forall i | 0 <= i < |texts| :: r.value.elems[i] == Bulk(texts[i])
  }

  lemma BulksList(texts: seq<string>)
    ensures Lists(Data(Array(Bulks(texts))), texts)
  {
  }

  /** The reply is the array of just these texts, each once, in byte order. */
  ghost predicate ListsInOrder(r: Reply, texts: set<string>) {
    exists q :: Lists(r, q) && Ascending(q) && |q| == |texts| && forall x :: x in q <==> x in texts
  }

  ghost predicate Ascending(q: seq<string>) {
    forall i, j | 0 <= i < j < |q| :: Before(q[i], q[j])
  }

  lemma SortedAscends(s: set<string>)
    ensures Ascending(Sorted(s))
    ensures ListsInOrder(Data(Array(Bulks(Sorted(s)))), s)
  {
    var q := Sorted(s);
    forall i, j | 0 <= i < j < |q| ensures Before(q[i], q[j]) {
      LessExactly(q[i], q[j]);
    }
    BulksList(q);
  }

  lemma EmptyInOrder()
    ensures ListsInOrder(Data(Array([])), {})
  {
    SortedAscends({});
    assert Bulks(Sorted({})) == [];
  }

  lemma ElementsAreGiven(names: seq<string>)
    ensures Elements(names) == set x | x in names
  {
  }

  // ---- arguments in pairs ------------------------------------------------------------

  /** The names at the even places. */
  function NamesIn(flat: seq<string>): set<string> {
    set i | 0 <= i < |flat| / 2 :: flat[2 * i]
  }

  /** The i-th pair is the last one for its name. */
  predicate LastOfItsName(flat: seq<string>, i: nat)
    requires i < |flat| / 2
  {
    forall j | i < j < |flat| / 2 :: flat[2 * j] != flat[2 * i]
  }

  lemma PairsAreFlat(flat: seq<string>)
    ensures forall i | 0 <= i < |flat| / 2 :: PairsFrom(flat, 0)[i] == (flat[2 * i], flat[2 * i + 1])
    ensures Names(PairsFrom(flat, 0)) == NamesIn(flat)
  {
    var pairs := PairsFrom(flat, 0);
    forall i | 0 <= i < |flat| / 2 ensures pairs[i] == (flat[2 * i], flat[2 * i + 1]) {
    }
    forall x ensures x in Names(pairs) <==> x in NamesIn(flat) {
      if x in Names(pairs) {
        var i :| 0 <= i < |pairs| && pairs[i].0 == x;
        assert flat[2 * i] == x;
      }
      if x in NamesIn(flat) {
        var i :| 0 <= i < |flat| / 2 && flat[2 * i] == x;
        assert pairs[i].0 == x;
      }
    }
  }

  // ---- names and numbers of arguments ------------------------------------------------

  /** How many arguments each command takes. */
  predicate Takes(verb: Verb, n: nat) {
    match verb
    case DBSIZE | FLUSHDB => n == 0
    case PING => n <= 1
    case DECR | ECHO | GET | HGETALL | HKEYS | HLEN | HVALS | INCR | KEYS | LLEN | LPOP | PERSIST | PTTL | RPOP
       | SCARD | SMEMBERS | STRLEN | TTL | TYPE => n == 1
    case APPEND | DECRBY | EXPIRE | GETSET | HEXISTS | HGET | INCRBY | LINDEX | PEXPIRE | RENAME | SISMEMBER => n == 2
    case LRANGE => n == 3
    case DEL | EXISTS | MGET | SINTER | SUNION => n >= 1
    case HDEL | LPUSH | RPUSH | SADD | SREM | SET => n >= 2
    case MSET => n >= 2 && n % 2 == 0
    case HSET => n >= 3 && n % 2 == 1
  }

  /** Any other number is answered by an error and changes nothing. */
  lemma WrongArityIsRefused(d: DataMap, now: nat, verb: Verb, args: seq<string>)
    requires !Takes(verb, |args|)
    ensures Do(d, now, NameOf(verb), args) == (d, ArityError())
  {
    hide Do, PlanFor, NameOf, Takes, ArityError, ComplaintText;
    ErrorLines();
    DoVerb(d, now, verb, args);
    ArityIsChecked(verb, args, now);
  }

  lemma ArityIsChecked(verb: Verb, args: seq<string>, now: nat)
    requires !Takes(verb, |args|)
    ensures PlanFor(verb, args, now) == Answer(Complain(WrongArity))
  {
    hide PlanFor, Takes, Complain;
    if Writer(verb) {
      WriterArityIsChecked(verb, args, now);
    } else {
      ReaderArityIsChecked(verb, args, now);
    }
  }

  lemma WriterArityIsChecked(verb: Verb, args: seq<string>, now: nat)
    requires Writer(verb) && !Takes(verb, |args|)
    ensures PlanFor(verb, args, now) == Answer(Complain(WrongArity))
  {
    hide Complain;
  }

  lemma ReaderArityIsChecked(verb: Verb, args: seq<string>, now: nat)
    requires !Writer(verb) && !Takes(verb, |args|)
    ensures PlanFor(verb, args, now) == Answer(Complain(WrongArity))
  {
    hide Complain;
  }

  /** A name that is none of the table's is answered by an error that repeats it. */
  lemma UnknownNameIsRefused(d: DataMap, now: nat, name: string, args: seq<string>)
    requires forall verb :: name != NameOf(verb)
    ensures Do(d, now, name, args) == (d, Data(Err("ERR unknown command '" + name + "'")))
  {
    if VerbOf(name).Some? {
      TableExactly(name, VerbOf(name).value);
    }
  }

  /** A status is printed as a line of its own. */
  lemma StatusLine(text: string)
    ensures Render(Status(text)) == ['+'] + text + ['\r', '\n']
  {
  }

  /** A frame that carries a command is answered and executed as that command; any other changes
      nothing and is answered by an error. */
  lemma FramesAreCommands(d: DataMap, now: nat, v: RespValue)
    ensures forall cmd | Carries(v, cmd) :: HANDLE(d, now, v) == Do(d, now, cmd.name, cmd.args)
    ensures (forall cmd :: !Carries(v, cmd)) ==>
              HANDLE(d, now, v).0 == d && HANDLE(d, now, v).1.Data? && HANDLE(d, now, v).1.value.Err?
  {
    hide Exec, PlanOf, Carries;
    RefusedExactly(v);
    forall cmd | Carries(v, cmd) ensures HANDLE(d, now, v) == Do(d, now, cmd.name, cmd.args) {
      AcceptedExactlyIfCarried(v, cmd);
      assert cmd == Command(cmd.name, cmd.args);
    }
    if RequestOf(v).Accepted? {
      AcceptedExactlyIfCarried(v, RequestOf(v).cmd);
    }
  }
}
