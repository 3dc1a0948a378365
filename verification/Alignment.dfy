/** Replies on the wire: what a client that speaks RESP reads back is exactly one value per
    request, in order, with nothing left over. Sizes are kept in the int64 range by `Fits`,
    the statement that the process has not run out of address space. */
module Alignment {
  import opened Wrappers
  import opened Int64
  import opened Lex
  import opened Folds
  import opened Resp
  import opened RespLaws
  import opened Values
  import opened Keyspace
  import opened Command

  // ---- one reply ---------------------------------------------------------------------

  predicate Wireable(r: Reply) {
    match r
    case Status(text) => NoCrlf(text)
    case Data(value) => Encodable(value)
  }

  /** What the client reads: a status line comes back as a string. */
  function Meaning(r: Reply): RespValue {
    match r
    case Status(text) => Bulk(text)
    case Data(value) => value
  }

  lemma ReplyRoundTrip(r: Reply, post: Bytes)
    requires Wireable(r)
    ensures Parse(Render(r) + post) == Complete(Meaning(r), |Render(r)|)
  {
    match r
    case Status(text) => LineFound('+', text, post);
    case Data(value) => RoundTrip(value, post);
  }

  const PRINT: Reply -> Bytes := (r: Reply) => Render(r)

  function RenderAll(rs: seq<Reply>): Bytes {
    Join(PRINT, rs)
  }

  function Meanings(rs: seq<Reply>): (vs: seq<RespValue>)
    ensures |vs| == |rs|
  {
    if rs == [] then [] else Meanings(rs[..|rs| - 1]) + [Meaning(rs[|rs| - 1])]
  }

  ghost predicate AllWireable(rs: seq<Reply>) {
    forall i | 0 <= i < |rs| :: Wireable(rs[i])
  }

  lemma DrainReply(r: Reply)
    requires Wireable(r)
    ensures Drain(Render(r)) == Stream([Meaning(r)], [], false)
  {
    ReplyRoundTrip(r, []);
    assert Render(r) + [] == Render(r);
    assert Render(r)[|Render(r)|..] == [];
  }

  /** A sequence of replies decodes to their meanings, one each. */
  lemma {:induction false} RepliesAlign(rs: seq<Reply>)
    requires AllWireable(rs)
    ensures Drain(RenderAll(rs)) == Stream(Meanings(rs), [], false)
    decreases |rs|
  {
    if rs != [] {
      var init, last := rs[..|rs| - 1], rs[|rs| - 1];
      RepliesAlign(init);
      DrainOneMore(RenderAll(init), Meanings(init), last);
    }
  }

  lemma {:induction false} MeaningAt(rs: seq<Reply>, i: nat)
    requires i < |rs|
    ensures Meanings(rs)[i] == Meaning(rs[i])
    decreases |rs|
  {
    if i < |rs| - 1 {
      MeaningAt(rs[..|rs| - 1], i);
    }
  }

  /** A single reply outside the printer's domain spoils the whole stream. */
  lemma OneBadReplyMisaligns(rs: seq<Reply>, i: nat)
    requires |RenderAll(rs)| <= INT64_MAX && i < |rs| && rs[i].Data? && !Encodable(rs[i].value)
    ensures Drain(RenderAll(rs)) != Stream(Meanings(rs), [], false)
  {
    if Drain(RenderAll(rs)) == Stream(Meanings(rs), [], false) {
      DrainedIsEncodable(RenderAll(rs), i);
      MeaningAt(rs, i);
    }
  }

  lemma DrainOneMore(sent: Bytes, values: seq<RespValue>, r: Reply)
    requires Wireable(r) && Drain(sent) == Stream(values, [], false)
    ensures Drain(sent + Render(r)) == Stream(values + [Meaning(r)], [], false)
  {
    DrainAppend(sent, Render(r));
    assert [] + Render(r) == Render(r);
    DrainReply(r);
  }

  // ---- sizes -------------------------------------------------------------------------

  predicate Short(s: string) {
    |s| <= INT64_MAX
  }

  predicate FitsValue(v: Value) {
    match v
    case StringValue(data) => Short(data)
    case ListValue(items) => |items| <= INT64_MAX && forall i | 0 <= i < |items| :: Short(items[i])
    case HashValue(fields) => 2 * |fields| <= INT64_MAX && forall f | f in fields :: Short(f) && Short(fields[f])
    case SetValue(members) => |members| <= INT64_MAX && forall x | x in members :: Short(x)
  }

  predicate FitsEntry(e: Option<Entry>) {
    e.Some? ==> FitsValue(e.value.value)
  }

  ghost function AllMembers(d: DataMap): set<string> {
    set k, x | k in d && x in MemberOf(d, k) :: x
  }

  ghost predicate Fits(d: DataMap) {
    && |d| <= INT64_MAX && |AllMembers(d)| <= INT64_MAX
    && forall k | k in d :: Short(k) && FitsValue(d[k].value)
  }

  predicate FitsCommand(cmd: Command) {
    |cmd.args| <= INT64_MAX && forall i | 0 <= i < |cmd.args| :: Short(cmd.args[i])
  }

  // ---- error lines -------------------------------------------------------------------

  predicate Plain(s: string) {
    forall i | 0 <= i < |s| :: s[i] != '\r'
  }

  lemma PlainJoin(a: string, b: string)
    requires Plain(a) && Plain(b)
    ensures Plain(a + b)
  {
  }

  lemma ErrorTextsArePlain(error: StoreError)
    ensures Wireable(Data(Err(ErrorText(error))))
  {
    match error
    case KeyNotFound => assert Plain("ERR no such key");
    case WrongType => PlainJoin("WRONGTYPE Operation against a key", " holding the wrong kind of value");
    case NotAnInteger => assert Plain("ERR value is not an integer or out of range");
    case OutOfRange => assert Plain("ERR index out of range");
  }

  lemma FixedRepliesAreWireable()
    ensures Wireable(OK) && Wireable(NULL_BULK) && Wireable(Complain(SyntaxError)) && Wireable(Complain(WrongArity))
    ensures Wireable(Complain(BadInteger)) && Wireable(Complain(BadType)) && Wireable(Complain(NoSuchKey))
  {
    ErrorTextsArePlain(WrongType);
    ErrorTextsArePlain(KeyNotFound);
    ErrorTextsArePlain(NotAnInteger);
    assert Plain("OK") && Plain("ERR syntax error") && Plain("wrong number of arguments");
  }

  lemma PlainErrorIsWireable(text: string)
    requires Plain(text)
    ensures Wireable(Data(Err("ERR Protocol error: " + text)))
  {
    var head := "ERR Protocol error: ";
    assert Plain(head);
    PlainJoin(head, text);
  }

  lemma ShapeErrorsAreWireable()
    ensures Wireable(ProtocolError(NotAnArray).reply) && Wireable(ProtocolError(NoCommand).reply)
  {
    PlainErrorIsWireable("expected array");
    PlainErrorIsWireable("expected command");
  }

  lemma NameErrorsAreWireable()
    ensures Wireable(ProtocolError(NotBulk).reply) && Wireable(ProtocolError(EmptyName).reply)
  {
    PlainErrorIsWireable("expected bulk string");
    PlainErrorIsWireable("empty command");
  }

  /** The one error line that carries bytes from the client: it is a single line exactly when
      the name has no line terminator in it. */
  lemma UnknownCommandIsWireable(name: string)
    ensures Wireable(UnknownCommand(name)) <==> NoCrlf(name)
  {
    var head := "ERR unknown command '";
    var message := head + name + "'";
    assert Plain(head);
    forall i | 0 <= i < |name| ensures CrlfAt(message, |head| + i) == CrlfAt(name, i) {
      assert message[|head| + i] == name[i];
      if i + 1 < |name| { assert message[|head| + i + 1] == name[i + 1]; }
    }
    forall i | 0 <= i < |head| ensures !CrlfAt(message, i) {
      assert message[i] == head[i];
    }
    if !NoCrlf(name) {
      var i :| 0 <= i < |name| && CrlfAt(name, i);
      assert CrlfAt(message, |head| + i);
    } else {
      forall i | 0 <= i < |message| ensures !CrlfAt(message, i) {
        if |head| <= i < |head| + |name| { assert !CrlfAt(name, i - |head|); }
      }
    }
  }

  /** A name with a line terminator splits the reply: the client reads a shorter line and is
      out of step with everything that follows. */
  lemma UnknownCommandSplits(name: string, post: Bytes)
    requires !NoCrlf(name)
    ensures var r := Parse(Render(UnknownCommand(name)) + post);
            r.Complete? && r.consumed < |Render(UnknownCommand(name))|
  {
    UnknownCommandIsWireable(name);
    var message := "ERR unknown command '" + name + "'";
    var i :| 0 <= i < |message| && CrlfAt(message, i);
    var s := Line('-', message) + post;
    assert CrlfAt(s, i + 1) by {
      assert s[i + 1] == message[i] && s[i + 2] == message[i + 1];
    }
    FindCrlfFirst(s, 1, i + 1);
    var end := FindCrlf(s, 1).value;
    FindCrlfFirst(s, 1, end);
  }

  // ---- replies of the operations -----------------------------------------------------

  lemma {:induction false} BulksAreEncodable(vs: seq<RespValue>)
    requires forall i | 0 <= i < |vs| :: vs[i].Null? || (vs[i].Bulk? && Short(vs[i].text))
    ensures AllEncodable(vs)
    decreases |vs|
  {
    if vs != [] {
      BulksAreEncodable(vs[1..]);
    }
  }

  lemma ArrayIsWireable(texts: seq<string>)
    requires |texts| <= INT64_MAX && forall i | 0 <= i < |texts| :: Short(texts[i])
    ensures Wireable(Data(Array(Bulks(texts))))
  {
    BulksAreEncodable(Bulks(texts));
  }

  lemma SortedIsWireable(names: set<string>)
    requires |names| <= INT64_MAX && forall x | x in names :: Short(x)
    ensures Wireable(Data(Array(Bulks(Sorted(names)))))
  {
    var q := Sorted(names);
    forall i | 0 <= i < |q| ensures Short(q[i]) {
      assert q[i] in q;
    }
    ArrayIsWireable(q);
  }

  lemma FieldsAreWireable(fields: map<string, string>)
    requires 2 * |fields| <= INT64_MAX && forall f | f in fields :: Short(f) && Short(fields[f])
    ensures Wireable(Data(Array(Bulks(FlatPairs(fields, Sorted(fields.Keys))))))
    ensures Wireable(Data(Array(Bulks(ValuesAt(fields, Sorted(fields.Keys))))))
  {
    var q := Sorted(fields.Keys);
    assert |q| == |fields.Keys| == |fields|;
    forall i | 0 <= i < |q| ensures q[i] in fields {
      assert q[i] in q;
    }
    FlatPairsAreShort(fields, q);
    ArrayIsWireable(FlatPairs(fields, q));
    ArrayIsWireable(ValuesAt(fields, q));
  }

  lemma FlatPairsAreShort(fields: map<string, string>, q: seq<string>)
    requires forall f | f in q :: f in fields && Short(f) && Short(fields[f])
    ensures forall i | 0 <= i < 2 * |q| :: Short(FlatPairs(fields, q)[i])
  {
    var flat := FlatPairs(fields, q);
    forall i | 0 <= i < |flat| ensures Short(flat[i]) {
      assert q[i / 2] in q;
      assert flat[2 * (i / 2)] == q[i / 2] && flat[2 * (i / 2) + 1] == fields[q[i / 2]];
    }
  }

  lemma ListReadIsWireable(e: Option<Entry>, start: int64, stop: int64)
    requires FitsEntry(e)
    ensures Wireable(ArrayReply(LRangeOf(e, start, stop)))
  {
    var r := LRangeOf(e, start, stop);
    if e.Some? && e.value.value.ListValue? {
      ArrayIsWireable(r.value);
      assert ArrayReply(r) == Data(Array(Bulks(r.value)));
    } else if e.Some? {
      ErrorTextsArePlain(WrongType);
      assert ArrayReply(r) == Data(Err(ErrorText(WrongType)));
    }
  }

  lemma HashReadIsWireable(e: Option<Entry>)
    requires FitsEntry(e)
    ensures Wireable(ArrayReply(HGetAllOf(e))) && Wireable(ArrayReply(HKeysOf(e))) && Wireable(ArrayReply(HValsOf(e)))
  {
    ErrorTextsArePlain(WrongType);
    if e.Some? && e.value.value.HashValue? {
      FieldsAreWireable(e.value.value.fields);
      SortedIsWireable(e.value.value.fields.Keys);
    }
  }

  lemma SetReadIsWireable(e: Option<Entry>)
    requires FitsEntry(e)
    ensures Wireable(ArrayReply(SMembersOf(e)))
  {
    if e.Some? && e.value.value.SetValue? {
      SortedIsWireable(e.value.value.members);
      assert ArrayReply(SMembersOf(e)) == Data(Array(Bulks(Sorted(e.value.value.members))));
    } else if e.Some? {
      ErrorTextsArePlain(WrongType);
      assert ArrayReply(SMembersOf(e)) == Data(Err(ErrorText(WrongType)));
    }
  }

  lemma TypeNamesAreWireable(e: Option<Entry>)
    ensures Wireable(Status(TypeOf(e)))
  {
    assert Plain("none") && Plain("string") && Plain("list") && Plain("hash") && Plain("set");
  }

  lemma IntIsWireable(r: Outcome<int>)
    requires r.Ok? ==> InInt64(r.value)
    ensures Wireable(IntReply(r)) && Wireable(SizeReply(r))
  {
    if r.Fail? { ErrorTextsArePlain(r.error); }
  }

  lemma BoolIsWireable(r: Outcome<bool>)
    ensures Wireable(BoolReply(r))
  {
    if r.Fail? { ErrorTextsArePlain(r.error); }
  }

  lemma BulkIsWireable(r: Outcome<string>)
    requires r.Ok? ==> Short(r.value)
    ensures Wireable(BulkReply(r)) && Wireable(IndexReply(r))
  {
    if r.Fail? { ErrorTextsArePlain(r.error); }
  }

  lemma StringReadIsWireable(op: ReadOp, now: nat, e: Option<Entry>)
    requires FitsEntry(e) && (op.Get? || op.Strlen? || op.Ttl? || op.Pttl? || op.Type?)
    ensures Wireable(ReadReply(op, now, e))
  {
    match op
    case Get => BulkIsWireable(GetOf(e));
    case Strlen => IntIsWireable(StrlenOf(e));
    case Type => TypeNamesAreWireable(e);
    case _ =>
  }

  lemma ListOpIsWireable(op: ReadOp, now: nat, e: Option<Entry>)
    requires FitsEntry(e) && (op.LRange? || op.LLen? || op.LIndex?)
    ensures Wireable(ReadReply(op, now, e))
  {
    match op
    case LRange(start, stop) => ListReadIsWireable(e, start, stop);
    case LLen => IntIsWireable(LLenOf(e));
    case LIndex(index) => BulkIsWireable(LIndexOf(e, index));
  }

  lemma HashOpIsWireable(op: ReadOp, now: nat, e: Option<Entry>)
    requires FitsEntry(e) && (op.HGet? || op.HGetAll? || op.HExists? || op.HLen? || op.HKeys? || op.HVals?)
    ensures Wireable(ReadReply(op, now, e))
  {
    match op
    case HGet(name) => BulkIsWireable(HGetOf(e, name));
    case HExists(name) => BoolIsWireable(HExistsOf(e, name));
    case HLen => IntIsWireable(HLenOf(e));
    case _ => HashReadIsWireable(e);
  }

  lemma SetOpIsWireable(op: ReadOp, now: nat, e: Option<Entry>)
    requires FitsEntry(e) && (op.SMembers? || op.SIsMember? || op.SCard?)
    ensures Wireable(ReadReply(op, now, e))
  {
    match op
    case SMembers => SetReadIsWireable(e);
    case SIsMember(name) => BoolIsWireable(SIsMemberOf(e, name));
    case SCard => IntIsWireable(SCardOf(e));
  }

  lemma ReadIsWireable(op: ReadOp, now: nat, e: Option<Entry>)
    requires FitsEntry(e)
    ensures Wireable(ReadReply(op, now, e))
  {
    if op.Get? || op.Strlen? || op.Ttl? || op.Pttl? || op.Type? {
      StringReadIsWireable(op, now, e);
    } else if op.LRange? || op.LLen? || op.LIndex? {
      ListOpIsWireable(op, now, e);
    } else if op.SMembers? || op.SIsMember? || op.SCard? {
      SetOpIsWireable(op, now, e);
    } else {
      HashOpIsWireable(op, now, e);
    }
  }

  lemma WriteIsWireable(op: WriteOp, now: nat, e: Option<Entry>)
    requires FitsEntry(e) && FitsEntry(WriteChange(op, now, e).entry)
    ensures Wireable(WriteChange(op, now, e).result)
  {
    if op.LPush? || op.RPush? || op.HSet? || op.HDel? || op.SAdd? || op.SRem? {
      CountWriteIsWireable(op, now, e);
    } else if op.GetSet? || op.LPop? || op.RPop? {
      TextWriteIsWireable(op, now, e);
    } else {
      NumberWriteIsWireable(op, now, e);
    }
  }

  lemma CountWriteIsWireable(op: WriteOp, now: nat, e: Option<Entry>)
    requires FitsEntry(e) && FitsEntry(WriteChange(op, now, e).entry)
    requires op.LPush? || op.RPush? || op.HSet? || op.HDel? || op.SAdd? || op.SRem?
    ensures Wireable(WriteChange(op, now, e).result)
  {
    CountWriteIsSmall(op, now, e);
    CountAnswerIsWireable(WriteChange(op, now, e).result);
  }

  lemma CountAnswerIsWireable(r: Reply)
    requires r == Complain(BadType) || exists n: int64 :: r == Data(Integer(n))
    ensures Wireable(r)
  {
    ErrorTextsArePlain(WrongType);
  }

  lemma TextWriteIsWireable(op: WriteOp, now: nat, e: Option<Entry>)
    requires FitsEntry(e) && (op.GetSet? || op.LPop? || op.RPop?)
    ensures Wireable(WriteChange(op, now, e).result)
  {
    match op
    case GetSet(value) => BulkIsWireable(GetSetOn(e, value).result);
    case LPop => BulkIsWireable(LPopOn(e).result);
    case RPop => BulkIsWireable(RPopOn(e).result);
  }

  lemma NumberWriteIsWireable(op: WriteOp, now: nat, e: Option<Entry>)
    requires FitsEntry(WriteChange(op, now, e).entry)
    requires op.IncrBy? || op.DecrBy? || op.Append? || op.PExpire? || op.Persist?
    ensures Wireable(WriteChange(op, now, e).result)
  {
    match op
    case IncrBy(delta) => IntIsWireable(AddOn(e, delta).result);
    case DecrBy(delta) => IntIsWireable(AddOn(e, -(delta as int)).result);
    case Append(suffix) => IntIsWireable(AppendOn(e, suffix).result);
    case _ =>
  }

  /** The counts an insertion or removal returns are bounded by the sizes before and after. */
  lemma CountWriteIsSmall(op: WriteOp, now: nat, e: Option<Entry>)
    requires FitsEntry(e) && FitsEntry(WriteChange(op, now, e).entry)
    requires op.LPush? || op.RPush? || op.HSet? || op.HDel? || op.SAdd? || op.SRem?
    ensures WriteChange(op, now, e).result == Complain(BadType) ||
            exists n: int64 :: WriteChange(op, now, e).result == Data(Integer(n))
  {
    var n := match op
      case LPush(values) => LPushOn(e, values).result
      case RPush(values) => RPushOn(e, values).result
      case HSet(pairs) => HSetOn(e, pairs).result
      case HDel(names) => HDelOn(e, names).result
      case SAdd(names) => SAddOn(e, names).result
      case SRem(names) => SRemOn(e, names).result;
    assert WriteChange(op, now, e).result == CountReply(n);
    assert n <= INT64_MAX;
  }

  lemma {:induction false} CountIsSmall(m: DataMap, keys: seq<string>)
    ensures CountIn(m, keys) <= |keys|
    decreases |keys|
  {
    if keys != [] {
      CountIsSmall(m, keys[..|keys| - 1]);
    }
  }

  lemma {:induction false} ElementsAreFewer(keys: seq<string>)
    ensures |Elements(keys)| <= |keys|
    decreases |keys|
  {
    if keys != [] {
      var init, last := keys[..|keys| - 1], keys[|keys| - 1];
      ElementsAreFewer(init);
      assert keys == init + [last];
      assert Elements(keys) == Elements(init) + {last};
    }
  }

  lemma LiveFits(d: DataMap, now: nat)
    requires Fits(d)
    ensures Fits(Live(d, now))
  {
    var m := Live(d, now);
    SizeGrows(m.Keys, d.Keys);
    forall x | x in AllMembers(m) ensures x in AllMembers(d) {
      var k :| k in m && x in MemberOf(m, k);
      assert MemberOf(d, k) == MemberOf(m, k);
    }
    SizeGrows(AllMembers(m), AllMembers(d));
  }

  lemma AlgebraIsWireable(m: DataMap, keys: seq<string>, members: set<string>)
    requires Fits(m) && members <= AllMembers(m)
    ensures Wireable(SetReply(m, keys, members))
  {
    if exists k | k in keys :: NotASet(m, k) {
      FixedRepliesAreWireable();
      assert SetReply(m, keys, members) == Complain(BadType);
    } else {
      SizeGrows(members, AllMembers(m));
      SortedIsWireable(members);
      assert SetReply(m, keys, members) == Data(Array(Bulks(Sorted(members))));
    }
  }

  lemma CountsAreWireable(d: DataMap, now: nat, keys: seq<string>)
    requires |keys| <= INT64_MAX
    ensures Wireable(Exec(d, now, Delete(keys)).1) && Wireable(Exec(d, now, Count(keys)).1)
  {
    CountIsSmall(Live(d, now), keys);
    ElementsAreFewer(keys);
    SizeGrows(Live(d, now).Keys * Elements(keys), Elements(keys));
  }

  lemma TextsAreWireable(m: DataMap, keys: seq<string>)
    requires Fits(m) && |keys| <= INT64_MAX
    ensures Wireable(Data(Array(TextsOf(m, keys))))
  {
    BulksAreEncodable(TextsOf(m, keys));
  }

  lemma KeysAreWireable(m: DataMap, pattern: string)
    requires Fits(m)
    ensures Wireable(Data(Array(Bulks(Sorted(Matching(m, pattern))))))
  {
    SizeGrows(Matching(m, pattern), m.Keys);
    SortedIsWireable(Matching(m, pattern));
  }

  /** The arguments of a plan that decide the size of its reply. */
  predicate FitsPlan(plan: Plan) {
    match plan
    case Answer(reply) => Wireable(reply)
    case Delete(keys) => |keys| <= INT64_MAX
    case Count(keys) => |keys| <= INT64_MAX
    case GetAll(keys) => |keys| <= INT64_MAX
    case _ => true
  }

  /** Every reply of every plan, on every keyspace that fits before and after. */
  lemma PlanIsWireable(d: DataMap, now: nat, plan: Plan)
    requires Fits(d) && Fits(Exec(d, now, plan).0) && FitsPlan(plan)
    ensures Wireable(Exec(d, now, plan).1)
  {
    LiveFits(d, now);
    var m := Live(d, now);
    match plan
    case Answer(reply) =>
    case CountAll =>
    case Read(key, op) => ReadIsWireable(op, now, FindLive(d, key, now));
    case Write(key, op) => WrittenIsWireable(d, now, key, op);
    case Delete(keys) => CountsAreWireable(d, now, keys);
    case Count(keys) => CountsAreWireable(d, now, keys);
    case GetAll(keys) => TextsAreWireable(m, keys);
    case Union(keys) => AlgebraIsWireable(m, keys, UnionOf(m, keys));
    case Inter(keys) => AlgebraIsWireable(m, keys, InterOf(m, keys));
    case Keys(pattern) => KeysAreWireable(m, pattern);
    case _ => FixedRepliesAreWireable();
  }

  lemma WrittenIsWireable(d: DataMap, now: nat, key: string, op: WriteOp)
    requires Fits(d) && Fits(Exec(d, now, Write(key, op)).0)
    ensures Wireable(Exec(d, now, Write(key, op)).1)
  {
    var c := WriteChange(op, now, FindLive(d, key, now));
    if c.entry.Some? {
      assert Put(d, key, c.entry)[key] == c.entry.value;
    }
    WriteIsWireable(op, now, FindLive(d, key, now));
  }

  lemma SetFits(args: seq<string>, now: nat)
    ensures FitsPlan(PlanSet(args, now))
  {
    FixedRepliesAreWireable();
    OptionErrorsAreWireable(args, 2, now, NO_OPTIONS);
  }

  lemma ArgumentErrorsAreWireable()
    ensures Wireable(Complain(WrongArity)) && Wireable(Complain(BadInteger))
  {
    FixedRepliesAreWireable();
  }

  lemma DeltaFits(args: seq<string>, down: bool)
    ensures FitsPlan(PlanDelta(args, down))
  {
    ArgumentErrorsAreWireable();
  }

  lemma ExpireFits(args: seq<string>, seconds: bool)
    ensures FitsPlan(PlanExpire(args, seconds))
  {
    ArgumentErrorsAreWireable();
  }

  lemma RangeFits(args: seq<string>)
    ensures FitsPlan(PlanRange(args)) && FitsPlan(PlanIndex(args))
  {
    ArgumentErrorsAreWireable();
  }

  lemma PingFits(args: seq<string>)
    requires forall i | 0 <= i < |args| :: Short(args[i])
    ensures FitsPlan(PlanPing(args))
  {
    FixedRepliesAreWireable();
    assert Plain("PONG");
  }

  lemma HandlersFit(verb: Verb, args: seq<string>, now: nat)
    requires |args| <= INT64_MAX && forall i | 0 <= i < |args| :: Short(args[i])
    ensures FitsPlan(PlanFor(verb, args, now))
  {
    if StringWriter(verb) {
      StringHandlersFit(verb, args, now);
    } else if KeyWriter(verb) {
      KeyHandlersFit(verb, args, now);
    } else if CollectionWriter(verb) {
      CollectionHandlersFit(verb, args, now);
    } else {
      ReadersFit(verb, args, now);
    }
  }

  lemma StringHandlersFit(verb: Verb, args: seq<string>, now: nat)
    requires |args| <= INT64_MAX && (forall i | 0 <= i < |args| :: Short(args[i])) && StringWriter(verb)
    ensures FitsPlan(PlanFor(verb, args, now))
  {
    match verb
    case SET => SetFits(args, now);
    case DECRBY => DeltaFits(args, true);
    case INCRBY => DeltaFits(args, false);
    case _ => ArityFits(args);
  }

  lemma KeyHandlersFit(verb: Verb, args: seq<string>, now: nat)
    requires |args| <= INT64_MAX && (forall i | 0 <= i < |args| :: Short(args[i])) && KeyWriter(verb)
    ensures FitsPlan(PlanFor(verb, args, now))
  {
    match verb
    case EXPIRE => ExpireFits(args, true);
    case PEXPIRE => ExpireFits(args, false);
    case _ => ArityFits(args);
  }

  lemma CollectionHandlersFit(verb: Verb, args: seq<string>, now: nat)
    requires |args| <= INT64_MAX && (forall i | 0 <= i < |args| :: Short(args[i])) && CollectionWriter(verb)
    ensures FitsPlan(PlanFor(verb, args, now))
  {
    ArityFits(args);
  }

  lemma ReadersFit(verb: Verb, args: seq<string>, now: nat)
    requires |args| <= INT64_MAX && (forall i | 0 <= i < |args| :: Short(args[i])) && !Writer(verb)
    ensures FitsPlan(PlanFor(verb, args, now))
  {
    match verb
    case LRANGE => RangeFits(args);
    case LINDEX => RangeFits(args);
    case PING => PingFits(args);
    case _ => ArityFits(args);
  }

  lemma ArityFits(args: seq<string>)
    requires forall i | 0 <= i < |args| :: Short(args[i])
    ensures Wireable(Complain(WrongArity))
    ensures |args| == 1 ==> FitsPlan(Answer(Data(Bulk(Arg(args, 0)))))
  {
    FixedRepliesAreWireable();
  }

  lemma {:induction false} OptionErrorsAreWireable(args: seq<string>, i: nat, now: nat, o: Options)
    requires o.Options?
    ensures var r := ReadOptions(args, i, now, o);
            r.Rejected? ==> r.reply == Complain(SyntaxError) || r.reply == Complain(BadInteger)
    decreases |args| - i
  {
    if i < |args| {
      var option := Uppercase(args[i]);
      if option == "EX" || option == "PX" {
        if i + 1 < |args| && ParseU64(args[i + 1]).Some? {
          var amount := ParseU64(args[i + 1]).value;
          var ms := if option == "EX" then SecondsToMs(amount) else amount;
          OptionErrorsAreWireable(args, i + 2, now, o.(expiresAt := Deadline(now, ms)));
        }
      } else if option == "NX" && !o.onlyOld {
        OptionErrorsAreWireable(args, i + 1, now, o.(onlyNew := true));
      } else if option == "XX" && !o.onlyNew {
        OptionErrorsAreWireable(args, i + 1, now, o.(onlyOld := true));
      }
    }
  }

  /** A name that the dispatch table knows, or that cannot break an error line. */
  predicate CleanName(cmd: Command) {
    VerbOf(cmd.name).Some? || NoCrlf(cmd.name)
  }

  /** The reply to a command is one whole value exactly when the name is clean. */
  lemma CommandAligns(d: DataMap, now: nat, cmd: Command)
    requires FitsCommand(cmd) && Fits(d) && Fits(Exec(d, now, PlanOf(cmd, now)).0)
    ensures Wireable(Exec(d, now, PlanOf(cmd, now)).1) <==> CleanName(cmd)
  {
    var verb := VerbOf(cmd.name);
    if verb.Some? {
      HandlersFit(verb.value, cmd.args, now);
      PlanIsWireable(d, now, PlanOf(cmd, now));
    } else {
      UnknownCommandIsWireable(cmd.name);
    }
  }
}
