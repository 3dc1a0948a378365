/** What a request is: which values are commands, what name and arguments they carry, and which
    names the dispatch table knows, said by bytes and without the program's own conversions. */
module Requests {
  import opened Wrappers
  import opened Resp
  import opened Keyspace
  import opened Command

  // ---- letter case -------------------------------------------------------------------

  /** `upper` is `text` with every byte from 97 to 122 moved down by 32, and no other changed. */
  predicate UpperOf(text: string, upper: string) {
    && |text| == |upper|
    && forall i | 0 <= i < |text| ::
         if 97 <= text[i] as int <= 122 then upper[i] as int == text[i] as int - 32 else upper[i] == text[i]
  }

  lemma UppercaseExactly(text: string, upper: string)
    ensures Uppercase(text) == upper <==> UpperOf(text, upper)
  {
    assert forall i | 0 <= i < |text| ::
      if 97 <= text[i] as int <= 122 then Uppercase(text)[i] as int == text[i] as int - 32 else Uppercase(text)[i] == text[i];
    if UpperOf(text, upper) {
      forall i | 0 <= i < |text| ensures Uppercase(text)[i] == upper[i] {
        assert Uppercase(text)[i] as int == upper[i] as int;
      }
    }
  }

  // ---- from a value to a command -----------------------------------------------------

  ghost predicate AllBulk(v: RespValue) {
    v.Array? && forall i | 0 <= i < |v.elems| :: v.elems[i].Bulk?
  }

  /** The value is an array of texts: a name that is not empty, in any letter case, and the
      arguments as they stand. */
  ghost predicate Carries(v: RespValue, cmd: Command) {
    && AllBulk(v) && |v.elems| == |cmd.args| + 1
    && v.elems[0].text != "" && UpperOf(v.elems[0].text, cmd.name)
    && forall i | 0 <= i < |cmd.args| :: v.elems[i + 1].text == cmd.args[i]
  }

  /** A value is accepted as a command if and only if it carries it. */
  lemma AcceptedExactlyIfCarried(v: RespValue, cmd: Command)
    ensures RequestOf(v) == Accepted(cmd) <==> Carries(v, cmd)
  {
    if AllBulk(v) && v.elems != [] && v.elems[0].text != "" {
      var got := RequestOf(v).cmd;
      UppercaseExactly(v.elems[0].text, cmd.name);
      assert got.name == Uppercase(v.elems[0].text) && |got.args| == |v.elems| - 1;
      forall i | 0 <= i < |got.args| ensures got.args[i] == v.elems[i + 1].text {
        assert v.elems[i + 1].Bulk? && got.args[i] == TextOf(v.elems[i + 1]);
      }
      if Carries(v, cmd) {
        assert got.args == cmd.args;
      }
    }
  }

  /** Every other value is refused, with the error for the first of the four things wrong with it. */
  lemma RefusedExactly(v: RespValue)
    ensures !v.Array? ==> RequestOf(v) == Refused(Data(Err("ERR Protocol error: expected array")))
    ensures v.Array? && v.elems == [] ==> RequestOf(v) == Refused(Data(Err("ERR Protocol error: expected command")))
    ensures v.Array? && v.elems != [] && !AllBulk(v) ==>
              RequestOf(v) == Refused(Data(Err("ERR Protocol error: expected bulk string")))
    ensures AllBulk(v) && v.elems != [] && v.elems[0].text == "" ==>
              RequestOf(v) == Refused(Data(Err("ERR Protocol error: empty command")))
    ensures RequestOf(v).Accepted? <==> AllBulk(v) && v.elems != [] && v.elems[0].text != ""
  {
    var start := "ERR Protocol error: ";
    assert start + "expected array" == "ERR Protocol error: expected array";
    assert start + "expected command" == "ERR Protocol error: expected command";
    assert start + "expected bulk string" == "ERR Protocol error: expected bulk string";
    assert start + "empty command" == "ERR Protocol error: empty command";
  }

  // ---- the dispatch table ------------------------------------------------------------

  function NameOf(verb: Verb): string {
    match verb
    case APPEND => "APPEND"
    case DBSIZE => "DBSIZE"
    case DECR => "DECR"
    case DECRBY => "DECRBY"
    case DEL => "DEL"
    case ECHO => "ECHO"
    case EXISTS => "EXISTS"
    case EXPIRE => "EXPIRE"
    case FLUSHDB => "FLUSHDB"
    case GET => "GET"
    case GETSET => "GETSET"
    case HDEL => "HDEL"
    case HEXISTS => "HEXISTS"
    case HGET => "HGET"
    case HGETALL => "HGETALL"
    case HKEYS => "HKEYS"
    case HLEN => "HLEN"
    case HSET => "HSET"
    case HVALS => "HVALS"
    case INCR => "INCR"
    case INCRBY => "INCRBY"
    case KEYS => "KEYS"
    case LINDEX => "LINDEX"
    case LLEN => "LLEN"
    case LPOP => "LPOP"
    case LPUSH => "LPUSH"
    case LRANGE => "LRANGE"
    case MGET => "MGET"
    case MSET => "MSET"
    case PERSIST => "PERSIST"
    case PEXPIRE => "PEXPIRE"
    case PING => "PING"
    case PTTL => "PTTL"
    case RENAME => "RENAME"
    case RPOP => "RPOP"
    case RPUSH => "RPUSH"
    case SADD => "SADD"
    case SCARD => "SCARD"
    case SET => "SET"
    case SINTER => "SINTER"
    case SISMEMBER => "SISMEMBER"
    case SMEMBERS => "SMEMBERS"
    case SREM => "SREM"
    case STRLEN => "STRLEN"
    case SUNION => "SUNION"
    case TTL => "TTL"
    case TYPE => "TYPE"
  }

  lemma StringReadersDispatch()
    ensures VerbOf("GET") == Some(GET) && VerbOf("MGET") == Some(MGET) && VerbOf("STRLEN") == Some(STRLEN)
    ensures VerbOf("ECHO") == Some(ECHO) && VerbOf("PING") == Some(PING)
  {
  }

  lemma KeyReadersDispatch()
    ensures VerbOf("DBSIZE") == Some(DBSIZE) && VerbOf("EXISTS") == Some(EXISTS) && VerbOf("KEYS") == Some(KEYS)
    ensures VerbOf("PTTL") == Some(PTTL) && VerbOf("TTL") == Some(TTL) && VerbOf("TYPE") == Some(TYPE)
  {
  }

  lemma ListReadersDispatch()
    ensures VerbOf("LINDEX") == Some(LINDEX) && VerbOf("LLEN") == Some(LLEN) && VerbOf("LRANGE") == Some(LRANGE)
  {
  }

  lemma HashReadersDispatch()
    ensures VerbOf("HEXISTS") == Some(HEXISTS) && VerbOf("HGET") == Some(HGET) && VerbOf("HGETALL") == Some(HGETALL)
    ensures VerbOf("HKEYS") == Some(HKEYS) && VerbOf("HLEN") == Some(HLEN) && VerbOf("HVALS") == Some(HVALS)
  {
  }

  lemma SetReadersDispatch()
    ensures VerbOf("SCARD") == Some(SCARD) && VerbOf("SISMEMBER") == Some(SISMEMBER) && VerbOf("SMEMBERS") == Some(SMEMBERS)
    ensures VerbOf("SINTER") == Some(SINTER) && VerbOf("SUNION") == Some(SUNION)
  {
  }

  lemma StringWriterIsFound(verb: Verb)
    requires StringWriter(verb)
    ensures VerbOf(NameOf(verb)) == Some(verb)
  {
    hide VerbOf;
    StringWritersDispatch();
    HashWritersDispatch();
    SetWritersDispatch();
  }

  lemma KeyWriterIsFound(verb: Verb)
    requires KeyWriter(verb)
    ensures VerbOf(NameOf(verb)) == Some(verb)
  {
    hide VerbOf;
    KeyWritersDispatch();
  }

  lemma CollectionWriterIsFound(verb: Verb)
    requires CollectionWriter(verb)
    ensures VerbOf(NameOf(verb)) == Some(verb)
  {
    hide VerbOf;
    ListWritersDispatch();
    HashWritersDispatch();
    SetWritersDispatch();
  }

  lemma ReaderIsFound(verb: Verb)
    requires !Writer(verb)
    ensures VerbOf(NameOf(verb)) == Some(verb)
  {
    hide VerbOf;
    StringReadersDispatch();
    KeyReadersDispatch();
    ListReadersDispatch();
    HashReadersDispatch();
    SetReadersDispatch();
  }

  lemma ThreeIsNamed(name: string, verb: Verb)
    requires ThreeLetters(name) == Some(verb)
    ensures name == NameOf(verb)
  {
    if name == "DEL" {
      assert verb == DEL;
    } else if name == "GET" {
      assert verb == GET;
    } else if name == "SET" {
      assert verb == SET;
    } else if name == "TTL" {
      assert verb == TTL;
    }
  }

  lemma FourIsNamed(name: string, verb: Verb)
    requires FourLetters(name) == Some(verb)
    ensures name == NameOf(verb)
  {
    if name == "DECR" {
      assert verb == DECR;
    } else if name == "ECHO" {
      assert verb == ECHO;
    } else if name == "HDEL" {
      assert verb == HDEL;
    } else if name == "HGET" {
      assert verb == HGET;
    } else if name == "HLEN" {
      assert verb == HLEN;
    } else if name == "HSET" {
      assert verb == HSET;
    } else if name == "INCR" {
      assert verb == INCR;
    } else if name == "KEYS" {
      assert verb == KEYS;
    } else if name == "LLEN" {
      assert verb == LLEN;
    } else if name == "LPOP" {
      assert verb == LPOP;
    } else if name == "MGET" {
      assert verb == MGET;
    } else if name == "MSET" {
      assert verb == MSET;
    } else if name == "PING" {
      assert verb == PING;
    } else if name == "PTTL" {
      assert verb == PTTL;
    } else if name == "RPOP" {
      assert verb == RPOP;
    } else if name == "SADD" {
      assert verb == SADD;
    } else if name == "SREM" {
      assert verb == SREM;
    } else if name == "TYPE" {
      assert verb == TYPE;
    }
  }

  lemma FiveIsNamed(name: string, verb: Verb)
    requires FiveLetters(name) == Some(verb)
    ensures name == NameOf(verb)
  {
    if name == "HKEYS" {
      assert verb == HKEYS;
    } else if name == "HVALS" {
      assert verb == HVALS;
    } else if name == "LPUSH" {
      assert verb == LPUSH;
    } else if name == "RPUSH" {
      assert verb == RPUSH;
    } else if name == "SCARD" {
      assert verb == SCARD;
    }
  }

  lemma SixIsNamed(name: string, verb: Verb)
    requires SixLetters(name) == Some(verb)
    ensures name == NameOf(verb)
  {
    if name == "APPEND" {
      assert verb == APPEND;
    } else if name == "DBSIZE" {
      assert verb == DBSIZE;
    } else if name == "DECRBY" {
      assert verb == DECRBY;
    } else if name == "EXISTS" {
      assert verb == EXISTS;
    } else if name == "EXPIRE" {
      assert verb == EXPIRE;
    } else if name == "GETSET" {
      assert verb == GETSET;
    } else if name == "INCRBY" {
      assert verb == INCRBY;
    } else if name == "LINDEX" {
      assert verb == LINDEX;
    } else if name == "LRANGE" {
      assert verb == LRANGE;
    } else if name == "RENAME" {
      assert verb == RENAME;
    } else if name == "SINTER" {
      assert verb == SINTER;
    } else if name == "STRLEN" {
      assert verb == STRLEN;
    } else if name == "SUNION" {
      assert verb == SUNION;
    }
  }

  lemma SevenIsNamed(name: string, verb: Verb)
    requires SevenLetters(name) == Some(verb)
    ensures name == NameOf(verb)
  {
    if name == "FLUSHDB" {
      assert verb == FLUSHDB;
    } else if name == "HEXISTS" {
      assert verb == HEXISTS;
    } else if name == "HGETALL" {
      assert verb == HGETALL;
    } else if name == "PERSIST" {
      assert verb == PERSIST;
    } else if name == "PEXPIRE" {
      assert verb == PEXPIRE;
    }
  }

  lemma FoundIsNamed(name: string, verb: Verb)
    requires VerbOf(name) == Some(verb)
    ensures name == NameOf(verb)
  {
    match |name|
    case 3 => ThreeIsNamed(name, verb);
    case 4 => FourIsNamed(name, verb);
    case 5 => FiveIsNamed(name, verb);
    case 6 => SixIsNamed(name, verb);
    case 7 => SevenIsNamed(name, verb);
    case _ =>
  }

  lemma NamedIsFound(verb: Verb)
    ensures VerbOf(NameOf(verb)) == Some(verb)
  {
    if StringWriter(verb) {
      StringWriterIsFound(verb);
    } else if KeyWriter(verb) {
      KeyWriterIsFound(verb);
    } else if CollectionWriter(verb) {
      CollectionWriterIsFound(verb);
    } else {
      ReaderIsFound(verb);
    }
  }

  /** The table has exactly these names. */
  lemma TableExactly(name: string, verb: Verb)
    ensures VerbOf(name) == Some(verb) <==> name == NameOf(verb)
  {
    NamedIsFound(verb);
    if VerbOf(name) == Some(verb) {
      FoundIsNamed(name, verb);
    }
  }

  lemma NameIsUpper(v: RespValue, name: string)
    requires name != ""
    ensures RequestOf(v).Accepted? && RequestOf(v).cmd.name == name <==>
            AllBulk(v) && v.elems != [] && UpperOf(v.elems[0].text, name)
  {
    RefusedExactly(v);
    if RequestOf(v).Accepted? {
      AcceptedExactlyIfCarried(v, RequestOf(v).cmd);
      UppercaseExactly(v.elems[0].text, name);
      UppercaseExactly(v.elems[0].text, RequestOf(v).cmd.name);
    }
  }

  /** Any letter case of a name in the table reaches its entry, and nothing else does. */
  lemma LetterCaseIsIgnored(v: RespValue, verb: Verb)
    ensures RequestOf(v).Accepted? && VerbOf(RequestOf(v).cmd.name) == Some(verb) <==>
            AllBulk(v) && v.elems != [] && UpperOf(v.elems[0].text, NameOf(verb))
  {
    hide VerbOf, UpperOf, RequestOf;
    NamedIsFound(verb);
    NameIsUpper(v, NameOf(verb));
    if RequestOf(v).Accepted? {
      TableExactly(RequestOf(v).cmd.name, verb);
    }
  }
}
