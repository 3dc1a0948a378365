/** Laws of the RESP codec over every byte string and every value tree: verdicts are stable
    under extension, frames are local and prefix-free, printing and parsing invert, and the
    way a stream is cut into reads cannot be observed. */
module RespLaws {
  import opened Wrappers
  import opened Int64
  import opened Resp

  // ---- stability under extension -----------------------------------------------------

  lemma CrlfExtend(s: Bytes, ext: Bytes)
    requires FindCrlf(s, 1).Some?
    ensures FindCrlf(s + ext, 1) == FindCrlf(s, 1)
  {
    var end := FindCrlf(s, 1).value;
    FindCrlfFirst(s, 1, end);
    FindCrlfFirst(s + ext, 1, end);
    assert CrlfAt(s + ext, end);
    forall i | 1 <= i < end ensures !CrlfAt(s + ext, i) {
      assert CrlfAt(s + ext, i) == CrlfAt(s, i);
    }
  }

  /** A verdict, once reached, is final: bytes that arrive later do not change it. */
  lemma {:induction false} ParseExtend(s: Bytes, ext: Bytes)
    requires !Parse(s).Incomplete?
    ensures Parse(s + ext) == Parse(s)
    decreases |s|, 0
  {
    if IsTypeByte(s[0]) {
      CrlfExtend(s, ext);
      var end := FindCrlf(s, 1).value;
      assert (s + ext)[1..end] == s[1..end];
      assert (s + ext)[end + 2..] == s[end + 2..] + ext;
      BodyExtend(s[0], s[1..end], s[end + 2..], ext);
    }
  }

  lemma {:induction false} BodyExtend(mark: char, line: string, rest: Bytes, ext: Bytes)
    requires IsTypeByte(mark) && !ParseBody(mark, line, rest).Incomplete?
    ensures ParseBody(mark, line, rest + ext) == ParseBody(mark, line, rest)
    decreases |rest|, 2
  {
    var n := ParseI64(line);
    if n.Some? && n.value >= 0 {
      if mark == '$' {
        BulkExtend(rest, n.value, ext);
      } else if mark == '*' {
        ItemsExtend(rest, n.value, ext);
      }
    }
  }

  lemma BulkExtend(s: Bytes, n: nat, ext: Bytes)
    requires !ParseBulk(s, n).Incomplete?
    ensures ParseBulk(s + ext, n) == ParseBulk(s, n)
  {
    assert CrlfAt(s + ext, n) == CrlfAt(s, n);
    assert (s + ext)[..n] == s[..n];
  }

  /** The element loop: the first child, then the others. */
  lemma {:induction false} ItemsFirst(s: Bytes, n: nat)
    requires n > 0
    ensures ParseItems(s, n) ==
            match Parse(s)
            case Complete(v, consumed) => ParseItems(s[consumed..], n - 1).After(v, consumed)
            case Error => ItemsError
            case Incomplete => ItemsIncomplete
  {
  }

  lemma {:induction false} ItemsExtend(s: Bytes, n: nat, ext: Bytes)
    requires !ParseItems(s, n).ItemsIncomplete?
    ensures ParseItems(s + ext, n) == ParseItems(s, n)
    decreases |s|, 1
  {
    if n > 0 {
      ParseExtend(s, ext);
      if Parse(s).Complete? {
        var consumed := Parse(s).consumed;
        assert (s + ext)[consumed..] == s[consumed..] + ext;
        ItemsExtend(s[consumed..], n - 1, ext);
      }
      ItemsFirst(s, n);
      ItemsFirst(s + ext, n);
    }
  }

  // ---- locality and prefix-freeness --------------------------------------------------

  /** `t` starts with the first `n` bytes of `s`. */
  ghost predicate Agree(s: Bytes, t: Bytes, n: nat) {
    n <= |s| && n <= |t| && forall i | 0 <= i < n :: s[i] == t[i]
  }

  lemma CrlfAgree(s: Bytes, t: Bytes, n: nat)
    requires Agree(s, t, n) && FindCrlf(s, 1).Some? && FindCrlf(s, 1).value + 2 <= n
    ensures FindCrlf(t, 1) == FindCrlf(s, 1)
  {
    var end := FindCrlf(s, 1).value;
    FindCrlfFirst(s, 1, end);
    FindCrlfFirst(t, 1, end);
    forall i | 1 <= i <= end ensures CrlfAt(t, i) == CrlfAt(s, i) {
    }
  }

  lemma DropAgree(s: Bytes, t: Bytes, k: nat, n: nat)
    requires k <= n && Agree(s, t, n)
    ensures Agree(s[k..], t[k..], n - k)
  {
  }

  /** A frame is decided by its own bytes alone. */
  lemma {:induction false} ParseLocal(s: Bytes, t: Bytes)
    requires Parse(s).Complete? && Agree(s, t, Parse(s).consumed)
    ensures Parse(t) == Parse(s)
    decreases |s|, 0
  {
    var end := FindCrlf(s, 1).value;
    CrlfAgree(s, t, Parse(s).consumed);
    assert t[1..end] == s[1..end];
    DropAgree(s, t, end + 2, Parse(s).consumed);
    BodyLocal(s[0], s[1..end], s[end + 2..], t[end + 2..]);
  }

  lemma {:induction false} BodyLocal(mark: char, line: string, s: Bytes, t: Bytes)
    requires IsTypeByte(mark) && ParseBody(mark, line, s).Complete?
    requires Agree(s, t, ParseBody(mark, line, s).consumed)
    ensures ParseBody(mark, line, t) == ParseBody(mark, line, s)
    decreases |s|, 2
  {
    var n := ParseI64(line);
    if n.Some? && n.value >= 0 {
      if mark == '$' {
        assert CrlfAt(t, n.value) == CrlfAt(s, n.value);
        assert t[..n.value] == s[..n.value];
      } else if mark == '*' {
        ItemsLocal(s, t, n.value);
      }
    }
  }

  lemma {:induction false} ItemsLocal(s: Bytes, t: Bytes, n: nat)
    requires ParseItems(s, n).Items? && Agree(s, t, ParseItems(s, n).used)
    ensures ParseItems(t, n) == ParseItems(s, n)
    decreases |s|, 1
  {
    if n > 0 {
      var first := Parse(s).consumed;
      ParseLocal(s, t);
      DropAgree(s, t, first, ParseItems(s, n).used);
      ItemsLocal(s[first..], t[first..], n - 1);
    }
  }

  /** No frame is a proper prefix of anything that already has a verdict: cut a frame short
      anywhere and the parser asks for more bytes; whatever follows it, it is unchanged. */
  lemma FramesArePrefixFree(s: Bytes, k: nat, ext: Bytes)
    requires Parse(s).Complete? && k <= |s|
    ensures k < Parse(s).consumed ==> Parse(s[..k]) == Incomplete
    ensures Parse(s[..Parse(s).consumed] + ext) == Parse(s)
  {
    assert s[..k] + s[k..] == s;
    if !Parse(s[..k]).Incomplete? {
      ParseExtend(s[..k], s[k..]);
    }
    ParseLocal(s, s[..Parse(s).consumed] + ext);
  }

  /** A frame's bytes bound its tree, whatever array lengths it declares. */
  lemma {:induction false} NodesBounded(s: Bytes)
    requires Parse(s).Complete?
    ensures 3 * Nodes(Parse(s).value) <= Parse(s).consumed
    decreases |s|, 0
  {
    var end := FindCrlf(s, 1).value;
    if Parse(s).value.Array? {
      ItemNodesBounded(s[end + 2..], ParseI64(s[1..end]).value);
    }
  }

  lemma {:induction false} ItemNodesBounded(s: Bytes, n: nat)
    requires ParseItems(s, n).Items?
    ensures 3 * NodesOf(ParseItems(s, n).values) <= ParseItems(s, n).used
    decreases |s|, 1
  {
    if n > 0 {
      var r := ParseItems(s, n);
      var first := Parse(s).consumed;
      NodesBounded(s);
      ItemNodesBounded(s[first..], n - 1);
      assert r.values[1..] == ParseItems(s[first..], n - 1).values;
    }
  }

  // ---- round trips -------------------------------------------------------------------

  /** A printed line is found again, with its text and with what follows it. */
  lemma LineFound(mark: char, text: string, post: Bytes)
    requires NoCrlf(text)
    ensures Parse(Line(mark, text) + post) ==
            if IsTypeByte(mark) then ParseBody(mark, text, post).Shift(|text| + 3) else Error
  {
    var s := Line(mark, text) + post;
    assert s[1..1 + |text|] == text && s[3 + |text|..] == post;
    FindCrlfFirst(s, 1, 1 + |text|);
    assert CrlfAt(s, 1 + |text|);
    forall i | 1 <= i < 1 + |text| ensures !CrlfAt(s, i) {
      assert !CrlfAt(text, i - 1);
      assert s[i] == text[i - 1];
      if i < |text| { assert s[i + 1] == text[i]; }
    }
  }

  lemma NumeralsHaveNoCrlf(n: int)
    ensures NoCrlf(ToString(n))
  {
    var s := ToString(n);
    forall i | 0 <= i < |s| ensures !CrlfAt(s, i) {
      assert s[i] == '-' || IsDigit(s[i]);
    }
  }

  /** Parsing what `resp_encode` printed gives the value back and stops exactly at its end,
      whatever follows. */
  lemma {:induction false} RoundTrip(v: RespValue, post: Bytes)
    requires Encodable(v)
    ensures Parse(Encode(v) + post) == Complete(v, |Encode(v)|)
    decreases v, 0
  {
    match v
    case Null => NullRoundTrip(post);
    case Bulk(text) => BulkRoundTrip(text, post);
    case Integer(n) => IntegerRoundTrip(n, post);
    case Err(message) => ErrorRoundTrip(message, post);
    case Array(elems) =>
      ItemsRoundTrip(elems, post);
      ArrayRoundTrip(elems, EncodeAll(elems), post);
  }

  lemma IntegerRoundTrip(n: int, post: Bytes)
    requires InInt64(n)
    ensures Parse(Encode(Integer(n)) + post) == Complete(Integer(n), |Encode(Integer(n))|)
  {
    NumeralsHaveNoCrlf(n);
    ParseToString(n);
    LineFound(':', ToString(n), post);
  }

  lemma ErrorRoundTrip(message: string, post: Bytes)
    requires NoCrlf(message)
    ensures Parse(Encode(Err(message)) + post) == Complete(Err(message), |Encode(Err(message))|)
  {
    LineFound('-', message, post);
  }

  lemma NullRoundTrip(post: Bytes)
    ensures Parse(Encode(Null) + post) == Complete(Null, |Encode(Null)|)
  {
    assert Digits(1) == "1";
    assert "$-1\r\n" == Line('$', ToString(-1));
    NumeralsHaveNoCrlf(-1);
    ParseToString(-1);
    LineFound('$', ToString(-1), post);
  }

  /** A frame that starts with a size. */
  lemma SizedFrame(mark: char, size: nat, body: Bytes)
    requires size <= INT64_MAX && (mark == '$' || mark == '*')
    ensures Parse(Line(mark, ToString(size)) + body) ==
            (if mark == '$' then ParseBulk(body, size) else ParseItems(body, size).AsArray())
            .Shift(|ToString(size)| + 3)
  {
    NumeralsHaveNoCrlf(size);
    ParseToString(size);
    LineFound(mark, ToString(size), body);
  }

  lemma Associative(a: Bytes, b: Bytes, c: Bytes)
    ensures a + b + c == a + (b + c)
  {
  }

  lemma BulkBody(text: string, post: Bytes)
    ensures ParseBulk(text + "\r\n" + post, |text|) == Complete(Bulk(text), |text| + 2)
  {
    var s := text + "\r\n" + post;
    assert s[..|text|] == text && CrlfAt(s, |text|);
  }

  lemma BulkRoundTrip(text: string, post: Bytes)
    requires |text| <= INT64_MAX
    ensures Parse(Encode(Bulk(text)) + post) == Complete(Bulk(text), |Encode(Bulk(text))|)
  {
    var head := Line('$', ToString(|text|));
    SizedFrame('$', |text|, text + "\r\n" + post);
    BulkBody(text, post);
    Associative(head, text, "\r\n");
    Associative(head, text + "\r\n", post);
  }

  lemma ArrayRoundTrip(elems: seq<RespValue>, body: Bytes, post: Bytes)
    requires |elems| <= INT64_MAX && body == EncodeAll(elems)
    requires ParseItems(body + post, |elems|) == Items(elems, |body|)
    ensures Parse(Encode(Array(elems)) + post) == Complete(Array(elems), |Encode(Array(elems))|)
  {
    SizedFrame('*', |elems|, body + post);
    Associative(Line('*', ToString(|elems|)), body, post);
  }

  lemma {:induction false} ItemsRoundTrip(vs: seq<RespValue>, post: Bytes)
    requires AllEncodable(vs)
    ensures ParseItems(EncodeAll(vs) + post, |vs|) == Items(vs, |EncodeAll(vs)|)
    decreases vs, 1
  {
    if vs != [] {
      var rest := EncodeAll(vs[1..]) + post;
      assert EncodeAll(vs) + post == Encode(vs[0]) + rest;
      RoundTrip(vs[0], rest);
      assert (Encode(vs[0]) + rest)[|Encode(vs[0])|..] == rest;
      ItemsRoundTrip(vs[1..], post);
      assert vs == [vs[0]] + vs[1..];
    }
  }

  /** The round trip in place, as the array loop meets it: at a cursor inside a buffer. */
  lemma RoundTripInContext(pre: Bytes, v: RespValue, post: Bytes)
    requires Encodable(v)
    ensures Parse(Rest(pre + Encode(v) + post, |pre|)) == Complete(v, |Encode(v)|)
  {
    RoundTrip(v, post);
    assert Rest(pre + Encode(v) + post, |pre|) == Encode(v) + post;
  }

  /** Whatever parses is a value the printer can carry. */
  lemma {:induction false} ParsedIsEncodable(s: Bytes)
    requires Parse(s).Complete? && |s| <= INT64_MAX
    ensures Encodable(Parse(s).value)
    decreases |s|, 0
  {
    var end := FindCrlf(s, 1).value;
    var line := s[1..end];
    FindCrlfFirst(s, 1, end);
    forall i | 0 <= i < |line| ensures !CrlfAt(line, i) {
      assert !CrlfAt(s, i + 1);
    }
    if Parse(s).value.Array? {
      ItemsAreEncodable(s[end + 2..], ParseI64(line).value);
    }
  }

  lemma {:induction false} ItemsAreEncodable(s: Bytes, n: nat)
    requires ParseItems(s, n).Items? && |s| <= INT64_MAX
    ensures AllEncodable(ParseItems(s, n).values)
    decreases |s|, 1
  {
    if n > 0 {
      ParsedIsEncodable(s);
      var first := Parse(s).consumed;
      ItemsAreEncodable(s[first..], n - 1);
      assert ParseItems(s, n).values[1..] == ParseItems(s[first..], n - 1).values;
    }
  }

  /** So the round trip holds on the printer's domain and nowhere else. */
  lemma RoundTripExactly(v: RespValue)
    requires |Encode(v)| <= INT64_MAX
    ensures Parse(Encode(v)) == Complete(v, |Encode(v)|) <==> Encodable(v)
  {
    if Encodable(v) {
      RoundTrip(v, []);
      assert Encode(v) + [] == Encode(v);
    } else if Parse(Encode(v)) == Complete(v, |Encode(v)|) {
      ParsedIsEncodable(Encode(v));
    }
  }

  /** Parse then print picks one spelling per value: the printed form parses to the same
      value, and printing that again changes nothing. */
  lemma Canonical(s: Bytes, post: Bytes)
    requires Parse(s).Complete? && |s| <= INT64_MAX
    ensures Parse(Encode(Parse(s).value) + post) ==
            Complete(Parse(s).value, |Encode(Parse(s).value)|)
  {
    ParsedIsEncodable(s);
    RoundTrip(Parse(s).value, post);
  }

  /** The canonical form replaces a simple string by a bulk string of the same text, */
  lemma SimpleStringsBecomeBulk(text: string, post: Bytes)
    requires NoCrlf(text)
    ensures Parse(Line('+', text) + post) == Complete(Bulk(text), |text| + 3)
  {
    LineFound('+', text, post);
  }

  /** a null array by the null bulk string, */
  lemma NullArraysBecomeNullBulk(post: Bytes)
    ensures Parse(Line('*', "-1") + post) == Complete(Null, 5)
  {
    assert Digits(1) == "1";
    assert ToString(-1) == "-1";
    NumeralsHaveNoCrlf(-1);
    ParseToString(-1);
    LineFound('*', ToString(-1), post);
  }

  /** The decimal text of `n` with extra zeros in front of its digits. */
  function Padded(n: int, zeros: nat): string {
    Signed(n < 0, Zeros(zeros) + Digits(if n < 0 then -n else n))
  }

  function Signed(minus: bool, digits: string): string {
    if minus then "-" + digits else digits
  }

  function Zeros(k: nat): string {
    seq(k, _ => '0')
  }

  lemma {:induction false} ZerosDoNotCount(k: nat, digits: string)
    requires AllDigits(digits)
    ensures AllDigits(Zeros(k) + digits) && Number(Zeros(k) + digits) == Number(digits)
    decreases k
  {
    if k == 0 {
      assert Zeros(0) + digits == digits;
    } else {
      ZerosDoNotCount(k - 1, digits);
      LeadingZero(Zeros(k - 1) + digits);
      assert Zeros(k) + digits == "0" + (Zeros(k - 1) + digits);
    }
  }

  lemma SignedIsRead(minus: bool, digits: string)
    requires digits != [] && AllDigits(digits)
    ensures NoCrlf(Signed(minus, digits))
    ensures var n := if minus then -(Number(digits) as int) else Number(digits);
            ParseI64(Signed(minus, digits)) == if InInt64(n) then Some(n) else None
  {
    var s := Signed(minus, digits);
    assert IsDigit(digits[0]);
    assert minus ==> s[1..] == digits;
    forall i | 0 <= i < |s| ensures !CrlfAt(s, i) {
      assert s[i] == '-' || IsDigit(s[i]);
    }
  }

  lemma IntegerFrame(text: string, n: int64, post: Bytes)
    requires NoCrlf(text) && ParseI64(text) == Some(n)
    ensures Parse(Line(':', text) + post) == Complete(Integer(n), |text| + 3)
  {
    LineFound(':', text, post);
  }

  lemma PaddedIsRead(n: int64, zeros: nat)
    ensures NoCrlf(Padded(n, zeros)) && ParseI64(Padded(n, zeros)) == Some(n)
  {
    var size: nat := if n < 0 then -(n as int) else n;
    ZerosDoNotCount(zeros, Digits(size));
    NumberDigits(size);
    SignedIsRead(n < 0, Zeros(zeros) + Digits(size));
  }

  lemma NothingPadded(n: int)
    ensures Padded(n, 0) == ToString(n)
  {
    var size: nat := if n < 0 then -n else n;
    assert Zeros(0) + Digits(size) == Digits(size);
  }

  /** and drops leading zeros, however many. */
  lemma LeadingZerosGo(n: int64, zeros: nat, post: Bytes)
    ensures Parse(Line(':', Padded(n, zeros)) + post) == Complete(Integer(n), |Padded(n, zeros)| + 3)
    ensures Encode(Integer(n)) == Line(':', Padded(n, 0))
  {
    PaddedIsRead(n, zeros);
    IntegerFrame(Padded(n, zeros), n, post);
    NothingPadded(n);
  }

  // ---- streams -----------------------------------------------------------------------

  /** What a connection has received so far: the values parsed, the bytes left in the parser,
      and whether a malformed frame has ended the session. */
  datatype Stream = Stream(values: seq<RespValue>, rest: Bytes, failed: bool)

  const START := Stream([], [], false)

  function Prepend(vs: seq<RespValue>, st: Stream): Stream {
    st.(values := vs + st.values)
  }

  /** Parse until more bytes are needed or a frame is malformed. */
  function Drain(buf: Bytes): (d: Stream)
    decreases |buf|
  {
    match Parse(buf)
    case Incomplete => Stream([], buf, false)
    case Error => Stream([], [], true)
    case Complete(v, consumed) =>
      Prepend([v], Drain(buf[consumed..]))
  }

  /** One read: feed the chunk, then drain. After a malformed frame nothing is read. */
  function Receive(st: Stream, chunk: Bytes): Stream {
    if st.failed then st
    else
      Prepend(st.values, Drain(st.rest + chunk))
  }

  function ReceiveAll(st: Stream, chunks: seq<Bytes>): Stream
    decreases |chunks|
  {
    if chunks == [] then st else ReceiveAll(Receive(st, chunks[0]), chunks[1..])
  }

  function Concat(chunks: seq<Bytes>): Bytes {
    if chunks == [] then [] else chunks[0] + Concat(chunks[1..])
  }

  lemma PrependPrepend(vs: seq<RespValue>, ws: seq<RespValue>, st: Stream)
    ensures Prepend(vs, Prepend(ws, st)) == Prepend(vs + ws, st)
  {
    assert vs + (ws + st.values) == vs + ws + st.values;
  }

  lemma ReceivePrepend(vs: seq<RespValue>, st: Stream, chunk: Bytes)
    ensures Receive(Prepend(vs, st), chunk) == Prepend(vs, Receive(st, chunk))
  {
    if !st.failed {
      PrependPrepend(vs, st.values, Drain(st.rest + chunk));
    }
  }

  /** Draining early and then receiving more is draining it all at once. */
  lemma {:induction false} DrainAppend(a: Bytes, b: Bytes)
    ensures Receive(Drain(a), b) == Drain(a + b)
    decreases |a|
  {
    match Parse(a)
    case Incomplete =>
      assert [] + Drain(a + b).values == Drain(a + b).values;
    case Error =>
      ParseExtend(a, b);
    case Complete(v, consumed) =>
      ParseExtend(a, b);
      assert (a + b)[consumed..] == a[consumed..] + b;
      DrainAppend(a[consumed..], b);
      ReceivePrepend([v], Drain(a[consumed..]), b);
  }

  lemma {:induction false} ReceiveAllFrom(a: Bytes, chunks: seq<Bytes>)
    ensures ReceiveAll(Drain(a), chunks) == Drain(a + Concat(chunks))
    decreases |chunks|
  {
    if chunks == [] {
      assert a + [] == a;
    } else {
      DrainAppend(a, chunks[0]);
      ReceiveAllFrom(a + chunks[0], chunks[1..]);
      assert a + chunks[0] + Concat(chunks[1..]) == a + Concat(chunks);
    }
  }

  /** However the transport cuts the byte stream, the values, the residual bytes and the
      verdict are those of the whole stream received at once. */
  lemma SplitIndependence(chunks: seq<Bytes>)
    ensures ReceiveAll(START, chunks) == Drain(Concat(chunks))
  {
    ReceiveAllFrom([], chunks);
    assert [] + Concat(chunks) == Concat(chunks);
    assert Drain([]) == START;
  }

  lemma DrainFrame(v: RespValue, post: Bytes)
    requires Encodable(v)
    ensures Drain(Encode(v) + post) == Prepend([v], Drain(post))
  {
    RoundTrip(v, post);
    assert (Encode(v) + post)[|Encode(v)|..] == post;
  }

  lemma EncodeFirst(vs: seq<RespValue>, post: Bytes)
    requires vs != []
    ensures EncodeAll(vs) + post == Encode(vs[0]) + (EncodeAll(vs[1..]) + post)
  {
    Associative(Encode(vs[0]), EncodeAll(vs[1..]), post);
  }

  lemma PrependNone(post: Bytes)
    ensures [] + post == post && Prepend([], Drain(post)) == Drain(post)
  {
    assert [] + Drain(post).values == Drain(post).values;
  }

  /** A stream of printed values drains to exactly those values, with nothing left over. */
  lemma {:induction false} DrainEncoded(vs: seq<RespValue>, post: Bytes)
    requires AllEncodable(vs)
    ensures Drain(EncodeAll(vs) + post) == Prepend(vs, Drain(post))
    decreases |vs|
  {
    if vs == [] {
      PrependNone(post);
    } else {
      EncodeFirst(vs, post);
      DrainFrame(vs[0], EncodeAll(vs[1..]) + post);
      DrainEncoded(vs[1..], post);
      PrependPrepend([vs[0]], vs[1..], Drain(post));
      assert [vs[0]] + vs[1..] == vs;
    }
  }

  /** Whatever a stream drains to is a sequence of values the printer can carry. */
  lemma {:induction false} DrainedIsEncodable(s: Bytes, i: nat)
    requires |s| <= INT64_MAX && i < |Drain(s).values|
    ensures Encodable(Drain(s).values[i])
    decreases |s|
  {
    ParsedIsEncodable(s);
    if i > 0 {
      DrainedIsEncodable(s[Parse(s).consumed..], i - 1);
    }
  }
}
