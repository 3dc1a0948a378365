/** RESP2 values, the printer `resp_encode`, and the incremental parser `parse_at`.
    `Parse` and `Encode` say what the two compute; the methods below them work the way the
    program does, over a read-only buffer with a moving cursor, and are proved to compute
    the same. A byte is a `char` and a byte buffer a `string`. */
module Resp {
  import opened Wrappers
  import opened Int64

  type Bytes = string

  datatype RespValue =
    | Null
    | Bulk(text: string)
    | Integer(n: int)
    | Err(message: string)
    | Array(elems: seq<RespValue>)

  datatype ParseResult =
    | Complete(value: RespValue, consumed: nat)
    | Incomplete
    | Error
  {
    /** The same result, told from `k` bytes earlier. */
    function Shift(k: nat): ParseResult {
      if Complete? then Complete(value, k + consumed) else this
    }
  }

  /** What the element loop of an array frame comes to. */
  datatype ItemsResult =
    | Items(values: seq<RespValue>, used: nat)
    | ItemsIncomplete
    | ItemsError
  {
    function After(v: RespValue, consumed: nat): ItemsResult {
      if Items? then Items([v] + values, consumed + used) else this
    }

    function AsArray(): ParseResult {
      match this
      case Items(values, used) => Complete(Array(values), used)
      case ItemsIncomplete => Incomplete
      case ItemsError => Error
    }
  }

  // ---- lines -------------------------------------------------------------------------

  predicate CrlfAt(s: Bytes, i: int) {
    0 <= i && i + 1 < |s| && s[i] == '\r' && s[i + 1] == '\n'
  }

  predicate NoCrlf(s: Bytes) {
    forall i | 0 <= i < |s| :: !CrlfAt(s, i)
  }

  function FindCrlf(s: Bytes, from: nat): (r: Option<nat>)
    ensures r.Some? ==> from <= r.value && r.value + 2 <= |s|
    decreases |s| - from
  {
    if from + 1 >= |s| then None
    else if CrlfAt(s, from) then Some(from)
    else FindCrlf(s, from + 1)
  }

  /** `FindCrlf` finds the first line terminator: it is at `end` exactly when the terminator
      is there and nowhere between, and there is none exactly when it reports none. */
  lemma {:induction false} FindCrlfFirst(s: Bytes, from: nat, end: nat)
    ensures FindCrlf(s, from) == Some(end) <==>
            from <= end && CrlfAt(s, end) && forall i | from <= i < end :: !CrlfAt(s, i)
    ensures FindCrlf(s, from).None? <==> forall i | from <= i < |s| :: !CrlfAt(s, i)
    decreases |s| - from
  {
    if from + 1 < |s| && !CrlfAt(s, from) {
      FindCrlfFirst(s, from + 1, end);
    }
  }

  predicate IsTypeByte(c: char) {
    c == '+' || c == '-' || c == ':' || c == '$' || c == '*'
  }

  // ---- the parser --------------------------------------------------------------------

  /** The first frame of `s`. */
  function Parse(s: Bytes): (r: ParseResult)
    ensures r.Complete? ==> 3 <= r.consumed <= |s|
    decreases |s|, 0
  {
    if s == [] then Incomplete
    else if !IsTypeByte(s[0]) then Error
    else
      match FindCrlf(s, 1)
      case None => Incomplete
      case Some(end) => ParseBody(s[0], s[1..end], s[end + 2..]).Shift(end + 2)
  }

  /** A frame whose first line is `mark` and `line`; `rest` is what follows that line. */
  function ParseBody(mark: char, line: string, rest: Bytes): (r: ParseResult)
    requires IsTypeByte(mark)
    ensures r.Complete? ==> r.consumed <= |rest|
    decreases |rest|, 2
  {
    if mark == '+' then Complete(Bulk(line), 0)
    else if mark == '-' then Complete(Err(line), 0)
    else
      match ParseI64(line)
      case None => Error
      case Some(n) =>
        if mark == ':' then Complete(Integer(n), 0)
        else if n < -1 then Error
        else if n == -1 then Complete(Null, 0)
        else if mark == '$' then ParseBulk(rest, n)
        else ParseItems(rest, n).AsArray()
  }

  /** The body of a bulk string of `n` bytes. */
  function ParseBulk(s: Bytes, n: nat): (r: ParseResult)
    ensures r.Complete? ==> r.consumed == n + 2 <= |s|
  {
    if n + 2 > |s| then Incomplete
    else if !CrlfAt(s, n) then Error
    else Complete(Bulk(s[..n]), n + 2)
  }

  /** `n` frames in a row. However large `n` is, each frame uses bytes, so this ends. */
  function ParseItems(s: Bytes, n: nat): (r: ItemsResult)
    ensures r.Items? ==> |r.values| == n && 3 * n <= r.used <= |s|
    decreases |s|, 1
  {
    if n == 0 then Items([], 0)
    else
      match Parse(s)
      case Incomplete => ItemsIncomplete
      case Error => ItemsError
      case Complete(v, consumed) => ParseItems(s[consumed..], n - 1).After(v, consumed)
  }

  // ---- the printer -------------------------------------------------------------------

  function Line(mark: char, text: string): Bytes {
    [mark] + text + "\r\n"
  }

  function Encode(v: RespValue): Bytes
    decreases v, 0
  {
    match v
    case Null => "$-1\r\n"
    case Bulk(text) => Line('$', ToString(|text|)) + text + "\r\n"
    case Integer(n) => Line(':', ToString(n))
    case Err(message) => Line('-', message)
    case Array(elems) => Line('*', ToString(|elems|)) + EncodeAll(elems)
  }

  function EncodeAll(vs: seq<RespValue>): Bytes
    decreases vs, 1
  {
    if vs == [] then [] else Encode(vs[0]) + EncodeAll(vs[1..])
  }

  /** The values the wire format can carry: sizes and integers in int64, error lines that
      do not contain the line terminator. */
  predicate Encodable(v: RespValue)
    decreases v, 0
  {
    match v
    case Null => true
    case Bulk(text) => |text| <= INT64_MAX
    case Integer(n) => InInt64(n)
    case Err(message) => NoCrlf(message)
    case Array(elems) => |elems| <= INT64_MAX && AllEncodable(elems)
  }

  predicate AllEncodable(vs: seq<RespValue>)
    decreases vs, 1
  {
    vs == [] || (Encodable(vs[0]) && AllEncodable(vs[1..]))
  }

  ghost function Nodes(v: RespValue): nat
    decreases v, 0
  {
    if v.Array? then 1 + NodesOf(v.elems) else 1
  }

  ghost function NodesOf(vs: seq<RespValue>): nat
    decreases vs, 1
  {
    if vs == [] then 0 else Nodes(vs[0]) + NodesOf(vs[1..])
  }

  // ---- the program's own form --------------------------------------------------------

  method FindCrlfFrom(buf: Bytes, pos: nat) returns (r: Option<nat>)
    ensures r == FindCrlf(buf, pos)
  {
    var i := pos;
    while i + 1 < |buf|
      invariant pos <= i
      invariant FindCrlf(buf, pos) == FindCrlf(buf, i)
    {
      if buf[i] == '\r' && buf[i + 1] == '\n' {
        return Some(i);
      }
      i := i + 1;
    }
    return None;
  }

  method ReadString(buf: Bytes, start: nat, end: nat) returns (out: string)
    requires start <= end <= |buf|
    ensures out == buf[start..end]
  {
    out := [];
    for i := start to end
      invariant out == buf[start..i]
    {
      out := out + [buf[i]];
    }
  }

  ghost function Rest(buf: Bytes, pos: nat): Bytes {
    if pos < |buf| then buf[pos..] else []
  }

  /** A line found from `pos + 1` in the buffer is the line found from 1 in its suffix. */
  lemma {:induction false} FindCrlfShift(buf: Bytes, pos: nat, from: nat)
    requires pos <= |buf|
    ensures FindCrlf(buf, pos + from) ==
            match FindCrlf(buf[pos..], from) { case None => None case Some(e) => Some(pos + e) }
    decreases |buf| - from
  {
    if pos + from + 1 < |buf| {
      assert CrlfAt(buf, pos + from) == CrlfAt(buf[pos..], from);
      if !CrlfAt(buf, pos + from) {
        FindCrlfShift(buf, pos, from + 1);
      }
    }
  }

  /** Parsing at a cursor of a larger buffer looks at nothing before the cursor. */
  method ParseAt(buf: Bytes, pos: nat) returns (r: ParseResult)
    ensures r == Parse(Rest(buf, pos))
    ensures r.Complete? ==> pos + r.consumed <= |buf|
    decreases |buf| - pos, 0
  {
    if pos >= |buf| {
      return Incomplete;
    }
    var kind := buf[pos];
    if !IsTypeByte(kind) {
      return Error;
    }
    FindCrlfShift(buf, pos, 1);
    var lineEnd := FindCrlfFrom(buf, pos + 1);
    if lineEnd == None {
      return Incomplete;
    }
    var end := lineEnd.value;
    assert buf[pos..][1..end - pos] == buf[pos + 1..end];
    assert buf[pos..][end - pos + 2..] == buf[end + 2..];
    r := ParseBodyAt(buf, pos, end);
  }

  /** The switch on the type byte. */
  method ParseBodyAt(buf: Bytes, pos: nat, lineEnd: nat) returns (r: ParseResult)
    requires pos < lineEnd && lineEnd + 2 <= |buf| && IsTypeByte(buf[pos])
    ensures r == ParseBody(buf[pos], buf[pos + 1..lineEnd], buf[lineEnd + 2..]).Shift(lineEnd + 2 - pos)
    decreases |buf| - lineEnd, 4
  {
    var kind := buf[pos];
    var line := ReadString(buf, pos + 1, lineEnd);
    var used := lineEnd + 2 - pos;
    if kind == '+' {
      return Complete(Bulk(line), used);
    }
    if kind == '-' {
      return Complete(Err(line), used);
    }
    var number := ParseI64(line);
    if number == None {
      return Error;
    }
    if kind == ':' {
      return Complete(Integer(number.value), used);
    }
    if number.value < -1 {
      return Error;
    }
    if number.value == -1 {
      return Complete(Null, used);
    }
    var body := ParseSizedAt(buf, kind, lineEnd + 2, number.value);
    return body.Shift(used);
  }

  method ParseSizedAt(buf: Bytes, kind: char, start: nat, len: nat) returns (r: ParseResult)
    requires start <= |buf|
    ensures r == if kind == '$' then ParseBulk(buf[start..], len) else ParseItems(buf[start..], len).AsArray()
    decreases |buf| - start, 3
  {
    if kind == '$' {
      r := ParseBulkAt(buf, start, len);
    } else {
      var items := ParseItemsAt(buf, start, len);
      r := items.AsArray();
    }
  }

  method ParseBulkAt(buf: Bytes, start: nat, len: nat) returns (r: ParseResult)
    requires start <= |buf|
    ensures r == ParseBulk(buf[start..], len)
  {
    var end := start + len;
    if end + 2 > |buf| {
      return Incomplete;
    }
    if buf[end] != '\r' || buf[end + 1] != '\n' {
      return Error;
    }
    var data := ReadString(buf, start, end);
    assert data == buf[start..][..len];
    return Complete(Bulk(data), len + 2);
  }

  lemma SliceOfSlice(s: Bytes, i: nat, j: nat)
    requires i + j <= |s|
    ensures s[i..][j..] == s[i + j..]
  {
  }

  /** What the element loop holds once the next child is known. */
  function Extended(done: ItemsResult, child: ParseResult): ItemsResult
    requires done.Items?
  {
    match child
    case Complete(v, consumed) => Items(done.values + [v], done.used + consumed)
    case Error => ItemsError
    case Incomplete => ItemsIncomplete
  }

  lemma AfterExtended(done: ItemsResult, child: ParseResult, v: RespValue, consumed: nat)
    requires done.Items?
    ensures Extended(done.After(v, consumed), child) == Extended(done, child).After(v, consumed)
  {
    if child.Complete? {
      assert [v] + (done.values + [child.value]) == [v] + done.values + [child.value];
    }
  }

  /** The element loop after `i` elements: one more child extends the list by that child, */
  lemma {:induction false} ItemsSnoc(s: Bytes, i: nat)
    requires ParseItems(s, i).Items?
    ensures ParseItems(s, i + 1) == Extended(ParseItems(s, i), Parse(s[ParseItems(s, i).used..]))
    decreases i
  {
    if i == 0 {
      assert s[0..] == s;
    } else {
      var used := Parse(s).consumed;
      var done := ParseItems(s[used..], i - 1);
      ItemsSnoc(s[used..], i - 1);
      SliceOfSlice(s, used, done.used);
      AfterExtended(done, Parse(s[used + done.used..]), Parse(s).value, used);
    }
  }

  /** and a child without a value is the verdict of the whole loop. */
  lemma {:induction false} ItemsStop(s: Bytes, i: nat, n: nat)
    requires i <= n && !ParseItems(s, i).Items?
    ensures ParseItems(s, n) == ParseItems(s, i)
    decreases i
  {
    if Parse(s).Complete? {
      ItemsStop(s[Parse(s).consumed..], i - 1, n - 1);
    }
  }

  /** One turn of the element loop, of `n` turns. */
  lemma ItemsTurn(s: Bytes, i: nat, n: nat, values: seq<RespValue>, used: nat, child: ParseResult)
    requires i < n && ParseItems(s, i) == Items(values, used) && child == Parse(s[used..])
    ensures child.Complete? ==> ParseItems(s, i + 1) == Items(values + [child.value], used + child.consumed)
    ensures !child.Complete? ==> ParseItems(s, n) == if child.Error? then ItemsError else ItemsIncomplete
  {
    ItemsSnoc(s, i);
    if !child.Complete? {
      ItemsStop(s, i + 1, n);
    }
  }

  method ParseElementAt(buf: Bytes, cursor: nat, ghost s: Bytes, ghost used: nat) returns (child: ParseResult)
    requires used <= cursor <= |buf| && s == buf[cursor - used..]
    ensures child == Parse(s[used..])
    ensures child.Complete? ==> cursor + child.consumed <= |buf|
    decreases |buf| - cursor, 1
  {
    assert Rest(buf, cursor) == s[used..];
    child := ParseAt(buf, cursor);
  }

  method ParseItemsAt(buf: Bytes, start: nat, len: nat) returns (r: ItemsResult)
    requires start <= |buf|
    ensures r == ParseItems(buf[start..], len)
    decreases |buf| - start, 2
  {
    var values: seq<RespValue> := [];
    var cursor := start;
    ghost var s := buf[start..];
    for i := 0 to len
      invariant start <= cursor <= |buf|
      invariant ParseItems(s, i) == Items(values, cursor - start)
    {
      var child := ParseElementAt(buf, cursor, s, cursor - start);
      ItemsTurn(s, i, len, values, cursor - start, child);
      if !child.Complete? {
        return if child.Error? then ItemsError else ItemsIncomplete;
      }
      cursor := cursor + child.consumed;
      values := values + [child.value];
    }
    return Items(values, cursor - start);
  }

  /** `resp_encode` appends to the output it is given. */
  method AppendEncoded(v: RespValue, out: Bytes) returns (more: Bytes)
    ensures more == out + Encode(v)
    decreases v, 0
  {
    match v {
      case Null =>
        more := out + "$-1\r\n";
      case Bulk(text) =>
        more := out + "$" + ToString(|text|) + "\r\n" + text + "\r\n";
      case Integer(n) =>
        more := out + ":" + ToString(n) + "\r\n";
      case Err(message) =>
        more := out + "-" + message + "\r\n";
      case Array(elems) =>
        more := out + "*" + ToString(|elems|) + "\r\n";
        more := AppendElements(elems, more);
    }
  }

  method AppendElements(elems: seq<RespValue>, out: Bytes) returns (more: Bytes)
    ensures more == out + EncodeAll(elems)
    decreases elems, 1
  {
    more := out;
    for i := 0 to |elems|
      invariant more + EncodeAll(elems[i..]) == out + EncodeAll(elems)
    {
      assert elems[i..][1..] == elems[i + 1..];
      more := AppendEncoded(elems[i], more);
    }
  }

  /** `RespParser`: the bytes received and not yet consumed. */
  class RespParser {
    var buf: Bytes
    /** The connection this parser is part of. */
    ghost const fd: int

    constructor (ghost fd: int)
      ensures buf == [] && this.fd == fd
    {
      this.fd := fd;
      buf := [];
    }

    method Feed(data: Bytes)
      modifies this
      ensures buf == old(buf) + data
    {
      buf := buf + data;
    }

    method TryParse() returns (r: ParseResult)
      modifies this
      ensures r == Parse(old(buf))
      ensures buf == if r.Complete? then old(buf)[r.consumed..] else old(buf)
    {
      r := ParseAt(buf, 0);
      assert Rest(buf, 0) == buf;
      if r.Complete? {
        buf := buf[r.consumed..];
      }
    }

    method Reset()
      modifies this
      ensures buf == []
    {
      buf := [];
    }
  }
}
