/** Stored values and what each operation on one key does to the entry it finds. The entry
    is None when the key is absent; whether a dead entry counts as absent is decided by the
    lookup (`Keyspace`, `Store`), never here. */
module Values {
  import opened Wrappers
  import opened Int64
  import opened Lex

  datatype Value =
    | StringValue(data: string)
    | ListValue(items: seq<string>)
    | HashValue(fields: map<string, string>)
    | SetValue(members: set<string>)

  /** `expiresAt` is in milliseconds; 0 means the entry never expires. */
  datatype Entry = Entry(value: Value, expiresAt: uint64)

  datatype StoreError = KeyNotFound | WrongType | NotAnInteger | OutOfRange

  datatype Outcome<+T> = Ok(value: T) | Fail(error: StoreError)

  /** The entry an operation leaves under the key, and what it returns. */
  datatype Change<+T> = Change(entry: Option<Entry>, result: T)

  predicate Expired(e: Entry, now: nat) {
    e.expiresAt != 0 && e.expiresAt <= now
  }

  function Fresh(value: Value): Option<Entry> {
    Some(Entry(value, 0))
  }

  function WithValue(e: Entry, value: Value): Option<Entry> {
    Some(Entry(value, e.expiresAt))
  }

  // ---- strings -----------------------------------------------------------------------

  function GetOf(e: Option<Entry>): Outcome<string> {
    match e
    case None => Fail(KeyNotFound)
    case Some(Entry(StringValue(data), _)) => Ok(data)
    case Some(_) => Fail(WrongType)
  }

  function StrlenOf(e: Option<Entry>): Outcome<int> {
    match e
    case None => Ok(0)
    case Some(Entry(StringValue(data), _)) => Ok(|data|)
    case Some(_) => Fail(WrongType)
  }

  /** INCR, INCRBY, DECR and DECRBY with the sign already applied: the sum is taken over the
      integers and stored only if it fits; an absent key counts as 0. */
  function AddOn(e: Option<Entry>, delta: int): Change<Outcome<int>> {
    match e
    case None =>
      if InInt64(delta) then Change(Fresh(StringValue(ToString(delta))), Ok(delta))
      else Change(e, Fail(NotAnInteger))
    case Some(entry) =>
      if !entry.value.StringValue? then Change(e, Fail(WrongType))
      else
        match ParseI64(entry.value.data)
        case None => Change(e, Fail(NotAnInteger))
        case Some(current) =>
          if InInt64(current + delta)
          then Change(WithValue(entry, StringValue(ToString(current + delta))), Ok(current + delta))
          else Change(e, Fail(NotAnInteger))
  }

  function AppendOn(e: Option<Entry>, suffix: string): Change<Outcome<int>> {
    match e
    case None => Change(Fresh(StringValue(suffix)), Ok(|suffix|))
    case Some(entry) =>
      if !entry.value.StringValue? then Change(e, Fail(WrongType))
      else
        Change(WithValue(entry, StringValue(entry.value.data + suffix)), Ok(|entry.value.data + suffix|))
  }

  function GetSetOn(e: Option<Entry>, value: string): Change<Outcome<string>> {
    match e
    case None => Change(Fresh(StringValue(value)), Fail(KeyNotFound))
    case Some(entry) =>
      if !entry.value.StringValue? then Change(e, Fail(WrongType))
      else Change(Fresh(StringValue(value)), Ok(entry.value.data))
  }

  // ---- expiry ------------------------------------------------------------------------

  /** `now_ms() + ms` in 64-bit unsigned arithmetic. */
  function Deadline(now: nat, ms: uint64): uint64 {
    (now + ms) % UINT64_SPAN
  }

  /** `seconds * 1000` in 64-bit unsigned arithmetic. */
  function SecondsToMs(seconds: uint64): uint64 {
    seconds * 1000 % UINT64_SPAN
  }

  function PExpireOn(e: Option<Entry>, now: nat, ms: uint64): Change<bool> {
    match e
    case None => Change(None, false)
    case Some(entry) => Change(Some(entry.(expiresAt := Deadline(now, ms))), true)
  }

  function PersistOn(e: Option<Entry>): Change<bool> {
    match e
    case None => Change(None, false)
    case Some(entry) =>
      if entry.expiresAt == 0 then Change(e, false) else Change(Some(entry.(expiresAt := 0)), true)
  }

  function PttlOf(e: Option<Entry>, now: nat): int {
    match e
    case None => -2
    case Some(entry) =>
      if entry.expiresAt == 0 then -1
      else if entry.expiresAt <= now then -2
      else AsInt64(entry.expiresAt - now)
  }

  function TtlOf(e: Option<Entry>, now: nat): int {
    var remaining := PttlOf(e, now);
    if remaining <= 0 then remaining else (remaining + 999) / 1000
  }

  function TypeOf(e: Option<Entry>): string {
    match e
    case None => "none"
    case Some(entry) =>
      match entry.value
      case StringValue(_) => "string"
      case ListValue(_) => "list"
      case HashValue(_) => "hash"
      case SetValue(_) => "set"
  }

  // ---- lists -------------------------------------------------------------------------

  function Reverse(s: seq<string>): (r: seq<string>)
    ensures |r| == |s|
  {
    if s == [] then [] else [s[|s| - 1]] + Reverse(s[..|s| - 1])
  }

  /** -1 stands for the wrong type, as in the program. */
  function LPushOn(e: Option<Entry>, values: seq<string>): Change<int> {
    match e
    case None => Change(Fresh(ListValue(Reverse(values))), |values|)
    case Some(entry) =>
      if !entry.value.ListValue? then Change(e, -1)
      else
        var items := Reverse(values) + entry.value.items;
        Change(WithValue(entry, ListValue(items)), |items|)
  }

  function RPushOn(e: Option<Entry>, values: seq<string>): Change<int> {
    match e
    case None => Change(Fresh(ListValue(values)), |values|)
    case Some(entry) =>
      if !entry.value.ListValue? then Change(e, -1)
      else
        var items := entry.value.items + values;
        Change(WithValue(entry, ListValue(items)), |items|)
  }

  /** An entry whose collection has become empty is erased. */
  function KeptList(e: Entry, items: seq<string>): Option<Entry> {
    if items == [] then None else WithValue(e, ListValue(items))
  }

  function LPopOn(e: Option<Entry>): Change<Outcome<string>> {
    match e
    case None => Change(None, Fail(KeyNotFound))
    case Some(entry) =>
      if !entry.value.ListValue? then Change(e, Fail(WrongType))
      else
        var items := entry.value.items;
        if items == [] then Change(None, Fail(KeyNotFound))
        else Change(KeptList(entry, items[1..]), Ok(items[0]))
  }

  function RPopOn(e: Option<Entry>): Change<Outcome<string>> {
    match e
    case None => Change(None, Fail(KeyNotFound))
    case Some(entry) =>
      if !entry.value.ListValue? then Change(e, Fail(WrongType))
      else
        var items := entry.value.items;
        if items == [] then Change(None, Fail(KeyNotFound))
        else Change(KeptList(entry, items[..|items| - 1]), Ok(items[|items| - 1]))
  }

  function NormalizeIndex(index: int, size: nat): int {
    if index < 0 then size + index else index
  }

  function SliceFrom(start: int, size: nat): nat {
    var first := NormalizeIndex(start, size);
    if first < 0 then 0 else first
  }

  function SliceTo(stop: int, size: nat): int {
    var last := NormalizeIndex(stop, size);
    if last >= size then size else last + 1
  }

  /** Indices from the end are counted back, both ends are clamped to the list, and an empty
      range is the empty list. */
  function Slice(items: seq<string>, start: int, stop: int): seq<string> {
    var lo, hi := SliceFrom(start, |items|), SliceTo(stop, |items|);
    if lo < hi then items[lo..hi] else []
  }

  function LRangeOf(e: Option<Entry>, start: int, stop: int): Outcome<seq<string>> {
    match e
    case None => Fail(KeyNotFound)
    case Some(Entry(ListValue(items), _)) => Ok(Slice(items, start, stop))
    case Some(_) => Fail(WrongType)
  }

  function LLenOf(e: Option<Entry>): Outcome<int> {
    match e
    case None => Fail(KeyNotFound)
    case Some(Entry(ListValue(items), _)) => Ok(|items|)
    case Some(_) => Fail(WrongType)
  }

  function LIndexOf(e: Option<Entry>, index: int): Outcome<string> {
    match e
    case None => Fail(KeyNotFound)
    case Some(Entry(ListValue(items), _)) =>
      var i := NormalizeIndex(index, |items|);
      if 0 <= i < |items| then Ok(items[i]) else Fail(OutOfRange)
    case Some(_) => Fail(WrongType)
  }

  // ---- hashes ------------------------------------------------------------------------

  type Pair = (string, string)

  /** Assign the pairs from left to right: the last value given to a field stays. */
  function Assigned<V>(m: map<string, V>, pairs: seq<(string, V)>): map<string, V> {
    if pairs == [] then m
    else
      var last := pairs[|pairs| - 1];
      Assigned(m, pairs[..|pairs| - 1])[last.0 := last.1]
  }

  function Names<V>(pairs: seq<(string, V)>): set<string> {
    set i | 0 <= i < |pairs| :: pairs[i].0
  }

  /** Duplicate names are assigned over: the names present afterwards are those present before
      and those in the pairs, each once. */
  lemma {:induction false} AssignedKeys<V>(m: map<string, V>, pairs: seq<(string, V)>)
    ensures Assigned(m, pairs).Keys == m.Keys + Names(pairs)
    decreases |pairs|
  {
    if pairs != [] {
      var init, last := pairs[..|pairs| - 1], pairs[|pairs| - 1];
      AssignedKeys(m, init);
      assert Names(pairs) == Names(init) + {last.0} by {
        forall x | x in Names(pairs) ensures x in Names(init) + {last.0} {
          var i :| 0 <= i < |pairs| && pairs[i].0 == x;
          if i < |init| { assert init[i].0 == x; }
        }
        forall x | x in Names(init) ensures x in Names(pairs) {
          var i :| 0 <= i < |init| && init[i].0 == x;
          assert pairs[i].0 == x;
        }
      }
    }
  }

  /** Returns the number of fields that are new. */
  function HSetOn(e: Option<Entry>, pairs: seq<Pair>): Change<int> {
    match e
    case None => Change(Fresh(HashValue(Assigned(map[], pairs))), |Assigned(map[], pairs)|)
    case Some(entry) =>
      if !entry.value.HashValue? then Change(e, -1)
      else
        var fields := Assigned(entry.value.fields, pairs);
        Change(WithValue(entry, HashValue(fields)), |fields| - |entry.value.fields|)
  }

  /** Returns the number of fields that are gone. */
  function HDelOn(e: Option<Entry>, names: seq<string>): Change<int> {
    match e
    case None => Change(None, 0)
    case Some(entry) =>
      if !entry.value.HashValue? then Change(e, -1)
      else
        var fields := entry.value.fields - Elements(names);
        Change(if fields == map[] then None else WithValue(entry, HashValue(fields)),
               |entry.value.fields| - |fields|)
  }

  function HGetOf(e: Option<Entry>, name: string): Outcome<string> {
    match e
    case None => Fail(KeyNotFound)
    case Some(Entry(HashValue(fields), _)) => if name in fields then Ok(fields[name]) else Fail(KeyNotFound)
    case Some(_) => Fail(WrongType)
  }

  function HExistsOf(e: Option<Entry>, name: string): Outcome<bool> {
    match e
    case None => Fail(KeyNotFound)
    case Some(Entry(HashValue(fields), _)) => Ok(name in fields)
    case Some(_) => Fail(WrongType)
  }

  function HLenOf(e: Option<Entry>): Outcome<int> {
    match e
    case None => Fail(KeyNotFound)
    case Some(Entry(HashValue(fields), _)) => Ok(|fields|)
    case Some(_) => Fail(WrongType)
  }

  function ValuesAt(fields: map<string, string>, names: seq<string>): (r: seq<string>)
    requires forall f | f in names :: f in fields
    ensures |r| == |names| && forall i | 0 <= i < |r| :: r[i] == fields[names[i]]
  {
    seq(|names|, i requires 0 <= i < |names| => fields[names[i]])
  }

  /** Each field followed by its value. */
  function FlatPairs(fields: map<string, string>, names: seq<string>): (r: seq<string>)
    requires forall f | f in names :: f in fields
    ensures |r| == 2 * |names|
    ensures forall i | 0 <= i < |names| :: r[2 * i] == names[i] && r[2 * i + 1] == fields[names[i]]
  {
    if names == [] then []
    else
      var last := names[|names| - 1];
      FlatPairs(fields, names[..|names| - 1]) + [last, fields[last]]
  }

  function HGetAllOf(e: Option<Entry>): Outcome<seq<string>> {
    match e
    case None => Fail(KeyNotFound)
    case Some(Entry(HashValue(fields), _)) => Ok(FlatPairs(fields, Sorted(fields.Keys)))
    case Some(_) => Fail(WrongType)
  }

  function HKeysOf(e: Option<Entry>): Outcome<seq<string>> {
    match e
    case None => Fail(KeyNotFound)
    case Some(Entry(HashValue(fields), _)) => Ok(Sorted(fields.Keys))
    case Some(_) => Fail(WrongType)
  }

  function HValsOf(e: Option<Entry>): Outcome<seq<string>> {
    match e
    case None => Fail(KeyNotFound)
    case Some(Entry(HashValue(fields), _)) => Ok(ValuesAt(fields, Sorted(fields.Keys)))
    case Some(_) => Fail(WrongType)
  }

  // ---- sets --------------------------------------------------------------------------

  /** Returns the number of members that are new. */
  function SAddOn(e: Option<Entry>, names: seq<string>): Change<int> {
    match e
    case None => Change(Fresh(SetValue(Elements(names))), |Elements(names)|)
    case Some(entry) =>
      if !entry.value.SetValue? then Change(e, -1)
      else
        var members := entry.value.members + Elements(names);
        Change(WithValue(entry, SetValue(members)), |members| - |entry.value.members|)
  }

  /** Returns the number of members that are gone. */
  function SRemOn(e: Option<Entry>, names: seq<string>): Change<int> {
    match e
    case None => Change(None, 0)
    case Some(entry) =>
      if !entry.value.SetValue? then Change(e, -1)
      else
        var members := entry.value.members - Elements(names);
        Change(if members == {} then None else WithValue(entry, SetValue(members)),
               |entry.value.members| - |members|)
  }

  function SMembersOf(e: Option<Entry>): Outcome<seq<string>> {
    match e
    case None => Fail(KeyNotFound)
    case Some(Entry(SetValue(members), _)) => Ok(Sorted(members))
    case Some(_) => Fail(WrongType)
  }

  function SIsMemberOf(e: Option<Entry>, name: string): Outcome<bool> {
    match e
    case None => Fail(KeyNotFound)
    case Some(Entry(SetValue(members), _)) => Ok(name in members)
    case Some(_) => Fail(WrongType)
  }

  function SCardOf(e: Option<Entry>): Outcome<int> {
    match e
    case None => Fail(KeyNotFound)
    case Some(Entry(SetValue(members), _)) => Ok(|members|)
    case Some(_) => Fail(WrongType)
  }
}
