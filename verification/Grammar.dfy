/** The wire format as a grammar, said with bytes, numerals and concatenation only, and the proof
    that the parser gives each of its three verdicts exactly where the grammar says. */
module Grammar {
  import opened Wrappers
  import opened Int64
  import opened Numerals
  import opened Resp
  import opened RespLaws

  /** A type byte, a text in which no CR is followed by LF, and CR LF. */
  ghost predicate IsLine(s: Bytes, mark: char, text: string) {
    && s == [mark] + text + ['\r', '\n']
    && forall i | 0 <= i < |text| - 1 :: !(text[i] == '\r' && text[i + 1] == '\n')
  }

  ghost predicate SizeLine(s: Bytes, mark: char, n: int) {
    exists text :: IsLine(s, mark, text) && Spells64(text, n)
  }

  /** The bytes are one frame for the value. */
  ghost predicate Frame(s: Bytes, v: RespValue)
    decreases v, 0
  {
    match v
    case Null => SizeLine(s, '$', -1) || SizeLine(s, '*', -1)
    case Integer(n) => SizeLine(s, ':', n)
    case Err(message) => IsLine(s, '-', message)
    case Bulk(text) => IsLine(s, '+', text) || exists k | 0 <= k <= |s| :: SizedText(s[..k], s[k..], text)
    case Array(elems) => exists k | 0 <= k <= |s| :: SizeLine(s[..k], '*', |elems|) && Frames(s[k..], elems)
  }

  ghost predicate SizedText(head: Bytes, body: Bytes, text: string) {
    SizeLine(head, '$', |text|) && body == text + ['\r', '\n']
  }

  /** Frames for the values, one after the other. */
  ghost predicate Frames(s: Bytes, vs: seq<RespValue>)
    decreases vs, 1
  {
    if vs == [] then s == []
    else exists k | 0 <= k <= |s| :: Frame(s[..k], vs[0]) && Frames(s[k..], vs[1..])
  }

  /** No frame can start with these bytes: the type byte is none of the five; or a first line that
      needs a number holds none, or one below -1; or the body it announces is broken. */
  ghost predicate Broken(s: Bytes)
    decreases |s|, 0
  {
    s != [] && (s[0] !in ['+', '-', ':', '$', '*'] ||
                (s[0] in [':', '$', '*'] &&
                 exists k, text | 0 < k <= |s| :: IsLine(s[..k], s[0], text) && BrokenAfter(s[0], text, s[k..])))
  }

  ghost predicate BrokenAfter(mark: char, text: string, rest: Bytes)
    decreases |rest|, 1
  {
    || !IsInt64Text(text)
    || (mark != ':' && Denoted(text) < -1)
    || (mark == '$' && Denoted(text) >= 0 && Unterminated(rest, Denoted(text)))
    || (mark == '*' && exists vs, k | |vs| < Denoted(text) && 0 <= k <= |rest| :: Frames(rest[..k], vs) && Broken(rest[k..]))
  }

  ghost predicate Unterminated(rest: Bytes, n: nat) {
    |rest| >= n + 2 && !(rest[n] == '\r' && rest[n + 1] == '\n')
  }

  // ---- lines -------------------------------------------------------------------------

  lemma LineIsRead(s: Bytes, mark: char, text: string, post: Bytes)
    requires IsLine(s, mark, text) && IsTypeByte(mark)
    ensures Parse(s + post) == ParseBody(mark, text, post).Shift(|s|)
  {
    assert s == Line(mark, text);
    assert NoCrlf(text);
    LineFound(mark, text, post);
  }

  lemma ReadIsLine(s: Bytes)
    requires s != [] && FindCrlf(s, 1).Some?
    ensures var end := FindCrlf(s, 1).value;
            IsLine(s[..end + 2], s[0], s[1..end]) && s == s[..end + 2] + s[end + 2..]
  {
    var end := FindCrlf(s, 1).value;
    FindCrlfFirst(s, 1, end);
    assert s[..end + 2] == [s[0]] + s[1..end] + ['\r', '\n'];
    forall i | 0 <= i < |s[1..end]| - 1 ensures !(s[1..end][i] == '\r' && s[1..end][i + 1] == '\n') {
      assert !CrlfAt(s, i + 1);
    }
  }

  // ---- complete frames ---------------------------------------------------------------

  lemma {:induction false} FrameIsRead(w: Bytes, v: RespValue, post: Bytes)
    requires Frame(w, v)
    ensures Parse(w + post) == Complete(v, |w|)
    decreases v, 0
  {
    hide Parse, ParseItems, ParseBulk, SizeLine, IsLine;
    match v
    case Null =>
      SizeIsRead(w, if SizeLine(w, '$', -1) then '$' else '*', -1, post);
    case Integer(n) => SizeIsRead(w, ':', n, post);
    case Err(message) => LineIsRead(w, '-', message, post);
    case Bulk(text) =>
      if IsLine(w, '+', text) {
        LineIsRead(w, '+', text, post);
      } else {
        var k :| 0 <= k <= |w| && SizedText(w[..k], w[k..], text);
        Halves(w, k, post);
        SizeIsRead(w[..k], '$', |text|, w[k..] + post);
        TextIsRead(w[k..], text, post);
      }
    case Array(elems) =>
      var k :| 0 <= k <= |w| && SizeLine(w[..k], '*', |elems|) && Frames(w[k..], elems);
      Halves(w, k, post);
      SizeIsRead(w[..k], '*', |elems|, w[k..] + post);
      FramesAreRead(w[k..], elems, post);
  }

  lemma Halves(w: Bytes, k: nat, post: Bytes)
    requires k <= |w|
    ensures w[..k] + (w[k..] + post) == w + post
  {
  }

  lemma TextIsRead(body: Bytes, text: string, post: Bytes)
    requires body == text + ['\r', '\n']
    ensures ParseBulk(body + post, |text|) == Complete(Bulk(text), |body|)
  {
    BulkBody(text, post);
    assert body + post == text + "\r\n" + post;
  }

  lemma SizeIsRead(head: Bytes, mark: char, n: int, post: Bytes)
    requires SizeLine(head, mark, n) && IsTypeByte(mark) && mark != '+' && mark != '-'
    ensures Parse(head + post) ==
            (if mark == ':' then Complete(Integer(n), 0)
             else if n < -1 then Error
             else if n == -1 then Complete(Null, 0)
             else if mark == '$' then ParseBulk(post, n) else ParseItems(post, n).AsArray()).Shift(|head|)
  {
    var text :| IsLine(head, mark, text) && Spells64(text, n);
    ReadsExactlyNumerals(text, n);
    LineIsRead(head, mark, text, post);
  }

  lemma {:induction false} FramesAreRead(w: Bytes, vs: seq<RespValue>, post: Bytes)
    requires Frames(w, vs)
    ensures ParseItems(w + post, |vs|) == Items(vs, |w|)
    decreases vs, 1
  {
    if vs != [] {
      var k :| 0 <= k <= |w| && Frame(w[..k], vs[0]) && Frames(w[k..], vs[1..]);
      Halves(w, k, post);
      FrameIsRead(w[..k], vs[0], w[k..] + post);
      FramesAreRead(w[k..], vs[1..], post);
      assert (w + post)[k..] == w[k..] + post;
      assert vs == [vs[0]] + vs[1..];
    }
  }

  lemma {:induction false} ReadIsFrame(s: Bytes)
    requires Parse(s).Complete?
    ensures Frame(s[..Parse(s).consumed], Parse(s).value)
    decreases |s|, 0
  {
    hide Frame, ParseBody, IsLine;
    var end := FindCrlf(s, 1).value;
    var head, rest := s[..end + 2], s[end + 2..];
    var used := Parse(s).consumed - (end + 2);
    ReadIsLine(s);
    BodyIsFrame(head, s[0], s[1..end], rest);
    assert s[..end + 2 + used] == head + rest[..used];
  }

  lemma {:induction false} BodyIsFrame(head: Bytes, mark: char, text: string, rest: Bytes)
    requires IsTypeByte(mark) && IsLine(head, mark, text) && ParseBody(mark, text, rest).Complete?
    ensures Frame(head + rest[..ParseBody(mark, text, rest).consumed], ParseBody(mark, text, rest).value)
    decreases |rest|, 2
  {
    if mark == '+' || mark == '-' {
      assert head + rest[..0] == head;
    } else {
      var n := ParseI64(text).value;
      ReadsExactlyNumerals(text, n);
      assert SizeLine(head, mark, n);
      if mark == ':' || n == -1 {
        assert head + rest[..0] == head;
      } else if mark == '$' {
        TextIsFrame(head, rest, n);
      } else {
        ItemsAreFrames(rest, n);
        ArrayIsFrame(head, rest[..ParseItems(rest, n).used], ParseItems(rest, n).values);
      }
    }
  }

  lemma TextIsFrame(head: Bytes, rest: Bytes, n: nat)
    requires SizeLine(head, '$', n) && n + 2 <= |rest| && rest[n] == '\r' && rest[n + 1] == '\n'
    ensures Frame(head + rest[..n + 2], Bulk(rest[..n]))
  {
    var w := head + rest[..n + 2];
    assert rest[..n + 2] == rest[..n] + ['\r', '\n'];
    assert w[..|head|] == head && w[|head|..] == rest[..n + 2];
    assert SizedText(w[..|head|], w[|head|..], rest[..n]);
  }

  lemma ArrayIsFrame(head: Bytes, body: Bytes, elems: seq<RespValue>)
    requires SizeLine(head, '*', |elems|) && Frames(body, elems)
    ensures Frame(head + body, Array(elems))
  {
    var w := head + body;
    assert w[..|head|] == head && w[|head|..] == body;
  }

  lemma {:induction false} ItemsAreFrames(s: Bytes, n: nat)
    requires ParseItems(s, n).Items?
    ensures Frames(s[..ParseItems(s, n).used], ParseItems(s, n).values)
    decreases |s|, 1
  {
    hide Frame, Parse;
    if n > 0 {
      var k, rest := Parse(s).consumed, s[Parse(s).consumed..];
      var r := ParseItems(rest, n - 1);
      var w := s[..k + r.used];
      ReadIsFrame(s);
      ItemsAreFrames(rest, n - 1);
      assert w[..k] == s[..k] && w[k..] == rest[..r.used];
      assert ParseItems(s, n).values[1..] == r.values;
    }
  }

  /** The parser reports a complete frame, and where it ends, exactly if the bytes up to there are
      a frame for that value. */
  lemma CompleteExactlyForFrames(s: Bytes, v: RespValue, n: nat)
    ensures Parse(s) == Complete(v, n) <==> n <= |s| && Frame(s[..n], v)
  {
    hide Frame, Parse;
    if Parse(s).Complete? {
      ReadIsFrame(s);
    }
    if n <= |s| && Frame(s[..n], v) {
      FrameIsRead(s[..n], v, s[n..]);
      assert s[..n] + s[n..] == s;
    }
  }

  // ---- errors ------------------------------------------------------------------------

  lemma {:induction false} BrokenIsError(s: Bytes)
    requires Broken(s)
    ensures Parse(s).Error?
    decreases |s|, 0
  {
    if s[0] in [':', '$', '*'] {
      var k, text :| 0 < k <= |s| && IsLine(s[..k], s[0], text) && BrokenAfter(s[0], text, s[k..]);
      assert s[..k] + s[k..] == s;
      LineIsRead(s[..k], s[0], text, s[k..]);
      BrokenBodyIsError(s[0], text, s[k..]);
    }
  }

  lemma {:induction false} BrokenBodyIsError(mark: char, text: string, rest: Bytes)
    requires BrokenAfter(mark, text, rest) && mark in [':', '$', '*']
    ensures ParseBody(mark, text, rest).Error?
    decreases |rest|, 1
  {
    RefusesTheRest(text);
    if IsInt64Text(text) && Denoted(text) >= 0 && mark == '*' {
      var vs, k :| |vs| < Denoted(text) && 0 <= k <= |rest| && Frames(rest[..k], vs) && Broken(rest[k..]);
      assert rest[..k] + rest[k..] == rest;
      FramesAreRead(rest[..k], vs, rest[k..]);
      BrokenIsError(rest[k..]);
      ItemsTurn(rest, |vs|, Denoted(text), vs, k, Parse(rest[k..]));
    }
  }

  lemma {:induction false} ErrorIsBroken(s: Bytes)
    requires Parse(s).Error?
    ensures Broken(s)
    decreases |s|, 0
  {
    if IsTypeByte(s[0]) {
      var end := FindCrlf(s, 1).value;
      var text, rest := s[1..end], s[end + 2..];
      ReadIsLine(s);
      ErrorBodyIsBroken(s[0], text, rest);
      assert IsLine(s[..end + 2], s[0], text) && BrokenAfter(s[0], text, s[end + 2..]);
    }
  }

  lemma {:induction false} ErrorBodyIsBroken(mark: char, text: string, rest: Bytes)
    requires IsTypeByte(mark) && ParseBody(mark, text, rest).Error?
    ensures mark in [':', '$', '*'] && BrokenAfter(mark, text, rest)
    decreases |rest|, 2
  {
    RefusesTheRest(text);
    if IsInt64Text(text) && Denoted(text) >= 0 && mark == '*' {
      var vs, k := BrokenItem(rest, Denoted(text));
    }
  }

  lemma {:induction false} BrokenItem(s: Bytes, n: nat) returns (vs: seq<RespValue>, k: nat)
    requires ParseItems(s, n).ItemsError?
    ensures |vs| < n && k <= |s| && Frames(s[..k], vs) && Broken(s[k..])
    decreases |s|, 1
  {
    hide Frame, Parse, Broken;
    if Parse(s).Error? {
      ErrorIsBroken(s);
      assert s[0..] == s;
      return [], 0;
    }
    var used := Parse(s).consumed;
    var us, j := BrokenItem(s[used..], n - 1);
    ReadIsFrame(s);
    vs, k := [Parse(s).value] + us, used + j;
    var w := s[..k];
    assert w[..used] == s[..used] && w[used..] == s[used..][..j] && vs[1..] == us;
    assert s[k..] == s[used..][j..];
  }

  ghost predicate StartsWithFrame(s: Bytes) {
    exists v, n | 0 <= n <= |s| :: Frame(s[..n], v)
  }

  lemma StartsExactlyIfComplete(s: Bytes)
    ensures StartsWithFrame(s) <==> Parse(s).Complete?
  {
    if Parse(s).Complete? {
      ReadIsFrame(s);
    }
    if StartsWithFrame(s) {
      var v, n :| 0 <= n <= |s| && Frame(s[..n], v);
      CompleteExactlyForFrames(s, v, n);
    }
  }

  /** The parser reports an error exactly if the bytes are broken; so in every other case in
      which they do not start with a frame it waits for more. */
  lemma ErrorExactlyIfBroken(s: Bytes)
    ensures Parse(s).Error? <==> Broken(s)
    ensures Parse(s).Incomplete? <==> !Broken(s) && !StartsWithFrame(s)
  {
    StartsExactlyIfComplete(s);
    if Parse(s).Error? {
      ErrorIsBroken(s);
    }
    if Broken(s) {
      BrokenIsError(s);
    }
  }

  /** A `:`, `$` or `*` line that is no numeral of 64 signed bits is an error, whatever follows. */
  lemma NoNumeralNoFrame(head: Bytes, mark: char, text: string, post: Bytes)
    requires mark in [':', '$', '*'] && IsLine(head, mark, text) && !IsInt64Text(text)
    ensures Parse(head + post) == Error
  {
    RefusesTheRest(text);
    LineIsRead(head, mark, text, post);
  }

  /** And no continuation makes a frame of broken bytes. */
  lemma BrokenForGood(s: Bytes, ext: Bytes, v: RespValue, n: nat)
    requires Broken(s) && n <= |s + ext|
    ensures !Frame((s + ext)[..n], v)
  {
    BrokenIsError(s);
    ParseExtend(s, ext);
    CompleteExactlyForFrames(s + ext, v, n);
  }

  // ---- streams -----------------------------------------------------------------------

  /** The bytes are frames for the values, and then these. */
  ghost predicate FramesThen(s: Bytes, vs: seq<RespValue>, rest: Bytes) {
    |rest| <= |s| && s[|s| - |rest|..] == rest && Frames(s[..|s| - |rest|], vs)
  }

  lemma OneMoreFrame(s: Bytes, v: RespValue, k: nat, vs: seq<RespValue>, rest: Bytes)
    requires k <= |s| && Frame(s[..k], v) && FramesThen(s[k..], vs, rest)
    ensures FramesThen(s, [v] + vs, rest)
  {
    hide Frame;
    var w := s[..|s| - |rest|];
    assert w[..k] == s[..k] && w[k..] == s[k..][..|s[k..]| - |rest|];
    assert ([v] + vs)[1..] == vs;
    assert s[|s| - |rest|..] == s[k..][|s[k..]| - |rest|..];
  }

  /** Draining a stream takes the whole frames off its front, as many as there are, and fails exactly
      if what is left is broken. */
  lemma {:induction false} DrainsTheFrames(s: Bytes) returns (rest: Bytes)
    ensures FramesThen(s, Drain(s).values, rest) && !StartsWithFrame(rest)
    ensures Drain(s).failed <==> Broken(rest)
    ensures !Drain(s).failed ==> Drain(s).rest == rest
    ensures Drain(s).failed ==> Drain(s).rest == []
    decreases |s|
  {
    hide Broken, StartsWithFrame, Frame, Frames, FramesThen;
    ErrorExactlyIfBroken(s);
    StartsExactlyIfComplete(s);
    if Parse(s).Complete? {
      var k := Parse(s).consumed;
      rest := DrainsTheFrames(s[k..]);
      ReadIsFrame(s);
      OneMoreFrame(s, Parse(s).value, k, Drain(s[k..]).values, rest);
    } else {
      rest := s;
      NoFrames(s);
    }
  }

  lemma NoFrames(s: Bytes)
    ensures FramesThen(s, [], s)
  {
    assert s[0..] == s && s[..0] == [];
  }

  // ---- the printer -------------------------------------------------------------------

  ghost predicate PrintedSize(s: Bytes, mark: char, n: int) {
    exists text :: s == [mark] + text + ['\r', '\n'] && IsCanonical(text) && Denoted(text) == n
  }

  /** The one way a value is printed: null and texts as `$` frames, sizes and integers as canonical
      numerals. */
  ghost predicate Printed(s: Bytes, v: RespValue)
    decreases v, 0
  {
    match v
    case Null => s == ['$', '-', '1', '\r', '\n']
    case Integer(n) => PrintedSize(s, ':', n)
    case Err(message) => s == ['-'] + message + ['\r', '\n']
    case Bulk(text) => exists k | 0 <= k <= |s| :: PrintedText(s[..k], s[k..], text)
    case Array(elems) => exists k | 0 <= k <= |s| :: PrintedSize(s[..k], '*', |elems|) && PrintedAll(s[k..], elems)
  }

  ghost predicate PrintedText(head: Bytes, body: Bytes, text: string) {
    PrintedSize(head, '$', |text|) && body == text + ['\r', '\n']
  }

  ghost predicate PrintedAll(s: Bytes, vs: seq<RespValue>)
    decreases vs, 1
  {
    if vs == [] then s == []
    else exists k | 0 <= k <= |s| :: Printed(s[..k], vs[0]) && PrintedAll(s[k..], vs[1..])
  }

  lemma SizeIsPrinted(s: Bytes, mark: char, n: int)
    ensures s == Line(mark, ToString(n)) <==> PrintedSize(s, mark, n)
  {
    PrintsTheCanonicalNumeral(n, ToString(n));
    if PrintedSize(s, mark, n) {
      var text :| s == [mark] + text + ['\r', '\n'] && IsCanonical(text) && Denoted(text) == n;
      PrintsTheCanonicalNumeral(n, text);
    }
  }

  lemma {:induction false} PrintedIsEncoded(s: Bytes, v: RespValue)
    requires Printed(s, v)
    ensures s == Encode(v)
    decreases v, 0
  {
    match v
    case Null =>
    case Integer(n) => SizeIsPrinted(s, ':', n);
    case Err(message) =>
    case Bulk(text) =>
      var k :| 0 <= k <= |s| && PrintedText(s[..k], s[k..], text);
      SizeIsPrinted(s[..k], '$', |text|);
      assert s == s[..k] + s[k..];
    case Array(elems) =>
      var k :| 0 <= k <= |s| && PrintedSize(s[..k], '*', |elems|) && PrintedAll(s[k..], elems);
      SizeIsPrinted(s[..k], '*', |elems|);
      AllPrintedIsEncoded(s[k..], elems);
      assert s == s[..k] + s[k..];
  }

  lemma {:induction false} AllPrintedIsEncoded(s: Bytes, vs: seq<RespValue>)
    requires PrintedAll(s, vs)
    ensures s == EncodeAll(vs)
    decreases vs, 1
  {
    if vs != [] {
      var k :| 0 <= k <= |s| && Printed(s[..k], vs[0]) && PrintedAll(s[k..], vs[1..]);
      PrintedIsEncoded(s[..k], vs[0]);
      AllPrintedIsEncoded(s[k..], vs[1..]);
      assert s == s[..k] + s[k..];
    }
  }

  lemma {:induction false} EncodedIsPrinted(v: RespValue)
    ensures Printed(Encode(v), v)
    decreases v, 0
  {
    var s := Encode(v);
    match v
    case Null =>
    case Integer(n) => SizeIsPrinted(s, ':', n);
    case Err(message) =>
    case Bulk(text) =>
      var head := Line('$', ToString(|text|));
      SizeIsPrinted(head, '$', |text|);
      assert s[..|head|] == head && s[|head|..] == text + ['\r', '\n'];
      assert PrintedText(s[..|head|], s[|head|..], text);
    case Array(elems) =>
      var head := Line('*', ToString(|elems|));
      SizeIsPrinted(head, '*', |elems|);
      AllEncodedIsPrinted(elems);
      assert s[..|head|] == head && s[|head|..] == EncodeAll(elems);
  }

  lemma {:induction false} AllEncodedIsPrinted(vs: seq<RespValue>)
    ensures PrintedAll(EncodeAll(vs), vs)
    decreases vs, 1
  {
    if vs != [] {
      var s, first := EncodeAll(vs), Encode(vs[0]);
      EncodedIsPrinted(vs[0]);
      AllEncodedIsPrinted(vs[1..]);
      assert s[..|first|] == first && s[|first|..] == EncodeAll(vs[1..]);
    }
  }

  /** `resp_encode` prints exactly this. */
  lemma EncodesExactly(s: Bytes, v: RespValue)
    ensures s == Encode(v) <==> Printed(s, v)
  {
    EncodedIsPrinted(v);
    if Printed(s, v) {
      PrintedIsEncoded(s, v);
    }
  }
}
