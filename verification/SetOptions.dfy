/** The options of SET as a language: which argument lists are accepted, and what an accepted
    list means, said without the left-to-right reading of `ReadOptions`. */
module SetOptions {
  import opened Int64
  import opened Numerals
  import opened Values
  import opened Keyspace
  import opened Command
  import opened Requests

  datatype Choice = Seconds(amount: uint64) | Milliseconds(amount: uint64) | IfAbsent | IfPresent

  /** The arguments spell the choices: any letter case, any decimal text of an amount. */
  ghost predicate Spells(args: seq<string>, choices: seq<Choice>)
    decreases |choices|
  {
    if choices == [] then args == []
    else Leads(args, choices[0]) && Spells(args[Width(choices[0])..], choices[1..])
  }

  /** How many arguments a choice takes. */
  function Width(c: Choice): nat {
    if c.Seconds? || c.Milliseconds? then 2 else 1
  }

  predicate Leads(args: seq<string>, c: Choice) {
    match c
    case Seconds(n) => SpellsAmount(args, "EX", n)
    case Milliseconds(n) => SpellsAmount(args, "PX", n)
    case IfAbsent => IsWord(args, "NX")
    case IfPresent => IsWord(args, "XX")
  }

  predicate SpellsAmount(args: seq<string>, name: string, n: int) {
    |args| >= 2 && UpperOf(args[0], name) && SpellsU64(args[1], n)
  }

  predicate IsWord(args: seq<string>, name: string) {
    |args| >= 1 && UpperOf(args[0], name)
  }

  /** No amount is 0, and NX and XX are not both there. */
  ghost predicate Acceptable(choices: seq<Choice>) {
    && (forall i | 0 <= i < |choices| :: !Empty(choices[i]))
    && !(IfAbsent in choices && IfPresent in choices)
  }

  predicate Empty(c: Choice) {
    (c.Seconds? || c.Milliseconds?) && c.amount == 0
  }

  /** The deadline that the last EX or PX sets. */
  function LastDeadline(choices: seq<Choice>, now: nat, before: uint64): uint64 {
    if choices == [] then before
    else
      match choices[|choices| - 1]
      case Seconds(n) => (now + 1000 * n) % 0x1_0000_0000_0000_0000
      case Milliseconds(n) => (now + n) % 0x1_0000_0000_0000_0000
      case _ => LastDeadline(choices[..|choices| - 1], now, before)
  }

  /** Seconds are turned into milliseconds before they are added; a wrap-around on the way does not
      matter. */
  lemma SecondsAdd(now: nat, n: uint64)
    ensures Deadline(now, SecondsToMs(n)) == (now + 1000 * n) % 0x1_0000_0000_0000_0000
    ensures Deadline(now, n) == (now + n) % 0x1_0000_0000_0000_0000
  {
  }

  /** The words and the amounts are read as they are spelled. */
  lemma WordIsRead(word: string)
    ensures Uppercase(word) == "EX" <==> UpperOf(word, "EX")
    ensures Uppercase(word) == "PX" <==> UpperOf(word, "PX")
    ensures Uppercase(word) == "NX" <==> UpperOf(word, "NX")
    ensures Uppercase(word) == "XX" <==> UpperOf(word, "XX")
  {
    UppercaseExactly(word, "EX");
    UppercaseExactly(word, "PX");
    UppercaseExactly(word, "NX");
    UppercaseExactly(word, "XX");
  }

  lemma {:induction false} LastDeadlineCons(c: Choice, rest: seq<Choice>, now: nat, before: uint64)
    ensures LastDeadline([c] + rest, now, before) == LastDeadline(rest, now, LastDeadline([c], now, before))
    decreases |rest|
  {
    assert [c][..0] == [];
    if rest == [] {
      assert [c] + rest == [c];
    } else {
      assert ([c] + rest)[..|rest|] == [c] + rest[..|rest| - 1];
      LastDeadlineCons(c, rest[..|rest| - 1], now, before);
    }
  }

  /** What an accepted list means, on top of what has been read before it. */
  ghost predicate Means(r: Options, choices: seq<Choice>, now: nat, o: Options)
    requires o.Options?
  {
    r == Options(LastDeadline(choices, now, o.expiresAt), o.onlyNew || IfAbsent in choices, o.onlyOld || IfPresent in choices)
  }

  /** Nothing read so far clashes with the choices. */
  ghost predicate Agrees(choices: seq<Choice>, o: Options)
    requires o.Options?
  {
    && Acceptable(choices)
    && !((o.onlyNew || IfAbsent in choices) && (o.onlyOld || IfPresent in choices))
  }

  function After(o: Options, c: Choice, now: nat): Options
    requires o.Options?
  {
    match c
    case Seconds(n) => o.(expiresAt := Deadline(now, SecondsToMs(n)))
    case Milliseconds(n) => o.(expiresAt := Deadline(now, n))
    case IfAbsent => o.(onlyNew := true)
    case IfPresent => o.(onlyOld := true)
  }

  lemma AgreesTail(c: Choice, rest: seq<Choice>, o: Options, now: nat)
    requires o.Options?
    ensures Agrees([c] + rest, o) <==>
            !Empty(c) && !(c == IfAbsent && o.onlyOld) && !(c == IfPresent && o.onlyNew) &&
            (!(o.onlyNew && o.onlyOld) ==> Agrees(rest, After(o, c, now))) && !(o.onlyNew && o.onlyOld)
  {
    var all := [c] + rest;
    assert all[0] == c && forall i | 0 <= i < |rest| :: all[i + 1] == rest[i];
    forall x ensures x in all <==> x == c || x in rest {
    }
    if Acceptable(all) {
      forall i | 0 <= i < |rest| ensures !Empty(rest[i]) { assert !Empty(all[i + 1]); }
    }
  }

  lemma MeansTail(r: Options, c: Choice, rest: seq<Choice>, now: nat, o: Options)
    requires o.Options? && Means(r, rest, now, After(o, c, now))
    ensures Means(r, [c] + rest, now, o)
  {
    LastDeadlineCons(c, rest, now, o.expiresAt);
    assert [c][..0] == [];
    assert LastDeadline([c], now, o.expiresAt) == After(o, c, now).expiresAt by {
      if c.Seconds? || c.Milliseconds? {
        SecondsAdd(now, c.amount);
      }
    }
  }

  /** The first option read, whatever follows. */
  lemma FirstIsRead(args: seq<string>, i: nat, now: nat, o: Options, c: Choice)
    requires i < |args| && o.Options? && Leads(args[i..], c) && !Empty(c)
    requires !(c == IfAbsent && o.onlyOld) && !(c == IfPresent && o.onlyNew)
    ensures i + Width(c) <= |args| && args[i..][Width(c)..] == args[i + Width(c)..]
    ensures ReadOptions(args, i, now, o) == ReadOptions(args, i + Width(c), now, After(o, c, now))
  {
    hide Uppercase, UpperOf, ParseU64, SpellsU64;
    WordIsRead(args[i]);
    if c.Seconds? || c.Milliseconds? {
      ReadsExactlyUnsigned(args[i + 1], c.amount);
    }
  }

  /** Acceptable choices, however spelled, are read as what they mean. */
  lemma {:induction false} SpelledIsRead(args: seq<string>, i: nat, now: nat, o: Options, choices: seq<Choice>)
    requires i <= |args| && o.Options? && Spells(args[i..], choices) && Agrees(choices, o)
    ensures Means(ReadOptions(args, i, now, o), choices, now, o)
    decreases |choices|
  {
    if choices != [] {
      var c, rest := choices[0], choices[1..];
      assert choices == [c] + rest;
      AgreesTail(c, rest, o, now);
      FirstIsRead(args, i, now, o, c);
      SpelledIsRead(args, i + Width(c), now, After(o, c, now), rest);
      MeansTail(ReadOptions(args, i, now, o), c, rest, now, o);
    }
  }

  /** The option an accepting reader has just read. */
  lemma FirstWasSpelled(args: seq<string>, i: nat, now: nat, o: Options) returns (c: Choice)
    requires i < |args| && o.Options? && ReadOptions(args, i, now, o).Options?
    ensures Leads(args[i..], c) && !Empty(c) && !(c == IfAbsent && o.onlyOld) && !(c == IfPresent && o.onlyNew)
  {
    hide Uppercase, UpperOf, ParseU64, SpellsU64;
    WordIsRead(args[i]);
    var name := Uppercase(args[i]);
    if name == "EX" || name == "PX" {
      var n := ParseU64(args[i + 1]).value;
      ReadsExactlyUnsigned(args[i + 1], n);
      c := if name == "EX" then Seconds(n) else Milliseconds(n);
    } else {
      c := if name == "NX" then IfAbsent else IfPresent;
    }
  }

  /** And only those lists are accepted. */
  lemma {:induction false} ReadIsSpelled(args: seq<string>, i: nat, now: nat, o: Options) returns (choices: seq<Choice>)
    requires i <= |args| && o.Options? && !(o.onlyNew && o.onlyOld) && ReadOptions(args, i, now, o).Options?
    ensures Spells(args[i..], choices) && Agrees(choices, o)
    decreases |args| - i
  {
    if i == |args| {
      return [];
    }
    var c := FirstWasSpelled(args, i, now, o);
    FirstIsRead(args, i, now, o, c);
    var rest := ReadIsSpelled(args, i + Width(c), now, After(o, c, now));
    AgreesTail(c, rest, o, now);
    choices := [c] + rest;
    assert choices[1..] == rest;
  }

  /** SET accepts its options exactly if they spell acceptable choices. */
  lemma AcceptedExactlyIfSpelled(args: seq<string>, now: nat)
    requires |args| >= 2
    ensures ReadOptions(args, 2, now, NO_OPTIONS).Options? <==>
            exists choices :: Spells(args[2..], choices) && Acceptable(choices)
  {
    if ReadOptions(args, 2, now, NO_OPTIONS).Options? {
      var choices := ReadIsSpelled(args, 2, now, NO_OPTIONS);
    }
    forall choices | Spells(args[2..], choices) && Acceptable(choices)
      ensures ReadOptions(args, 2, now, NO_OPTIONS).Options?
    {
      SpelledIsRead(args, 2, now, NO_OPTIONS, choices);
    }
  }

  // ---- refusals ----------------------------------------------------------------------

  /** An amount that is no number of 64 unsigned bits, or 0. */
  predicate BadAmount(rest: seq<string>) {
    && (IsWord(rest, "EX") || IsWord(rest, "PX"))
    && |rest| >= 2 && (!IsU64Text(rest[1]) || PlaceValue(rest[1]) == 0)
  }

  /** An amount that is missing, NX and XX together, or a word that is none of the four. */
  predicate BadWord(rest: seq<string>, onlyNew: bool, onlyOld: bool) {
    || (rest != [] && !IsWord(rest, "EX") && !IsWord(rest, "PX") && !IsWord(rest, "NX") && !IsWord(rest, "XX"))
    || (|rest| == 1 && (IsWord(rest, "EX") || IsWord(rest, "PX")))
    || (IsWord(rest, "NX") && onlyOld) || (IsWord(rest, "XX") && onlyNew)
  }

  lemma WordsDiffer(args: seq<string>)
    ensures IsWord(args, "EX") ==> !IsWord(args, "PX") && !IsWord(args, "NX") && !IsWord(args, "XX")
    ensures IsWord(args, "PX") ==> !IsWord(args, "NX") && !IsWord(args, "XX")
    ensures IsWord(args, "NX") ==> !IsWord(args, "XX")
  {
    if |args| >= 1 {
      WordIsRead(args[0]);
      assert "EX"[0] != "PX"[0] && "EX"[0] != "NX"[0] && "EX"[0] != "XX"[0];
      assert "PX"[0] != "NX"[0] && "PX"[0] != "XX"[0] && "NX"[0] != "XX"[0];
    }
  }

  lemma FaultIsReported(args: seq<string>, i: nat, now: nat, o: Options)
    requires i <= |args| && o.Options?
    ensures BadAmount(args[i..]) ==> ReadOptions(args, i, now, o) == Rejected(Complain(BadInteger))
    ensures BadWord(args[i..], o.onlyNew, o.onlyOld) ==> ReadOptions(args, i, now, o) == Rejected(Complain(SyntaxError))
  {
    hide Uppercase, UpperOf, ParseU64, IsU64Text, Complain;
    if i < |args| {
      WordIsRead(args[i]);
      WordsDiffer(args[i..]);
      if i + 1 < |args| {
        RefusesTheUnsignedRest(args[i + 1]);
      }
    }
  }

  /** Options that are fine, and then one that is not: SET is refused, with the error for that one. */
  lemma {:induction false} RefusedAtTheFirstFault(args: seq<string>, i: nat, now: nat, o: Options,
                                                 head: seq<string>, choices: seq<Choice>, rest: seq<string>)
    requires i <= |args| && args[i..] == head + rest
    requires o.Options? && Spells(head, choices) && Agrees(choices, o)
    ensures BadAmount(rest) ==> ReadOptions(args, i, now, o) == Rejected(Complain(BadInteger))
    ensures BadWord(rest, o.onlyNew || IfAbsent in choices, o.onlyOld || IfPresent in choices) ==>
              ReadOptions(args, i, now, o) == Rejected(Complain(SyntaxError))
    decreases |choices|
  {
    hide BadAmount, BadWord, Complain, ReadOptions;
    if choices == [] {
      assert args[i..] == rest;
      FaultIsReported(args, i, now, o);
    } else {
      var c, others := choices[0], choices[1..];
      var w := Width(c);
      assert choices == [c] + others;
      AgreesTail(c, others, o, now);
      assert args[i..][..|head|] == head && Leads(args[i..], c);
      FirstIsRead(args, i, now, o, c);
      assert args[i + w..] == head[w..] + rest;
      RefusedAtTheFirstFault(args, i + w, now, After(o, c, now), head[w..], others, rest);
      assert forall x :: x in choices <==> x == c || x in others;
    }
  }

  /** What SET then does: the last EX or PX gives the deadline, whatever the order of the rest. */
  lemma SetObeysItsOptions(args: seq<string>, now: nat, choices: seq<Choice>)
    requires |args| >= 2 && Spells(args[2..], choices) && Acceptable(choices)
    ensures PlanSet(args, now) ==
            Plan.Store(args[0], args[1], LastDeadline(choices, now, 0), IfAbsent in choices, IfPresent in choices)
  {
    SpelledIsRead(args, 2, now, NO_OPTIONS, choices);
  }
}
