/** The two ends of a list: a list read backwards is a list worked from the other end, so what
    is proved of one end holds of the other; pushing and popping at one end is a stack, pushing
    at one and popping at the other is a queue. */
module Ends {
  import opened Wrappers
  import opened Int64
  import opened Resp
  import opened Values
  import opened Keyspace
  import opened Runs

  lemma ReverseSnoc(s: seq<string>, x: string)
    ensures Reverse(s + [x]) == [x] + Reverse(s)
  {
    assert (s + [x])[..|s|] == s;
  }

  lemma {:induction false} ReverseAppend(a: seq<string>, b: seq<string>)
    ensures Reverse(a + b) == Reverse(b) + Reverse(a)
    decreases |b|
  {
    if b == [] {
      assert a + b == a;
    } else {
      var init, last := b[..|b| - 1], b[|b| - 1];
      ReverseAppend(a, init);
      ReverseSnoc(a + init, last);
      assert a + b == (a + init) + [last];
    }
  }

  lemma ReverseOne(x: string)
    ensures Reverse([x]) == [x]
  {
    assert [x][..0] == [];
  }

  lemma {:induction false} ReverseTwice(s: seq<string>)
    ensures Reverse(Reverse(s)) == s
  {
    if s != [] {
      var init, last := s[..|s| - 1], s[|s| - 1];
      ReverseTwice(init);
      ReverseAppend([last], Reverse(init));
      ReverseOne(last);
      assert s == init + [last];
    }
  }

  lemma ReverseEnds(s: seq<string>)
    requires s != []
    ensures var r := Reverse(s);
            && r[0] == s[|s| - 1] && r[1..] == Reverse(s[..|s| - 1])
            && r[|r| - 1] == s[0] && r[..|r| - 1] == Reverse(s[1..])
  {
    ReverseAppend([s[0]], s[1..]);
    ReverseOne(s[0]);
    assert s == [s[0]] + s[1..];
    FirstAndLast(Reverse(s), s[|s| - 1], Reverse(s[..|s| - 1]), Reverse(s[1..]), s[0]);
  }

  lemma FirstAndLast<T>(r: seq<T>, x: T, tail: seq<T>, init: seq<T>, y: T)
    requires r == [x] + tail == init + [y]
    ensures r[0] == x && r[1..] == tail && r[|r| - 1] == y && r[..|r| - 1] == init
  {
  }

  // ---- the mirror --------------------------------------------------------------------

  function MirrorOp(op: WriteOp): WriteOp
    requires OnLists(op)
  {
    match op
    case LPush(values) => RPush(values)
    case RPush(values) => LPush(values)
    case LPop => RPop
    case RPop => LPop
  }

  function MirrorEntry(e: Option<Entry>): Option<Entry>
    requires IsList(e)
  {
    if e.None? then None else Some(Entry(ListValue(Reverse(e.value.value.items)), e.value.expiresAt))
  }

  lemma MirrorPushes(values: seq<string>, now: nat, e: Option<Entry>)
    requires IsList(e)
    ensures WriteChange(RPush(values), now, MirrorEntry(e)) ==
            Change(MirrorEntry(WriteChange(LPush(values), now, e).entry), WriteChange(LPush(values), now, e).result)
    ensures WriteChange(LPush(values), now, MirrorEntry(e)) ==
            Change(MirrorEntry(WriteChange(RPush(values), now, e).entry), WriteChange(RPush(values), now, e).result)
  {
    ReverseTwice(values);
    ReverseAppend(Reverse(values), ItemsOf(e));
    ReverseAppend(ItemsOf(e), values);
  }

  lemma MirrorPops(now: nat, e: Option<Entry>)
    requires IsList(e)
    ensures WriteChange(RPop, now, MirrorEntry(e)) ==
            Change(MirrorEntry(WriteChange(LPop, now, e).entry), WriteChange(LPop, now, e).result)
    ensures WriteChange(LPop, now, MirrorEntry(e)) ==
            Change(MirrorEntry(WriteChange(RPop, now, e).entry), WriteChange(RPop, now, e).result)
  {
    if ItemsOf(e) != [] {
      ReverseEnds(ItemsOf(e));
    }
  }

  /** One step at the other end of the list read backwards does the same, backwards. */
  lemma MirrorStep(op: WriteOp, now: nat, e: Option<Entry>)
    requires OnLists(op) && IsList(e)
    ensures IsList(WriteChange(op, now, e).entry)
    ensures WriteChange(MirrorOp(op), now, MirrorEntry(e)) ==
            Change(MirrorEntry(WriteChange(op, now, e).entry), WriteChange(op, now, e).result)
  {
    ListStep(op, now, e);
    match op
    case LPush(values) => MirrorPushes(values, now, e);
    case RPush(values) => MirrorPushes(values, now, e);
    case LPop => MirrorPops(now, e);
    case RPop => MirrorPops(now, e);
  }

  ghost predicate AllOnLists(steps: seq<Step>) {
    forall i | 0 <= i < |steps| :: OnLists(steps[i].op)
  }

  function Mirrored(steps: seq<Step>): (r: seq<Step>)
    requires AllOnLists(steps)
    ensures |r| == |steps| && forall i | 0 <= i < |r| :: r[i] == Step(steps[i].now, MirrorOp(steps[i].op))
  {
    seq(|steps|, i requires 0 <= i < |steps| => Step(steps[i].now, MirrorOp(steps[i].op)))
  }

  /** Over any run of pushes and pops: exchanging left and right draws the same replies from
      the list read backwards, and leaves the same list, read backwards. */
  lemma {:induction false} MirrorRun(e: Option<Entry>, steps: seq<Step>)
    requires IsList(e) && AllOnLists(steps)
    ensures IsList(StepsOn(e, steps).entry)
    ensures StepsOn(MirrorEntry(e), Mirrored(steps)) ==
            KeyRun(MirrorEntry(StepsOn(e, steps).entry), StepsOn(e, steps).replies)
    decreases |steps|
  {
    if steps != [] {
      var c := WriteChange(steps[0].op, steps[0].now, e);
      MirrorStep(steps[0].op, steps[0].now, e);
      MirrorRun(c.entry, steps[1..]);
      assert Mirrored(steps)[1..] == Mirrored(steps[1..]);
    }
  }

  lemma {:induction false} MirrorTraffic(steps: seq<Step>, replies: seq<Reply>)
    requires AllOnLists(steps) && |steps| == |replies|
    ensures Pushed(Mirrored(steps)) == Pushed(steps)
    ensures Popped(Mirrored(steps), replies) == Popped(steps, replies)
    decreases |steps|
  {
    if steps != [] {
      MirrorTraffic(steps[1..], replies[1..]);
      assert Mirrored(steps)[1..] == Mirrored(steps[1..]);
    }
  }

  /** LPUSH with RPOP is a queue too: elements leave in the order in which they came. */
  lemma LeftToRightQueue(e: Option<Entry>, steps: seq<Step>)
    requires IsList(e) && forall i | 0 <= i < |steps| :: steps[i].op.LPush? || steps[i].op.RPop?
    ensures IsList(StepsOn(e, steps).entry) && |StepsOn(e, steps).replies| == |steps|
    ensures Reverse(ItemsOf(e)) + Pushed(steps) ==
            Popped(steps, StepsOn(e, steps).replies) + Reverse(ItemsOf(StepsOn(e, steps).entry))
  {
    RepliesPerStep(e, steps);
    MirrorRun(e, steps);
    MirrorTraffic(steps, StepsOn(e, steps).replies);
    ListQueue(MirrorEntry(e), Mirrored(steps));
  }

  // ---- stacks ------------------------------------------------------------------------

  predicate AllPops(steps: seq<Step>, op: WriteOp) {
    forall i | 0 <= i < |steps| :: steps[i].op == op
  }

  /** As many pops as there are elements in front of `rest` return those elements in order. */
  lemma {:induction false} PopsTakeTheFront(front: seq<string>, rest: seq<string>, expiresAt: uint64, pops: seq<Step>)
    requires AllPops(pops, LPop) && |pops| == |front| && front + rest != []
    ensures var r := StepsOn(Some(Entry(ListValue(front + rest), expiresAt)), pops);
            && |r.replies| == |pops| && Popped(pops, r.replies) == front
            && r.entry == if rest == [] then None else Some(Entry(ListValue(rest), expiresAt))
    decreases |front|
  {
    var e := Entry(ListValue(front + rest), expiresAt);
    if front == [] {
      assert front + rest == rest;
    } else {
      assert (front + rest)[1..] == front[1..] + rest;
      var c := WriteChange(LPop, pops[0].now, Some(e));
      assert c.entry == KeptList(e, front[1..] + rest) && c.result == Data(Bulk(front[0]));
      if front[1..] + rest != [] {
        PopsTakeTheFront(front[1..], rest, expiresAt, pops[1..]);
        var r := StepsOn(c.entry, pops[1..]);
        assert StepsOn(Some(e), pops).replies[1..] == r.replies;
        assert [front[0]] + front[1..] == front;
      }
    }
  }

  /** LPUSH followed by as many LPOPs returns the elements in reverse and leaves the key exactly
      as it was, absent if it was absent, with its deadline if it had one. */
  lemma LeftStack(e: Option<Entry>, values: seq<string>, now: nat, pops: seq<Step>)
    requires IsList(e) && NonEmptyEntry(e) && values != []
    requires AllPops(pops, LPop) && |pops| == |values|
    ensures var r := StepsOn(WriteChange(LPush(values), now, e).entry, pops);
            && r.entry == e && |r.replies| == |pops| && Popped(pops, r.replies) == Reverse(values)
  {
    var items := ItemsOf(e);
    assert Reverse(values) + [] == Reverse(values);
    PopsTakeTheFront(Reverse(values), items, DeadlineOf(e), pops);
  }

  /** The same at the other end. */
  lemma RightStack(e: Option<Entry>, values: seq<string>, now: nat, pops: seq<Step>)
    requires IsList(e) && NonEmptyEntry(e) && values != []
    requires AllPops(pops, RPop) && |pops| == |values|
    ensures var r := StepsOn(WriteChange(RPush(values), now, e).entry, pops);
            && r.entry == e && |r.replies| == |pops| && Popped(pops, r.replies) == Reverse(values)
  {
    var pushed := WriteChange(RPush(values), now, e).entry;
    MirrorStep(RPush(values), now, e);
    RepliesPerStep(pushed, pops);
    MirrorRun(pushed, pops);
    MirrorTraffic(pops, StepsOn(pushed, pops).replies);
    ReverseTwice(ItemsOf(e));
    LeftStack(MirrorEntry(e), values, now, Mirrored(pops));
    SameMirror(StepsOn(pushed, pops).entry, e);
  }

  lemma SameMirror(a: Option<Entry>, b: Option<Entry>)
    requires IsList(a) && IsList(b) && MirrorEntry(a) == MirrorEntry(b)
    ensures a == b
  {
    ReverseTwice(ItemsOf(a));
    ReverseTwice(ItemsOf(b));
  }

  // ---- indices -----------------------------------------------------------------------

  ghost predicate Backwards(r: seq<string>, s: seq<string>) {
    |r| == |s| && forall i | 0 <= i < |r| :: r[i] == s[|s| - 1 - i]
  }

  lemma {:induction false} ReverseIsBackwards(s: seq<string>)
    ensures Backwards(Reverse(s), s)
  {
    if s != [] {
      ReverseIsBackwards(s[..|s| - 1]);
    }
  }

  lemma SliceBackwards(r: seq<string>, s: seq<string>, q: seq<string>, lo: nat, hi: nat)
    requires lo <= hi <= |s| && Backwards(r, s) && Backwards(q, s[|s| - hi..|s| - lo])
    ensures r[lo..hi] == q
  {
    assert forall i | 0 <= i < hi - lo :: r[lo + i] == q[i];
  }

  lemma ReversedSlice(s: seq<string>, lo: nat, hi: nat)
    requires lo <= hi <= |s|
    ensures Reverse(s)[lo..hi] == Reverse(s[|s| - hi..|s| - lo])
  {
    ReverseIsBackwards(s);
    ReverseIsBackwards(s[|s| - hi..|s| - lo]);
    SliceBackwards(Reverse(s), s, Reverse(s[|s| - hi..|s| - lo]), lo, hi);
  }

  /** Indices from the end count in the list read backwards: LINDEX -1 is its first element. */
  lemma MirrorIndex(e: Option<Entry>, i: int)
    requires IsList(e)
    ensures LIndexOf(MirrorEntry(e), i) == LIndexOf(e, -1 - i)
  {
    ReverseIsBackwards(ItemsOf(e));
  }

  lemma BoundsMirror(i: int, n: nat)
    ensures SliceFrom(-1 - i, n) == n - SliceTo(i, n) && SliceTo(-1 - i, n) == n - SliceFrom(i, n)
  {
  }

  lemma SliceMirrored(items: seq<string>, start: int, stop: int)
    ensures var lo, hi := SliceFrom(start, |items|), SliceTo(stop, |items|);
            Slice(items, -1 - stop, -1 - start) == if lo < hi then items[|items| - hi..|items| - lo] else []
  {
    BoundsMirror(start, |items|);
    BoundsMirror(stop, |items|);
  }

  /** So do the bounds of LRANGE, however far they are outside the list. */
  lemma MirrorSlice(items: seq<string>, start: int, stop: int)
    ensures Slice(Reverse(items), start, stop) == Reverse(Slice(items, -1 - stop, -1 - start))
  {
    SliceMirrored(items, start, stop);
    var lo, hi := SliceFrom(start, |items|), SliceTo(stop, |items|);
    var r := Reverse(items);
    if lo < hi {
      ReversedSlice(items, lo, hi);
      assert Slice(r, start, stop) == r[lo..hi];
    } else {
      assert Slice(r, start, stop) == [];
    }
  }

  /** LINDEX 0 and LINDEX -1 show what LPOP and RPOP would return, and after an LPOP every
      element has moved down by one. */
  lemma PopsTakeTheEnds(e: Option<Entry>, i: nat)
    requires IsList(e) && NonEmptyEntry(e)
    ensures LPopOn(e).result == LIndexOf(e, 0) && RPopOn(e).result == LIndexOf(e, -1)
    ensures i + 1 < |ItemsOf(e)| ==> LIndexOf(LPopOn(e).entry, i) == LIndexOf(e, i + 1)
    ensures i + 1 < |ItemsOf(e)| ==> LIndexOf(RPopOn(e).entry, i) == LIndexOf(e, i)
  {
  }
}
