/** The periodic sweep. It always starts at the first key and visits twenty entries, so which
    dead entries it ever reaches depends on what is in front of them. */
module Sweeps {
  import opened Lex
  import opened Values
  import opened Keyspace
  import opened Stores

  function DeadKeys(d: DataMap, now: nat): set<string> {
    set k | k in d && Expired(d[k], now)
  }

  /** A sweep removes only dead entries, so nobody notices it, now or later. */
  lemma SweepIsInvisible(d: DataMap, now: nat, later: nat)
    requires now <= later
    ensures Live(Swept(d, now), later) == Live(d, later)
  {
  }

  /** It removes exactly the dead ones among the entries it visits. */
  lemma SweepIsExact(d: DataMap, now: nat, key: string)
    ensures key in Swept(d, now) <==> key in d && !(key in Visited(d) && Expired(d[key], now))
    ensures key in Swept(d, now) ==> Swept(d, now)[key] == d[key]
  {
  }

  /** It looks at a key exactly if fewer than twenty keys come before it. */
  lemma SweepLooksAtTwenty(d: DataMap, key: string)
    requires key in d
    ensures key in Visited(d) <==> |set j | j in d && Before(j, key)| < 20
  {
    var order, before := Sorted(d.Keys), (set j | j in d && Before(j, key));
    assert key in order;
    var i :| 0 <= i < |order| && order[i] == key;
    assert before == Elements(order[..i]) by {
      forall x ensures x in before <==> x in Elements(order[..i]) {
        LessExactly(x, key);
        if x in before {
          EarlierIsBefore(order, i, x);
        }
        if x in Elements(order[..i]) {
          var j :| 0 <= j < i && order[..i][j] == x;
          assert Less(order[j], order[i]) && order[j] in order;
        }
      }
    }
    SortedPrefixSize(order, i);
    assert |order| == |d|;
    if i < 20 {
      assert Visited(d)[i] == key;
    } else if key in Visited(d) {
      var j :| 0 <= j < |Visited(d)| && Visited(d)[j] == key;
      LessTrichotomy(order[j], order[i]);
    }
  }

  ghost predicate Settled(d: DataMap, now: nat) {
    forall k | k in Visited(d) && k in d :: !Expired(d[k], now)
  }

  /** A sweep changes nothing exactly when the entries it visits are all live. */
  lemma FixpointIsSettled(d: DataMap, now: nat)
    ensures Swept(d, now) == d <==> Settled(d, now)
  {
    if Settled(d, now) {
      assert DeadAmong(d, Visited(d), now) == {};
    } else {
      var k :| k in Visited(d) && k in d && Expired(d[k], now);
      assert k in DeadAmong(d, Visited(d), now);
    }
  }

  lemma SweepMakesProgress(d: DataMap, now: nat)
    requires !Settled(d, now)
    ensures |DeadKeys(Swept(d, now), now)| < |DeadKeys(d, now)|
  {
    var k :| k in Visited(d) && k in d && Expired(d[k], now);
    assert DeadKeys(Swept(d, now), now) == DeadKeys(d, now) - DeadAmong(d, Visited(d), now);
    assert k in DeadKeys(d, now) && k in DeadAmong(d, Visited(d), now);
    SizeGrows(DeadKeys(Swept(d, now), now), DeadKeys(d, now) - {k});
  }

  // ---- sweeping again and again ------------------------------------------------------

  function Iterate<T>(f: T -> T, x: T, n: nat): T {
    if n == 0 then x else Iterate(f, f(x), n - 1)
  }

  lemma {:induction false} FixpointStays<T>(f: T -> T, x: T, n: nat)
    requires f(x) == x
    ensures Iterate(f, x, n) == x
    decreases n
  {
    if n > 0 {
      FixpointStays(f, x, n - 1);
    }
  }

  /** A step that shrinks a measure whenever it changes anything reaches a fixpoint within
      that many steps, and keeps whatever every step keeps. */
  lemma {:induction false} IterateSettles<T(!new), V>(f: T -> T, size: T -> nat, view: T -> V, x: T, n: nat)
    requires forall y :: f(y) == y || size(f(y)) < size(y)
    requires forall y :: view(f(y)) == view(y)
    requires size(x) <= n
    ensures f(Iterate(f, x, n)) == Iterate(f, x, n) && view(Iterate(f, x, n)) == view(x)
    decreases n
  {
    if f(x) == x {
      FixpointStays(f, x, n);
    } else {
      IterateSettles(f, size, view, f(x), n - 1);
    }
  }

  function SweepAt(now: nat): DataMap -> DataMap {
    (d: DataMap) => Swept(d, now)
  }

  function SweptTimes(d: DataMap, now: nat, n: nat): DataMap {
    Iterate(SweepAt(now), d, n)
  }

  /** As many sweeps as there are dead entries reach a state in which every visited entry is
      live, with the same live entries as before. Dead entries behind twenty live ones are
      never reached: the sweep always starts at the first key. */
  lemma SweepsSettle(d: DataMap, now: nat, n: nat)
    requires |DeadKeys(d, now)| <= n
    ensures Settled(SweptTimes(d, now, n), now)
    ensures Live(SweptTimes(d, now, n), now) == Live(d, now)
  {
    var size := (x: DataMap) => |DeadKeys(x, now)|;
    var view := (x: DataMap) => Live(x, now);
    forall y ensures SweepAt(now)(y) == y || size(SweepAt(now)(y)) < size(y) {
      FixpointIsSettled(y, now);
      if !Settled(y, now) { SweepMakesProgress(y, now); }
    }
    forall y ensures view(SweepAt(now)(y)) == view(y) {
      SweepIsInvisible(y, now, now);
    }
    IterateSettles(SweepAt(now), size, view, d, n);
    FixpointIsSettled(SweptTimes(d, now, n), now);
  }

  // ---- who is ever reached -----------------------------------------------------------

  /** The live entries in front of a key. */
  function Ahead(d: DataMap, now: nat, key: string): set<string> {
    set j | j in d && !Expired(d[j], now) && Less(j, key)
  }

  lemma {:induction false} ElementsFewer(q: seq<string>)
    ensures |Elements(q)| <= |q|
    decreases |q|
  {
    if q != [] {
      var n := |q| - 1;
      ElementsFewer(q[..n]);
      assert Elements(q) == Elements(q[..n]) + {q[n]};
    }
  }

  /** What lies in front of a position of a sorted sequence comes before it there. */
  lemma EarlierIsBefore(q: seq<string>, i: nat, x: string)
    requires StrictlySorted(q) && i < |q| && x in q && Less(x, q[i])
    ensures x in q[..i]
  {
    var j :| 0 <= j < |q| && q[j] == x;
    LessTrichotomy(q[j], q[i]);
    assert q[..i][j] == x;
  }

  /** A visited key has fewer than twenty live entries in front of it. */
  lemma VisitedIsNear(d: DataMap, now: nat, key: string)
    requires key in Visited(d)
    ensures |Ahead(d, now, key)| < SWEEP_LIMIT
  {
    var order := Sorted(d.Keys);
    var i :| 0 <= i < |Visited(d)| && Visited(d)[i] == key;
    forall x | x in Ahead(d, now, key) ensures x in Elements(order[..i]) {
      EarlierIsBefore(order, i, x);
    }
    ElementsFewer(order[..i]);
    SizeGrows(Ahead(d, now, key), Elements(order[..i]));
  }

  /** If the visited entries are live, a key beyond them has twenty live entries in front. */
  lemma BeyondIsFar(d: DataMap, now: nat, key: string)
    requires Settled(d, now) && key in d && key !in Visited(d)
    ensures |Ahead(d, now, key)| >= SWEEP_LIMIT
  {
    var order := Sorted(d.Keys);
    assert key in order;
    var i :| 0 <= i < |order| && order[i] == key;
    forall k | 0 <= k < |Visited(d)| ensures order[k] != key {
      assert Visited(d)[k] in Visited(d);
    }
    assert |order| == |d| && |Visited(d)| == SWEEP_LIMIT;
    forall x | x in Elements(Visited(d)) ensures x in Ahead(d, now, key) {
      var j :| 0 <= j < |Visited(d)| && Visited(d)[j] == x;
      assert order[j] == x && Less(order[j], order[i]) && x in order;
    }
    SortedPrefixSize(order, SWEEP_LIMIT);
    SizeGrows(Elements(Visited(d)), Ahead(d, now, key));
  }

  lemma {:induction false} SortedPrefixSize(q: seq<string>, n: nat)
    requires StrictlySorted(q) && n <= |q|
    ensures |Elements(q[..n])| == n
    decreases n
  {
    if n > 0 {
      SortedPrefixSize(q, n - 1);
      ElementsSnoc(q, n - 1);
      NotBeforeIndex(q, n - 1);
    }
  }

  /** A sweep removes no live entry, so it brings no key nearer. */
  lemma SweepKeepsAhead(d: DataMap, now: nat, key: string)
    ensures Ahead(Swept(d, now), now, key) == Ahead(d, now, key)
  {
  }

  lemma {:induction false} SweepsKeepAhead(d: DataMap, now: nat, key: string, n: nat)
    ensures Ahead(SweptTimes(d, now, n), now, key) == Ahead(d, now, key)
    ensures key in SweptTimes(d, now, n) ==> key in d && SweptTimes(d, now, n)[key] == d[key]
    decreases n
  {
    if n > 0 {
      SweepKeepsAhead(d, now, key);
      SweepsKeepAhead(Swept(d, now), now, key, n - 1);
    }
  }

  lemma FarStaysFar(d: DataMap, now: nat, key: string)
    requires key in d && |Ahead(d, now, key)| >= SWEEP_LIMIT
    ensures key in Swept(d, now) && |Ahead(Swept(d, now), now, key)| >= SWEEP_LIMIT
  {
    if key in Visited(d) {
      VisitedIsNear(d, now, key);
    }
    SweepKeepsAhead(d, now, key);
  }

  lemma {:induction false} IterateKeeps<T(!new)>(f: T -> T, good: T -> bool, x: T, n: nat)
    requires good(x) && forall y | good(y) :: good(f(y))
    ensures good(Iterate(f, x, n))
    decreases n
  {
    if n > 0 {
      IterateKeeps(f, good, f(x), n - 1);
    }
  }

  /** With twenty live entries in front a dead entry is never removed, by however many sweeps; */
  lemma NeverReached(d: DataMap, now: nat, key: string, n: nat)
    requires key in d && |Ahead(d, now, key)| >= SWEEP_LIMIT
    ensures key in SweptTimes(d, now, n)
  {
    var far := (x: DataMap) => key in x && |Ahead(x, now, key)| >= SWEEP_LIMIT;
    forall y | far(y) ensures far(SweepAt(now)(y)) {
      FarStaysFar(y, now, key);
    }
    IterateKeeps(SweepAt(now), far, d, n);
  }

  /** with fewer it is, within as many sweeps as there are dead entries. */
  lemma RemovedExactlyIfNear(d: DataMap, now: nat, key: string, n: nat)
    requires key in d && Expired(d[key], now) && |DeadKeys(d, now)| <= n
    ensures key !in SweptTimes(d, now, n) <==> |Ahead(d, now, key)| < 20
  {
    var end := SweptTimes(d, now, n);
    SweepsSettle(d, now, n);
    SweepsKeepAhead(d, now, key, n);
    if |Ahead(d, now, key)| >= SWEEP_LIMIT {
      NeverReached(d, now, key, n);
    } else if key in end {
      assert key !in Visited(end);
      BeyondIsFar(end, now, key);
    }
  }

  // ---- a state in which a dead entry stays for ever ----------------------------------

  function Letters(n: nat): string {
    seq(n, _ => 'a')
  }

  /** The keys "", "a", "aa" and so on. */
  function Row(n: nat): set<string> {
    set i | 0 <= i < n :: Letters(i)
  }

  lemma {:induction false} LettersInOrder(i: nat, j: nat)
    ensures Less(Letters(i), Letters(j)) <==> i < j
    decreases i
  {
    if i > 0 && j > 0 {
      LettersInOrder(i - 1, j - 1);
      assert Letters(i)[1..] == Letters(i - 1) && Letters(j)[1..] == Letters(j - 1);
    }
  }

  lemma {:induction false} RowSize(n: nat)
    ensures |Row(n)| == n
  {
    if n > 0 {
      RowSize(n - 1);
      assert Row(n) == Row(n - 1) + {Letters(n - 1)};
      assert Letters(n - 1) !in Row(n - 1) by {
        forall i | 0 <= i < n - 1 ensures Letters(i) != Letters(n - 1) {
          assert |Letters(i)| != |Letters(n - 1)|;
        }
      }
    }
  }

  /** Twenty-one keys; the last one expired at 1, the others never do. */
  function Stuck(): DataMap {
    map k | k in Row(SWEEP_LIMIT + 1) :: Entry(StringValue(""), if |k| == SWEEP_LIMIT then 1 else 0)
  }

  /** No number of sweeps removes its dead entry. */
  lemma StuckForEver(n: nat)
    ensures var key := Letters(SWEEP_LIMIT);
            key in Stuck() && Expired(Stuck()[key], 1) && key in SweptTimes(Stuck(), 1, n)
  {
    var key := Letters(SWEEP_LIMIT);
    assert key in Row(SWEEP_LIMIT + 1);
    forall x | x in Row(SWEEP_LIMIT) ensures x in Ahead(Stuck(), 1, key) {
      var i :| 0 <= i < SWEEP_LIMIT && x == Letters(i);
      LettersInOrder(i, SWEEP_LIMIT);
      assert x in Row(SWEEP_LIMIT + 1);
    }
    RowSize(SWEEP_LIMIT);
    SizeGrows(Row(SWEEP_LIMIT), Ahead(Stuck(), 1, key));
    NeverReached(Stuck(), 1, key, n);
  }
}
