/** The key order of `std::flat_map<std::string, _>` and `std::flat_set<std::string>`:
    lexicographic by byte. `Sorted` is the sequence an iterator over such a container visits. */
module Lex {
  predicate Less(a: string, b: string)
    decreases |a|
  {
    if b == [] then false
    else if a == [] then true
    else if a[0] != b[0] then a[0] < b[0]
    else Less(a[1..], b[1..])
  }

  /** `a` comes before `b`: at the first byte where they differ it has the smaller one, or it ends
      there. */
  ghost predicate Before(a: string, b: string) {
    exists i | 0 <= i <= |a| && i < |b| :: a[..i] == b[..i] && (i == |a| || a[i] < b[i])
  }

  lemma SamePrefix(a: string, b: string, i: nat)
    requires i <= |a| && i <= |b| && a[..i] == b[..i]
    ensures i > 0 ==> a[0] == b[0]
  {
    assert i > 0 ==> a[..i][0] == a[0] && b[..i][0] == b[0];
  }

  lemma {:induction false} LessExactly(a: string, b: string)
    ensures Less(a, b) <==> Before(a, b)
    decreases |a|
  {
    if b != [] && a != [] && a[0] == b[0] {
      LessExactly(a[1..], b[1..]);
      if Before(a[1..], b[1..]) {
        var i :| 0 <= i <= |a[1..]| && i < |b[1..]| && a[1..][..i] == b[1..][..i] && (i == |a[1..]| || a[1..][i] < b[1..][i]);
        assert a[..i + 1] == [a[0]] + a[1..][..i] && b[..i + 1] == [b[0]] + b[1..][..i];
      }
      if Before(a, b) {
        var i :| 0 <= i <= |a| && i < |b| && a[..i] == b[..i] && (i == |a| || a[i] < b[i]);
        assert i > 0;
        assert a[1..][..i - 1] == a[..i][1..] && b[1..][..i - 1] == b[..i][1..];
      }
    } else if b != [] {
      assert a[..0] == b[..0];
      if Before(a, b) && a != [] {
        var i :| 0 <= i <= |a| && i < |b| && a[..i] == b[..i] && (i == |a| || a[i] < b[i]);
        SamePrefix(a, b, i);
      }
    }
  }

  lemma {:induction false} LessTrichotomy(a: string, b: string)
    ensures Less(a, b) || a == b || Less(b, a)
    ensures !(Less(a, b) && Less(b, a)) && !Less(a, a)
    decreases |a|
  {
    if a != [] && b != [] && a[0] == b[0] {
      LessTrichotomy(a[1..], b[1..]);
      LessTrichotomy(a[1..], a[1..]);
      assert a == [a[0]] + a[1..] && b == [b[0]] + b[1..];
    } else if a != [] {
      LessTrichotomy(a[1..], a[1..]);
    }
  }

  lemma {:induction false} LessTransitive(a: string, b: string, c: string)
    requires Less(a, b) && Less(b, c)
    ensures Less(a, c)
    decreases |a|
  {
    if a != [] && a[0] == b[0] && b[0] == c[0] {
      LessTransitive(a[1..], b[1..], c[1..]);
    }
  }

  predicate IsLeast(x: string, s: set<string>) {
    x in s && forall y | y in s :: y == x || Less(x, y)
  }

  lemma {:induction false} LeastExists(s: set<string>)
    requires s != {}
    ensures exists x :: IsLeast(x, s)
  {
    var a :| a in s;
    if s == {a} {
      assert IsLeast(a, s);
    } else {
      var rest := s - {a};
      LeastExists(rest);
      var b :| IsLeast(b, rest);
      LessTrichotomy(a, b);
      if Less(a, b) {
        forall y | y in s ensures y == a || Less(a, y) {
          if y != a && y != b { LessTransitive(a, b, y); }
        }
        assert IsLeast(a, s);
      } else {
        assert IsLeast(b, s);
      }
    }
  }

  lemma LeastUnique(x: string, y: string, s: set<string>)
    requires IsLeast(x, s) && IsLeast(y, s)
    ensures x == y
  {
    LessTrichotomy(x, y);
  }

  function Least(s: set<string>): (x: string)
    requires s != {}
    ensures IsLeast(x, s)
  {
    LeastExists(s);
    assert forall x, y | IsLeast(x, s) && IsLeast(y, s) :: x == y by {
      forall x, y | IsLeast(x, s) && IsLeast(y, s) ensures x == y { LeastUnique(x, y, s); }
    }
    var x :| x in s && IsLeast(x, s);
    x
  }

  predicate StrictlySorted(q: seq<string>) {
    forall i, j | 0 <= i < j < |q| :: Less(q[i], q[j])
  }

  function Elements(q: seq<string>): set<string> {
    set x | x in q
  }

  /** The elements of `s` in key order. */
  function Sorted(s: set<string>): (q: seq<string>)
    ensures StrictlySorted(q)
    ensures |q| == |s| && forall x :: x in q <==> x in s
  {
    if s == {} then []
    else
      var x := Least(s);
      [x] + Sorted(s - {x})
  }

  /** Key order leaves no choice: a strictly sorted sequence is determined by its elements. */
  lemma {:induction false} SortedUnique(q: seq<string>, s: set<string>)
    requires StrictlySorted(q) && forall x :: x in q <==> x in s
    ensures q == Sorted(s)
  {
    if q == [] {
      assert forall x :: x in s ==> x in q;
      assert s == {};
    } else {
      var x := q[0];
      assert x in s;
      LessTrichotomy(x, x);
      assert IsLeast(x, s) by {
        forall y | y in s ensures y == x || Less(x, y) {
          assert y in q;
        }
      }
      LeastUnique(x, Least(s), s);
      var rest := q[1..];
      forall y ensures y in rest <==> y in s - {x} {
        if y in rest {
          var i :| 0 <= i < |rest| && rest[i] == y;
          assert q[i + 1] == y;
          assert Less(x, y);
        }
        if y in s - {x} { assert y in q; }
      }
      SortedUnique(rest, s - {x});
      assert q == [x] + rest;
    }
  }

  lemma DropKeepsOrder(q: seq<string>, i: nat)
    requires StrictlySorted(q) && i < |q|
    ensures StrictlySorted(q[..i] + q[i + 1..])
  {
    var r := q[..i] + q[i + 1..];
    forall a, b | 0 <= a < b < |r| ensures Less(r[a], r[b]) {
      assert r[a] == q[if a < i then a else a + 1];
      assert r[b] == q[if b < i then b else b + 1];
    }
  }

  lemma DropElements(q: seq<string>, i: nat, y: string)
    requires StrictlySorted(q) && i < |q|
    ensures y in q[..i] + q[i + 1..] <==> y in q && y != q[i]
  {
    var r := q[..i] + q[i + 1..];
    if y in r {
      var k :| 0 <= k < |r| && r[k] == y;
      assert r[k] == q[if k < i then k else k + 1];
      LessTrichotomy(y, q[i]);
    }
    if y in q && y != q[i] {
      var k :| 0 <= k < |q| && q[k] == y;
      assert r[if k < i then k else k - 1] == y;
    }
  }

  lemma SizeGrows(a: set<string>, b: set<string>)
    requires a <= b
    ensures |a| <= |b|
    ensures |b - a| == |b| - |a|
  {
    assert b == a + (b - a);
  }

  /** Erasing one element from a sorted container closes the gap and moves nothing else. */
  lemma SortedErase(s: set<string>, i: nat)
    requires i < |s|
    ensures Sorted(s)[i] in s
    ensures Sorted(s - {Sorted(s)[i]}) == Sorted(s)[..i] + Sorted(s)[i + 1..]
  {
    var q := Sorted(s);
    assert q[i] in q;
    DropKeepsOrder(q, i);
    forall y ensures y in q[..i] + q[i + 1..] <==> y in s - {q[i]} {
      DropElements(q, i, y);
    }
    SortedUnique(q[..i] + q[i + 1..], s - {q[i]});
  }
}
