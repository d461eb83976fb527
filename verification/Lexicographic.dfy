/** Lexicographic order on strings of numbers (bytes, UTF-16 code units), and sorted sequences of them. */
module Lexicographic {

  type Str = seq<int>

  predicate Less(a: Str, b: Str) {
    if b == [] then false
    else if a == [] then true
    else a[0] < b[0] || (a[0] == b[0] && Less(a[1..], b[1..]))
  }

  lemma {:induction false} LessTransitive(a: Str, b: Str, c: Str)
    requires Less(a, b) && Less(b, c)
    ensures Less(a, c)
  {
    if a != [] && a[0] == b[0] == c[0] {
      LessTransitive(a[1..], b[1..], c[1..]);
    }
  }

  lemma {:induction false} LessIrreflexive(a: Str)
    ensures !Less(a, a)
  {
    if a != [] {
      LessIrreflexive(a[1..]);
    }
  }

  lemma {:induction false} LessTotal(a: Str, b: Str)
    ensures a == b || Less(a, b) || Less(b, a)
  {
    if a != [] && b != [] && a[0] == b[0] {
      LessTotal(a[1..], b[1..]);
      assert a == [a[0]] + a[1..] && b == [b[0]] + b[1..];
    }
  }

  /** Strictly ascending, hence without repetition. */
  ghost predicate Ascending(s: seq<Str>) {
    forall i, j :: 0 <= i < j < |s| ==> Less(s[i], s[j])
  }

  /** An ascending sequence is determined by its elements. */
  lemma {:induction false} AscendingUnique(s: seq<Str>, t: seq<Str>)
    requires Ascending(s) && Ascending(t)
    requires forall k :: k in s <==> k in t
    ensures s == t
    decreases |s|
  {
    assert t != [] ==> t[0] in t;
    if s != [] {
      assert s[0] in t && t != [] && t[0] in s;
      FirstIsLeast(s, t);
      FirstIsLeast(t, s);
      LessTotal(s[0], t[0]);
      TailElements(s);
      TailElements(t);
      AscendingUnique(s[1..], t[1..]);
      assert s == [s[0]] + s[1..] && t == [t[0]] + t[1..];
    }
  }

  lemma FirstIsLeast(s: seq<Str>, t: seq<Str>)
    requires Ascending(s) && s != [] && t != [] && t[0] in s
    ensures !Less(t[0], s[0])
  {
    var i :| 0 <= i < |s| && s[i] == t[0];
    LessIrreflexive(s[0]);
    if i > 0 && Less(t[0], s[0]) {
      LessTransitive(s[0], s[i], s[0]);
    }
  }

  lemma TailElements(s: seq<Str>)
    requires Ascending(s) && s != []
    ensures Ascending(s[1..])
    ensures forall k :: k in s[1..] <==> k in s && k != s[0]
  {
    LessIrreflexive(s[0]);
    assert s == [s[0]] + s[1..];
  }

  predicate IsLeast(keys: set<Str>, k: Str) {
    forall other :: other in keys ==> other == k || Less(k, other)
  }

  /** The least element of a set of strings. */
  ghost function Least(keys: set<Str>): (k: Str)
    requires keys != {}
    ensures k in keys && IsLeast(keys, k)
  {
    var x :| x in keys;
    if keys == {x} then x
    else
      assert keys == {x} + (keys - {x});
      var m := Least(keys - {x});
      LessTotal(x, m);
      assert Less(x, m) ==> forall other :: other in keys ==> other == x || Less(x, other) by {
        if Less(x, m) {
          forall other | other in keys && other != x && other != m ensures Less(x, other) {
            LessTransitive(x, m, other);
          }
        }
      }
      if Less(x, m) then x else m
  }

  lemma LeastUnique(keys: set<Str>, k: Str)
    requires k in keys && IsLeast(keys, k)
    ensures k == Least(keys)
  {
    var least := Least(keys);
    if k != least {
      LessTransitive(k, least, k);
      LessIrreflexive(k);
    }
  }

  /** The elements of a set in ascending order. */
  ghost function Sorted(keys: set<Str>): (s: seq<Str>)
    ensures Ascending(s)
    ensures forall k :: k in s <==> k in keys
  {
    if keys == {} then []
    else
      var first := Least(keys);
      [first] + Sorted(keys - {first})
  }

  lemma SortedFirst(keys: set<Str>, k: Str)
    requires k in keys && IsLeast(keys, k)
    ensures Sorted(keys) == [k] + Sorted(keys - {k})
  {
    LeastUnique(keys, k);
  }

  lemma LeastExists(keys: set<Str>)
    requires keys != {}
    ensures exists k :: k in keys && IsLeast(keys, k)
  {
    assert IsLeast(keys, Least(keys));
  }

  method SortKeys(selected: set<Str>) returns (keys: seq<Str>)
    ensures keys == Sorted(selected)
  {
    var left := selected;
    keys := [];
    while left != {}
      invariant keys + Sorted(left) == Sorted(selected)
      decreases |left|
    {
      LeastExists(left);
      var k :| k in left && IsLeast(left, k);
      SortedFirst(left, k);
      MoveBracket(keys, k, Sorted(left - {k}));
      keys := keys + [k];
      left := left - {k};
    }
  }

  lemma MoveBracket(s: seq<Str>, k: Str, t: seq<Str>)
    ensures s + ([k] + t) == (s + [k]) + t
  {
  }

  lemma ConcatSplit(a: Str, x: Str, b: Str, y: Str)
    requires a + x == b + y && |a| == |b|
    ensures a == b && x == y
  {
    assert a == (a + x)[..|a|] && b == (b + y)[..|a|];
    assert x == (a + x)[|a|..] && y == (b + y)[|a|..];
  }

  /** `a` comes before `b` exactly when, after a common beginning, `a` ends first or has the smaller number. */
  lemma {:induction false} LessExactly(a: Str, b: Str)
    ensures Less(a, b) <==>
            exists n :: 0 <= n <= |a| && n < |b| && a[..n] == b[..n] && (n == |a| || a[n] < b[n])
  {
    if b != [] {
      if a == [] || a[0] < b[0] {
        assert a[..0] == b[..0];
      } else {
        var s, t := a[1..], b[1..];
        LessExactly(s, t);
        if Less(a, b) {
          var n :| 0 <= n <= |s| && n < |t| && s[..n] == t[..n] && (n == |s| || s[n] < t[n]);
          assert a[..n + 1] == [a[0]] + s[..n] && b[..n + 1] == [b[0]] + t[..n];
        }
        if n :| 0 <= n <= |a| && n < |b| && a[..n] == b[..n] && (n == |a| || a[n] < b[n]) {
          assert n > 0;
          assert a[..n][0] == b[..n][0];
          assert s[..n - 1] == a[..n][1..] && t[..n - 1] == b[..n][1..];
        }
      }
    }
  }
}
