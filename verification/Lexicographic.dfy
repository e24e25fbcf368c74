/** The order PostgreSQL gives to integer arrays, and Ruby to byte strings. */
module Lexicographic {
  import opened Sets

  type Word = seq<int>

  predicate Less(a: Word, b: Word) {
    b != [] && (a == [] || a[0] < b[0] || (a[0] == b[0] && Less(a[1..], b[1..])))
  }

  /** One word comes before another where they first differ, and before any longer one that it starts. */
  lemma {:induction false} LessIff(a: Word, b: Word)
    ensures Less(a, b) <==>
            exists k :: 0 <= k <= |a| && k < |b| && a[..k] == b[..k] && (k == |a| || a[k] < b[k])
  {
    if a == [] || b == [] {
      if b != [] { assert a[..0] == b[..0]; }
    } else if a[0] != b[0] {
      assert a[..0] == b[..0];
      forall k | 0 < k <= |a| && k < |b| ensures a[..k] != b[..k] { assert a[..k][0] != b[..k][0]; }
    } else {
      var c, d := a[1..], b[1..];
      LessIff(c, d);
      if k :| 0 <= k <= |c| && k < |d| && c[..k] == d[..k] && (k == |c| || c[k] < d[k]) {
        assert a[..k + 1] == [a[0]] + c[..k] && b[..k + 1] == [b[0]] + d[..k];
      }
      if k :| 0 <= k <= |a| && k < |b| && a[..k] == b[..k] && (k == |a| || a[k] < b[k]) {
        assert k > 0 && c[..k - 1] == a[..k][1..] && d[..k - 1] == b[..k][1..];
      }
    }
  }

  lemma {:induction false} Irreflexive(a: Word)
    ensures !Less(a, a)
  {
    if a != [] { Irreflexive(a[1..]); }
  }

  lemma {:induction false} Transitive(a: Word, b: Word, c: Word)
    requires Less(a, b) && Less(b, c)
    ensures Less(a, c)
  {
    if a != [] && a[0] == b[0] == c[0] { Transitive(a[1..], b[1..], c[1..]); }
  }

  lemma {:induction false} Total(a: Word, b: Word)
    ensures Less(a, b) || a == b || Less(b, a)
  {
    if a != [] && b != [] && a[0] == b[0] {
      Total(a[1..], b[1..]);
      if a[1..] == b[1..] { assert a == [a[0]] + a[1..] == b; }
    }
  }

  lemma {:induction false} SharedPrefix(p: Word, a: Word, b: Word)
    ensures Less(p + a, p + b) <==> Less(a, b)
  {
    if p == [] {
      assert p + a == a && p + b == b;
    } else {
      SharedPrefix(p[1..], a, b);
      assert (p + a)[1..] == p[1..] + a && (p + b)[1..] == p[1..] + b;
    }
  }

  ghost predicate Ascending(s: seq<Word>) {
    forall i, j :: 0 <= i < j < |s| ==> Less(s[i], s[j])
  }

  ghost predicate IsLeast(m: Word, s: set<Word>) {
    m in s && forall x :: x in s ==> m == x || Less(m, x)
  }

  lemma {:induction false} LeastExists(s: set<Word>) returns (m: Word)
    requires s != {}
    ensures IsLeast(m, s)
  {
    var x := Pick(s);
    if s == {x} { return x; }
    var rest := s - {x};
    assert s == rest + {x};
    var n := LeastExists(rest);
    Total(x, n);
    if Less(n, x) { return n; }
    forall y | y in rest ensures Less(x, y) {
      if y != n { Transitive(x, n, y); }
    }
    return x;
  }

  /** A sorted listing without repetition is determined by what it lists. */
  lemma {:induction false} AscendingUnique(s: seq<Word>, t: seq<Word>)
    requires Ascending(s) && Ascending(t)
    requires forall x :: x in s <==> x in t
    ensures s == t
  {
    if s != [] { assert s[0] in t; }
    if t != [] { assert t[0] in s; }
    if s != [] && t != [] {
      if s[0] != t[0] { Transitive(s[0], t[0], s[0]); }
      Irreflexive(s[0]);
      assert s == [s[0]] + s[1..] && t == [t[0]] + t[1..];
      forall x ensures x in s[1..] <==> x in t[1..] {
        assert x in s <==> x in t;
      }
      AscendingUnique(s[1..], t[1..]);
    }
  }

  /** `ORDER BY` over a set of rows that are themselves the sort key. */
  method OrderBy(rows: set<Word>) returns (s: seq<Word>)
    ensures Ascending(s)
    ensures forall x :: x in s <==> x in rows
  {
    s := [];
    var todo := rows;
    while todo != {}
      invariant todo <= rows
      invariant forall x :: x in s <==> x in rows - todo
      invariant Ascending(s)
      invariant forall x, y :: x in s && y in todo ==> Less(x, y)
    {
      ghost var least := LeastExists(todo);
      assert IsLeast(least, todo);
      var m :| m in todo && forall x :: x in todo ==> m == x || Less(m, x);
      s := s + [m];
      todo := todo - {m};
    }
  }
}
