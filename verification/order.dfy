/**
 Python's ordering of `str` values (code point by code point, a proper
 prefix first) and `sorted(set(xs))` over a list of strings.
 */
module Order {

  /** `a < b` on Python strings. */
  predicate Less(a: string, b: string)
    decreases |a|
  {
    |b| > 0 && (|a| == 0 || a[0] < b[0] || (a[0] == b[0] && Less(a[1..], b[1..])))
  }

  lemma {:induction false} LessIrreflexive(a: string)
    ensures !Less(a, a)
    decreases |a|
  {
    if |a| > 0 {
      LessIrreflexive(a[1..]);
    }
  }

  lemma {:induction false} LessTransitive(a: string, b: string, c: string)
    requires Less(a, b) && Less(b, c)
    ensures Less(a, c)
    decreases |a|
  {
    if |a| > 0 && a[0] == b[0] && b[0] == c[0] {
      LessTransitive(a[1..], b[1..], c[1..]);
    }
  }

  lemma {:induction false} LessTrichotomy(a: string, b: string)
    ensures a == b || Less(a, b) || Less(b, a)
    decreases |a|
  {
    if |a| > 0 && |b| > 0 && a[0] == b[0] {
      LessTrichotomy(a[1..], b[1..]);
      if a[1..] == b[1..] {
        assert a == [a[0]] + a[1..] && b == [b[0]] + b[1..];
      }
    }
  }

  /** Strictly ascending: sorted and without repeats. */
  predicate StrictlySorted(s: seq<string>) {
    forall i, j :: 0 <= i < j < |s| ==> Less(s[i], s[j])
  }

  lemma PrependSorted(x: string, s: seq<string>)
    requires StrictlySorted(s)
    requires s == [] || Less(x, s[0])
    ensures StrictlySorted([x] + s)
  {
    forall j | 1 <= j < |s| ensures Less(x, s[j]) {
      LessTransitive(x, s[0], s[j]);
    }
  }

  /** Adds `x` to a strictly ascending list unless it is already there. */
  function Insert(s: seq<string>, x: string): (r: seq<string>)
    requires StrictlySorted(s)
    ensures StrictlySorted(r)
    ensures forall y :: y in r <==> y in s || y == x
    decreases |s|
  {
    if s == [] then [x]
    else if x == s[0] then s
    else if Less(x, s[0]) then
      PrependSorted(x, s);
      [x] + s
    else
      LessTrichotomy(x, s[0]);
      var rest := Insert(s[1..], x);
      assert forall y :: y in s <==> y == s[0] || y in s[1..];
      PrependSorted(s[0], rest);
      [s[0]] + rest
  }

  /** `sorted(set(xs))`. */
  function SortedSet(xs: seq<string>): (r: seq<string>)
    ensures StrictlySorted(r)
    ensures forall y :: y in r <==> y in xs
    decreases |xs|
  {
    if xs == [] then []
    else
      var init := xs[..|xs| - 1];
      assert xs == init + [xs[|xs| - 1]];
      Insert(SortedSet(init), xs[|xs| - 1])
  }

  /** A strictly ascending list is fixed by its elements: `sorted(set(xs))` has one answer. */
  lemma {:induction false} StrictlySortedUnique(a: seq<string>, b: seq<string>)
    requires StrictlySorted(a) && StrictlySorted(b)
    requires forall y :: y in a <==> y in b
    ensures a == b
    decreases |a|
  {
    assert b != [] ==> b[0] in a;
    if a != [] {
      assert a[0] in b;
      assert b != [];
      if a[0] != b[0] {
        assert b[0] in a;
        var i :| 0 <= i < |a| && a[i] == b[0];
        var j :| 0 <= j < |b| && b[j] == a[0];
        assert Less(a[0], b[0]);
        assert Less(b[0], a[0]);
        LessTransitive(a[0], b[0], a[0]);
        LessIrreflexive(a[0]);
      }
      forall y | y in a[1..] ensures y in b[1..] {
        var i :| 1 <= i < |a| && a[i] == y;
        assert a[i] == a[1..][i - 1];
        assert Less(a[0], y);
        LessIrreflexive(y);
        assert y in b && y != b[0];
        var k :| 0 <= k < |b| && b[k] == y;
        assert b[k] == b[1..][k - 1];
      }
      forall y | y in b[1..] ensures y in a[1..] {
        var j :| 1 <= j < |b| && b[j] == y;
        assert b[j] == b[1..][j - 1];
        assert Less(b[0], y);
        LessIrreflexive(y);
        assert y in a && y != a[0];
        var k :| 0 <= k < |a| && a[k] == y;
        assert a[k] == a[1..][k - 1];
      }
      StrictlySortedUnique(a[1..], b[1..]);
      assert a == [a[0]] + a[1..] && b == [b[0]] + b[1..];
    }
  }
}
