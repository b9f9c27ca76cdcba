/**
 The Python string operations the program relies on, as pure functions on
 `string` (= `seq<char>`): `strip()`, `split(c)` with a one-character
 separator, `replace(c, "")`, `startswith`/`endswith`, `split(sep)[0]` with
 a longer separator, and `filter(None, ...)` over a list of strings.
 */
module Text {

  /** The characters Python's `str.isspace` accepts, which `str.strip()` removes. */
  predicate IsSpace(c: char) {
    || c in {' ', '\t', '\n', '\r', '\U{0B}', '\U{0C}', '\U{1C}', '\U{1D}', '\U{1E}', '\U{1F}'}
    || c in {'\U{85}', '\U{A0}', '\U{1680}', '\U{2028}', '\U{2029}', '\U{202F}', '\U{205F}', '\U{3000}'}
    || ('\U{2000}' <= c <= '\U{200A}')
  }

  /** The first index at or after `i` that does not hold whitespace. */
  function SkipSpaces(s: string, i: nat): (k: nat)
    requires i <= |s|
    ensures i <= k <= |s|
    ensures forall j :: i <= j < k ==> IsSpace(s[j])
    ensures k == |s| || !IsSpace(s[k])
    decreases |s| - i
  {
    if i == |s| || !IsSpace(s[i]) then i else SkipSpaces(s, i + 1)
  }

  /** The end of `s[lo..hi]` once its trailing whitespace is dropped. */
  function SkipSpacesBack(s: string, lo: nat, hi: nat): (k: nat)
    requires lo <= hi <= |s|
    ensures lo <= k <= hi
    ensures forall j :: k <= j < hi ==> IsSpace(s[j])
    ensures k == lo || !IsSpace(s[k - 1])
    decreases hi
  {
    if hi == lo || !IsSpace(s[hi - 1]) then hi else SkipSpacesBack(s, lo, hi - 1)
  }

  /** `s.strip()`. */
  function Strip(s: string): (r: string)
    ensures |r| <= |s|
    ensures r == [] || (!IsSpace(r[0]) && !IsSpace(r[|r| - 1]))
    ensures r == [] <==> forall j :: 0 <= j < |s| ==> IsSpace(s[j])
    ensures (|s| == 0 || (!IsSpace(s[0]) && !IsSpace(s[|s| - 1]))) ==> r == s
    ensures forall c :: c in r ==> c in s
  {
    var a := SkipSpaces(s, 0);
    var b := SkipSpacesBack(s, a, |s|);
    s[a..b]
  }

  /** Stripping twice is stripping once. */
  lemma StripIdempotent(s: string)
    ensures Strip(Strip(s)) == Strip(s)
  {
  }

  predicate StartsWith(s: string, prefix: string) {
    |prefix| <= |s| && s[..|prefix|] == prefix
  }

  predicate EndsWith(s: string, suffix: string) {
    |suffix| <= |s| && s[|s| - |suffix|..] == suffix
  }

  /** How many times `c` occurs in `s`. */
  function Occurrences(s: string, c: char): nat {
    if s == [] then 0 else (if s[0] == c then 1 else 0) + Occurrences(s[1..], c)
  }

  lemma {:induction false} OccurrencesAppend(a: string, b: string, c: char)
    ensures Occurrences(a + b, c) == Occurrences(a, c) + Occurrences(b, c)
    decreases |a|
  {
    if a == [] {
      assert a + b == b;
    } else {
      assert (a + b)[1..] == a[1..] + b;
      OccurrencesAppend(a[1..], b, c);
    }
  }

  lemma {:induction false} OccurrencesAbsent(s: string, c: char)
    requires c !in s
    ensures Occurrences(s, c) == 0
    decreases |s|
  {
    if s != [] {
      assert c !in s[1..];
      OccurrencesAbsent(s[1..], c);
    }
  }

  /** The position of the first `c` in `s`. */
  function FirstIndex(s: string, c: char): (i: nat)
    requires c in s
    ensures i < |s| && s[i] == c && c !in s[..i]
    decreases |s|
  {
    if s[0] == c then 0
    else
      var j := FirstIndex(s[1..], c);
      assert s[..j + 1] == [s[0]] + s[1..][..j];
      j + 1
  }

  /** Any position holding `c` with no `c` before it is the first index. */
  lemma FirstIndexUnique(s: string, c: char, i: nat)
    requires i < |s| && s[i] == c && c !in s[..i]
    ensures FirstIndex(s, c) == i
  {
  }

  /** `c.join(parts)`. */
  function Join(parts: seq<string>, c: char): string
    requires |parts| >= 1
  {
    if |parts| == 1 then parts[0] else parts[0] + [c] + Join(parts[1..], c)
  }

  /** `s.split(c)` for a one-character separator `c`. */
  function Split(s: string, c: char): (parts: seq<string>)
    ensures |parts| >= 1
    ensures forall k :: 0 <= k < |parts| ==> c !in parts[k]
    ensures Join(parts, c) == s
    decreases |s|
  {
    if c in s then
      var i := FirstIndex(s, c);
      var rest := Split(s[i + 1..], c);
      assert s == s[..i] + [c] + s[i + 1..];
      assert ([s[..i]] + rest)[1..] == rest;
      [s[..i]] + rest
    else
      [s]
  }

  /** Splitting a join of separator-free parts gives the parts back. */
  lemma {:induction false} SplitJoin(parts: seq<string>, c: char)
    requires |parts| >= 1
    requires forall k :: 0 <= k < |parts| ==> c !in parts[k]
    ensures Split(Join(parts, c), c) == parts
    decreases |parts|
  {
    if |parts| > 1 {
      var rest := Join(parts[1..], c);
      var s := parts[0] + [c] + rest;
      var n := |parts[0]|;
      assert Join(parts, c) == s;
      assert s[..n] == parts[0] && s[n] == c && s[n + 1..] == rest;
      SplitAtFirst(s, c, n);
      SplitJoin(parts[1..], c);
      assert parts == [parts[0]] + parts[1..];
    }
  }

  /** Splitting at a first separator at `n` gives the text before it, then the split of the text after it. */
  lemma SplitAtFirst(s: string, c: char, n: nat)
    requires n < |s| && s[n] == c && c !in s[..n]
    ensures Split(s, c) == [s[..n]] + Split(s[n + 1..], c)
  {
    FirstIndexUnique(s, c, n);
  }

  /** `s.split(c)` has one more piece than `s` has separators. */
  lemma {:induction false} SplitCount(s: string, c: char)
    ensures |Split(s, c)| == Occurrences(s, c) + 1
    decreases |s|
  {
    if c in s {
      var i := FirstIndex(s, c);
      assert s == s[..i] + [c] + s[i + 1..];
      OccurrencesAppend(s[..i] + [c], s[i + 1..], c);
      OccurrencesAppend(s[..i], [c], c);
      OccurrencesAbsent(s[..i], c);
      SplitCount(s[i + 1..], c);
    } else {
      OccurrencesAbsent(s, c);
    }
  }

  /** `s.replace(c, "")`. */
  function RemoveAll(s: string, c: char): string
    decreases |s|
  {
    if s == [] then [] else (if s[0] == c then [] else [s[0]]) + RemoveAll(s[1..], c)
  }

  lemma RemoveAllCons(x: char, s: string, c: char)
    ensures RemoveAll([x] + s, c) == (if x == c then [] else [x]) + RemoveAll(s, c)
  {
    assert ([x] + s)[1..] == s;
  }

  /** Every `c` is gone, and only the `c`s: the result is shorter by their count. */
  lemma {:induction false} RemoveAllDrops(s: string, c: char)
    ensures c !in RemoveAll(s, c)
    ensures |RemoveAll(s, c)| == |s| - Occurrences(s, c)
    decreases |s|
  {
    if s != [] {
      RemoveAllDrops(s[1..], c);
    }
  }

  /** Removing `c` keeps every other character that occurs, and adds none. */
  lemma {:induction false} RemoveAllKeeps(s: string, c: char, x: char)
    requires x != c
    ensures x in RemoveAll(s, c) <==> x in s
    decreases |s|
  {
    if s != [] {
      RemoveAllKeeps(s[1..], c, x);
      assert s == [s[0]] + s[1..];
    }
  }

  /** A prefix free of `c` passes through untouched; with an empty rest, `s.replace(c, "") == s` when `c` is absent. */
  lemma {:induction false} RemoveAllKeepsPrefix(head: string, tail: string, c: char)
    requires c !in head
    ensures RemoveAll(head + tail, c) == head + RemoveAll(tail, c)
    decreases |head|
  {
    if head == [] {
      assert head + tail == tail;
    } else {
      var h := head[0];
      assert head + tail == [h] + (head[1..] + tail);
      RemoveAllCons(h, head[1..] + tail, c);
      RemoveAllKeepsPrefix(head[1..], tail, c);
      assert head == [h] + head[1..];
    }
  }

  /** The concatenation of `parts` with no separator: `"".join(parts)`. */
  function Concat(parts: seq<string>): string {
    if parts == [] then [] else parts[0] + Concat(parts[1..])
  }

  /** Splitting at the first separator: the text before it, then the split of the rest. */
  lemma SplitStep(s: string, c: char)
    requires c in s
    ensures Split(s, c) == [s[..FirstIndex(s, c)]] + Split(s[FirstIndex(s, c) + 1..], c)
  {
  }

  /** `s.replace(c, "") == "".join(s.split(c))`: removing a character joins the pieces around it. */
  lemma {:induction false} RemoveAllIsConcatOfSplit(s: string, c: char)
    ensures RemoveAll(s, c) == Concat(Split(s, c))
    decreases |s|
  {
    if c in s {
      var i := FirstIndex(s, c);
      var head, tail := s[..i], s[i + 1..];
      calc {
        RemoveAll(s, c);
        == { assert s == head + ([c] + tail); RemoveAllKeepsPrefix(head, [c] + tail, c); }
        head + RemoveAll([c] + tail, c);
        == { RemoveAllCons(c, tail, c); }
        head + RemoveAll(tail, c);
        == { RemoveAllIsConcatOfSplit(tail, c); }
        head + Concat(Split(tail, c));
        == { assert ([head] + Split(tail, c))[1..] == Split(tail, c); }
        Concat([head] + Split(tail, c));
        == { SplitStep(s, c); }
        Concat(Split(s, c));
      }
    } else {
      RemoveAllKeepsPrefix(s, [], c);
      assert s + [] == s;
      assert Concat([s]) == s + Concat([]);
    }
  }

  /** `sep` starts at index `i` of `s`. */
  predicate OccursAt(s: string, sep: string, i: nat) {
    i + |sep| <= |s| && s[i..i + |sep|] == sep
  }

  /** The first index at or after `i` where `sep` starts, or `|s|`. */
  function FindFrom(s: string, sep: string, i: nat): (k: nat)
    requires i <= |s|
    ensures i <= k <= |s|
    ensures forall j :: i <= j < k ==> !OccursAt(s, sep, j)
    ensures k == |s| || OccursAt(s, sep, k)
    decreases |s| - i
  {
    if i == |s| || OccursAt(s, sep, i) then i else FindFrom(s, sep, i + 1)
  }

  /** `s.split(sep)[0]` for a non-empty separator: the text before the first `sep`, or all of `s`. */
  function BeforeFirst(s: string, sep: string): (r: string)
    requires sep != []
    ensures |r| <= |s| && r == s[..|r|]
    ensures forall j :: 0 <= j < |r| ==> !OccursAt(s, sep, j)
    ensures |r| < |s| ==> OccursAt(s, sep, |r|)
  {
    s[..FindFrom(s, sep, 0)]
  }

  /** `list(filter(None, xs))`: the non-empty strings of `xs`, in order. */
  function NonEmpty(xs: seq<string>): (r: seq<string>)
    ensures |r| <= |xs|
    ensures forall k :: 0 <= k < |r| ==> r[k] != []
    ensures forall x :: x in r <==> x in xs && x != []
    ensures (forall k :: 0 <= k < |xs| ==> xs[k] != []) ==> r == xs
    decreases |xs|
  {
    if xs == [] then []
    else
      var rest := NonEmpty(xs[1..]);
      assert xs == [xs[0]] + xs[1..];
      (if xs[0] == [] then [] else [xs[0]]) + rest
  }

  /**
   The filter keeps order and multiplicity: filtering a concatenation is
   concatenating the filtered parts, so the kept strings appear in the order
   and number they had.
   */
  lemma {:induction false} NonEmptyAppend(xs: seq<string>, ys: seq<string>)
    ensures NonEmpty(xs + ys) == NonEmpty(xs) + NonEmpty(ys)
    decreases |xs|
  {
    if xs != [] {
      assert (xs + ys)[1..] == xs[1..] + ys;
      NonEmptyAppend(xs[1..], ys);
    } else {
      assert xs + ys == ys;
    }
  }
}
