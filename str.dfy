/**
 * The few Python string operations the tree plugin relies on, written out
 * over `seq<char>`: code-point ordering (what `sorted` uses on `str`),
 * `startswith`, `strip`, `split(',')`, `", ".join`, `os.path.basename`
 * and `sorted` applied to a set of names.
 */
module Str {

  // ---------------------------------------------------------------------
  // Ordering: Python compares `str` values code point by code point, and a
  // proper prefix comes first.
  // ---------------------------------------------------------------------

  /** `a < b` on Python strings. */
  predicate Below(a: string, b: string)
  {
    if |a| == 0 then |b| > 0
    else if |b| == 0 then false
    else if a[0] != b[0] then a[0] < b[0]
    else Below(a[1..], b[1..])
  }

  lemma {:induction false} BelowIrreflexive(a: string)
    ensures !Below(a, a)
  {
    if |a| > 0 {
      BelowIrreflexive(a[1..]);
    }
  }

  lemma {:induction false} BelowAsymmetric(a: string, b: string)
    ensures Below(a, b) ==> !Below(b, a)
  {
    if |a| > 0 && |b| > 0 && a[0] == b[0] {
      BelowAsymmetric(a[1..], b[1..]);
    }
  }

  lemma {:induction false} BelowTransitive(a: string, b: string, c: string)
    requires Below(a, b) && Below(b, c)
    ensures Below(a, c)
  {
    if |a| > 0 && a[0] == b[0] && b[0] == c[0] {
      BelowTransitive(a[1..], b[1..], c[1..]);
    }
  }

  lemma {:induction false} BelowTotal(a: string, b: string)
    ensures a == b || Below(a, b) || Below(b, a)
  {
    if |a| > 0 && |b| > 0 && a[0] == b[0] {
      BelowTotal(a[1..], b[1..]);
      if a[1..] == b[1..] {
        assert a == [a[0]] + a[1..] && b == [b[0]] + b[1..];
      }
    }
  }

  /** Strictly ascending, as `sorted` leaves a list of distinct strings. */
  predicate Ascending(xs: seq<string>)
  {
    forall i, j :: 0 <= i < j < |xs| ==> Below(xs[i], xs[j])
  }

  /** Inserts `x` into an ascending list at its place. */
  function InsertName(x: string, xs: seq<string>): (r: seq<string>)
    requires Ascending(xs) && x !in xs
    ensures Ascending(r)
    ensures multiset(r) == multiset(xs) + multiset{x}
    decreases |xs|
  {
    if xs == [] then [x]
    else if Below(x, xs[0]) then
      BelowAllOf(x, xs);
      AscendingCons(x, xs);
      [x] + xs
    else
      BelowTotal(x, xs[0]);
      var rest := InsertName(x, xs[1..]);
      HeadBelowInserted(x, xs, rest);
      AscendingCons(xs[0], rest);
      assert xs == [xs[0]] + xs[1..];
      [xs[0]] + rest
  }

  lemma AscendingCons(x: string, xs: seq<string>)
    requires Ascending(xs)
    requires forall y :: y in xs ==> Below(x, y)
    ensures Ascending([x] + xs)
  {
    forall i, j | 0 <= i < j < |[x] + xs| ensures Below(([x] + xs)[i], ([x] + xs)[j]) {
      if i == 0 {
        assert ([x] + xs)[j] == xs[j - 1];
      }
    }
  }

  /** A name below the head of an ascending list is below all of it. */
  lemma BelowAllOf(x: string, xs: seq<string>)
    requires Ascending(xs) && xs != [] && Below(x, xs[0])
    ensures forall y :: y in xs ==> Below(x, y)
  {
    forall j | 0 <= j < |xs| ensures Below(x, xs[j]) {
      if j > 0 { BelowTransitive(x, xs[0], xs[j]); }
    }
  }

  /** What goes after the head of an ascending list stays above it. */
  lemma HeadBelowInserted(x: string, xs: seq<string>, rest: seq<string>)
    requires Ascending(xs) && xs != [] && Below(xs[0], x)
    requires multiset(rest) == multiset(xs[1..]) + multiset{x}
    ensures forall y :: y in rest ==> Below(xs[0], y)
  {
    forall y | y in rest ensures Below(xs[0], y) {
      assert y in multiset(rest);
      if y != x {
        assert y in multiset(xs[1..]);
        var j :| 0 <= j < |xs[1..]| && xs[1..][j] == y;
        assert xs[j + 1] == y;
      }
    }
  }

  /**
   * `sorted(names)` for a set of names: the names as an ascending list.
   * Python iterates the set in an unspecified order; any choice gives the
   * same result.
   */
  method SortedNames(names: set<string>) returns (xs: seq<string>)
    ensures Ascending(xs)
    ensures forall x :: x in xs <==> x in names
    ensures |xs| == |names|
  {
    xs := [];
    var rest := names;
    while rest != {}
      invariant Ascending(xs)
      invariant rest <= names
      invariant forall x :: x in xs <==> x in names && x !in rest
      invariant |xs| + |rest| == |names|
      decreases |rest|
    {
      var x :| x in rest;
      ghost var before := xs;
      xs := InsertName(x, xs);
      assert forall y :: y in xs <==> y in multiset(xs);
      assert forall y :: y in before <==> y in multiset(before);
      rest := rest - {x};
    }
  }

  // ---------------------------------------------------------------------
  // Prefixes and whitespace.
  // ---------------------------------------------------------------------

  /** `s.startswith(p)`. */
  predicate StartsWith(s: string, p: string)
  {
    |p| <= |s| && s[..|p|] == p
  }

  /** `c.isspace()` for a single code point, as Python's `str.strip()` uses it. */
  predicate IsSpace(c: char)
  {
    || c == ' '
    || '\t' <= c <= '\r'
    || '\U{1c}' <= c <= '\U{1f}'
    || c == '\U{85}' || c == '\U{a0}' || c == '\U{1680}'
    || '\U{2000}' <= c <= '\U{200a}'
    || c == '\U{2028}' || c == '\U{2029}' || c == '\U{202f}'
    || c == '\U{205f}' || c == '\U{3000}'
  }

  function TrimLeft(s: string): (r: string)
    ensures |r| <= |s| && r == s[|s| - |r|..]
    ensures r != [] ==> !IsSpace(r[0])
    ensures forall i :: 0 <= i < |s| - |r| ==> IsSpace(s[i])
  {
    if s != [] && IsSpace(s[0]) then TrimLeft(s[1..]) else s
  }

  function TrimRight(s: string): (r: string)
    ensures |r| <= |s| && r == s[..|r|]
    ensures r != [] ==> !IsSpace(r[|r| - 1])
    ensures forall i :: |r| <= i < |s| ==> IsSpace(s[i])
  {
    if s != [] && IsSpace(s[|s| - 1]) then TrimRight(s[..|s| - 1]) else s
  }

  /** `s.strip()`: whitespace removed from both ends. */
  function Strip(s: string): (r: string)
  {
    TrimRight(TrimLeft(s))
  }

  /** A name that `strip` leaves as it is and that is not empty. */
  predicate Trimmed(s: string)
  {
    s != [] && !IsSpace(s[0]) && !IsSpace(s[|s| - 1])
  }

  /** What `strip` returns has no whitespace at either end. */
  lemma StripTrimmed(s: string)
    ensures Strip(s) == [] || Trimmed(Strip(s))
  {
    var l := TrimLeft(s);
    var r := TrimRight(l);
    if r != [] {
      assert r[0] == l[0];
    }
  }

  /** What `strip` returns is a slice of its input. */
  lemma StripSlice(s: string)
    ensures |s| - |TrimLeft(s)| + |Strip(s)| <= |s|
    ensures Strip(s) == s[|s| - |TrimLeft(s)|..|s| - |TrimLeft(s)| + |Strip(s)|]
  {
    var l := TrimLeft(s);
    var r := TrimRight(l);
    var i := |s| - |l|;
    assert l == s[i..] && r == l[..|r|];
  }

  /** A string that strips to nothing holds only whitespace. */
  lemma StrippedAwayIsBlank(s: string)
    requires Strip(s) == []
    ensures forall k :: 0 <= k < |s| ==> IsSpace(s[k])
  {
    var l := TrimLeft(s);
    var i := |s| - |l|;
    assert l == s[i..];
    forall k | i <= k < |s| ensures IsSpace(s[k]) {
      assert s[k] == l[k - i];
    }
  }

  lemma StripNoComma(s: string)
    requires ',' !in s
    ensures ',' !in Strip(s)
  {
    StripSlice(s);
    var i, r := |s| - |TrimLeft(s)|, Strip(s);
    forall k | 0 <= k < |r| ensures r[k] != ',' {
      assert r[k] == s[i + k];
    }
  }

  lemma StripOfTrimmed(s: string)
    requires Trimmed(s)
    ensures Strip(s) == s
  {
  }

  lemma StripIdempotent(s: string)
    ensures Strip(Strip(s)) == Strip(s)
  {
    StripTrimmed(s);
  }

  /** A string that is only whitespace strips to the empty string, and only such strings do. */
  lemma {:induction false} StripEmptyIffBlank(s: string)
    ensures Strip(s) == [] <==> forall k :: 0 <= k < |s| ==> IsSpace(s[k])
  {
    if Strip(s) == [] {
      StrippedAwayIsBlank(s);
    }
    if forall k :: 0 <= k < |s| ==> IsSpace(s[k]) {
      BlankTrimsAway(s);
    }
  }

  lemma {:induction false} BlankTrimsAway(s: string)
    requires forall k :: 0 <= k < |s| ==> IsSpace(s[k])
    ensures TrimLeft(s) == []
    decreases |s|
  {
    if s != [] {
      BlankTrimsAway(s[1..]);
    }
  }

  /** One leading blank before a trimmed name is removed by `strip`. */
  lemma StripSpaceThen(s: string)
    requires Trimmed(s)
    ensures Strip(" " + s) == s
  {
    assert (" " + s)[1..] == s;
  }

  // ---------------------------------------------------------------------
  // `text.split(',')` and `sep.join(items)`.
  // ---------------------------------------------------------------------

  /** `s.split(',')`: the pieces between commas, always one more than there are commas. */
  function SplitCommas(s: string): (r: seq<string>)
    ensures |r| >= 1
    ensures forall k :: 0 <= k < |r| ==> ',' !in r[k]
    decreases |s|
  {
    if s == [] then [""]
    else
      var rest := SplitCommas(s[1..]);
      if s[0] == ',' then [""] + rest
      else [[s[0]] + rest[0]] + rest[1..]
  }

  /** `sep.join(items)`. */
  function Join(items: seq<string>, sep: string): string
    decreases |items|
  {
    if items == [] then ""
    else if |items| == 1 then items[0]
    else items[0] + sep + Join(items[1..], sep)
  }

  /** Splitting joined comma-free pieces gives the pieces back. */
  lemma {:induction false} SplitJoin(items: seq<string>)
    requires |items| >= 1
    requires forall k :: 0 <= k < |items| ==> ',' !in items[k]
    ensures SplitCommas(Join(items, ", "))
         == [items[0]] + seq(|items| - 1, k requires 0 <= k < |items| - 1 => " " + items[k + 1])
    decreases |items|
  {
    if |items| == 1 {
      SplitPlain(items[0]);
    } else {
      var tail := Join(items[1..], ", ");
      assert Join(items, ", ") == items[0] + ([','] + (" " + tail));
      SplitAfterPlain(items[0], " " + tail);
      SplitCommaSpace(tail);
      SplitJoin(items[1..]);
      SpacedRest(items);
    }
  }

  /** The spaced pieces after the first, split at the second. */
  lemma SpacedRest(items: seq<string>)
    requires |items| >= 2
    ensures [" " + items[1]] + seq(|items| - 2, k requires 0 <= k < |items| - 2 => " " + items[k + 2])
         == seq(|items| - 1, k requires 0 <= k < |items| - 1 => " " + items[k + 1])
  {
  }

  lemma {:induction false} SplitPlain(s: string)
    requires ',' !in s
    ensures SplitCommas(s) == [s]
    decreases |s|
  {
    if s != [] {
      SplitPlain(s[1..]);
      assert s == [s[0]] + s[1..];
    }
  }

  /** Splitting `s + "," + t` where `s` has no comma. */
  lemma {:induction false} SplitAfterPlain(s: string, t: string)
    requires ',' !in s
    ensures SplitCommas(s + ([','] + t)) == [s] + SplitCommas(t)
    decreases |s|
  {
    if s == [] {
      assert s + ([','] + t) == [','] + t;
      assert ([','] + t)[1..] == t;
    } else {
      var u := s + ([','] + t);
      assert u[0] == s[0] && u[1..] == s[1..] + ([','] + t);
      SplitAfterPlain(s[1..], t);
      assert [s[0]] + s[1..] == s;
    }
  }

  lemma SplitCommaSpace(t: string)
    ensures SplitCommas(" " + t)
         == [" " + SplitCommas(t)[0]] + SplitCommas(t)[1..]
  {
    assert (" " + t)[1..] == t;
  }

  /** A non-empty list is its front followed by its last element. */
  lemma FrontLast<T>(s: seq<T>)
    requires s != []
    ensures s[..|s| - 1] + [s[|s| - 1]] == s
  {
  }

  /** The names of a list, as a set. */
  function NameSet(xs: seq<string>): set<string>
  {
    set x | x in xs
  }

  // ---------------------------------------------------------------------
  // `os.path.basename` (POSIX form): the text after the last '/'.
  // ---------------------------------------------------------------------

  function Basename(path: string): (r: string)
    ensures '/' !in r
    ensures |r| <= |path| && path[|path| - |r|..] == r
    ensures |r| < |path| ==> path[|path| - |r| - 1] == '/'
    decreases |path|
  {
    if path == [] || path[|path| - 1] == '/' then ""
    else Basename(path[..|path| - 1]) + [path[|path| - 1]]
  }

  /** The base name of a path joined from a directory and a name without '/' is that name. */
  lemma {:induction false} BasenameOfJoin(dir: string, name: string)
    requires '/' !in name
    ensures Basename(dir + "/" + name) == name
    decreases |name|
  {
    var path := dir + "/" + name;
    if name == [] {
      assert path[|path| - 1] == '/';
    } else {
      var init := name[..|name| - 1];
      assert path[..|path| - 1] == dir + "/" + init;
      BasenameOfJoin(dir, init);
      assert name == init + [name[|name| - 1]];
    }
  }

}
