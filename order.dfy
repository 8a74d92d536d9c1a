/**
 * The order in which one directory's entries are rendered: the names as
 * `sorted` returns them, the filtered-out ones dropped, then the
 * directories followed by the files, each group keeping the sorted order.
 */
module Order {
  import opened Str
  import opened Snapshot
  import opened Filters

  // ---------------------------------------------------------------------
  // `sorted(os.listdir(path))`, keyed by name.
  // ---------------------------------------------------------------------

  /** Names never decrease along the sequence. */
  predicate NameOrdered(es: seq<Entry>)
  {
    forall i, j :: 0 <= i < j < |es| ==> !Below(es[j].name, es[i].name)
  }

  /** Names strictly increase along the sequence. */
  predicate StrictlyNameOrdered(es: seq<Entry>)
  {
    forall i, j :: 0 <= i < j < |es| ==> Below(es[i].name, es[j].name)
  }

  function InsertByName(e: Entry, es: seq<Entry>): (r: seq<Entry>)
    ensures multiset(r) == multiset(es) + multiset{e}
    ensures |r| == |es| + 1
  {
    if es == [] || !Below(es[0].name, e.name) then [e] + es
    else
      assert es == [es[0]] + es[1..];
      [es[0]] + InsertByName(e, es[1..])
  }

  function SortByName(es: seq<Entry>): (r: seq<Entry>)
    ensures multiset(r) == multiset(es)
    ensures |r| == |es|
  {
    if es == [] then []
    else
      assert es == [es[0]] + es[1..];
      InsertByName(es[0], SortByName(es[1..]))
  }

  lemma NotBelowTransitive(a: string, b: string, c: string)
    requires !Below(b, a) && !Below(c, b)
    ensures !Below(c, a)
  {
    BelowTotal(a, b);
    BelowTotal(b, c);
    BelowAsymmetric(a, c);
    BelowAsymmetric(c, a);
    if a != b && b != c {
      BelowTransitive(a, b, c);
    }
  }

  /** What the insertion holds is the new entry or an old one. */
  lemma InsertedMember(e: Entry, es: seq<Entry>, y: Entry)
    requires y in InsertByName(e, es)
    ensures y == e || y in es
  {
    assert y in multiset(InsertByName(e, es));
  }

  lemma {:induction false} InsertByNameOrdered(e: Entry, es: seq<Entry>)
    requires NameOrdered(es)
    ensures NameOrdered(InsertByName(e, es))
  {
    if es == [] || !Below(es[0].name, e.name) {
      forall j | 0 <= j < |es| ensures !Below(es[j].name, e.name) {
        if j > 0 { NotBelowTransitive(e.name, es[0].name, es[j].name); }
      }
    } else {
      var rest := InsertByName(e, es[1..]);
      InsertByNameOrdered(e, es[1..]);
      BelowAsymmetric(es[0].name, e.name);
      forall y | y in rest ensures !Below(y.name, es[0].name) {
        InsertedMember(e, es[1..], y);
        if y != e {
          var j :| 0 <= j < |es[1..]| && es[1..][j] == y;
          assert es[j + 1] == y;
        }
      }
    }
  }

  /** `sorted` leaves the names in ascending order. */
  lemma {:induction false} SortByNameOrdered(es: seq<Entry>)
    ensures NameOrdered(SortByName(es))
  {
    if es != [] {
      SortByNameOrdered(es[1..]);
      InsertByNameOrdered(es[0], SortByName(es[1..]));
    }
  }

  lemma {:induction false} InsertByNameDistinct(e: Entry, es: seq<Entry>)
    requires DistinctNames(es)
    requires forall x :: x in es ==> x.name != e.name
    ensures DistinctNames(InsertByName(e, es))
  {
    if es != [] && Below(es[0].name, e.name) {
      var rest := InsertByName(e, es[1..]);
      InsertByNameDistinct(e, es[1..]);
      forall y | y in rest ensures y.name != es[0].name {
        InsertedMember(e, es[1..], y);
        if y != e {
          var j :| 0 <= j < |es[1..]| && es[1..][j] == y;
          assert es[j + 1] == y;
        }
      }
      DistinctCons(es[0], rest);
    } else {
      DistinctCons(e, es);
    }
  }

  lemma DistinctCons(x: Entry, rest: seq<Entry>)
    requires DistinctNames(rest)
    requires forall y :: y in rest ==> y.name != x.name
    ensures DistinctNames([x] + rest)
  {
    forall i, j | 0 <= i < j < |[x] + rest| ensures ([x] + rest)[i].name != ([x] + rest)[j].name {
      if i == 0 {
        assert ([x] + rest)[j] == rest[j - 1];
      }
    }
  }

  lemma {:induction false} SortByNameDistinct(es: seq<Entry>)
    requires DistinctNames(es)
    ensures DistinctNames(SortByName(es))
  {
    if es != [] {
      var rest := SortByName(es[1..]);
      SortByNameDistinct(es[1..]);
      forall x | x in rest ensures x.name != es[0].name {
        assert x in multiset(rest);
        var j :| 0 <= j < |es[1..]| && es[1..][j] == x;
        assert es[j + 1] == x;
      }
      InsertByNameDistinct(es[0], rest);
    }
  }

  // ---------------------------------------------------------------------
  // Filtering and the directories/files split.
  // ---------------------------------------------------------------------

  /** The tests a renderer applies to an entry when it filters or splits. */
  datatype Criterion = Kept(f: Filter) | IsDir | IsFile

  predicate Holds(c: Criterion, e: Entry)
  {
    match c
    case Kept(f) => Keep(f, e.name)
    case IsDir => e.Dir?
    case IsFile => e.File?
  }

  /** The entries that meet `c`, in their order (a list built by `append`). */
  function Select(c: Criterion, es: seq<Entry>): (r: seq<Entry>)
    ensures |r| <= |es|
  {
    if es == [] then []
    else Select(c, es[..|es| - 1]) + (if Holds(c, es[|es| - 1]) then [es[|es| - 1]] else [])
  }

  /** An entry is selected exactly when it is in the list and meets the criterion. */
  lemma {:induction false} SelectMembers(c: Criterion, es: seq<Entry>)
    ensures forall x :: x in Select(c, es) <==> x in es && Holds(c, x)
  {
    if es != [] {
      var init := es[..|es| - 1];
      SelectMembers(c, init);
      assert es == init + [es[|es| - 1]];
    }
  }

  /** How many times each entry occurs once the others are filtered out. */
  lemma {:induction false} SelectCount(c: Criterion, es: seq<Entry>, x: Entry)
    ensures multiset(Select(c, es))[x] == if Holds(c, x) then multiset(es)[x] else 0
  {
    if es != [] {
      var init, last := es[..|es| - 1], es[|es| - 1];
      SelectCount(c, init, x);
      SelectCountStep(c, init, last, x);
      assert es == init + [last];
    }
  }

  lemma SelectCountStep(c: Criterion, init: seq<Entry>, last: Entry, x: Entry)
    requires multiset(Select(c, init))[x] == if Holds(c, x) then multiset(init)[x] else 0
    ensures multiset(Select(c, init + [last]))[x] == if Holds(c, x) then multiset(init + [last])[x] else 0
  {
    SelectAppend(c, init, last);
    assert multiset(init + [last]) == multiset(init) + multiset{last};
  }

  lemma {:induction false} SelectNameOrdered(c: Criterion, es: seq<Entry>)
    requires NameOrdered(es)
    ensures NameOrdered(Select(c, es))
  {
    if es != [] {
      var init := es[..|es| - 1];
      assert NameOrdered(init);
      SelectNameOrdered(c, init);
      SelectMembers(c, init);
      var s := Select(c, init);
      forall y | y in s ensures !Below(es[|es| - 1].name, y.name) {
        var k :| 0 <= k < |init| && init[k] == y;
      }
    }
  }

  lemma {:induction false} SelectDistinct(c: Criterion, es: seq<Entry>)
    requires DistinctNames(es)
    ensures DistinctNames(Select(c, es))
  {
    if es != [] {
      var init := es[..|es| - 1];
      assert DistinctNames(init);
      SelectDistinct(c, init);
      SelectMembers(c, init);
      var s := Select(c, init);
      forall y | y in s ensures y.name != es[|es| - 1].name {
        var k :| 0 <= k < |init| && init[k] == y;
      }
    }
  }

  /** Two criteria that agree on every entry select the same entries. */
  lemma {:induction false} SelectAgree(c1: Criterion, c2: Criterion, es: seq<Entry>)
    requires forall x :: x in es ==> Holds(c1, x) == Holds(c2, x)
    ensures Select(c1, es) == Select(c2, es)
  {
    if es != [] {
      SelectAgree(c1, c2, es[..|es| - 1]);
    }
  }

  lemma {:induction false} SelectAppend(c: Criterion, es: seq<Entry>, e: Entry)
    ensures Select(c, es + [e]) == Select(c, es) + (if Holds(c, e) then [e] else [])
  {
    assert (es + [e])[..|es + [e]| - 1] == es;
  }

  /** One more step of a loop that selects from a prefix of `s`. */
  lemma SelectPrefixStep(c: Criterion, s: seq<Entry>, i: nat)
    requires i < |s|
    ensures Select(c, s[..i + 1]) == Select(c, s[..i]) + (if Holds(c, s[i]) then [s[i]] else [])
  {
    assert s[..i + 1] == s[..i] + [s[i]];
    SelectAppend(c, s[..i], s[i]);
  }

  // ---------------------------------------------------------------------
  // The whole arrangement.
  // ---------------------------------------------------------------------

  /**
   * `all_entries = dirs + files` for one listing: sort by name, drop what
   * `f` leaves out, then the directories and after them the files.
   */
  function Arrange(f: Filter, es: seq<Entry>): seq<Entry>
  {
    var kept := Select(Kept(f), SortByName(es));
    Select(IsDir, kept) + Select(IsFile, kept)
  }

  /**
   * The loop both renderers run over the kept names: directories go to one
   * list and everything else to another, and the directories come first.
   */
  method SplitDirsFirst(entries: seq<Entry>) returns (all: seq<Entry>)
    ensures all == Select(IsDir, entries) + Select(IsFile, entries)
  {
    var dirs: seq<Entry>, files: seq<Entry> := [], [];
    for i := 0 to |entries|
      invariant dirs == Select(IsDir, entries[..i])
      invariant files == Select(IsFile, entries[..i])
    {
      var e := entries[i];
      SelectPrefixStep(IsDir, entries, i);
      SelectPrefixStep(IsFile, entries, i);
      if e.Dir? {
        dirs := dirs + [e];
      } else {
        files := files + [e];
      }
    }
    assert entries[..|entries|] == entries;
    all := dirs + files;
  }

  /** Sorting keeps exactly the entries it was given. */
  lemma SortByNameMembers(es: seq<Entry>)
    ensures forall x :: x in SortByName(es) <==> x in es
  {
    var s := SortByName(es);
    assert forall x :: x in s <==> x in multiset(s);
    assert forall x :: x in es <==> x in multiset(es);
  }

  /** The arrangement shows exactly the listed entries that the filter keeps. */
  lemma ArrangeMembers(f: Filter, es: seq<Entry>)
    ensures forall x :: x in Arrange(f, es) <==> x in es && Keep(f, x.name)
  {
    var sorted := SortByName(es);
    SortByNameMembers(es);
    var kept := Select(Kept(f), sorted);
    SelectMembers(Kept(f), sorted);
    SelectMembers(IsDir, kept);
    SelectMembers(IsFile, kept);
  }

  /** Every arranged entry comes from the listing. */
  lemma ArrangedFrom(f: Filter, es: seq<Entry>)
    ensures forall x :: x in Arrange(f, es) ==> x in es
  {
    ArrangeMembers(f, es);
  }

  /** Directories come before files, and each group is in ascending name order. */
  lemma ArrangeOrder(f: Filter, es: seq<Entry>)
    ensures var r := Arrange(f, es);
      && (forall i, j :: 0 <= i < j < |r| && r[i].File? ==> r[j].File?)
      && (forall i, j :: 0 <= i < j < |r| && r[i].Dir? == r[j].Dir? ==> !Below(r[j].name, r[i].name))
  {
    var sorted := SortByName(es);
    SortByNameOrdered(es);
    var kept := Select(Kept(f), sorted);
    SelectNameOrdered(Kept(f), sorted);
    SelectNameOrdered(IsDir, kept);
    SelectNameOrdered(IsFile, kept);
    SelectMembers(IsDir, kept);
    SelectMembers(IsFile, kept);
    DirsThenFiles(Select(IsDir, kept), Select(IsFile, kept));
  }

  lemma DirsThenFiles(dirs: seq<Entry>, files: seq<Entry>)
    requires forall x :: x in dirs ==> x.Dir?
    requires forall x :: x in files ==> x.File?
    requires NameOrdered(dirs) && NameOrdered(files)
    ensures var r := dirs + files;
      && (forall i, j :: 0 <= i < j < |r| && r[i].File? ==> r[j].File?)
      && (forall i, j :: 0 <= i < j < |r| && r[i].Dir? == r[j].Dir? ==> !Below(r[j].name, r[i].name))
  {
    var r := dirs + files;
    assert forall k :: 0 <= k < |dirs| ==> r[k] == dirs[k] && r[k].Dir?;
    assert forall k :: |dirs| <= k < |r| ==> r[k] == files[k - |dirs|] && r[k].File?;
    forall i, j | 0 <= i < j < |r| && r[i].Dir? == r[j].Dir? ensures !Below(r[j].name, r[i].name) {
      if j < |dirs| {
        assert r[i] == dirs[i] && r[j] == dirs[j];
      } else {
        assert r[i] == files[i - |dirs|] && r[j] == files[j - |dirs|];
      }
    }
  }

  lemma DisjointDistinct(dirs: seq<Entry>, files: seq<Entry>, kept: seq<Entry>)
    requires forall x :: x in dirs ==> x.Dir? && x in kept
    requires forall x :: x in files ==> x.File? && x in kept
    requires DistinctNames(kept) && DistinctNames(dirs) && DistinctNames(files)
    ensures DistinctNames(dirs + files)
  {
    var r := dirs + files;
    forall i, j | 0 <= i < j < |r| ensures r[i].name != r[j].name {
      if j < |dirs| {
        assert r[i] == dirs[i] && r[j] == dirs[j];
      } else if i >= |dirs| {
        assert r[i] == files[i - |dirs|] && r[j] == files[j - |dirs|];
      } else {
        assert r[i] == dirs[i] && r[j] == files[j - |dirs|];
        assert r[i] in kept && r[j] in kept;
        var a :| 0 <= a < |kept| && kept[a] == r[i];
        var b :| 0 <= b < |kept| && kept[b] == r[j];
      }
    }
  }

  /** Within one directory the names are distinct, so the order is strict. */
  lemma ArrangeStrict(f: Filter, es: seq<Entry>)
    requires DistinctNames(es)
    ensures var r := Arrange(f, es);
      && DistinctNames(r)
      && (forall i, j :: 0 <= i < j < |r| && r[i].Dir? == r[j].Dir? ==> Below(r[i].name, r[j].name))
  {
    ArrangeOrder(f, es);
    var sorted := SortByName(es);
    SortByNameDistinct(es);
    var kept := Select(Kept(f), sorted);
    SelectDistinct(Kept(f), sorted);
    SelectDistinct(IsDir, kept);
    SelectDistinct(IsFile, kept);
    SelectMembers(IsDir, kept);
    SelectMembers(IsFile, kept);
    DisjointDistinct(Select(IsDir, kept), Select(IsFile, kept), kept);
    var r := Arrange(f, es);
    forall i, j | 0 <= i < j < |r| && r[i].Dir? == r[j].Dir? ensures Below(r[i].name, r[j].name) {
      BelowTotal(r[i].name, r[j].name);
    }
  }

  /**
   * Two strictly name-ordered sequences holding the same entries are
   * equal: there is only one way to list a directory in order.
   */
  lemma {:induction false} StrictOrderUnique(a: seq<Entry>, b: seq<Entry>)
    requires StrictlyNameOrdered(a) && StrictlyNameOrdered(b)
    requires multiset(a) == multiset(b)
    ensures a == b
    decreases |a|
  {
    if a == [] {
      assert |multiset(b)| == 0;
    } else {
      SameLeast(a, b);
      MultisetTail(a);
      MultisetTail(b);
      StrictOrderUnique(a[1..], b[1..]);
      assert a == [a[0]] + a[1..] && b == [b[0]] + b[1..];
    }
  }

  lemma MultisetTail(a: seq<Entry>)
    requires a != []
    ensures multiset(a[1..]) == multiset(a) - multiset{a[0]}
  {
    assert a == [a[0]] + a[1..];
  }

  /** The first entry of a strictly ordered sequence is its least one. */
  lemma SameLeast(a: seq<Entry>, b: seq<Entry>)
    requires StrictlyNameOrdered(a) && StrictlyNameOrdered(b)
    requires multiset(a) == multiset(b) && a != []
    ensures b != [] && a[0] == b[0]
  {
    assert a[0] in multiset(b);
    var j :| 0 <= j < |b| && b[j] == a[0];
    assert b[0] in multiset(a);
    var k :| 0 <= k < |a| && a[k] == b[0];
    if j > 0 {
      if k > 0 {
        BelowAsymmetric(a[0].name, a[k].name);
      } else {
        BelowIrreflexive(a[0].name);
      }
    }
  }

  /**
   * The arrangement depends only on WHICH entries survive the filter, not
   * on the order the listing produced them in.
   */
  lemma ArrangeCanonical(f: Filter, es1: seq<Entry>, es2: seq<Entry>)
    requires DistinctNames(es1) && DistinctNames(es2)
    requires forall x: Entry :: Keep(f, x.name) ==> multiset(es1)[x] == multiset(es2)[x]
    ensures Arrange(f, es1) == Arrange(f, es2)
  {
    var s1, s2 := SortByName(es1), SortByName(es2);
    var k1, k2 := Select(Kept(f), s1), Select(Kept(f), s2);
    KeptStrict(f, es1);
    KeptStrict(f, es2);
    forall x ensures multiset(k1)[x] == multiset(k2)[x] {
      SelectCount(Kept(f), s1, x);
      SelectCount(Kept(f), s2, x);
    }
    assert multiset(k1) == multiset(k2);
    StrictOrderUnique(k1, k2);
  }

  lemma KeptStrict(f: Filter, es: seq<Entry>)
    requires DistinctNames(es)
    ensures StrictlyNameOrdered(Select(Kept(f), SortByName(es)))
  {
    var s := SortByName(es);
    SortByNameOrdered(es);
    SortByNameDistinct(es);
    SelectNameOrdered(Kept(f), s);
    SelectDistinct(Kept(f), s);
    var k := Select(Kept(f), s);
    forall i, j | 0 <= i < j < |k| ensures Below(k[i].name, k[j].name) {
      BelowTotal(k[i].name, k[j].name);
    }
  }

  /** Two filters that agree on the names in a listing arrange it alike. */
  lemma ArrangeAgree(f1: Filter, f2: Filter, es: seq<Entry>)
    requires forall x :: x in es ==> Keep(f1, x.name) == Keep(f2, x.name)
    ensures Arrange(f1, es) == Arrange(f2, es)
  {
    var s := SortByName(es);
    assert forall x :: x in s ==> x in es by {
      assert forall x :: x in s <==> x in multiset(s);
    }
    SelectAgree(Kept(f1), Kept(f2), s);
  }

  /** A listing of one entry arranges to that entry, or to nothing when the filter drops it. */
  lemma ArrangeSingle(f: Filter, e: Entry)
    ensures Arrange(f, [e]) == if Keep(f, e.name) then [e] else []
  {
    assert [e][..0] == [] && [e][1..] == [];
    assert SortByName([e]) == [e];
    var kept := Select(Kept(f), [e]);
    assert kept == if Keep(f, e.name) then [e] else [];
  }
}
