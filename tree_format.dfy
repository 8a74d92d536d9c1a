/**
 * The text both renderers produce, as a function of the snapshot.
 *
 * For each directory the listed entries are arranged (`Order.Arrange`) and
 * each one gets the line `prefix + "+---" + name`; a directory's own
 * entries follow its line, one indentation unit deeper: `"    "` under the
 * last sibling and `"|   "` under the others. A directory that cannot be
 * listed gets one marker line instead of entries. The two renderers differ
 * only in the filter.
 */
module TreeFormat {
  import opened Str
  import opened Snapshot
  import opened Filters
  import opened Order

  const Connector := "+---"
  const LastIndent := "    "
  const MidIndent := "|   "
  const DeniedMarker := "[權限不足]"
  const ErrorLabel := "錯誤: "

  /** One line of output, before it is turned into text. */
  datatype Line =
    | EntryLine(prefix: string, name: string)
    | DeniedLine(prefix: string)
    | ErrorLine(prefix: string, msg: string)

  function LineText(ln: Line): string
  {
    match ln
    case EntryLine(p, n) => p + Connector + n + "\n"
    case DeniedLine(p) => p + DeniedMarker + "\n"
    case ErrorLine(p, m) => p + ErrorLabel + m + "\n"
  }

  /** The lines one after another, each ending in a line break. */
  function Text(lines: seq<Line>): string
  {
    if lines == [] then ""
    else LineText(lines[0]) + Text(lines[1..])
  }

  /** The prefix handed to a directory's own entries. */
  function ChildPrefix(prefix: string, isLast: bool): string
  {
    prefix + (if isLast then LastIndent else MidIndent)
  }

  /** Everything rendered for a directory whose listing was `l`, at `prefix`. */
  function Lines(f: Filter, l: Listing, prefix: string): seq<Line>
    decreases l, if l.Ok? then |Arrange(f, l.entries)| + 1 else 0
  {
    match l
    case Denied => [DeniedLine(prefix)]
    case Failed(msg) => [ErrorLine(prefix, msg)]
    case Ok(es) =>
      var all := Arrange(f, es);
      ArrangeMembers(f, es);
      SiblingLines(f, l, all, prefix, |all|)
  }

  /** The blocks of the first `k` arranged entries of directory `dir`. */
  function SiblingLines(f: Filter, dir: Listing, all: seq<Entry>, prefix: string, k: nat): seq<Line>
    requires dir.Ok? && k <= |all|
    requires forall x :: x in all ==> x in dir.entries
    decreases dir, k
  {
    if k == 0 then []
    else
      assert all[k - 1] in dir.entries;
      SiblingLines(f, dir, all, prefix, k - 1) + EntryLines(f, all[k - 1], prefix, k == |all|)
  }

  /** The line of one entry followed, for a directory, by what it holds. */
  function EntryLines(f: Filter, e: Entry, prefix: string, isLast: bool): seq<Line>
    decreases e, 0
  {
    [EntryLine(prefix, e.name)]
      + match e
        case File(_) => []
        case Dir(_, l) => Lines(f, l, ChildPrefix(prefix, isLast))
  }

  lemma {:induction false} TextAppend(a: seq<Line>, b: seq<Line>)
    ensures Text(a + b) == Text(a) + Text(b)
    decreases |a|
  {
    if a == [] {
      assert a + b == b;
    } else {
      assert (a + b)[0] == a[0] && (a + b)[1..] == a[1..] + b;
      TextAppend(a[1..], b);
    }
  }

  lemma TextSingle(ln: Line)
    ensures Text([ln]) == LineText(ln)
  {
    assert [ln][1..] == [];
  }

  /** The text of one entry's block: its own line, then, for a directory, what it holds. */
  lemma EntryText(f: Filter, e: Entry, p: string, isLast: bool)
    ensures Text(EntryLines(f, e, p, isLast))
         == p + Connector + e.name + "\n"
            + (if e.Dir? then Text(Lines(f, e.listing, ChildPrefix(p, isLast))) else "")
  {
    var below := if e.Dir? then Lines(f, e.listing, ChildPrefix(p, isLast)) else [];
    assert EntryLines(f, e, p, isLast) == [EntryLine(p, e.name)] + below;
    TextAppend([EntryLine(p, e.name)], below);
    TextSingle(EntryLine(p, e.name));
  }

  /** The blocks of the first `k + 1` entries are those of the first `k` and then entry `k`'s. */
  lemma SiblingText(f: Filter, dir: Listing, all: seq<Entry>, p: string, k: nat)
    requires dir.Ok? && k < |all|
    requires forall x :: x in all ==> x in dir.entries
    ensures Text(SiblingLines(f, dir, all, p, k + 1))
         == Text(SiblingLines(f, dir, all, p, k)) + Text(EntryLines(f, all[k], p, k == |all| - 1))
  {
    TextAppend(SiblingLines(f, dir, all, p, k), EntryLines(f, all[k], p, k + 1 == |all|));
  }

  /**
   * One step of a renderer that appends, for entry `k`, its line and then
   * what was rendered below it (nothing for a file).
   */
  lemma EmitStep(f: Filter, dir: Listing, all: seq<Entry>, p: string, k: nat, out: string, below: string)
    requires dir.Ok? && k < |all|
    requires forall x :: x in all ==> x in dir.entries
    requires out == Text(SiblingLines(f, dir, all, p, k))
    requires below == if all[k].Dir? then Text(Lines(f, all[k].listing, ChildPrefix(p, k == |all| - 1))) else ""
    ensures (out + (p + Connector + all[k].name + "\n")) + below == Text(SiblingLines(f, dir, all, p, k + 1))
  {
    SiblingText(f, dir, all, p, k);
    EntryText(f, all[k], p, k == |all| - 1);
  }

  /** A directory holding one file shows that file's line when the filter keeps it, and nothing otherwise. */
  lemma SingleFileLines(f: Filter, e: Entry, p: string)
    requires e.File?
    ensures Lines(f, Ok([e]), p) == if Keep(f, e.name) then [EntryLine(p, e.name)] else []
  {
    var l := Ok([e]);
    ArrangeSingle(f, e);
    var all := Arrange(f, [e]);
    ArrangedFrom(f, [e]);
    if Keep(f, e.name) {
      assert SiblingLines(f, l, all, p, 1) == SiblingLines(f, l, all, p, 0) + EntryLines(f, e, p, true);
    }
  }

  // ---------------------------------------------------------------------
  // The shape of every prefix.
  // ---------------------------------------------------------------------

  /** A run of indentation units, each `"    "` or `"|   "`. */
  predicate Indent(s: string)
    decreases |s|
  {
    s == [] || (|s| >= 4 && (s[..4] == LastIndent || s[..4] == MidIndent) && Indent(s[4..]))
  }

  /** The line's prefix is `p` followed by whole indentation units. */
  predicate Under(ln: Line, p: string)
  {
    StartsWith(ln.prefix, p) && Indent(ln.prefix[|p|..])
  }

  lemma UnderChild(ln: Line, p: string, isLast: bool)
    requires Under(ln, ChildPrefix(p, isLast))
    ensures Under(ln, p) && |ln.prefix| >= |p| + 4
  {
    var u := if isLast then LastIndent else MidIndent;
    var rest := ln.prefix[|p| + 4..];
    assert ln.prefix[..|p| + 4] == p + u;
    assert ln.prefix[|p|..] == u + rest;
    assert (u + rest)[..4] == u && (u + rest)[4..] == rest;
  }

  /**
   * Every line rendered for a directory at `p` starts with `p` followed by
   * whole indentation units only, each `"    "` or `"|   "`; entry lines
   * below it are at least one unit deeper (`UnderChild`).
   */
  lemma {:induction false} LinesUnder(f: Filter, l: Listing, p: string)
    ensures forall ln :: ln in Lines(f, l, p) ==> Under(ln, p)
    decreases l, if l.Ok? then |Arrange(f, l.entries)| + 1 else 0
  {
    assert p[|p|..] == [];
    if l.Ok? {
      var all := Arrange(f, l.entries);
      ArrangeMembers(f, l.entries);
      SiblingLinesUnder(f, l, all, p, |all|);
    }
  }

  lemma {:induction false} SiblingLinesUnder(f: Filter, dir: Listing, all: seq<Entry>, p: string, k: nat)
    requires dir.Ok? && k <= |all|
    requires forall x :: x in all ==> x in dir.entries
    ensures forall ln :: ln in SiblingLines(f, dir, all, p, k) ==> Under(ln, p)
    decreases dir, k
  {
    if k > 0 {
      SiblingLinesUnder(f, dir, all, p, k - 1);
      assert all[k - 1] in dir.entries;
      EntryLinesUnder(f, all[k - 1], p, k == |all|);
    }
  }

  lemma {:induction false} EntryLinesUnder(f: Filter, e: Entry, p: string, isLast: bool)
    ensures forall ln :: ln in EntryLines(f, e, p, isLast) ==> Under(ln, p)
    decreases e, 0
  {
    assert p[|p|..] == [];
    if e.Dir? {
      var q := ChildPrefix(p, isLast);
      LinesUnder(f, e.listing, q);
      forall ln | ln in Lines(f, e.listing, q) ensures Under(ln, p) {
        UnderChild(ln, p, isLast);
      }
    }
  }

  // ---------------------------------------------------------------------
  // What appears at one directory's own level.
  // ---------------------------------------------------------------------

  /** The names on the entry lines whose prefix is exactly `p`, in order. */
  function LevelNames(lines: seq<Line>, p: string): seq<string>
  {
    if lines == [] then []
    else
      var last := lines[|lines| - 1];
      LevelNames(lines[..|lines| - 1], p)
        + (if last.EntryLine? && last.prefix == p then [last.name] else [])
  }

  function Names(es: seq<Entry>): (r: seq<string>)
    ensures |r| == |es| && forall i :: 0 <= i < |es| ==> r[i] == es[i].name
  {
    seq(|es|, i requires 0 <= i < |es| => es[i].name)
  }

  lemma {:induction false} LevelNamesAppend(a: seq<Line>, b: seq<Line>, p: string)
    ensures LevelNames(a + b, p) == LevelNames(a, p) + LevelNames(b, p)
    decreases |b|
  {
    if b == [] {
      assert a + b == a;
    } else {
      var b', z := b[..|b| - 1], b[|b| - 1];
      assert a + b == (a + b') + [z];
      assert ((a + b') + [z])[..|a + b| - 1] == a + b';
      LevelNamesAppend(a, b', p);
    }
  }

  lemma {:induction false} DeeperLinesNotAtLevel(lines: seq<Line>, p: string)
    requires forall ln :: ln in lines ==> |ln.prefix| > |p|
    ensures LevelNames(lines, p) == []
    decreases |lines|
  {
    if lines != [] {
      DeeperLinesNotAtLevel(lines[..|lines| - 1], p);
    }
  }

  lemma {:induction false} EntryLineAtLevel(lines: seq<Line>, p: string, n: string)
    ensures EntryLine(p, n) in lines <==> n in LevelNames(lines, p)
    decreases |lines|
  {
    if lines != [] {
      var init := lines[..|lines| - 1];
      EntryLineAtLevel(init, p, n);
      assert lines == init + [lines[|lines| - 1]];
    }
  }

  /**
   * At a directory's own level the output names exactly its arranged
   * entries, one line each and in order, whether or not any of them is a
   * directory that could not be listed: a failure below never hides or
   * reorders a sibling.
   */
  lemma LevelIsArrangement(f: Filter, es: seq<Entry>, p: string)
    ensures LevelNames(Lines(f, Ok(es), p), p) == Names(Arrange(f, es))
  {
    var all := Arrange(f, es);
    ArrangeMembers(f, es);
    SiblingLevel(f, Ok(es), all, p, |all|);
    assert all[..|all|] == all;
  }

  lemma {:induction false} SiblingLevel(f: Filter, dir: Listing, all: seq<Entry>, p: string, k: nat)
    requires dir.Ok? && k <= |all|
    requires forall x :: x in all ==> x in dir.entries
    ensures LevelNames(SiblingLines(f, dir, all, p, k), p) == Names(all[..k])
    decreases k
  {
    if k > 0 {
      var e, isLast := all[k - 1], k == |all|;
      var before, block := SiblingLines(f, dir, all, p, k - 1), EntryLines(f, e, p, isLast);
      assert SiblingLines(f, dir, all, p, k) == before + block;
      SiblingLevel(f, dir, all, p, k - 1);
      EntryLevel(f, e, p, isLast);
      LevelNamesAppend(before, block, p);
      NamesSnoc(all, k);
    }
  }

  lemma NamesSnoc(all: seq<Entry>, k: nat)
    requires 0 < k <= |all|
    ensures Names(all[..k]) == Names(all[..k - 1]) + [all[k - 1].name]
  {
  }

  /** An entry's block names only that entry at the entry's own level. */
  lemma EntryLevel(f: Filter, e: Entry, p: string, isLast: bool)
    ensures LevelNames(EntryLines(f, e, p, isLast), p) == [e.name]
  {
    var below := if e.Dir? then Lines(f, e.listing, ChildPrefix(p, isLast)) else [];
    assert EntryLines(f, e, p, isLast) == [EntryLine(p, e.name)] + below;
    LevelNamesAppend([EntryLine(p, e.name)], below, p);
    assert LevelNames([EntryLine(p, e.name)], p) == [e.name] by {
      assert [EntryLine(p, e.name)][..0] == [];
    }
    if e.Dir? {
      var q := ChildPrefix(p, isLast);
      LinesUnder(f, e.listing, q);
      forall ln | ln in below ensures |ln.prefix| > |p| {
        UnderChild(ln, p, isLast);
      }
    }
    DeeperLinesNotAtLevel(below, p);
  }

  /**
   * An entry of a directory is shown at that directory's level exactly when
   * the filter keeps its name.
   */
  lemma ShownIffKept(f: Filter, es: seq<Entry>, p: string, n: string)
    ensures EntryLine(p, n) in Lines(f, Ok(es), p)
        <==> exists e :: e in es && e.name == n && Keep(f, n)
  {
    var all := Arrange(f, es);
    EntryLineAtLevel(Lines(f, Ok(es), p), p, n);
    LevelIsArrangement(f, es, p);
    NameInNames(all, n);
    ArrangeMembers(f, es);
    if exists e :: e in es && e.name == n && Keep(f, n) {
      var e :| e in es && e.name == n && Keep(f, n);
      assert e in all;
    }
  }

  lemma NameInNames(es: seq<Entry>, n: string)
    ensures n in Names(es) <==> exists e :: e in es && e.name == n
  {
    if n in Names(es) {
      var i :| 0 <= i < |es| && Names(es)[i] == n;
      assert es[i] in es;
    }
    if exists e :: e in es && e.name == n {
      var e :| e in es && e.name == n;
      var i :| 0 <= i < |es| && es[i] == e;
      assert Names(es)[i] == n;
    }
  }

  // ---------------------------------------------------------------------
  // Filtering reaches every level.
  // ---------------------------------------------------------------------

  /** Every entry line of `lines` names something the filter keeps. */
  predicate AllKept(f: Filter, lines: seq<Line>)
    decreases |lines|
  {
    lines == [] ||
      (var last := lines[|lines| - 1];
       AllKept(f, lines[..|lines| - 1]) && (last.EntryLine? ==> Keep(f, last.name)))
  }

  lemma {:induction false} AllKeptAppend(f: Filter, a: seq<Line>, b: seq<Line>)
    requires AllKept(f, a) && AllKept(f, b)
    ensures AllKept(f, a + b)
    decreases |b|
  {
    if b == [] {
      assert a + b == a;
    } else {
      AllKeptAppend(f, a, b[..|b| - 1]);
      assert (a + b)[..|a + b| - 1] == a + b[..|b| - 1];
    }
  }

  lemma {:induction false} AllKeptMeans(f: Filter, lines: seq<Line>)
    ensures AllKept(f, lines) <==> forall ln :: ln in lines && ln.EntryLine? ==> Keep(f, ln.name)
    decreases |lines|
  {
    if lines != [] {
      var init := lines[..|lines| - 1];
      AllKeptMeans(f, init);
      assert lines == init + [lines[|lines| - 1]];
    }
  }

  /** No entry line anywhere in the output names something the filter drops. */
  lemma OnlyKeptNames(f: Filter, l: Listing, p: string)
    ensures forall ln :: ln in Lines(f, l, p) && ln.EntryLine? ==> Keep(f, ln.name)
  {
    LinesAllKept(f, l, p);
    AllKeptMeans(f, Lines(f, l, p));
  }

  lemma {:induction false} LinesAllKept(f: Filter, l: Listing, p: string)
    ensures AllKept(f, Lines(f, l, p))
    decreases l, if l.Ok? then |Arrange(f, l.entries)| + 1 else 0
  {
    if l.Ok? {
      var all := Arrange(f, l.entries);
      ArrangeMembers(f, l.entries);
      SiblingAllKept(f, l, all, p, |all|);
    } else {
      assert |Lines(f, l, p)| == 1;
    }
  }

  lemma {:induction false} SiblingAllKept(f: Filter, dir: Listing, all: seq<Entry>, p: string, k: nat)
    requires dir.Ok? && k <= |all|
    requires forall x :: x in all ==> x in dir.entries && Keep(f, x.name)
    ensures AllKept(f, SiblingLines(f, dir, all, p, k))
    decreases dir, k
  {
    if k > 0 {
      var e, isLast := all[k - 1], k == |all|;
      assert e in all;
      SiblingAllKept(f, dir, all, p, k - 1);
      EntryAllKept(f, e, p, isLast);
      AllKeptAppend(f, SiblingLines(f, dir, all, p, k - 1), EntryLines(f, e, p, isLast));
    }
  }

  lemma {:induction false} EntryAllKept(f: Filter, e: Entry, p: string, isLast: bool)
    requires Keep(f, e.name)
    ensures AllKept(f, EntryLines(f, e, p, isLast))
    decreases e, 0
  {
    var head := [EntryLine(p, e.name)];
    assert AllKept(f, head) by { assert head[..0] == []; }
    if e.Dir? {
      var below := Lines(f, e.listing, ChildPrefix(p, isLast));
      LinesAllKept(f, e.listing, ChildPrefix(p, isLast));
      AllKeptAppend(f, head, below);
    } else {
      assert EntryLines(f, e, p, isLast) == head;
    }
  }

  /** The filters agree on every name anywhere in the snapshot. */
  predicate AgreeOn(f1: Filter, f2: Filter, l: Listing)
    decreases l
  {
    l.Ok? ==>
      forall e :: e in l.entries ==>
        && Keep(f1, e.name) == Keep(f2, e.name)
        && (e.Dir? ==> AgreeOn(f1, f2, e.listing))
  }

  /** Filters that agree on every name of a snapshot render it identically. */
  lemma {:induction false} AgreeingFiltersRenderAlike(f1: Filter, f2: Filter, l: Listing, p: string)
    requires AgreeOn(f1, f2, l)
    ensures Lines(f1, l, p) == Lines(f2, l, p)
    decreases l, if l.Ok? then |Arrange(f1, l.entries)| + 1 else 0
  {
    if l.Ok? {
      ArrangeAgree(f1, f2, l.entries);
      var all := Arrange(f1, l.entries);
      ArrangeMembers(f1, l.entries);
      SiblingAlike(f1, f2, l, all, p, |all|);
    }
  }

  lemma {:induction false} SiblingAlike(f1: Filter, f2: Filter, dir: Listing, all: seq<Entry>, p: string, k: nat)
    requires dir.Ok? && k <= |all|
    requires forall x :: x in all ==> x in dir.entries && (x.Dir? ==> AgreeOn(f1, f2, x.listing))
    ensures SiblingLines(f1, dir, all, p, k) == SiblingLines(f2, dir, all, p, k)
    decreases dir, k
  {
    if k > 0 {
      var e, isLast := all[k - 1], k == |all|;
      assert e in all;
      SiblingAlike(f1, f2, dir, all, p, k - 1);
      EntryAlike(f1, f2, e, p, isLast);
    }
  }

  lemma {:induction false} EntryAlike(f1: Filter, f2: Filter, e: Entry, p: string, isLast: bool)
    requires e.Dir? ==> AgreeOn(f1, f2, e.listing)
    ensures EntryLines(f1, e, p, isLast) == EntryLines(f2, e, p, isLast)
    decreases e, 0
  {
    if e.Dir? {
      AgreeingFiltersRenderAlike(f1, f2, e.listing, ChildPrefix(p, isLast));
    }
  }

  // ---------------------------------------------------------------------
  // Independence from the order of a listing.
  // ---------------------------------------------------------------------

  lemma {:induction false} SiblingLinesAnyParent(f: Filter, d1: Listing, d2: Listing, all: seq<Entry>, p: string, k: nat)
    requires d1.Ok? && d2.Ok? && k <= |all|
    requires forall x :: x in all ==> x in d1.entries && x in d2.entries
    ensures SiblingLines(f, d1, all, p, k) == SiblingLines(f, d2, all, p, k)
    decreases k
  {
    if k > 0 {
      SiblingLinesAnyParent(f, d1, d2, all, p, k - 1);
    }
  }

  /**
   * A directory renders the same whatever order its listing came in, and
   * an entry the filter drops contributes nothing, not even its subtree.
   */
  lemma SameKeptSameLines(f: Filter, es1: seq<Entry>, es2: seq<Entry>, p: string)
    requires DistinctNames(es1) && DistinctNames(es2)
    requires forall x: Entry :: Keep(f, x.name) ==> multiset(es1)[x] == multiset(es2)[x]
    ensures Lines(f, Ok(es1), p) == Lines(f, Ok(es2), p)
  {
    ArrangeCanonical(f, es1, es2);
    var all := Arrange(f, es1);
    ArrangeMembers(f, es1);
    forall x | x in all ensures x in es2 {
      assert multiset(es1)[x] > 0;
    }
    SiblingLinesAnyParent(f, Ok(es1), Ok(es2), all, p, |all|);
  }

  /** Permuting a directory's listing does not change its rendering. */
  lemma ListingOrderIrrelevant(f: Filter, es1: seq<Entry>, es2: seq<Entry>, p: string)
    requires DistinctNames(es1) && DistinctNames(es2)
    requires multiset(es1) == multiset(es2)
    ensures Lines(f, Ok(es1), p) == Lines(f, Ok(es2), p)
  {
    SameKeptSameLines(f, es1, es2, p);
  }

  /** An entry the filter drops vanishes together with everything below it. */
  lemma DroppedEntryVanishes(f: Filter, xs: seq<Entry>, e: Entry, ys: seq<Entry>, p: string)
    requires DistinctNames(xs + [e] + ys)
    requires !Keep(f, e.name)
    ensures Lines(f, Ok(xs + [e] + ys), p) == Lines(f, Ok(xs + ys), p)
  {
    var es1, es2 := xs + [e] + ys, xs + ys;
    assert DistinctNames(es2) by {
      forall i, j | 0 <= i < j < |es2| ensures es2[i].name != es2[j].name {
        var i' := if i < |xs| then i else i + 1;
        var j' := if j < |xs| then j else j + 1;
        assert es2[i] == es1[i'] && es2[j] == es1[j'];
      }
    }
    assert multiset(es1) == multiset(es2) + multiset{e};
    SameKeptSameLines(f, es1, es2, p);
  }

  // ---------------------------------------------------------------------
  // Failures stay where they happen.
  // ---------------------------------------------------------------------

  /**
   * A directory whose listing fails gets its own line followed by exactly
   * one marker line, one indentation unit deeper.
   */
  lemma FailedDirectoryBlock(f: Filter, e: Entry, p: string, isLast: bool)
    requires e.Dir? && !e.listing.Ok?
    ensures var q := ChildPrefix(p, isLast);
      EntryLines(f, e, p, isLast)
        == [EntryLine(p, e.name), if e.listing.Denied? then DeniedLine(q) else ErrorLine(q, e.listing.msg)]
    ensures Text(EntryLines(f, e, p, isLast))
        == p + "+---" + e.name + "\n"
           + (if e.listing.Denied? then ChildPrefix(p, isLast) + "[權限不足]\n"
              else ChildPrefix(p, isLast) + "錯誤: " + e.listing.msg + "\n")
  {
    var q := ChildPrefix(p, isLast);
    var first := EntryLine(p, e.name);
    var second := if e.listing.Denied? then DeniedLine(q) else ErrorLine(q, e.listing.msg);
    var ls := [first, second];
    assert ls[1..] == [second];
    TextSingle(second);
  }
}
