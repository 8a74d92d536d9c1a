/**
 * Changes deep in the walked tree. `_build_tree_recursive` renders a
 * directory's entries and recurses into each kept subdirectory, so what a
 * subdirectory contributes depends only on how that subdirectory renders.
 * Replacing the listing of one directory, at any depth, by a listing that
 * renders alike leaves the whole output unchanged. In particular, the order
 * `os.listdir` returns names in, and entries the filter drops together with
 * their subtrees, make no difference anywhere in the tree.
 */
module Subtree {
  import opened Str
  import opened Snapshot
  import opened Filters
  import opened Order
  import opened TreeFormat

  /** Two listings that print the same lines below any prefix. */
  ghost predicate RenderAlike(f: Filter, l1: Listing, l2: Listing)
  {
    forall q :: Lines(f, l1, q) == Lines(f, l2, q)
  }

  /** Same name and kind, and for directories listings that render alike. */
  ghost predicate EntryAlike(f: Filter, e1: Entry, e2: Entry)
  {
    && e1.name == e2.name
    && e1.Dir? == e2.Dir?
    && (e1.Dir? ==> RenderAlike(f, e1.listing, e2.listing))
  }

  /** Two entry lists that are alike position by position. */
  ghost predicate AllAlike(f: Filter, s1: seq<Entry>, s2: seq<Entry>)
  {
    |s1| == |s2| && forall i :: 0 <= i < |s1| ==> EntryAlike(f, s1[i], s2[i])
  }

  lemma AppendAlike(f: Filter, a1: seq<Entry>, a2: seq<Entry>, b1: seq<Entry>, b2: seq<Entry>)
    requires AllAlike(f, a1, a2) && AllAlike(f, b1, b2)
    ensures AllAlike(f, a1 + b1, a2 + b2)
  {
    forall i | 0 <= i < |a1 + b1| ensures EntryAlike(f, (a1 + b1)[i], (a2 + b2)[i]) {
      if i >= |a1| {
        assert (a1 + b1)[i] == b1[i - |a1|] && (a2 + b2)[i] == b2[i - |a2|];
      }
    }
  }

  lemma SliceAlike(f: Filter, s1: seq<Entry>, s2: seq<Entry>, lo: nat, hi: nat)
    requires AllAlike(f, s1, s2) && lo <= hi <= |s1|
    ensures AllAlike(f, s1[lo..hi], s2[lo..hi])
  {
    var t1, t2 := s1[lo..hi], s2[lo..hi];
    forall i | 0 <= i < |t1| ensures EntryAlike(f, t1[i], t2[i]) {
      assert t1[i] == s1[lo + i] && t2[i] == s2[lo + i];
    }
  }

  /** Inserting alike entries into alike sorted lists puts them at the same place. */
  lemma {:induction false} InsertAlike(f: Filter, x1: Entry, s1: seq<Entry>, x2: Entry, s2: seq<Entry>)
    requires EntryAlike(f, x1, x2) && AllAlike(f, s1, s2)
    ensures AllAlike(f, InsertByName(x1, s1), InsertByName(x2, s2))
    decreases |s1|
  {
    if s1 == [] || !Below(s1[0].name, x1.name) {
      AppendAlike(f, [x1], [x2], s1, s2);
    } else {
      assert s1[0].name == s2[0].name;
      SliceAlike(f, s1, s2, 1, |s1|);
      InsertAlike(f, x1, s1[1..], x2, s2[1..]);
      AppendAlike(f, [s1[0]], [s2[0]], InsertByName(x1, s1[1..]), InsertByName(x2, s2[1..]));
    }
  }

  /** Sorting by name moves alike lists the same way. */
  lemma {:induction false} SortAlike(f: Filter, s1: seq<Entry>, s2: seq<Entry>)
    requires AllAlike(f, s1, s2)
    ensures AllAlike(f, SortByName(s1), SortByName(s2))
    decreases |s1|
  {
    if s1 != [] {
      SliceAlike(f, s1, s2, 1, |s1|);
      SortAlike(f, s1[1..], s2[1..]);
      InsertAlike(f, s1[0], SortByName(s1[1..]), s2[0], SortByName(s2[1..]));
    }
  }

  /** Every criterion looks only at names and kinds, so it keeps the same positions of alike lists. */
  lemma {:induction false} SelectAlike(f: Filter, c: Criterion, s1: seq<Entry>, s2: seq<Entry>)
    requires AllAlike(f, s1, s2)
    ensures AllAlike(f, Select(c, s1), Select(c, s2))
    decreases |s1|
  {
    if s1 != [] {
      var n := |s1|;
      var init1, init2, last1, last2 := s1[..n - 1], s2[..n - 1], s1[n - 1], s2[n - 1];
      SliceAlike(f, s1, s2, 0, n - 1);
      SelectAlike(f, c, init1, init2);
      assert EntryAlike(f, last1, last2);
      assert Holds(c, last1) == Holds(c, last2);
      var tail1, tail2 := if Holds(c, last1) then [last1] else [], if Holds(c, last2) then [last2] else [];
      assert Select(c, s1) == Select(c, init1) + tail1;
      assert Select(c, s2) == Select(c, init2) + tail2;
      AppendAlike(f, Select(c, init1), Select(c, init2), tail1, tail2);
    }
  }

  /** Alike listings arrange to alike lists. */
  lemma ArrangeAlike(f: Filter, s1: seq<Entry>, s2: seq<Entry>)
    requires AllAlike(f, s1, s2)
    ensures AllAlike(f, Arrange(f, s1), Arrange(f, s2))
  {
    SortAlike(f, s1, s2);
    var k1, k2 := Select(Kept(f), SortByName(s1)), Select(Kept(f), SortByName(s2));
    SelectAlike(f, Kept(f), SortByName(s1), SortByName(s2));
    SelectAlike(f, IsDir, k1, k2);
    SelectAlike(f, IsFile, k1, k2);
    AppendAlike(f, Select(IsDir, k1), Select(IsDir, k2), Select(IsFile, k1), Select(IsFile, k2));
  }

  /** Alike entries render to the same block. */
  lemma EntryLinesAlike(f: Filter, e1: Entry, e2: Entry, p: string, isLast: bool)
    requires EntryAlike(f, e1, e2)
    ensures EntryLines(f, e1, p, isLast) == EntryLines(f, e2, p, isLast)
  {
    if e1.Dir? {
      var q := ChildPrefix(p, isLast);
      assert Lines(f, e1.listing, q) == Lines(f, e2.listing, q);
    }
  }

  lemma {:induction false} SiblingLinesAlike(f: Filter, d1: Listing, all1: seq<Entry>, d2: Listing, all2: seq<Entry>, p: string, k: nat)
    requires d1.Ok? && d2.Ok? && k <= |all1|
    requires forall x :: x in all1 ==> x in d1.entries
    requires forall x :: x in all2 ==> x in d2.entries
    requires AllAlike(f, all1, all2)
    ensures SiblingLines(f, d1, all1, p, k) == SiblingLines(f, d2, all2, p, k)
  {
    if k > 0 {
      SiblingLinesAlike(f, d1, all1, d2, all2, p, k - 1);
      EntryLinesAlike(f, all1[k - 1], all2[k - 1], p, k == |all1|);
    }
  }

  /**
   * Congruence: a directory whose entries are alike position by position
   * renders the same as the other, below any prefix.
   */
  lemma LinesAlike(f: Filter, es1: seq<Entry>, es2: seq<Entry>)
    requires AllAlike(f, es1, es2)
    ensures RenderAlike(f, Ok(es1), Ok(es2))
  {
    var all1, all2 := Arrange(f, es1), Arrange(f, es2);
    ArrangeAlike(f, es1, es2);
    ArrangeMembers(f, es1);
    ArrangeMembers(f, es2);
    forall q ensures Lines(f, Ok(es1), q) == Lines(f, Ok(es2), q) {
      SiblingLinesAlike(f, Ok(es1), all1, Ok(es2), all2, q, |all1|);
    }
  }

  // ---------------------------------------------------------------------
  // One directory replaced, at any depth.
  // ---------------------------------------------------------------------

  /**
   * The snapshot `l` with the listing of the directory reached through the
   * names in `path` replaced by `n`. A path that leads nowhere changes
   * nothing.
   */
  function ReplaceAt(l: Listing, path: seq<string>, n: Listing): Listing
    decreases |path|, 2, 0
  {
    if path == [] then n
    else match l
      case Ok(es) => Ok(ReplaceInAll(es, path, n))
      case _ => l
  }

  function ReplaceInAll(es: seq<Entry>, path: seq<string>, n: Listing): (r: seq<Entry>)
    requires path != []
    ensures |r| == |es|
    decreases |path|, 1, |es|
  {
    if es == [] then []
    else [ReplaceIn(es[0], path, n)] + ReplaceInAll(es[1..], path, n)
  }

  function ReplaceIn(e: Entry, path: seq<string>, n: Listing): Entry
    requires path != []
    decreases |path|, 0, 0
  {
    if e.Dir? && e.name == path[0] then Dir(e.name, ReplaceAt(e.listing, path[1..], n)) else e
  }

  /**
   * Replacing one directory's listing, anywhere in the tree, by a listing
   * that renders alike leaves the whole rendering unchanged.
   */
  lemma {:induction false} ReplaceAlike(f: Filter, l: Listing, path: seq<string>, n1: Listing, n2: Listing)
    requires RenderAlike(f, n1, n2)
    ensures RenderAlike(f, ReplaceAt(l, path, n1), ReplaceAt(l, path, n2))
    decreases |path|, 1, 0
  {
    if path != [] && l.Ok? {
      ReplaceInAllAlike(f, l.entries, path, n1, n2);
      LinesAlike(f, ReplaceInAll(l.entries, path, n1), ReplaceInAll(l.entries, path, n2));
    }
  }

  lemma {:induction false} ReplaceInAllAlike(f: Filter, es: seq<Entry>, path: seq<string>, n1: Listing, n2: Listing)
    requires path != [] && RenderAlike(f, n1, n2)
    ensures AllAlike(f, ReplaceInAll(es, path, n1), ReplaceInAll(es, path, n2))
    decreases |path|, 0, |es|
  {
    if es != [] {
      var e := es[0];
      if e.Dir? && e.name == path[0] {
        ReplaceAlike(f, e.listing, path[1..], n1, n2);
      }
      assert EntryAlike(f, ReplaceIn(e, path, n1), ReplaceIn(e, path, n2));
      ReplaceInAllAlike(f, es[1..], path, n1, n2);
      AppendAlike(f, [ReplaceIn(e, path, n1)], [ReplaceIn(e, path, n2)],
                  ReplaceInAll(es[1..], path, n1), ReplaceInAll(es[1..], path, n2));
    }
  }

  /**
   * Permuting the listing of any directory in the tree, however deep, does
   * not change the output.
   */
  lemma NestedOrderIrrelevant(f: Filter, l: Listing, path: seq<string>, es1: seq<Entry>, es2: seq<Entry>, p: string)
    requires DistinctNames(es1) && DistinctNames(es2)
    requires multiset(es1) == multiset(es2)
    ensures Lines(f, ReplaceAt(l, path, Ok(es1)), p) == Lines(f, ReplaceAt(l, path, Ok(es2)), p)
  {
    forall q ensures Lines(f, Ok(es1), q) == Lines(f, Ok(es2), q) {
      ListingOrderIrrelevant(f, es1, es2, q);
    }
    ReplaceAlike(f, l, path, Ok(es1), Ok(es2));
  }

  /**
   * An entry the filter drops, in any directory of the tree, vanishes from
   * the output together with everything below it.
   */
  lemma NestedDroppedVanishes(f: Filter, l: Listing, path: seq<string>, xs: seq<Entry>, e: Entry, ys: seq<Entry>, p: string)
    requires DistinctNames(xs + [e] + ys)
    requires !Keep(f, e.name)
    ensures Lines(f, ReplaceAt(l, path, Ok(xs + [e] + ys)), p) == Lines(f, ReplaceAt(l, path, Ok(xs + ys)), p)
  {
    forall q ensures Lines(f, Ok(xs + [e] + ys), q) == Lines(f, Ok(xs + ys), q) {
      DroppedEntryVanishes(f, xs, e, ys, q);
    }
    ReplaceAlike(f, l, path, Ok(xs + [e] + ys), Ok(xs + ys));
  }
}
