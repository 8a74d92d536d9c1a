/**
 * The older tree command (Main.py): the same renderer without an ignore
 * set, which leaves out every name that starts with a dot. Its command
 * object holds no state of its own, so the renderer is written as
 * methods of this module.
 */
module MainTree {
  import opened Str
  import opened Snapshot
  import opened Filters
  import opened Order
  import opened TreeFormat

  /**
   * The first half of `_build_tree_recursive` for a listing that
   * succeeded: sort by name, keep the names that do not start with a dot,
   * then the directories followed by the files.
   */
  method ArrangeEntries(es: seq<Entry>) returns (all: seq<Entry>)
    ensures all == Arrange(HideDotFiles, es)
  {
    var entries := Select(Kept(HideDotFiles), SortByName(es));
    all := SplitDirsFirst(entries);
  }

  /**
   * `_build_tree_recursive` on a directory whose listing was `l`: one line
   * per arranged entry and, below a directory, its own rendering; a
   * listing that failed gives its one marker line instead.
   */
  method BuildTreeRecursive(l: Listing, prefix: string) returns (out: string)
    ensures out == Text(Lines(HideDotFiles, l, prefix))
    decreases l
  {
    var f := HideDotFiles;
    match l
    case Denied =>
      out := prefix + DeniedMarker + "\n";
      TextSingle(DeniedLine(prefix));
    case Failed(msg) =>
      out := prefix + ErrorLabel + msg + "\n";
      TextSingle(ErrorLine(prefix, msg));
    case Ok(es) =>
      var all := ArrangeEntries(es);
      ArrangedFrom(f, es);
      out := "";
      for i := 0 to |all|
        invariant out == Text(SiblingLines(f, l, all, prefix, i))
      {
        var e := all[i];
        var isLast := i == |all| - 1;
        var newPrefix := if isLast then prefix + LastIndent else prefix + MidIndent;
        assert newPrefix == ChildPrefix(prefix, isLast);
        ghost var before := out;
        var line := prefix + Connector + e.name + "\n";
        out := out + line;
        if e.Dir? {
          assert e in es;
          var below := BuildTreeRecursive(e.listing, newPrefix);
          EmitStep(f, l, all, prefix, i, before, below);
          out := out + below;
        } else {
          EmitStep(f, l, all, prefix, i, before, "");
          assert out + "" == out;
        }
      }
  }

  /**
   * `custom_tree`: at the root, the base name of the path on a line of its
   * own and then the rendering with the empty prefix; elsewhere the
   * rendering at `prefix`.
   */
  method CustomTree(rootPath: string, root: Listing, prefix: string, isRoot: bool) returns (out: string)
    ensures isRoot ==> out == Basename(rootPath) + "\n" + Text(Lines(HideDotFiles, root, ""))
    ensures !isRoot ==> out == Text(Lines(HideDotFiles, root, prefix))
  {
    if isRoot {
      var body := BuildTreeRecursive(root, "");
      out := Basename(rootPath) + "\n" + body;
    } else {
      out := BuildTreeRecursive(root, prefix);
    }
  }

  // ---------------------------------------------------------------------
  // Against the ignore-aware renderer.
  // ---------------------------------------------------------------------

  /** Every dot-name anywhere in the snapshot is one of the junk names. */
  predicate OnlyJunkDotNames(l: Listing)
    decreases l
  {
    l.Ok? ==>
      forall e :: e in l.entries ==>
        && (StartsWith(e.name, ".") ==> IsSystemJunk(e.name))
        && (e.Dir? ==> OnlyJunkDotNames(e.listing))
  }

  lemma {:induction false} DotFilterAgreesWithEmptyIgnoreSet(l: Listing)
    requires OnlyJunkDotNames(l)
    ensures AgreeOn(HideDotFiles, IgnoreAware({}), l)
    decreases l
  {
    if l.Ok? {
      forall e | e in l.entries
        ensures Keep(HideDotFiles, e.name) == Keep(IgnoreAware({}), e.name)
        ensures e.Dir? ==> AgreeOn(HideDotFiles, IgnoreAware({}), e.listing)
      {
        NewerKeepsMore(e.name);
        if e.Dir? {
          DotFilterAgreesWithEmptyIgnoreSet(e.listing);
        }
      }
    }
  }

  /**
   * On a snapshot whose only dot-names are junk names, the older renderer
   * and the ignore-aware one with an empty ignore set print the same text.
   */
  lemma SameTextAsNewerRenderer(l: Listing, p: string)
    requires OnlyJunkDotNames(l)
    ensures Text(Lines(HideDotFiles, l, p)) == Text(Lines(IgnoreAware({}), l, p))
  {
    DotFilterAgreesWithEmptyIgnoreSet(l);
    AgreeingFiltersRenderAlike(HideDotFiles, IgnoreAware({}), l, p);
  }

  /** A snapshot with a plain dot-file is where the two renderers part. */
  lemma RenderersDifferOnDotFiles()
    ensures var l := Ok([File(".gitignore")]);
      && Text(Lines(HideDotFiles, l, "")) == ""
      && Text(Lines(IgnoreAware({}), l, "")) == Connector + ".gitignore" + "\n"
  {
    var e := File(".gitignore");
    NewerKeepsMore(e.name);
    SingleFileLines(HideDotFiles, e, "");
    SingleFileLines(IgnoreAware({}), e, "");
    TextSingle(EntryLine("", e.name));
    assert "" + Connector == Connector;
  }
}
