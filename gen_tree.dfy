/**
 * The ignore-aware tree command (GenTree.py): the choice of an ignore set
 * from the quick panel, the parse of a custom comma list, and the
 * recursive renderer `_build_tree_recursive` with its entry point
 * `custom_tree`.
 */
module GenTree {
  import opened Str
  import opened Snapshot
  import opened Filters
  import opened Order
  import opened TreeFormat
  import opened IgnoreConfig

  // ---------------------------------------------------------------------
  // The custom ignore text.
  // ---------------------------------------------------------------------

  /** The stripped pieces that are not empty, in order. */
  function StrippedNonEmpty(pieces: seq<string>): (r: seq<string>)
    ensures |r| <= |pieces|
  {
    if pieces == [] then []
    else
      var init, last := pieces[..|pieces| - 1], pieces[|pieces| - 1];
      StrippedNonEmpty(init) + (if Strip(last) != "" then [Strip(last)] else [])
  }

  lemma {:induction false} StrippedNonEmptyNames(pieces: seq<string>)
    ensures forall x :: x in StrippedNonEmpty(pieces) ==> x != "" && Strip(x) == x
  {
    if pieces != [] {
      var init, last := pieces[..|pieces| - 1], pieces[|pieces| - 1];
      StrippedNonEmptyNames(init);
      StripIdempotent(last);
    }
  }

  /** The folder list read from the custom text: split on commas, strip, drop the empty pieces. */
  function CustomFolders(text: string): seq<string>
  {
    StrippedNonEmpty(SplitCommas(text))
  }

  /** Every name read from the custom text is non-empty, stripped and free of commas. */
  lemma CustomFoldersNames(text: string)
    ensures forall x :: x in CustomFolders(text) ==> x != "" && Strip(x) == x && ',' !in x
  {
    var pieces := SplitCommas(text);
    StrippedNonEmptyNames(pieces);
    forall x | x in StrippedNonEmpty(pieces) ensures ',' !in x {
      CommaFreeSurvives(pieces, x);
    }
  }

  lemma {:induction false} CommaFreeSurvives(pieces: seq<string>, x: string)
    requires forall k :: 0 <= k < |pieces| ==> ',' !in pieces[k]
    requires x in StrippedNonEmpty(pieces)
    ensures ',' !in x
  {
    var init, last := pieces[..|pieces| - 1], pieces[|pieces| - 1];
    if x in StrippedNonEmpty(init) {
      CommaFreeSurvives(init, x);
    } else {
      StripNoComma(last);
    }
  }

  /** Pieces that each strip to the matching non-empty name give exactly those names. */
  lemma {:induction false} StrippedExactly(pieces: seq<string>, xs: seq<string>)
    requires |pieces| == |xs|
    requires forall k :: 0 <= k < |xs| ==> xs[k] != "" && Strip(pieces[k]) == xs[k]
    ensures StrippedNonEmpty(pieces) == xs
  {
    if pieces != [] {
      var n := |pieces|;
      var init, names := pieces[..n - 1], xs[..n - 1];
      forall k | 0 <= k < |names| ensures names[k] != "" && Strip(init[k]) == names[k] {
        assert init[k] == pieces[k] && names[k] == xs[k];
      }
      StrippedExactly(init, names);
      StrippedLast(pieces);
      FrontLast(xs);
    }
  }

  /** The last piece, when it does not strip to nothing, is the last name. */
  lemma StrippedLast(pieces: seq<string>)
    requires pieces != [] && Strip(pieces[|pieces| - 1]) != ""
    ensures StrippedNonEmpty(pieces)
         == StrippedNonEmpty(pieces[..|pieces| - 1]) + [Strip(pieces[|pieces| - 1])]
  {
  }

  /**
   * Reading back a list written as `", ".join(xs)` gives `xs` itself, as
   * long as no name holds a comma or starts or ends with a blank.
   */
  lemma CustomFoldersRoundTrip(xs: seq<string>)
    requires forall x :: x in xs ==> Clean(x)
    ensures CustomFolders(Join(xs, ", ")) == xs
  {
    if xs == [] {
      NothingFromEmptyText();
    } else {
      JoinedPiecesStrip(xs);
      StrippedExactly(SplitCommas(Join(xs, ", ")), xs);
    }
  }

  /** Each piece of a joined list of clean names strips to its name. */
  lemma JoinedPiecesStrip(xs: seq<string>)
    requires xs != [] && forall x :: x in xs ==> Clean(x)
    ensures |SplitCommas(Join(xs, ", "))| == |xs|
    ensures forall k :: 0 <= k < |xs| ==> xs[k] != "" && Strip(SplitCommas(Join(xs, ", "))[k]) == xs[k]
  {
    forall k | 0 <= k < |xs| ensures ',' !in xs[k] {
      assert xs[k] in xs;
    }
    SplitJoin(xs);
    SpacedPiecesStrip(xs, SplitCommas(Join(xs, ", ")));
  }

  /** The first name, then each later name behind one blank: each piece strips to its name. */
  lemma SpacedPiecesStrip(xs: seq<string>, pieces: seq<string>)
    requires xs != [] && forall x :: x in xs ==> Clean(x)
    requires pieces == [xs[0]] + seq(|xs| - 1, k requires 0 <= k < |xs| - 1 => " " + xs[k + 1])
    ensures |pieces| == |xs|
    ensures forall k :: 0 <= k < |xs| ==> xs[k] != "" && Strip(pieces[k]) == xs[k]
  {
    forall k | 0 <= k < |xs| ensures xs[k] != "" && Strip(pieces[k]) == xs[k] {
      assert xs[k] in xs;
      if k == 0 {
        StripOfTrimmed(xs[0]);
      } else {
        assert pieces[k] == " " + xs[k];
        StripSpaceThen(xs[k]);
      }
    }
  }

  /**
   * The text offered for editing, a set's names in order joined by
   * `", "`, reads back as exactly that set when its names are clean, as
   * the default table's are.
   */
  lemma PrefillReadsBack(d: set<string>, xs: seq<string>)
    requires AllClean(d)
    requires forall x :: x in xs <==> x in d
    ensures forall x :: x in CustomFolders(Join(xs, ", ")) <==> x in d
  {
    CustomFoldersRoundTrip(xs);
  }

  /** `text` is the names of the set in ascending order, joined by `", "`. */
  ghost predicate IsSortedListing(text: string, names: set<string>)
  {
    exists xs :: Ascending(xs) && (forall x :: x in xs <==> x in names) && text == Join(xs, ", ")
  }

  /** Parsing `text` as a custom list gives exactly the names of the set. */
  ghost predicate ReadsBackAs(text: string, names: set<string>)
  {
    forall x :: x in CustomFolders(text) <==> x in names
  }

  /**
   * `", ".join(sorted(names))`: the names in ascending order, joined by
   * `", "`, which reads back as exactly the set when its names are clean.
   */
  method PrefillText(names: set<string>) returns (text: string)
    requires AllClean(names)
    ensures IsSortedListing(text, names)
    ensures ReadsBackAs(text, names)
  {
    var xs := SortedNames(names);
    PrefillReadsBack(names, xs);
    text := Join(xs, ", ");
  }

  /** An empty text is one empty piece, so it names no folder. */
  lemma NothingFromEmptyText()
    ensures CustomFolders("") == []
  {
    EmptyTextOnePiece();
    StrippedBlankPiece(SplitCommas(""));
  }

  lemma EmptyTextOnePiece()
    ensures SplitCommas("") == [""]
  {
  }

  lemma StrippedBlankPiece(pieces: seq<string>)
    requires |pieces| == 1 && pieces[0] == ""
    ensures StrippedNonEmpty(pieces) == []
  {
    assert Strip(pieces[0]) == "";
    assert pieces[..0] == [];
  }

  /** The parsed names are already stripped and non-empty, so adding them adds them as they are. */
  lemma AddedStrippedNames(xs: seq<string>)
    requires forall x :: x in xs ==> x != "" && Strip(x) == x
    ensures Added(xs) == NameSet(xs)
  {
    forall y ensures y in Added(xs) <==> y in xs {
      AddedMembers(xs, y);
      if y in xs {
        var i :| 0 <= i < |xs| && xs[i] == y;
      }
    }
  }

  /** Adding the names read from the custom text adds exactly those names. */
  lemma CustomNamesAdded(text: string)
    ensures Added(CustomFolders(text)) == NameSet(CustomFolders(text))
  {
    CustomFoldersNames(text);
    AddedStrippedNames(CustomFolders(text));
  }

  /**
   * The set `on_custom_ignore_done` builds: a new empty set that, when the
   * text is not empty, takes the names of the comma list.
   */
  method CustomIgnoreSet(text: string) returns (s: IgnoreSet)
    ensures fresh(s)
    ensures s.items == NameSet(CustomFolders(text))
  {
    s := new IgnoreSet({});
    if text != "" {
      var folders := CustomFolders(text);
      CustomNamesAdded(text);
      s := AddCustomIgnore(s, Many(folders));
      assert s.items == {} + Added(folders);
    } else {
      NothingFromEmptyText();
    }
  }

  // ---------------------------------------------------------------------
  // A worked example.
  // ---------------------------------------------------------------------

  /**
   * `proj/` holding `src/` (with `a.txt`), `node_modules/` (with `x.js`)
   * and `README.md`, rendered at the root with `{"node_modules"}` ignored:
   * the ignored directory and its file vanish, the directory comes before
   * the file, and the last sibling's children get the blank unit.
   */
  lemma ProjectExample(ignore: set<string>)
    requires ignore == {"node_modules"}
    ensures var src := Dir("src", Ok([File("a.txt")]));
      var modules := Dir("node_modules", Ok([File("x.js")]));
      var readme := File("README.md");
      Basename("work/proj") + "\n" + Text(Lines(IgnoreAware(ignore), Ok([src, modules, readme]), ""))
      == "proj\n" + "+---src\n" + "|   +---a.txt\n" + "+---README.md\n"
  {
    var f := IgnoreAware(ignore);
    var src := Dir("src", Ok([File("a.txt")]));
    var modules := Dir("node_modules", Ok([File("x.js")]));
    var readme := File("README.md");
    var srcBlock, readmeBlock := EntryLines(f, src, "", false), EntryLines(f, readme, "", true);
    KeptNames();
    TwoShownOneHidden(f, src, modules, readme, "");
    ExampleSrcText(f);
    ExampleReadmeText(f);
    TextAppend(srcBlock, readmeBlock);
    ExampleBasename();
    ExampleJoined(Basename("work/proj"), Text(srcBlock), Text(readmeBlock));
  }

  /** The root line and the two blocks, one after another. */
  lemma ExampleJoined(root: string, srcText: string, readmeText: string)
    requires root == "proj" && srcText == "+---src\n" + "|   +---a.txt\n" && readmeText == "+---README.md\n"
    ensures root + "\n" + (srcText + readmeText) == "proj\n" + "+---src\n" + "|   +---a.txt\n" + "+---README.md\n"
  {
  }

  /** The text of the example's `src` block. */
  lemma ExampleSrcText(f: Filter)
    requires Keep(f, "a.txt")
    ensures Text(EntryLines(f, Dir("src", Ok([File("a.txt")])), "", false)) == "+---src\n" + "|   +---a.txt\n"
  {
    DirOfOneFileText(f, "src", "a.txt", "", false);
    ExampleSrcLines("", "src", ChildPrefix("", false), "a.txt");
  }

  /** The two lines of the `src` block, spelled out. */
  lemma ExampleSrcLines(p: string, dn: string, q: string, fn: string)
    requires p == "" && dn == "src" && q == MidIndent && fn == "a.txt"
    ensures (p + Connector + dn + "\n") + (q + Connector + fn + "\n") == "+---src\n" + "|   +---a.txt\n"
  {
    assert p + Connector + dn + "\n" == "+---src\n";
    assert q + Connector + fn + "\n" == "|   +---a.txt\n";
  }

  /** The text of the example's `README.md` block. */
  lemma ExampleReadmeText(f: Filter)
    ensures Text(EntryLines(f, File("README.md"), "", true)) == "+---README.md\n"
  {
    EntryText(f, File("README.md"), "", true);
  }

  /** A directory holding one kept file: its line, then the file's line one unit deeper. */
  lemma DirOfOneFileText(f: Filter, dn: string, fn: string, p: string, isLast: bool)
    requires Keep(f, fn)
    ensures Text(EntryLines(f, Dir(dn, Ok([File(fn)])), p, isLast))
         == (p + Connector + dn + "\n") + (ChildPrefix(p, isLast) + Connector + fn + "\n")
  {
    var q := ChildPrefix(p, isLast);
    SingleFileLines(f, File(fn), q);
    TextSingle(EntryLine(q, fn));
    EntryText(f, Dir(dn, Ok([File(fn)])), p, isLast);
  }

  lemma ExampleBasename()
    ensures Basename("work/proj") == "proj"
  {
    BasenameOfJoin("work", "proj");
    assert "work" + "/" + "proj" == "work/proj";
  }

  /**
   * A directory listing a kept directory `d`, a dropped entry `x` and a
   * kept file `r` renders as the block of `d` and then that of `r`.
   */
  lemma TwoShownOneHidden(f: Filter, d: Entry, x: Entry, r: Entry, p: string)
    requires d.Dir? && r.File?
    requires Keep(f, d.name) && !Keep(f, x.name) && Keep(f, r.name)
    requires d.name != x.name && d.name != r.name && x.name != r.name
    ensures Lines(f, Ok([d, x, r]), p) == EntryLines(f, d, p, false) + EntryLines(f, r, p, true)
  {
    var es := [d, x, r];
    assert DistinctNames(es);
    ArrangeKeptPair(f, es, d, r);
    PairLines(f, Ok(es), d, r, p);
  }

  /** A directory whose arranged entries are `d` then `r` renders as their two blocks. */
  lemma PairLines(f: Filter, l: Listing, d: Entry, r: Entry, p: string)
    requires l.Ok? && Arrange(f, l.entries) == [d, r]
    ensures Lines(f, l, p) == EntryLines(f, d, p, false) + EntryLines(f, r, p, true)
  {
    var all := Arrange(f, l.entries);
    ArrangeMembers(f, l.entries);
    assert SiblingLines(f, l, all, p, 0) == [];
    assert SiblingLines(f, l, all, p, 1) == EntryLines(f, d, p, false);
  }

  /**
   * A listing whose only kept entries are the directory `d` and the file
   * `r` arranges to `d` and then `r`.
   */
  lemma ArrangeKeptPair(f: Filter, es: seq<Entry>, d: Entry, r: Entry)
    requires DistinctNames(es)
    requires d.Dir? && r.File? && d in es && r in es
    requires Keep(f, d.name) && Keep(f, r.name)
    requires forall y :: y in es && Keep(f, y.name) ==> y == d || y == r
    ensures Arrange(f, es) == [d, r]
  {
    var all := Arrange(f, es);
    ArrangeMembers(f, es);
    ArrangeOrder(f, es);
    ArrangeStrict(f, es);
    DirThenFile(all, d, r);
  }

  /**
   * A list of distinct names holding exactly the directory `d` and the
   * file `r`, directories first, is `[d, r]`.
   */
  lemma DirThenFile(all: seq<Entry>, d: Entry, r: Entry)
    requires d.Dir? && r.File?
    requires forall y :: y in all <==> y == d || y == r
    requires DistinctNames(all)
    requires forall i, j :: 0 <= i < j < |all| && all[i].File? ==> all[j].File?
    ensures all == [d, r]
  {
    assert d in all && r in all && d != r;
    TwoValuesRepeat(all, d, r);
    assert |all| == 2;
    var a, b := all[0], all[1];
    assert a in all && b in all && a.name != b.name;
    assert a == d && b == r;
  }

  /** Among three elements that are each `d` or `r`, two share a name. */
  lemma TwoValuesRepeat(all: seq<Entry>, d: Entry, r: Entry)
    requires forall y :: y in all ==> y == d || y == r
    ensures |all| > 2 ==> all[0].name == all[1].name || all[0].name == all[2].name || all[1].name == all[2].name
  {
    if |all| > 2 {
      assert all[0] in all && all[1] in all && all[2] in all;
    }
  }

  /** The names of the example that the ignore set and the junk test keep. */
  lemma KeptNames()
    ensures Keep(IgnoreAware({"node_modules"}), "src")
    ensures Keep(IgnoreAware({"node_modules"}), "a.txt")
    ensures Keep(IgnoreAware({"node_modules"}), "README.md")
    ensures !Keep(IgnoreAware({"node_modules"}), "node_modules")
  {
    SystemJunkNames("src");
    SystemJunkNames("a.txt");
    SystemJunkNames("README.md");
    assert "src"[..1] == "s" && "a.txt"[..1] == "a" && "README.md"[..1] == "R";
  }

  // ---------------------------------------------------------------------
  // The command object.
  // ---------------------------------------------------------------------

  /** What the quick-panel callback does next. */
  datatype Action =
    | Cancelled                  // the panel was dismissed
    | ShowTree                   // render with the ignore set just chosen
    | AskCustom(prefill: string) // ask for a comma list, offering `prefill`

  const CustomLabel := "自定義"
  const NoIgnoreLabel := "無忽略"

  class GenerateTreeCommand {
    var defaultIgnoreFolders: IgnoreSet
    var availablePresets: seq<string>
    /** `null` until a callback sets it; reading it then gives the empty set. */
    var ignoreFolders: IgnoreSet?
    var selectedPreset: Option<string>
    /** The names the defaults were loaded with: the default table. */
    ghost const defaults: set<string>

    /**
     * The defaults still hold the names they were loaded with, names that
     * can be written into a comma list and read back, and the chosen set is
     * never the default set object itself.
     */
    ghost predicate Valid()
      reads this, defaultIgnoreFolders
    {
      && defaultIgnoreFolders.items == defaults
      && AllClean(defaults)
      && ignoreFolders != defaultIgnoreFolders
    }

    constructor()
      ensures Valid()
      ensures defaults == DefaultIgnoreFolders
      ensures fresh(defaultIgnoreFolders) && defaultIgnoreFolders.items == PresetFolders("all_common")
      ensures availablePresets == AvailablePresets()
      ensures ignoreFolders == null && selectedPreset == None
    {
      AllCommonIsDefault();
      DefaultNamesClean();
      defaults := DefaultIgnoreFolders;
      var loaded := GetIgnoreList("all_common");
      defaultIgnoreFolders := loaded;
      availablePresets := AvailablePresets();
      ignoreFolders := null;
      selectedPreset := None;
    }

    /** The filter the renderer applies with the current ignore set. */
    function CurrentFilter(): Filter
      reads this, ignoreFolders
    {
      IgnoreAware(if ignoreFolders == null then {} else ignoreFolders.items)
    }

    /** `_should_ignore`: the name is in the ignore set, an absent set counting as empty. */
    predicate ShouldIgnore(name: string)
      reads this, ignoreFolders
      ensures ShouldIgnore(name) ==> !Keep(CurrentFilter(), name)
      ensures !ShouldIgnore(name) ==> (Keep(CurrentFilter(), name) <==> !IsSystemJunk(name))
    {
      ignoreFolders != null && name in ignoreFolders.items
    }

    /**
     * `on_ignore_option_selected`: `-1` cancels, an index below the number
     * of presets loads that preset, the next one asks for a custom list
     * and any later one renders with nothing ignored.
     */
    method OnIgnoreOptionSelected(index: int) returns (act: Action)
      requires Valid()
      requires index >= -1
      modifies this
      ensures Valid()
      ensures defaultIgnoreFolders == old(defaultIgnoreFolders) && availablePresets == old(availablePresets)
      ensures index == -1 || index == |availablePresets| ==>
        ignoreFolders == old(ignoreFolders) && selectedPreset == old(selectedPreset)
      ensures index == -1 ==> act == Cancelled
      ensures 0 <= index < |availablePresets| ==>
        && act == ShowTree
        && ignoreFolders != null && fresh(ignoreFolders)
        && ignoreFolders.items == PresetFolders(availablePresets[index])
        && selectedPreset == Some(availablePresets[index])
      ensures index == |availablePresets| ==>
        && act.AskCustom?
        && IsSortedListing(act.prefill, defaultIgnoreFolders.items)
        && ReadsBackAs(act.prefill, defaultIgnoreFolders.items)
      ensures index > |availablePresets| ==>
        && act == ShowTree
        && ignoreFolders != null && fresh(ignoreFolders) && ignoreFolders.items == {}
        && selectedPreset == Some(NoIgnoreLabel)
    {
      if index == -1 {
        return Cancelled;
      }
      var presetCount := |availablePresets|;
      if index < presetCount {
        LoadPreset(availablePresets[index]);
        act := ShowTree;
      } else if index == presetCount {
        var prefill := DefaultPrefill();
        act := AskCustom(prefill);
      } else {
        var s := new IgnoreSet({});
        Choose(s, NoIgnoreLabel);
        act := ShowTree;
      }
    }

    /**
     * `on_custom_ignore_done`: the ignore set starts again from empty and
     * takes the names of the comma list; the choice is labelled custom.
     */
    method OnCustomIgnoreDone(text: string)
      requires Valid()
      modifies this
      ensures Valid()
      ensures defaultIgnoreFolders == old(defaultIgnoreFolders) && availablePresets == old(availablePresets)
      ensures ignoreFolders != null && fresh(ignoreFolders)
      ensures ignoreFolders.items == NameSet(CustomFolders(text))
      ensures selectedPreset == Some(CustomLabel)
    {
      var s := CustomIgnoreSet(text);
      Choose(s, CustomLabel);
    }

    /** The text offered for a custom list: the default names, sorted and comma-joined. */
    method DefaultPrefill() returns (text: string)
      requires Valid()
      ensures IsSortedListing(text, defaultIgnoreFolders.items)
      ensures ReadsBackAs(text, defaultIgnoreFolders.items)
    {
      text := PrefillText(defaultIgnoreFolders.items);
    }

    /** The preset branch: a new set with the preset's folders, labelled with its name. */
    method LoadPreset(name: string)
      requires Valid()
      modifies this
      ensures Valid()
      ensures defaultIgnoreFolders == old(defaultIgnoreFolders) && availablePresets == old(availablePresets)
      ensures ignoreFolders != null && fresh(ignoreFolders)
      ensures ignoreFolders.items == PresetFolders(name) && selectedPreset == Some(name)
    {
      var s := GetIgnoreList(name);
      Choose(s, name);
    }

    /** Makes `s` the ignore set, recording `choice` as the chosen option. */
    method Choose(s: IgnoreSet, choice: string)
      requires Valid() && s != defaultIgnoreFolders
      modifies this
      ensures Valid()
      ensures defaultIgnoreFolders == old(defaultIgnoreFolders) && availablePresets == old(availablePresets)
      ensures ignoreFolders == s && selectedPreset == Some(choice)
    {
      ignoreFolders := s;
      selectedPreset := Some(choice);
    }

    // -------------------------------------------------------------------
    // The renderer.
    // -------------------------------------------------------------------

    /**
     * The first half of `_build_tree_recursive` for a listing that
     * succeeded: sort by name, drop what `_should_ignore` and the junk test
     * reject, then the directories followed by the files.
     */
    method ArrangeEntries(es: seq<Entry>) returns (all: seq<Entry>)
      ensures all == Arrange(CurrentFilter(), es)
    {
      var f := CurrentFilter();
      var entries := SortByName(es);
      var filtered: seq<Entry> := [];
      for i := 0 to |entries|
        invariant filtered == Select(Kept(f), entries[..i])
      {
        var e := entries[i];
        SelectPrefixStep(Kept(f), entries, i);
        if ShouldIgnore(e.name) {
          continue;
        }
        if IsSystemJunk(e.name) {
          continue;
        }
        filtered := filtered + [e];
      }
      assert entries[..|entries|] == entries;
      all := SplitDirsFirst(filtered);
    }

    /**
     * `_build_tree_recursive` on a directory whose listing was `l`: one
     * line per arranged entry and, below a directory, its own rendering;
     * a listing that failed gives its one marker line instead.
     */
    method BuildTreeRecursive(l: Listing, prefix: string) returns (out: string)
      ensures out == Text(Lines(CurrentFilter(), l, prefix))
      decreases l
    {
      var f := CurrentFilter();
      match l
      case Denied =>
        out := prefix + DeniedMarker + "\n";
        TextSingle(DeniedLine(prefix));
      case Failed(msg) =>
        out := prefix + ErrorLabel + msg + "\n";
        TextSingle(ErrorLine(prefix, msg));
      case Ok(es) =>
        var all := ArrangeEntries(es);
        ArrangedFrom(f, es);
        out := "";
        for i := 0 to |all|
          invariant out == Text(SiblingLines(f, l, all, prefix, i))
        {
          var e := all[i];
          var isLast := i == |all| - 1;
          var newPrefix := if isLast then prefix + LastIndent else prefix + MidIndent;
          assert newPrefix == ChildPrefix(prefix, isLast);
          ghost var before := out;
          var line := prefix + Connector + e.name + "\n";
          out := out + line;
          if e.Dir? {
            assert e in es;
            var below := BuildTreeRecursive(e.listing, newPrefix);
            EmitStep(f, l, all, prefix, i, before, below);
            out := out + below;
          } else {
            EmitStep(f, l, all, prefix, i, before, "");
            assert out + "" == out;
          }
        }
    }

    /**
     * `custom_tree`: at the root, the base name of the path on a line of
     * its own and then the rendering with the empty prefix; elsewhere the
     * rendering at `prefix`.
     */
    method CustomTree(rootPath: string, root: Listing, prefix: string, isRoot: bool) returns (out: string)
      ensures isRoot ==> out == Basename(rootPath) + "\n" + Text(Lines(CurrentFilter(), root, ""))
      ensures !isRoot ==> out == Text(Lines(CurrentFilter(), root, prefix))
    {
      if isRoot {
        var body := BuildTreeRecursive(root, "");
        out := Basename(rootPath) + "\n" + body;
      } else {
        out := BuildTreeRecursive(root, prefix);
      }
    }
  }
}
