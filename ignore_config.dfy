/**
 * The ignore-list configuration (ignore_config.py): the default ignore
 * table, the named presets, the preset lookup with its fallback, and the
 * in-place extension of an ignore set with user-supplied names.
 */
module IgnoreConfig {
  import opened Str

  // ---------------------------------------------------------------------
  // `DEFAULT_IGNORE_FOLDERS`, group by group as the table lists them.
  // ---------------------------------------------------------------------

  const NodeFolders: set<string> := {"node_modules", "bower_components", "jspm_packages", ".npm", ".yarn"}
  const VcsFolders: set<string> := {".git", ".svn", ".hg", ".bzr", "CVS"}
  const PythonFolders: set<string> :=
    {"__pycache__", ".pytest_cache", ".coverage", ".tox", ".nox", "venv", "env", ".venv", ".env",
     "site-packages", "eggs", "*.egg-info", "build", "dist", ".pyc"}
  const EditorFolders: set<string> :=
    {".idea", ".vscode", ".vs", ".sublime-project", ".sublime-workspace", "*.sublime-*", ".atom"}
  const SystemFolders: set<string> := {".DS_Store", "Thumbs.db", "Desktop.ini", "$RECYCLE.BIN"}
  const BuildFolders: set<string> := {"target", "bin", "obj", "out", "Release", "Debug", "x64", "x86"}
  const CacheFolders: set<string> := {".cache", ".sass-cache", ".less-cache", "cache", "tmp", "temp", ".tmp", ".temp"}
  const CoverageFolders: set<string> := {"coverage", ".nyc_output", "htmlcov"}
  const LogFolders: set<string> := {"logs", "*.log", "log"}
  /** Ruby, PHP, Rust, Go and Docker; `target` and `vendor` are listed twice in the table. */
  const LanguageFolders: set<string> := {".bundle", "vendor/bundle", "vendor", "target", "Cargo.lock", ".dockerignore"}
  const BackupFolders: set<string> := {"backup", "backups", ".bak", "*.bak", "*.orig", "*.swp", "*.swo", "*~"}

  const DefaultIgnoreFolders: set<string> :=
    NodeFolders + VcsFolders + PythonFolders + EditorFolders + SystemFolders + BuildFolders
    + CacheFolders + CoverageFolders + LogFolders + LanguageFolders + BackupFolders

  // ---------------------------------------------------------------------
  // `PRESET_COMBINATIONS`: a dictionary, kept in its insertion order.
  // ---------------------------------------------------------------------

  const WebDevelopment: set<string> :=
    {"node_modules", "bower_components", ".git", ".sass-cache", "dist", "build", ".cache", "coverage"}
  const PythonDevelopment: set<string> :=
    {"__pycache__", ".pytest_cache", "venv", ".venv", "env", ".env", ".git", "build", "dist", "*.egg-info", ".coverage"}
  const JavaDevelopment: set<string> := {"target", "bin", ".git", ".idea", ".vscode", "build"}
  const Minimal: set<string> := {"node_modules", ".git", "__pycache__", "dist", "build"}

  /**
   * The values of the preset table. Each stands for one of the sets above,
   * so that the table itself can be searched without unfolding the sets.
   */
  datatype Preset = Web | Python | Java | MinimalPreset | AllCommon

  function PresetSet(p: Preset): set<string>
  {
    match p
    case Web => WebDevelopment
    case Python => PythonDevelopment
    case Java => JavaDevelopment
    case MinimalPreset => Minimal
    case AllCommon => DefaultIgnoreFolders
  }

  const PresetCombinations: seq<(string, Preset)> := [
    ("web_development", Web),
    ("python_development", Python),
    ("java_development", Java),
    ("minimal", MinimalPreset),
    ("all_common", AllCommon)
  ]

  /** `table.get(name)`: the value stored under `name`, if any. */
  function Lookup(table: seq<(string, Preset)>, name: string): (r: Option<Preset>)
    ensures r.Some? <==> exists i :: 0 <= i < |table| && table[i].0 == name
    ensures r.Some? ==> exists i :: 0 <= i < |table| && table[i] == (name, r.value)
  {
    if table == [] then None
    else if table[0].0 == name then Some(table[0].1)
    else
      var r := Lookup(table[1..], name);
      if r.Some? then
        assert exists i :: 0 <= i < |table[1..]| && table[1..][i] == (name, r.value);
        r
      else r
  }

  datatype Option<T> = None | Some(value: T)

  /** `get_ignore_list(name)`: the preset's folders, the default table for an unknown name. */
  function PresetFolders(name: string): set<string>
  {
    match Lookup(PresetCombinations, name)
    case Some(p) => PresetSet(p)
    case None => DefaultIgnoreFolders
  }

  /** Whatever the name, the list it gives is part of the default table. */
  lemma PresetFoldersWithinDefault(name: string)
    ensures PresetFolders(name) <= DefaultIgnoreFolders
  {
    match Lookup(PresetCombinations, name)
    case Some(p) => PresetWithinDefault(p);
    case None =>
  }

  /** `get_available_presets()`: the keys of the preset table, in the order they were declared. */
  function AvailablePresets(): (r: seq<string>)
    ensures r == ["web_development", "python_development", "java_development", "minimal", "all_common"]
  {
    seq(|PresetCombinations|, i requires 0 <= i < |PresetCombinations| => PresetCombinations[i].0)
  }

  /** Every named preset is part of the default table: `all_common` is the widest. */
  lemma PresetWithinDefault(p: Preset)
    ensures PresetSet(p) <= DefaultIgnoreFolders
  {
    match p
    case Web => WebWithinDefault();
    case Python => PythonWithinDefault();
    case Java => JavaWithinDefault();
    case MinimalPreset => MinimalWithinDefault();
    case AllCommon =>
  }

  lemma WebWithinDefault()
    ensures WebDevelopment <= DefaultIgnoreFolders
  {
    assert WebDevelopment <= NodeFolders + VcsFolders + PythonFolders + BuildFolders + CacheFolders + CoverageFolders;
  }

  lemma PythonWithinDefault()
    ensures PythonDevelopment <= DefaultIgnoreFolders
  {
    assert PythonDevelopment <= VcsFolders + PythonFolders;
  }

  lemma JavaWithinDefault()
    ensures JavaDevelopment <= DefaultIgnoreFolders
  {
    assert JavaDevelopment <= VcsFolders + EditorFolders + BuildFolders + PythonFolders;
  }

  lemma MinimalWithinDefault()
    ensures Minimal <= DefaultIgnoreFolders
  {
    assert Minimal <= NodeFolders + VcsFolders + PythonFolders;
  }

  /** The preset names are pairwise different (they even differ in length). */
  lemma PresetNamesDistinct()
    ensures forall i, j :: 0 <= i < j < |PresetCombinations| ==> PresetCombinations[i].0 != PresetCombinations[j].0
  {
    forall i, j | 0 <= i < j < |PresetCombinations|
      ensures |PresetCombinations[i].0| != |PresetCombinations[j].0|
    {
    }
  }

  /** Each listed preset name resolves to its own table, never to the fallback. */
  lemma KnownPresetResolves(i: nat)
    requires i < |AvailablePresets()|
    ensures PresetFolders(AvailablePresets()[i]) == PresetSet(PresetCombinations[i].1)
  {
    PresetNamesDistinct();
    var name := PresetCombinations[i].0;
    var r := Lookup(PresetCombinations, name);
    var j :| 0 <= j < |PresetCombinations| && PresetCombinations[j] == (name, r.value);
    assert i == j;
  }

  /** `all_common` resolves to the default table. */
  lemma AllCommonIsDefault()
    ensures PresetFolders("all_common") == DefaultIgnoreFolders
  {
    KnownPresetResolves(4);
  }

  /** A name the table does not know falls back to the default table, as `all_common` does. */
  lemma UnknownPresetFallsBack(name: string)
    requires name !in AvailablePresets()
    ensures PresetFolders(name) == DefaultIgnoreFolders
    ensures PresetFolders(name) == PresetFolders("all_common")
  {
    forall i | 0 <= i < |PresetCombinations| ensures PresetCombinations[i].0 != name {
      assert AvailablePresets()[i] == PresetCombinations[i].0;
    }
    assert Lookup(PresetCombinations, name) == None;
    AllCommonIsDefault();
  }

  /** A name that survives being written into a comma list and read back. */
  predicate Clean(x: string)
  {
    Trimmed(x) && ',' !in x
  }

  /** Every name of the set is clean. */
  predicate AllClean(names: set<string>)
  {
    forall x :: x in names ==> Clean(x)
  }

  /** No default name holds a comma or starts or ends with a blank. */
  lemma DefaultNamesClean()
    ensures AllClean(DefaultIgnoreFolders)
  {
    NodeClean();
    VcsClean();
    PythonClean();
    EditorClean();
    SystemClean();
    BuildClean();
    CacheClean();
    CoverageClean();
    LogClean();
    LanguageClean();
    BackupClean();
  }

  lemma NodeClean()
    ensures forall x :: x in NodeFolders ==> Clean(x)
  {
    assert Clean("node_modules");
    assert Clean("bower_components");
    assert Clean("jspm_packages");
    assert Clean(".npm");
    assert Clean(".yarn");
  }

  lemma VcsClean()
    ensures forall x :: x in VcsFolders ==> Clean(x)
  {
    assert Clean(".git");
    assert Clean(".svn");
    assert Clean(".hg");
    assert Clean(".bzr");
    assert Clean("CVS");
  }

  lemma PythonClean()
    ensures forall x :: x in PythonFolders ==> Clean(x)
  {
    assert Clean("__pycache__");
    assert Clean(".pytest_cache");
    assert Clean(".coverage");
    assert Clean(".tox");
    assert Clean(".nox");
    assert Clean("venv");
    assert Clean("env");
    assert Clean(".venv");
    assert Clean(".env");
    assert Clean("site-packages");
    assert Clean("eggs");
    assert Clean("*.egg-info");
    assert Clean("build");
    assert Clean("dist");
    assert Clean(".pyc");
  }

  lemma EditorClean()
    ensures forall x :: x in EditorFolders ==> Clean(x)
  {
    assert Clean(".idea");
    assert Clean(".vscode");
    assert Clean(".vs");
    assert Clean(".sublime-project");
    assert Clean(".sublime-workspace");
    assert Clean("*.sublime-*");
    assert Clean(".atom");
  }

  lemma SystemClean()
    ensures forall x :: x in SystemFolders ==> Clean(x)
  {
    assert Clean(".DS_Store");
    assert Clean("Thumbs.db");
    assert Clean("Desktop.ini");
    assert Clean("$RECYCLE.BIN");
  }

  lemma BuildClean()
    ensures forall x :: x in BuildFolders ==> Clean(x)
  {
    assert Clean("target");
    assert Clean("bin");
    assert Clean("obj");
    assert Clean("out");
    assert Clean("Release");
    assert Clean("Debug");
    assert Clean("x64");
    assert Clean("x86");
  }

  lemma CacheClean()
    ensures forall x :: x in CacheFolders ==> Clean(x)
  {
    assert Clean(".cache");
    assert Clean(".sass-cache");
    assert Clean(".less-cache");
    assert Clean("cache");
    assert Clean("tmp");
    assert Clean("temp");
    assert Clean(".tmp");
    assert Clean(".temp");
  }

  lemma CoverageClean()
    ensures forall x :: x in CoverageFolders ==> Clean(x)
  {
    assert Clean("coverage");
    assert Clean(".nyc_output");
    assert Clean("htmlcov");
  }

  lemma LogClean()
    ensures forall x :: x in LogFolders ==> Clean(x)
  {
    assert Clean("logs");
    assert Clean("*.log");
    assert Clean("log");
  }

  lemma LanguageClean()
    ensures forall x :: x in LanguageFolders ==> Clean(x)
  {
    assert Clean(".bundle");
    assert Clean("vendor/bundle");
    assert Clean("vendor");
    assert Clean("target");
    assert Clean("Cargo.lock");
    assert Clean(".dockerignore");
  }

  lemma BackupClean()
    ensures forall x :: x in BackupFolders ==> Clean(x)
  {
    assert Clean("backup");
    assert Clean("backups");
    assert Clean(".bak");
    assert Clean("*.bak");
    assert Clean("*.orig");
    assert Clean("*.swp");
    assert Clean("*.swo");
    assert Clean("*~");
  }

  // ---------------------------------------------------------------------
  // A mutable set of names, as a Python `set` object.
  // ---------------------------------------------------------------------

  class IgnoreSet {
    var items: set<string>

    constructor(init: set<string>)
      ensures items == init
    {
      items := init;
    }
  }

  /**
   * `get_ignore_list(name)` as the program uses it: a new set object with
   * the preset's folders, so that changing it never changes a table.
   */
  method GetIgnoreList(name: string) returns (r: IgnoreSet)
    ensures fresh(r)
    ensures r.items == PresetFolders(name)
  {
    r := new IgnoreSet(PresetFolders(name));
  }

  // ---------------------------------------------------------------------
  // `add_custom_ignore`.
  // ---------------------------------------------------------------------

  /** The second argument of `add_custom_ignore`: one name or a list of names. */
  datatype Folders = One(name: string) | Many(names: seq<string>)

  /** A single string is taken as a list holding just that string. */
  function AsList(folders: Folders): seq<string>
  {
    match folders
    case One(name) => [name]
    case Many(names) => names
  }

  /**
   * A single string is one name, not a sequence of one-character names:
   * it adds its stripped self when it is not empty, and nothing otherwise.
   */
  lemma OneStringAdded(x: string)
    ensures Added(AsList(One(x))) == if x != "" then {Strip(x)} else {}
  {
    assert [x][..0] == [];
  }

  /**
   * The names `add_custom_ignore` adds for the list `xs`: each non-empty
   * item, stripped. The emptiness test comes before the strip.
   */
  function Added(xs: seq<string>): set<string>
  {
    if xs == [] then {}
    else
      var x := xs[|xs| - 1];
      Added(xs[..|xs| - 1]) + (if x != "" then {Strip(x)} else {})
  }

  /** A name is added exactly when some non-empty item strips to it. */
  lemma AddedMembers(xs: seq<string>, y: string)
    ensures y in Added(xs) <==> exists i :: 0 <= i < |xs| && xs[i] != "" && Strip(xs[i]) == y
  {
    if y in Added(xs) {
      AddedFrom(xs, y);
    } else {
      forall i | 0 <= i < |xs| && xs[i] != "" ensures Strip(xs[i]) != y {
        AddedHas(xs, i);
      }
    }
  }

  /** Every non-empty item adds its stripped form. */
  lemma {:induction false} AddedHas(xs: seq<string>, i: int)
    requires 0 <= i < |xs| && xs[i] != ""
    ensures Strip(xs[i]) in Added(xs)
    decreases |xs|
  {
    var init, last := xs[..|xs| - 1], xs[|xs| - 1];
    assert Added(xs) == Added(init) + (if last != "" then {Strip(last)} else {});
    if i < |init| {
      assert xs[i] == init[i];
      AddedHas(init, i);
    }
  }

  /** Every added name comes from some non-empty item. */
  lemma {:induction false} AddedFrom(xs: seq<string>, y: string)
    requires y in Added(xs)
    ensures exists i :: 0 <= i < |xs| && xs[i] != "" && Strip(xs[i]) == y
    decreases |xs|
  {
    var init := xs[..|xs| - 1];
    if y in Added(init) {
      AddedFrom(init, y);
      var i :| 0 <= i < |init| && init[i] != "" && Strip(init[i]) == y;
      assert xs[i] == init[i];
    } else {
      assert xs[|xs| - 1] != "" && Strip(xs[|xs| - 1]) == y;
    }
  }

  /** An item made only of blanks is not empty, so it adds the empty name. */
  lemma BlankItemAddsEmptyName(x: string)
    requires x != [] && forall k :: 0 <= k < |x| ==> IsSpace(x[k])
    ensures Added([x]) == {""}
  {
    StripEmptyIffBlank(x);
    assert [x][..0] == [];
  }

  /**
   * `add_custom_ignore(s, folders)`: the stripped non-empty items are
   * added to `s` in place, and `s` itself is returned.
   */
  method AddCustomIgnore(s: IgnoreSet, folders: Folders) returns (r: IgnoreSet)
    modifies s
    ensures r == s
    ensures s.items == old(s.items) + Added(AsList(folders))
  {
    var xs := AsList(folders);
    for i := 0 to |xs|
      invariant s.items == old(s.items) + Added(xs[..i])
    {
      assert xs[..i + 1][..i] == xs[..i];
      if xs[i] != "" {
        s.items := s.items + {Strip(xs[i])};
      }
    }
    assert xs[..|xs|] == xs;
    r := s;
  }

  /**
   * Calling `add_custom_ignore` twice on the same set with the same folders
   * leaves the set as one call does, and both calls hand back that set.
   */
  method AddCustomIgnoreTwice(s: IgnoreSet, folders: Folders) returns (r1: IgnoreSet, r2: IgnoreSet)
    modifies s
    ensures r1 == s && r2 == s
    ensures s.items == old(s.items) + Added(AsList(folders))
  {
    r1 := AddCustomIgnore(s, folders);
    ghost var once := s.items;
    r2 := AddCustomIgnore(r1, folders);
    assert s.items == once + Added(AsList(folders));
  }
}
