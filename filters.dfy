/**
 * Which directory entries the two renderers leave out.
 *
 * The ignore-aware renderer (GenTree.py) drops a name that is in the active
 * ignore set, and, whatever that set holds, the operating-system junk names
 * of its fixed `system_hidden` table. The older renderer (Main.py) has no
 * ignore set and drops every name that starts with a dot.
 */
module Filters {
  import opened Str

  /**
   * `system_hidden` in `_build_tree_recursive`. The source holds it in a
   * set; it is only searched, so its order plays no part. `.Thumbs.db`
   * keeps the table's leading dot, so a plain `Thumbs.db` is not junk.
   */
  const SystemHidden: seq<string> := [".DS_Store", ".Thumbs.db", ".directory", "._*"]

  /** `pattern.replace('*', '')`. */
  function RemoveStars(p: string): (r: string)
    ensures '*' !in r
    ensures |r| <= |p|
  {
    if p == [] then []
    else (if p[0] == '*' then [] else [p[0]]) + RemoveStars(p[1..])
  }

  /**
   * The `any(...)` of the junk test: some pattern of `patterns` that holds
   * a `*` is, with its `*` removed, a prefix of `name`.
   */
  predicate AnyWildcardPrefix(name: string, patterns: seq<string>)
  {
    patterns != [] &&
      (('*' in patterns[0] && StartsWith(name, RemoveStars(patterns[0])))
       || AnyWildcardPrefix(name, patterns[1..]))
  }

  /**
   * The junk test as written: the name starts with a wildcard pattern of
   * `SystemHidden` with its `*` removed, or is itself one of its members.
   */
  predicate IsSystemJunk(name: string)
  {
    AnyWildcardPrefix(name, SystemHidden) || name in SystemHidden
  }

  /** How a renderer decides what to leave out. */
  datatype Filter =
    | IgnoreAware(ignore: set<string>)   // GenTree.py: exact ignore-set match, then junk names
    | HideDotFiles                       // Main.py: every name starting with '.'

  /** The entry named `name` survives the filter. */
  predicate Keep(f: Filter, name: string)
  {
    match f
    case IgnoreAware(ignore) => name !in ignore && !IsSystemJunk(name)
    case HideDotFiles => !StartsWith(name, ".")
  }

  /**
   * The junk names are exactly `.DS_Store`, `.Thumbs.db`, `.directory` and
   * everything starting with `._` (which takes in the literal `._*`).
   */
  lemma SystemJunkNames(name: string)
    ensures IsSystemJunk(name)
        <==> name == ".DS_Store" || name == ".Thumbs.db" || name == ".directory"
             || StartsWith(name, "._")
  {
    JunkByPrefix(name);
    if name == "._*" {
      assert name[..2] == "._";
    }
  }

  /** The wildcard test reduces to the prefix `._`. */
  lemma JunkByPrefix(name: string)
    ensures IsSystemJunk(name) <==> StartsWith(name, "._") || name in SystemHidden
  {
    OnlyWildcard(name);
  }

  /** `._*` is the only wildcard pattern, and it stands for the prefix `._`. */
  lemma OnlyWildcard(name: string)
    ensures AnyWildcardPrefix(name, SystemHidden) <==> StartsWith(name, "._")
  {
    var h0 := SystemHidden;
    var h1, h2, h3 := h0[1..], h0[2..], h0[3..];
    assert h1[1..] == h2 && h2[1..] == h3 && h3[1..] == [];
    assert '*' !in h0[0] && '*' !in h1[0] && '*' !in h2[0];
    assert AnyWildcardPrefix(name, h0) == AnyWildcardPrefix(name, h1);
    assert AnyWildcardPrefix(name, h1) == AnyWildcardPrefix(name, h2);
    assert AnyWildcardPrefix(name, h2) == AnyWildcardPrefix(name, h3);
    WildcardPattern();
    assert !AnyWildcardPrefix(name, h3[1..]);
  }

  /** The last pattern is the wildcard one, standing for `._`. */
  lemma WildcardPattern()
    ensures SystemHidden[3] == "._*" && '*' in SystemHidden[3]
    ensures RemoveStars(SystemHidden[3]) == "._"
  {
    assert RemoveStars("*") == "" && RemoveStars("_*") == "_";
  }

  /** Every junk name is a dot-name, so the older renderer hides it too. */
  lemma SystemJunkIsDotName(name: string)
    ensures IsSystemJunk(name) ==> StartsWith(name, ".")
  {
    JunkByPrefix(name);
    if StartsWith(name, "._") {
      assert name[..1] == name[..2][..1];
    } else if name in SystemHidden {
      var i :| 0 <= i < |SystemHidden| && SystemHidden[i] == name;
      assert SystemHidden[i][..1] == ".";
    }
  }

  /**
   * A name that an ignore set keeps is kept by the empty set, the empty set
   * keeps exactly the non-junk names, and an ignored name is never kept.
   */
  lemma IgnoreSetOnlyRemoves(ignore: set<string>, name: string)
    ensures Keep(IgnoreAware(ignore), name) ==> Keep(IgnoreAware({}), name)
    ensures Keep(IgnoreAware({}), name) <==> !IsSystemJunk(name)
    ensures name in ignore ==> !Keep(IgnoreAware(ignore), name)
  {
  }

  /** A larger ignore set only hides more: what it keeps, a smaller one keeps too. */
  lemma LargerSetHidesMore(smaller: set<string>, larger: set<string>, name: string)
    requires smaller <= larger
    ensures Keep(IgnoreAware(larger), name) ==> Keep(IgnoreAware(smaller), name)
  {
  }

  /**
   * Ignore names are matched exactly: a wildcard-looking entry such as
   * `*.log` hides only an entry of that very name, never `app.log`.
   */
  lemma IgnoreMatchIsExact()
    ensures !Keep(IgnoreAware({"*.log"}), "*.log")
    ensures Keep(IgnoreAware({"*.log"}), "app.log")
  {
    var n := "app.log";
    SystemJunkNames(n);
    assert n[..2] == "ap";
  }

  /**
   * With an empty ignore set the ignore-aware renderer keeps everything
   * the older one keeps, and more: a dot-name such as `.gitignore`.
   */
  lemma NewerKeepsMore(name: string)
    ensures Keep(HideDotFiles, name) ==> Keep(IgnoreAware({}), name)
    ensures Keep(IgnoreAware({}), ".gitignore") && !Keep(HideDotFiles, ".gitignore")
  {
    SystemJunkIsDotName(name);
    var g := ".gitignore";
    SystemJunkNames(g);
    assert g[..1] == "." && g[..2] == ".g";
    assert g != ".DS_Store" && g != ".Thumbs.db" && g != ".directory";
  }
}
