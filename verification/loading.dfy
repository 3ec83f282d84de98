/**
 * Start-up loading of the profiles: the directory listing is sorted, the names ending in
 * ".py" are imported with the suffix stripped, and a source that fails to import is skipped.
 * Listing the directory and importing a module are the environment's; the listing is a
 * parameter and the import is an oracle from module path to an optional profile.
 */
module Loading {
  import opened Wrappers
  import opened Macros

  const MACRO_FOLDER: string := "/macros"

  /** Python's `<=` on str: lexicographic by code point, a prefix before its extensions. */
  predicate NameLe(a: string, b: string)
    decreases |a|
  {
    |a| == 0 || (|b| > 0 && (a[0] < b[0] || (a[0] == b[0] && NameLe(a[1..], b[1..]))))
  }

  lemma {:induction false} NameLeTotal(a: string, b: string)
    ensures NameLe(a, b) || NameLe(b, a)
    decreases |a|
  {
    if |a| > 0 && |b| > 0 && a[0] == b[0] {
      NameLeTotal(a[1..], b[1..]);
    }
  }

  lemma {:induction false} NameLeTrans(a: string, b: string, c: string)
    requires NameLe(a, b) && NameLe(b, c)
    ensures NameLe(a, c)
    decreases |a|
  {
    if |a| > 0 && a[0] == b[0] && b[0] == c[0] {
      NameLeTrans(a[1..], b[1..], c[1..]);
    }
  }

  predicate Sorted(names: seq<string>) {
    forall i, j :: 0 <= i < j < |names| ==> NameLe(names[i], names[j])
  }

  function Insert(x: string, names: seq<string>): seq<string> {
    if names == [] then [x]
    else if NameLe(x, names[0]) then [x] + names
    else [names[0]] + Insert(x, names[1..])
  }

  /** A name below every name of a sorted list can go in front of it. */
  lemma SortedCons(head: string, names: seq<string>)
    requires Sorted(names)
    requires forall j :: 0 <= j < |names| ==> NameLe(head, names[j])
    ensures Sorted([head] + names)
  {
    var r := [head] + names;
    forall i, j | 0 <= i < j < |r| ensures NameLe(r[i], r[j]) {
      if i == 0 {
        assert r[j] == names[j - 1];
      } else {
        assert r[i] == names[i - 1] && r[j] == names[j - 1];
      }
    }
  }

  lemma {:induction false} InsertMultiset(x: string, names: seq<string>)
    ensures multiset(Insert(x, names)) == multiset(names) + multiset{x}
  {
    if names != [] && !NameLe(x, names[0]) {
      InsertMultiset(x, names[1..]);
      assert names == [names[0]] + names[1..];
    }
  }

  lemma {:induction false} InsertSorted(x: string, names: seq<string>)
    requires Sorted(names)
    ensures Sorted(Insert(x, names))
  {
    if names == [] {
    } else if NameLe(x, names[0]) {
      forall j | 0 <= j < |names| ensures NameLe(x, names[j]) {
        if j > 0 {
          NameLeTrans(x, names[0], names[j]);
        }
      }
      SortedCons(x, names);
    } else {
      NameLeTotal(x, names[0]);
      var rest := names[1..];
      InsertSorted(x, rest);
      InsertMultiset(x, rest);
      var t := Insert(x, rest);
      forall j | 0 <= j < |t| ensures NameLe(names[0], t[j]) {
        assert t[j] in multiset(t);
        if t[j] != x {
          assert t[j] in multiset(rest);
          var k :| 0 <= k < |rest| && rest[k] == t[j];
          assert names[k + 1] == t[j];
        }
      }
      SortedCons(names[0], t);
    }
  }

  /** The in-place `files.sort()` of the listing, as a value: an insertion sort. */
  function SortNames(names: seq<string>): (sorted: seq<string>)
    ensures multiset(sorted) == multiset(names)
  {
    if names == [] then []
    else
      InsertMultiset(names[0], SortNames(names[1..]));
      assert names == [names[0]] + names[1..];
      Insert(names[0], SortNames(names[1..]))
  }

  /** Sorting gives the listing's names, each as often as listed, in ascending order. */
  lemma {:induction false} SortNamesCorrect(names: seq<string>)
    ensures Sorted(SortNames(names))
    ensures multiset(SortNames(names)) == multiset(names)
  {
    if names != [] {
      SortNamesCorrect(names[1..]);
      InsertSorted(names[0], SortNames(names[1..]));
      InsertMultiset(names[0], SortNames(names[1..]));
      assert names == [names[0]] + names[1..];
    }
  }

  /** `filename.endswith('.py')` */
  predicate IsPy(filename: string): (py: bool)
    ensures forall stem :: filename == stem + ".py" ==> py
    ensures py ==> |filename| >= 3 && filename == filename[..|filename| - 3] + ".py"
  {
    |filename| >= 3 && filename[|filename| - 3..] == ".py"
  }

  /** The module path imported for a file: the folder, a slash and `filename[:-3]`. */
  function ModulePath(filename: string): (path: string)
    requires IsPy(filename)
    ensures |path| >= |MACRO_FOLDER| + 1 && path[..|MACRO_FOLDER| + 1] == MACRO_FOLDER + "/"
    ensures path[|MACRO_FOLDER| + 1..] + ".py" == filename
  {
    MACRO_FOLDER + "/" + filename[..|filename| - 3]
  }

  predicate Loads(filename: string, importer: string -> Option<App>) {
    IsPy(filename) && importer(ModulePath(filename)).Some?
  }

  /** The file names, in the listed order, whose profile survives loading. */
  function Sources(names: seq<string>, importer: string -> Option<App>): seq<string> {
    if |names| == 0 then []
    else
      var last := names[|names| - 1];
      Sources(names[..|names| - 1], importer) + (if Loads(last, importer) then [last] else [])
  }

  /** The profiles appended, in the listed order, by the loading loop. */
  function Loaded(names: seq<string>, importer: string -> Option<App>): (apps: seq<App>)
    ensures |apps| <= |names|
    ensures (forall f :: f in names ==> !IsPy(f)) ==> apps == []
  {
    if |names| == 0 then []
    else
      var last := names[|names| - 1];
      Loaded(names[..|names| - 1], importer)
        + (if IsPy(last) then match importer(ModulePath(last)) case Some(app) => [app] case None => [] else [])
  }

  /** The profile list the firmware starts with. */
  function LoadedApps(files: seq<string>, importer: string -> Option<App>): seq<App> {
    Loaded(SortNames(files), importer)
  }

  /** The loading loop of the start-up code: sort the listing, then import each ".py" name. */
  method LoadApps(files: seq<string>, importer: string -> Option<App>) returns (apps: seq<App>)
    ensures apps == LoadedApps(files, importer)
  {
    var names := SortNames(files);
    apps := [];
    for i := 0 to |names|
      invariant apps == Loaded(names[..i], importer)
    {
      var filename := names[i];
      assert names[..i + 1][..i] == names[..i];
      if IsPy(filename) {
        var imported := importer(ModulePath(filename));
        match imported
        case Some(app) => apps := apps + [app];
        case None =>
      }
    }
    assert names[..|names|] == names;
  }

  /** The i-th loaded profile is the one imported from the i-th surviving file name. */
  lemma {:induction false} LoadedFromSources(names: seq<string>, importer: string -> Option<App>)
    ensures |Loaded(names, importer)| == |Sources(names, importer)|
    ensures forall i :: 0 <= i < |Sources(names, importer)| ==>
      Loads(Sources(names, importer)[i], importer) &&
      Loaded(names, importer)[i] == importer(ModulePath(Sources(names, importer)[i])).value
  {
    if |names| > 0 {
      LoadedFromSources(names[..|names| - 1], importer);
    }
  }

  /** A name survives exactly when it is listed, ends in ".py" and its import succeeds. */
  lemma {:induction false} SourcesMember(names: seq<string>, importer: string -> Option<App>)
    ensures forall f :: f in Sources(names, importer) <==> f in names && Loads(f, importer)
  {
    if |names| > 0 {
      var front := names[..|names| - 1];
      SourcesMember(front, importer);
      assert names == front + [names[|names| - 1]];
    }
  }

  /** Keeping some names of a sorted listing keeps them sorted. */
  lemma {:induction false} SourcesSorted(names: seq<string>, importer: string -> Option<App>)
    requires Sorted(names)
    ensures Sorted(Sources(names, importer))
  {
    if |names| > 0 {
      var front := names[..|names| - 1];
      var last := names[|names| - 1];
      SourcesSorted(front, importer);
      SourcesMember(front, importer);
      var s := Sources(front, importer);
      forall i | 0 <= i < |s| ensures NameLe(s[i], last) {
        assert s[i] in front;
        var k :| 0 <= k < |front| && front[k] == s[i];
        assert names[k] == s[i];
      }
    }
  }

  /**
   * The start-up profile list: profile i comes from the i-th listed file name that ends in
   * ".py" and whose import (of the name without ".py") succeeds, these names taken in
   * ascending order; a name is used exactly when it qualifies.
   */
  lemma LoadedAppsSpec(files: seq<string>, importer: string -> Option<App>)
    ensures var sources := Sources(SortNames(files), importer);
      && Sorted(sources)
      && (forall f :: f in sources <==> f in files && Loads(f, importer))
      && |LoadedApps(files, importer)| == |sources|
      && (forall i :: 0 <= i < |sources| ==>
            IsPy(sources[i]) && importer(MACRO_FOLDER + "/" + sources[i][..|sources[i]| - 3]).Some? &&
            LoadedApps(files, importer)[i] == importer(MACRO_FOLDER + "/" + sources[i][..|sources[i]| - 3]).value)
  {
    var names := SortNames(files);
    SortNamesCorrect(files);
    SourcesSorted(names, importer);
    SourcesMember(names, importer);
    LoadedFromSources(names, importer);
    forall f ensures f in names <==> f in files {
      assert f in multiset(names) <==> f in multiset(files);
    }
  }

  /** No profile is loaded exactly when no listed ".py" name imports successfully. */
  lemma LoadedAppsEmpty(files: seq<string>, importer: string -> Option<App>)
    ensures LoadedApps(files, importer) == [] <==> forall f :: f in files && IsPy(f) ==> importer(ModulePath(f)).None?
  {
    LoadedAppsSpec(files, importer);
    var sources := Sources(SortNames(files), importer);
    if sources != [] {
      assert sources[0] in files && Loads(sources[0], importer);
    }
  }
}
