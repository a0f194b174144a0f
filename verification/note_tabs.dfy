/** The grouper (`Win11NoteTabs`): it sorts a directory listing into tabs by
    root name, parses every tab, and yields each tab's record.

    The tab dictionary is a class attribute that every construction mutates
    in place, so it outlives a construction; here it is the `TabRegistry`
    object handed to `Win11NoteTabs.Create`. `Registry` is its value, and
    `Group`, `FailIndex` and `Iterate` are the pure readings of the two
    loops of the constructor and of `__iter__`. */
module Tabs {
  import opened Wrappers
  import opened PySeq
  import opened TabParser
  import opened Tab

  /** The format a file name is filed under: its auxiliary suffix, or `.bin`
      for anything else, whatever it ends with. */
  function Classify(name: string): (format: string)
    ensures format == ".0.bin" <==> EndsWith(name, ".0.bin")
    ensures format == ".1.bin" <==> EndsWith(name, ".1.bin")
    ensures format == ".bin" <==> !EndsWith(name, ".0.bin") && !EndsWith(name, ".1.bin")
  {
    if EndsWith(name, ".0.bin") then ".0.bin"
    else if EndsWith(name, ".1.bin") then ".1.bin"
    else ".bin"
  }

  /** `file_name.replace(file_format, '')`: every occurrence of the format
      is removed, not only the suffix. */
  function RootOf(name: string): (root: string)
    ensures |root| <= |name|
  {
    ReplaceShrinks(name, Classify(name));
    Replace(name, Classify(name), [])
  }

  /** A root followed by its format gives back the root and the format when
      the format occurs nowhere else in the name. */
  lemma RootOfSoleSuffix(root: string, format: string)
    requires Classify(root + format) == format
    requires forall j :: 0 <= j < |root| ==> !OccursAt(root + format, format, j)
    ensures RootOf(root + format) == root
  {
    ReplaceStripsSoleSuffix(root, format);
  }

  /** A dot-free root followed by any of the three formats is filed under
      that format and gives the root back. */
  lemma RootOfDotless(root: string, format: string)
    requires format == ".bin" || format == ".0.bin" || format == ".1.bin"
    requires forall i :: 0 <= i < |root| ==> root[i] != '.'
    ensures Classify(root + format) == format
    ensures RootOf(root + format) == root
  {
    var name := root + format;
    if format == ".bin" && |name| >= 6 {
      assert name[|name| - 6] == root[|root| - 2];
      assert name[|name| - 6..][0] == name[|name| - 6];
    }
    forall j | 0 <= j < |root|
      ensures !OccursAt(name, format, j)
    {
      if j + |format| <= |name| {
        assert name[j..j + |format|][0] == root[j];
      }
    }
    RootOfSoleSuffix(root, format);
  }

  /** The replacement removes inner occurrences too: a doubled suffix
      leaves only the stem. */
  lemma RootOfDoubledSuffix()
    ensures Classify("a.bin.bin") == ".bin" && RootOf("a.bin.bin") == "a"
  {
    var bin := ".bin";
    assert Replace(bin, bin, []) == [];
    assert Replace(".bin.bin", bin, []) == [] by {
      assert ".bin.bin"[..4] == bin && ".bin.bin"[4..] == bin;
    }
    assert "a.bin.bin"[..4] != bin by {
      assert "a.bin.bin"[..4][0] == 'a';
    }
    assert "a.bin.bin"[1..] == ".bin.bin";
  }

  /** An occurrence in the middle of a name is removed as well. */
  lemma RootOfInnerOccurrence()
    ensures Classify("a.binx.bin") == ".bin" && RootOf("a.binx.bin") == "ax"
  {
    var bin := ".bin";
    assert Replace(bin, bin, []) == [];
    assert Replace("x.bin", bin, []) == "x" by {
      assert "x.bin"[..4] != bin by { assert "x.bin"[..4][0] == 'x'; }
      assert "x.bin"[1..] == bin;
    }
    assert Replace(".binx.bin", bin, []) == "x" by {
      assert ".binx.bin"[..4] == bin && ".binx.bin"[4..] == "x.bin";
    }
    assert "a.binx.bin"[..4] != bin by {
      assert "a.binx.bin"[..4][0] == 'a';
    }
    assert "a.binx.bin"[1..] == ".binx.bin";
  }

  /** A name that does not end in `.bin` is still filed under `.bin`. */
  lemma ClassifyOtherName()
    ensures Classify("a.txt") == ".bin" && RootOf("a.txt") == "a.txt"
  {
    ReplaceShrinks("a.txt", ".bin");
    assert !OccursAt("a.txt", ".bin", 0) by {
      assert "a.txt"[0..4][0] == 'a';
    }
    assert !OccursAt("a.txt", ".bin", 1) by {
      assert "a.txt"[1..5][1] == 't';
    }
  }

  /** Each of the three formats ends in an `n` found nowhere else in it, so
      none of them overlaps itself. */
  lemma FormatLastUnique(name: string)
    ensures LastUnique(Classify(name))
  {
    var f := Classify(name);
    if f == ".bin" {
      assert f[0] == '.' && f[1] == 'b' && f[2] == 'i' && f[3] == 'n';
    } else {
      assert f[0] == '.' && f[2] == '.' && f[3] == 'b' && f[4] == 'i' && f[5] == 'n';
    }
  }

  /** A name whose format also occurs earlier loses at least two copies of
      it, so its root is not the name with the suffix cut off. */
  lemma RootOfEarlierOccurrence(name: string)
    requires EndsWith(name, Classify(name))
    requires exists j :: 0 <= j < |name| - |Classify(name)| && OccursAt(name, Classify(name), j)
    ensures |RootOf(name)| <= |name| - 2 * |Classify(name)|
    ensures RootOf(name) != name[..|name| - |Classify(name)|]
  {
    var f := Classify(name);
    var j :| 0 <= j < |name| - |f| && OccursAt(name, f, j);
    assert OccursAt(name, f, |name| - |f|);
    FormatLastUnique(name);
    ReplaceRemovesTwo(name, f, j, |name| - |f|);
  }

  /** For a name that ends in its format, the root is the name with the
      suffix cut off exactly when the format occurs nowhere before it. */
  lemma RootOfStripsSuffixIff(name: string)
    requires EndsWith(name, Classify(name))
    ensures RootOf(name) == name[..|name| - |Classify(name)|]
        <==> forall j :: 0 <= j < |name| - |Classify(name)| ==> !OccursAt(name, Classify(name), j)
  {
    var f := Classify(name);
    var root := name[..|name| - |f|];
    assert name == root + f;
    if forall j :: 0 <= j < |name| - |f| ==> !OccursAt(name, f, j) {
      RootOfSoleSuffix(root, f);
    } else {
      RootOfEarlierOccurrence(name);
    }
  }

  /** One tab's value: the directory it was created with and its formats. */
  datatype TabState = TabState(dir: string, files: seq<string>)

  /** The dictionary's value: its keys in insertion order, and each tab. */
  datatype Registry = Registry(order: seq<string>, tabs: map<string, TabState>)

  const Empty := Registry([], map[])

  predicate Distinct(s: seq<string>)
  {
    forall i, j :: 0 <= i < j < |s| ==> s[i] != s[j]
  }

  predicate WellFormed(r: Registry)
  {
    && Distinct(r.order)
    && (forall k :: k in r.tabs ==> k in r.order)
    && (forall k :: k in r.order ==> k in r.tabs)
  }

  /** `_tabs.get(root)`, or a new tab made with `dir` and no formats added
      at the end when the root is absent. */
  function GetOrCreate(r: Registry, dir: string, root: string): (r': Registry)
    ensures root in r'.tabs
  {
    if root in r.tabs then r else Registry(r.order + [root], r.tabs[root := TabState(dir, [])])
  }

  /** `_set_file`: one more format at the end of the tab of `root`. */
  function Append(r: Registry, root: string, format: string): Registry
    requires root in r.tabs
  {
    r.(tabs := r.tabs[root := r.tabs[root].(files := r.tabs[root].files + [format])])
  }

  /** One pass of the first loop: get or create the tab of the name's root,
      then append the name's format to it. */
  function AddFile(r: Registry, dir: string, name: string): Registry
  {
    var root := RootOf(name);
    Append(GetOrCreate(r, dir, root), root, Classify(name))
  }

  /** `AddFile` in one step: the tab of the root, as found or as created,
      with the format appended. */
  lemma AddFileShape(r: Registry, dir: string, name: string)
    ensures var root := RootOf(name);
      var tab := if root in r.tabs then r.tabs[root] else TabState(dir, []);
      AddFile(r, dir, name) ==
        Registry(if root in r.tabs then r.order else r.order + [root],
                 r.tabs[root := tab.(files := tab.files + [Classify(name)])])
  {
    var root := RootOf(name);
    if root !in r.tabs {
      var tab := TabState(dir, [Classify(name)]);
      assert r.tabs[root := TabState(dir, [])][root := tab] == r.tabs[root := tab];
    }
  }

  /** The first loop of the constructor over the whole listing. */
  function Group(r: Registry, dir: string, names: seq<string>): (g: Registry)
    ensures |r.order| <= |g.order| <= |r.order| + |names|
    decreases |names|
  {
    if names == [] then r
    else AddFile(Group(r, dir, names[..|names| - 1]), dir, names[|names| - 1])
  }

  /** The formats filed under `root`, in listing order. */
  function FormatsFor(root: string, names: seq<string>): (formats: seq<string>)
    ensures |formats| <= |names|
    decreases |names|
  {
    if names == [] then []
    else
      var init := FormatsFor(root, names[..|names| - 1]);
      var name := names[|names| - 1];
      if RootOf(name) == root then init + [Classify(name)] else init
  }

  /** The roots the listing adds to `known`, each at its first appearance. */
  function NewRoots(known: seq<string>, names: seq<string>): (roots: seq<string>)
    decreases |names|
  {
    if names == [] then []
    else
      var init := NewRoots(known, names[..|names| - 1]);
      var root := RootOf(names[|names| - 1]);
      if root in known || root in init then init else init + [root]
  }

  /** `Group` of a prefix one name longer: one more pass of the loop. */
  lemma GroupPrefixStep(r: Registry, dir: string, names: seq<string>, i: nat)
    requires 0 < i <= |names|
    ensures Group(r, dir, names[..i]) == AddFile(Group(r, dir, names[..i - 1]), dir, names[i - 1])
  {
    assert names[..i][..i - 1] == names[..i - 1] && names[..i][i - 1] == names[i - 1];
  }

  lemma MapsAgree<K, V>(m: map<K, V>, m': map<K, V>)
    requires m.Keys == m'.Keys
    requires forall k :: k in m ==> m[k] == m'[k]
    ensures m == m'
  {
  }

  /** Grouping keeps the dictionary well formed: one entry per root, the
      order listing each key once. */
  lemma {:induction false} GroupWellFormed(r: Registry, dir: string, names: seq<string>)
    requires WellFormed(r)
    ensures WellFormed(Group(r, dir, names))
    decreases |names|
  {
    if names != [] {
      GroupWellFormed(r, dir, names[..|names| - 1]);
      AddFileShape(Group(r, dir, names[..|names| - 1]), dir, names[|names| - 1]);
    }
  }

  /** The keys after grouping are the earlier keys followed by the new
      roots in order of first appearance. */
  lemma {:induction false} GroupOrder(r: Registry, dir: string, names: seq<string>)
    requires WellFormed(r)
    ensures Group(r, dir, names).order == r.order + NewRoots(r.order, names)
    decreases |names|
  {
    if names != [] {
      var init := names[..|names| - 1];
      GroupOrder(r, dir, init);
      GroupWellFormed(r, dir, init);
      AddFileShape(Group(r, dir, init), dir, names[|names| - 1]);
    }
  }

  /** Each root present after grouping has, after its earlier formats (none
      for a new root), exactly the formats of its names in listing order;
      a tab keeps the directory it was created with. */
  lemma {:induction false} GroupFiles(r: Registry, dir: string, names: seq<string>, root: string)
    ensures var g := Group(r, dir, names);
      root in g.tabs <==> root in r.tabs || FormatsFor(root, names) != []
    ensures var g := Group(r, dir, names);
      root in g.tabs ==>
        g.tabs[root] == if root in r.tabs then r.tabs[root].(files := r.tabs[root].files + FormatsFor(root, names))
                        else TabState(dir, FormatsFor(root, names))
    decreases |names|
  {
    if names != [] {
      GroupFiles(r, dir, names[..|names| - 1], root);
      AddFileShape(Group(r, dir, names[..|names| - 1]), dir, names[|names| - 1]);
    }
  }

  /** The registry outlives a construction: earlier keys keep their place
      and their tab's directory, and earlier formats stay in front. */
  lemma GroupPersists(r: Registry, dir: string, names: seq<string>)
    requires WellFormed(r)
    ensures var g := Group(r, dir, names);
      && r.order <= g.order
      && forall k :: k in r.tabs ==>
           k in g.tabs && g.tabs[k].dir == r.tabs[k].dir && r.tabs[k].files <= g.tabs[k].files
  {
    GroupOrder(r, dir, names);
    var g := Group(r, dir, names);
    forall k | k in r.tabs
      ensures k in g.tabs && g.tabs[k].dir == r.tabs[k].dir && r.tabs[k].files <= g.tabs[k].files
    {
      GroupFiles(r, dir, names, k);
    }
  }

  /** Grouping two listings one after the other, as two constructions do,
      is grouping their concatenation. */
  lemma {:induction false} GroupConcat(r: Registry, dir: string, first: seq<string>, second: seq<string>)
    ensures Group(Group(r, dir, first), dir, second) == Group(r, dir, first + second)
    decreases |second|
  {
    if second == [] {
      assert first + second == first;
    } else {
      var init := second[..|second| - 1];
      var last := second[|second| - 1];
      assert second == init + [last];
      var all := first + second;
      assert all[..|all| - 1] == first + init && all[|all| - 1] == last;
      GroupConcat(r, dir, first, init);
    }
  }

  /** The number of formats over the tabs of `order`. */
  function TotalFiles(order: seq<string>, tabs: map<string, TabState>): nat
    requires forall k :: k in order ==> k in tabs
    decreases |order|
  {
    if order == [] then 0 else |tabs[order[0]].files| + TotalFiles(order[1..], tabs)
  }

  lemma {:induction false} TotalFilesAppend(order: seq<string>, k: string, tabs: map<string, TabState>)
    requires forall x :: x in order + [k] ==> x in tabs
    ensures TotalFiles(order + [k], tabs) == TotalFiles(order, tabs) + |tabs[k].files|
    decreases |order|
  {
    if order != [] {
      assert (order + [k])[1..] == order[1..] + [k];
      TotalFilesAppend(order[1..], k, tabs);
    }
  }

  /** Changing the tab of a key that occurs once in `order` (or not at all)
      changes the total by its change in length. */
  lemma {:induction false} TotalFilesUpdate(order: seq<string>, tabs: map<string, TabState>, k: string, tab: TabState)
    requires forall x :: x in order ==> x in tabs
    requires Distinct(order)
    ensures TotalFiles(order, tabs[k := tab]) + (if k in order then |tabs[k].files| else 0)
      == TotalFiles(order, tabs) + (if k in order then |tab.files| else 0)
    decreases |order|
  {
    if order != [] {
      TotalFilesUpdate(order[1..], tabs, k, tab);
      if order[0] == k {
        assert k !in order[1..] by {
          forall j | 0 <= j < |order[1..]| ensures order[1..][j] != k {
            assert order[1..][j] == order[j + 1];
          }
        }
      }
    }
  }

  /** Every name appends exactly one format: the total number of formats
      grows by the length of the listing. */
  lemma {:induction false} GroupCountsFiles(r: Registry, dir: string, names: seq<string>)
    requires WellFormed(r)
    ensures WellFormed(Group(r, dir, names))
    ensures TotalFiles(Group(r, dir, names).order, Group(r, dir, names).tabs) == TotalFiles(r.order, r.tabs) + |names|
    decreases |names|
  {
    GroupWellFormed(r, dir, names);
    if names != [] {
      var init := names[..|names| - 1];
      var p := Group(r, dir, init);
      GroupCountsFiles(r, dir, init);
      var root := RootOf(names[|names| - 1]);
      AddFileShape(p, dir, names[|names| - 1]);
      var tab := if root in p.tabs then p.tabs[root] else TabState(dir, []);
      var tab' := tab.(files := tab.files + [Classify(names[|names| - 1])]);
      TotalFilesUpdate(p.order, p.tabs, root, tab');
      if root !in p.tabs {
        TotalFilesAppend(p.order, root, p.tabs[root := tab']);
      }
    }
  }

  const ExampleNames: seq<string> := ["a.bin", "a.0.bin", "b.bin", "a.1.bin"]

  /** The registry after each name of `ExampleNames`. */
  function ExampleStep(i: nat): Registry
    requires i <= 4
  {
    match i
    case 0 => Empty
    case 1 => Registry(["a"], map["a" := TabState("D", [".bin"])])
    case 2 => Registry(["a"], map["a" := TabState("D", [".bin", ".0.bin"])])
    case 3 => Registry(["a", "b"], map["a" := TabState("D", [".bin", ".0.bin"]), "b" := TabState("D", [".bin"])])
    case _ => Registry(["a", "b"], map["a" := TabState("D", [".bin", ".0.bin", ".1.bin"]), "b" := TabState("D", [".bin"])])
  }

  /** `AddFile` of a dot-free root followed by one of the three formats. */
  lemma AddDotless(r: Registry, dir: string, root: string, format: string)
    requires format == ".bin" || format == ".0.bin" || format == ".1.bin"
    requires forall i :: 0 <= i < |root| ==> root[i] != '.'
    ensures root in r.tabs ==>
      AddFile(r, dir, root + format) == Registry(r.order, r.tabs[root := r.tabs[root].(files := r.tabs[root].files + [format])])
    ensures root !in r.tabs ==>
      AddFile(r, dir, root + format) == Registry(r.order + [root], r.tabs[root := TabState(dir, [format])])
  {
    RootOfDotless(root, format);
    AddFileShape(r, dir, root + format);
    assert [] + [format] == [format];
  }

  lemma ExampleAddFirst()
    ensures AddFile(ExampleStep(0), "D", ExampleNames[0]) == ExampleStep(1)
  {
    assert ExampleNames[0] == "a" + ".bin";
    AddDotless(Empty, "D", "a", ".bin");
    assert [] + ["a"] == ["a"];
  }

  lemma ExampleAddSecond()
    ensures AddFile(ExampleStep(1), "D", ExampleNames[1]) == ExampleStep(2)
  {
    assert ExampleNames[1] == "a" + ".0.bin";
    AddDotless(ExampleStep(1), "D", "a", ".0.bin");
    assert [".bin"] + [".0.bin"] == [".bin", ".0.bin"];
  }

  lemma ExampleAddThird()
    ensures AddFile(ExampleStep(2), "D", ExampleNames[2]) == ExampleStep(3)
  {
    assert ExampleNames[2] == "b" + ".bin";
    AddDotless(ExampleStep(2), "D", "b", ".bin");
    assert ["a"] + ["b"] == ["a", "b"];
  }

  lemma ExampleAddFourth()
    ensures AddFile(ExampleStep(3), "D", ExampleNames[3]) == ExampleStep(4)
  {
    var r := ExampleStep(3);
    var tab := TabState("D", [".bin", ".0.bin", ".1.bin"]);
    assert ExampleNames[3] == "a" + ".1.bin";
    assert AddFile(r, "D", "a" + ".1.bin") == Registry(r.order, r.tabs["a" := tab]) by {
      assert "a" in r.tabs && r.tabs["a"] == TabState("D", [".bin", ".0.bin"]);
      AddDotless(r, "D", "a", ".1.bin");
      assert [".bin", ".0.bin"] + [".1.bin"] == tab.files;
    }
    assert r.tabs["a" := tab] == ExampleStep(4).tabs;
  }

  lemma {:induction false} ExampleGroup(i: nat)
    requires i <= 4
    ensures Group(Empty, "D", ExampleNames[..i]) == ExampleStep(i)
  {
    if i > 0 {
      ExampleGroup(i - 1);
      GroupPrefixStep(Empty, "D", ExampleNames, i);
      if i == 1 { ExampleAddFirst(); }
      else if i == 2 { ExampleAddSecond(); }
      else if i == 3 { ExampleAddThird(); }
      else { ExampleAddFourth(); }
    }
  }

  /** A listing of two tabs, one with both auxiliary files: one entry per
      root in order of first appearance, formats in listing order. */
  lemma GroupExample()
    ensures Group(Empty, "D", ["a.bin", "a.0.bin", "b.bin", "a.1.bin"])
      == Registry(["a", "b"], map["a" := TabState("D", [".bin", ".0.bin", ".1.bin"]), "b" := TabState("D", [".bin"])])
  {
    ExampleGroup(4);
    assert ExampleNames[..4] == ExampleNames;
  }

  /** The order of the listing decides the order of the dictionary. */
  lemma GroupOrderExample()
    ensures Group(Empty, "D", ["b.bin", "a.bin"]).order == ["b", "a"]
  {
    var names := ["b.bin", "a.bin"];
    assert names[..0] == [] && names[..2] == names;
    assert names[0] == "b" + ".bin" && names[1] == "a" + ".bin";
    GroupPrefixStep(Empty, "D", names, 1);
    AddDotless(Empty, "D", "b", ".bin");
    var first := Group(Empty, "D", names[..1]);
    assert first == Registry(["b"], map["b" := TabState("D", [".bin"])]);
    GroupPrefixStep(Empty, "D", names, 2);
    assert "a" !in first.tabs by {
      assert "a"[0] != "b"[0];
    }
    AddDotless(first, "D", "a", ".bin");
    assert ["b"] + ["a"] == ["b", "a"];
  }

  /** A second construction over another directory reuses the tab made by
      the first, which keeps the first directory. */
  lemma PersistenceExample()
    ensures Group(Group(Empty, "D", ["a.bin"]), "E", ["a.bin"])
      == Registry(["a"], map["a" := TabState("D", [".bin", ".bin"])])
  {
    RootOfDotless("a", ".bin");
    assert "a" + ".bin" == "a.bin";
    var r1 := Registry(["a"], map["a" := TabState("D", [".bin"])]);
    assert RootOf("a.bin") == "a";
    assert Classify("a.bin") == ".bin";
    assert AddFile(Empty, "D", "a.bin") == r1 by {
      assert "a" !in Empty.tabs;
      assert [] + ["a"] == ["a"];
      var t := TabState("D", [] + [".bin"]);
      assert t == TabState("D", [".bin"]);
    }
    assert Group(Empty, "D", ["a.bin"]) == r1 by {
      GroupPrefixStep(Empty, "D", ["a.bin"], 1);
      assert ["a.bin"][..1] == ["a.bin"] && ["a.bin"][..0] == [];
    }
    assert AddFile(r1, "E", "a.bin") == Registry(["a"], map["a" := TabState("D", [".bin", ".bin"])]) by {
      assert [".bin"] + [".bin"] == [".bin", ".bin"];
      assert r1.tabs["a" := TabState("D", [".bin", ".bin"])] == map["a" := TabState("D", [".bin", ".bin"])];
    }
    GroupPrefixStep(r1, "E", ["a.bin"], 1);
    assert ["a.bin"][..1] == ["a.bin"] && ["a.bin"][..0] == [];
  }

  /** How `_parse` of the tab at `root` ends. */
  function TabScan(r: Registry, root: string, fs: FileSystem): ScanResult
    requires root in r.tabs
  {
    Scan(r.tabs[root].dir, root, r.tabs[root].files, fs)
  }

  /** The position in `r.order` from `from` on of the first tab whose parse
      raises, or the length of the order when none does. */
  function FailIndexFrom(r: Registry, fs: FileSystem, from: nat): (n: nat)
    requires forall k :: k in r.order ==> k in r.tabs
    requires from <= |r.order|
    ensures from <= n <= |r.order|
    ensures forall j :: from <= j < n ==> TabScan(r, r.order[j], fs).error.None?
    ensures n < |r.order| ==> TabScan(r, r.order[n], fs).error.Some?
    decreases |r.order| - from
  {
    if from == |r.order| then from
    else if TabScan(r, r.order[from], fs).error.Some? then from
    else FailIndexFrom(r, fs, from + 1)
  }

  /** The second loop of the constructor: every tab is parsed in dictionary
      order until one raises; this is that tab's position. */
  function FailIndex(r: Registry, fs: FileSystem): (n: nat)
    requires forall k :: k in r.order ==> k in r.tabs
    ensures n <= |r.order|
    ensures forall j :: 0 <= j < n ==> TabScan(r, r.order[j], fs).error.None?
    ensures n < |r.order| ==> TabScan(r, r.order[n], fs).error.Some?
  {
    FailIndexFrom(r, fs, 0)
  }

  /** `FailIndex` is the position of the first failing tab. */
  lemma FailIndexIs(r: Registry, fs: FileSystem, i: nat)
    requires forall k :: k in r.order ==> k in r.tabs
    requires i <= |r.order|
    requires forall j :: 0 <= j < i ==> TabScan(r, r.order[j], fs).error.None?
    requires i < |r.order| ==> TabScan(r, r.order[i], fs).error.Some?
    ensures FailIndex(r, fs) == i
  {
  }

  /** A root created by this listing whose formats are all auxiliary gets
      no parser from its parse. */
  lemma NewAuxiliaryRootStoresNothing(r: Registry, dir: string, names: seq<string>, root: string, fs: FileSystem)
    requires root !in r.tabs && root in Group(r, dir, names).tabs
    requires forall f :: f in FormatsFor(root, names) ==> IsMagic(f)
    ensures TabScan(Group(r, dir, names), root, fs) == ScanResult(None, None)
  {
    GroupFiles(r, dir, names, root);
    var formats := FormatsFor(root, names);
    assert forall i :: 0 <= i < |formats| ==> formats[i] in formats;
    AllMagicStoresNothing(dir, root, formats, fs);
  }

  /** The record of a tab's parser, `None` when it has none. */
  type Record = Option<seq<(string, Value)>>

  /** What consuming `__iter__` produces: the pairs yielded, and the
      exception that ended it, if any. */
  datatype IterResult = IterResult(pairs: seq<(string, seq<(string, Value)>)>, error: Option<PyError>)

  predicate Visible(root: string)
  {
    !StartsWith(root, "_")
  }

  /** `__iter__`: for each root in order that does not start with `_`, the
      key `root + '.bin'` and the record; `dict(None)` raises TypeError. */
  function Iterate(order: seq<string>, records: map<string, Record>): (r: IterResult)
    requires forall k :: k in order ==> k in records
    ensures |r.pairs| <= |order|
    ensures r.error == None || r.error == Some(TypeError)
    decreases |order|
  {
    if order == [] then IterResult([], None)
    else if !Visible(order[0]) then Iterate(order[1..], records)
    else
      match records[order[0]]
      case None => IterResult([], Some(TypeError))
      case Some(items) =>
        var rest := Iterate(order[1..], records);
        IterResult([(order[0] + ".bin", items)] + rest.pairs, rest.error)
  }

  /** The roots `__iter__` reports, in order. */
  function VisibleRoots(order: seq<string>): (roots: seq<string>)
    ensures forall k :: k in roots <==> k in order && Visible(k)
    decreases |order|
  {
    if order == [] then []
    else if Visible(order[0]) then [order[0]] + VisibleRoots(order[1..])
    else VisibleRoots(order[1..])
  }

  /** Iteration fails, always with TypeError, exactly when a reported root
      has no parser. */
  lemma {:induction false} IterateFailsIff(order: seq<string>, records: map<string, Record>)
    requires forall k :: k in order ==> k in records
    ensures Iterate(order, records).error.Some? <==>
      exists k :: k in order && Visible(k) && records[k].None?
    ensures Iterate(order, records).error.Some? ==> Iterate(order, records).error == Some(TypeError)
    decreases |order|
  {
    if order != [] {
      IterateFailsIff(order[1..], records);
      if exists k :: k in order[1..] && Visible(k) && records[k].None? {
        var k :| k in order[1..] && Visible(k) && records[k].None?;
        assert k in order;
      }
      if exists k :: k in order && Visible(k) && records[k].None? {
        var k :| k in order && Visible(k) && records[k].None?;
        if k != order[0] {
          assert k in order[1..];
        }
      }
    }
  }

  /** When no reported root lacks a parser, the keys are the reported roots
      with `.bin` appended, in dictionary order, each with its record. */
  lemma {:induction false} IterateYields(order: seq<string>, records: map<string, Record>)
    requires forall k :: k in order ==> k in records
    ensures Iterate(order, records).error.None? ==>
      |Iterate(order, records).pairs| == |VisibleRoots(order)|
    ensures Iterate(order, records).error.None? ==>
      forall i :: 0 <= i < |Iterate(order, records).pairs| ==>
        && Iterate(order, records).pairs[i].0 == VisibleRoots(order)[i] + ".bin"
        && records[VisibleRoots(order)[i]] == Some(Iterate(order, records).pairs[i].1)
    decreases |order|
  {
    if order != [] {
      var rest := Iterate(order[1..], records);
      IterateYields(order[1..], records);
      if Visible(order[0]) && records[order[0]].Some? {
        var pairs := Iterate(order, records).pairs;
        var roots := VisibleRoots(order);
        assert pairs == [(order[0] + ".bin", records[order[0]].value)] + rest.pairs;
        assert roots == [order[0]] + VisibleRoots(order[1..]);
        if rest.error.None? {
          forall i | 0 <= i < |pairs|
            ensures pairs[i].0 == roots[i] + ".bin" && records[roots[i]] == Some(pairs[i].1)
          {
            if i > 0 {
              assert pairs[i] == rest.pairs[i - 1] && roots[i] == VisibleRoots(order[1..])[i - 1];
            }
          }
        }
      }
    }
  }

  /** The root a yielded key was made from: the key without its last four
      characters. */
  function KeyRoot(key: string): string
  {
    if |key| < 4 then key else key[..|key| - 4]
  }

  lemma KeyRootOf(root: string)
    ensures KeyRoot(root + ".bin") == root
  {
    assert (root + ".bin")[..|root|] == root;
  }

  /** Every key of `pairs` is a root of `order` with `.bin` appended. */
  predicate KeysFromRoots(pairs: seq<(string, seq<(string, Value)>)>, order: seq<string>)
  {
    forall i :: 0 <= i < |pairs| ==> KeyRoot(pairs[i].0) in order && pairs[i].0 == KeyRoot(pairs[i].0) + ".bin"
  }

  lemma KeysFromRootsCons(root: string, items: seq<(string, Value)>, pairs: seq<(string, seq<(string, Value)>)>,
                          order: seq<string>)
    requires root in order && KeysFromRoots(pairs, order)
    ensures KeysFromRoots([(root + ".bin", items)] + pairs, order)
  {
    KeyRootOf(root);
    var all := [(root + ".bin", items)] + pairs;
    forall i | 1 <= i < |all|
      ensures KeyRoot(all[i].0) in order && all[i].0 == KeyRoot(all[i].0) + ".bin"
    {
      assert all[i] == pairs[i - 1];
    }
  }

  /** Every key yielded is a root of `order` with `.bin` appended. */
  lemma {:induction false} IterateRootsFrom(order: seq<string>, records: map<string, Record>)
    requires forall k :: k in order ==> k in records
    ensures KeysFromRoots(Iterate(order, records).pairs, order)
    decreases |order|
  {
    if order != [] {
      var rest := order[1..];
      IterateRootsFrom(rest, records);
      var restPairs := Iterate(rest, records).pairs;
      assert KeysFromRoots(restPairs, order) by {
        assert forall k :: k in rest ==> k in order;
      }
      if Visible(order[0]) && records[order[0]].Some? {
        KeysFromRootsCons(order[0], records[order[0]].value, restPairs, order);
      }
    }
  }

  /** Distinct roots give distinct keys, so no record overwrites another in
      the dictionary built from the iteration. */
  lemma {:induction false} IterateKeysDistinct(order: seq<string>, records: map<string, Record>)
    requires forall k :: k in order ==> k in records
    requires Distinct(order)
    ensures forall i, j :: 0 <= i < j < |Iterate(order, records).pairs| ==>
      Iterate(order, records).pairs[i].0 != Iterate(order, records).pairs[j].0
    decreases |order|
  {
    if order != [] {
      var rest := order[1..];
      assert Distinct(rest) by {
        forall i, j | 0 <= i < j < |rest| ensures rest[i] != rest[j] {
          assert rest[i] == order[i + 1] && rest[j] == order[j + 1];
        }
      }
      assert order[0] !in rest by {
        forall m | 0 <= m < |rest| ensures rest[m] != order[0] {
          assert rest[m] == order[m + 1];
        }
      }
      IterateKeysDistinct(rest, records);
      IterateRootsFrom(rest, records);
      KeyRootOf(order[0]);
      var pairs := Iterate(order, records).pairs;
      var restPairs := Iterate(rest, records).pairs;
      if !Visible(order[0]) {
        assert pairs == restPairs;
      } else if records[order[0]].None? {
        assert pairs == [];
      } else {
        assert pairs == [(order[0] + ".bin", records[order[0]].value)] + restPairs;
        forall i, j | 0 <= i < j < |pairs| ensures pairs[i].0 != pairs[j].0 {
          assert pairs[j] == restPairs[j - 1];
          if i > 0 {
            assert pairs[i] == restPairs[i - 1];
          }
        }
      }
    }
  }

  /** The parser a tab held in `before`; a tab not in it had none. */
  function Prior(before: map<string, Win11NoteTabParser?>, k: string): Win11NoteTabParser?
  {
    if k in before then before[k] else null
  }

  /** The class-level tab dictionary: keys in insertion order and the tab
      of each root. */
  class TabRegistry {
    var order: seq<string>
    var tabs: map<string, Win11NoteTab>

    predicate Valid()
      reads this
    {
      && Distinct(order)
      && (forall k :: k in tabs ==> k in order)
      && (forall k :: k in order ==> k in tabs)
      && (forall k :: k in tabs ==> tabs[k].rootTabName == k)
    }

    /** The dictionary as it is first defined: empty. */
    constructor ()
      ensures Valid() && order == [] && tabs == map[]
    {
      order := [];
      tabs := map[];
    }

    /** The dictionary's value. */
    function Abs(): (r: Registry)
      reads this, tabs.Values`tabFiles
      ensures r.order == order && r.tabs.Keys == tabs.Keys
    {
      Registry(order, map k | k in tabs :: TabState(tabs[k].dir, tabs[k].tabFiles))
    }

    /** The parsers the tabs hold. */
    function Parsers(): set<Win11NoteTabParser>
      reads this, tabs.Values`parsed
    {
      set k | k in tabs && tabs[k].parsed != null :: tabs[k].parsed
    }

    /** The record of each tab's parser, as `dict(value.parsed)` reads it. */
    function Records(): (m: map<string, Record>)
      reads this, tabs.Values`parsed, Parsers()
      ensures m.Keys == tabs.Keys
      ensures forall k :: k in tabs ==> (m[k].None? <==> tabs[k].parsed == null)
      ensures forall k :: k in tabs && tabs[k].parsed != null ==> m[k] == Some(tabs[k].parsed.Items())
    {
      map k | k in tabs :: if tabs[k].parsed == null then None else Some(tabs[k].parsed.Items())
    }

    /** The parser each tab holds. */
    function ParserMap(): (m: map<string, Win11NoteTabParser?>)
      reads this, tabs.Values`parsed
      ensures m.Keys == tabs.Keys
      ensures forall k :: k in tabs ==> m[k] == tabs[k].parsed
    {
      map k | k in tabs :: tabs[k].parsed
    }

    /** How `_parse` of the tab at position `j` ends. */
    function ScanAt(j: nat, fs: FileSystem): ScanResult
      requires Valid() && j < |order|
      reads this, tabs.Values`tabFiles
    {
      Scan(tabs[order[j]].dir, order[j], tabs[order[j]].tabFiles, fs)
    }

    /** The tabs up to position `n` (included) hold what `_parse` stores,
        starting from their parser in `before`; the later ones keep that
        parser. */
    ghost predicate ParsedUpTo(before: map<string, Win11NoteTabParser?>, n: int, fs: FileSystem)
      requires Valid()
      reads this, tabs.Values, Parsers()
    {
      forall j :: 0 <= j < |order| ==>
        if j <= n then tabs[order[j]].ParsedFrom(Prior(before, order[j]), fs)
        else tabs[order[j]].parsed == Prior(before, order[j])
    }

    /** The get-or-create step: the tab of `root`, made with `dir` and no
        formats at the end of the dictionary when it is absent. */
    method TabFor(dir: string, root: string) returns (tab: Win11NoteTab)
      requires Valid()
      modifies this
      ensures Valid() && root in tabs && tab == tabs[root]
      ensures tabs == old(tabs)[root := tab]
      ensures root in old(tabs) ==> tab == old(tabs[root])
      ensures root !in old(tabs) ==> fresh(tab) && tab.parsed == null
      ensures Abs() == GetOrCreate(old(Abs()), dir, root)
    {
      if root in tabs {
        tab := tabs[root];
      } else {
        tab := new Win11NoteTab(dir, root);
        tabs := tabs[root := tab];
        order := order + [root];
      }
    }

    /** `value._set_file(format)` on the tab of `root`. */
    method AppendFormat(tab: Win11NoteTab, root: string, format: string)
      requires Valid() && root in tabs && tab == tabs[root]
      modifies tab`tabFiles
      ensures Valid()
      ensures Abs() == Append(old(Abs()), root, format)
    {
      ghost var target := Append(Abs(), root, format).tabs;
      label Before:
      tab.SetFile(format);
      forall k | k in tabs
        ensures Abs().tabs[k] == target[k]
      {
        if k != root {
          assert tabs[k].rootTabName == k;
          assert tabs[k].tabFiles == old@Before(tabs[k].tabFiles);
        }
      }
      MapsAgree(Abs().tabs, target);
    }

    /** One pass of the constructor's first loop: get or create the tab of
        the name's root and append the name's format to it. */
    method AddListedFile(dir: string, name: string)
      requires Valid()
      modifies this, tabs.Values`tabFiles
      ensures Valid()
      ensures Abs() == AddFile(old(Abs()), dir, name)
      ensures forall k :: k in old(tabs) ==> k in tabs && tabs[k] == old(tabs[k])
      ensures forall k :: k in tabs && k !in old(tabs) ==> fresh(tabs[k]) && tabs[k].parsed == null
    {
      var root := RootOf(name);
      var tab := TabFor(dir, root);
      AppendFormat(tab, root, Classify(name));
    }

    /** The constructor's first loop: each name's format is appended to the
        tab of its root, created at the root's first appearance. */
    method GroupListing(dir: string, names: seq<string>)
      requires Valid()
      modifies this, tabs.Values`tabFiles
      ensures Valid()
      ensures Abs() == Group(old(Abs()), dir, names)
      ensures forall k :: k in old(tabs) ==> k in tabs && tabs[k] == old(tabs[k])
      ensures forall k :: k in tabs && k !in old(tabs) ==> fresh(tabs[k]) && tabs[k].parsed == null
      ensures forall k :: k in tabs ==> tabs[k].parsed == Prior(old(ParserMap()), k)
    {
      ghost var before := ParserMap();
      var i := 0;
      while i < |names|
        invariant 0 <= i <= |names|
        invariant Valid()
        invariant Abs() == Group(old(Abs()), dir, names[..i])
        invariant forall k :: k in old(tabs) ==> k in tabs && tabs[k] == old(tabs[k])
        invariant forall k :: k in tabs && k !in old(tabs) ==> fresh(tabs[k]) && tabs[k].parsed == null
      {
        AddListedFile(dir, names[i]);
        GroupPrefixStep(old(Abs()), dir, names, i + 1);
        i := i + 1;
      }
      assert names[..i] == names;
      forall k | k in tabs
        ensures tabs[k].parsed == Prior(before, k)
      {
        if k in old(tabs) {
          assert tabs[k] == old(tabs[k]);
        }
      }
    }

    /** `FailIndex` read off the tabs themselves: `n` is the position of
        the first tab whose scan fails. */
    lemma FailIndexOfTabs(fs: FileSystem, n: nat)
      requires Valid() && n <= |order|
      requires forall j :: 0 <= j < n ==> ScanAt(j, fs).error.None?
      requires n < |order| ==> ScanAt(n, fs).error.Some?
      ensures FailIndex(Abs(), fs) == n
      ensures n < |order| ==> TabScan(Abs(), order[n], fs) == ScanAt(n, fs)
    {
      var r := Abs();
      forall j | 0 <= j < |order|
        ensures TabScan(r, order[j], fs) == ScanAt(j, fs)
      {
      }
      FailIndexIs(r, fs, n);
    }

    /** The loop of `ParseAll`: `n` is the position where it stops. */
    method ParseInOrder(fs: FileSystem, ghost before: map<string, Win11NoteTabParser?>) returns (err: Option<PyError>, n: nat)
      requires Valid()
      requires forall k :: k in tabs ==> tabs[k].parsed == Prior(before, k)
      modifies tabs.Values`parsed
      ensures n <= |order|
      ensures forall j :: 0 <= j < n ==> ScanAt(j, fs).error.None?
      ensures n < |order| ==> err == ScanAt(n, fs).error && err.Some?
      ensures n == |order| ==> err.None?
      ensures ParsedUpTo(before, n, fs)
    {
      var i := 0;
      while i < |order|
        invariant 0 <= i <= |order|
        invariant forall j :: 0 <= j < i ==> ScanAt(j, fs).error.None?
        invariant ParsedUpTo(before, i - 1, fs)
      {
        err := ParseTabAt(tabs[order[i]], i, fs, before);
        if err.Some? {
          return err, i;
        }
        i := i + 1;
      }
      return None, i;
    }

    /** One pass of the constructor's second loop: `_parse` of the tab at
        position `i`, which changes no other tab. */
    method ParseTabAt(tab: Win11NoteTab, i: nat, fs: FileSystem, ghost before: map<string, Win11NoteTabParser?>)
      returns (err: Option<PyError>)
      requires Valid() && i < |order| && tab == tabs[order[i]]
      requires ParsedUpTo(before, i - 1, fs)
      modifies tab`parsed
      ensures err == ScanAt(i, fs).error
      ensures ParsedUpTo(before, i, fs)
    {
      forall j | 0 <= j < |order| && j != i
        ensures tabs[order[j]] != tab
      {
        assert tabs[order[j]].rootTabName == order[j];
      }
      err := tab.Parse(fs);
    }

    /** The constructor's second loop: every tab is parsed in dictionary
        order, and an exception from one ends the loop. `before` names the
        parser each tab holds on entry. */
    method ParseAll(fs: FileSystem, ghost before: map<string, Win11NoteTabParser?>) returns (err: Option<PyError>)
      requires Valid()
      requires forall k :: k in tabs ==> tabs[k].parsed == Prior(before, k)
      modifies tabs.Values`parsed
      ensures Valid() && Abs() == old(Abs())
      ensures var n := FailIndex(Abs(), fs);
        err == if n < |order| then TabScan(Abs(), order[n], fs).error else None
      ensures ParsedUpTo(before, FailIndex(Abs(), fs), fs)
    {
      var n;
      err, n := ParseInOrder(fs, before);
      FailIndexOfTabs(fs, n);
    }

    /** The body of the grouper's initialiser: the first loop over the
        listing, then the second over the tabs; the error is the one that
        escapes, if any. */
    method GroupAndParse(dir: string, names: seq<string>, fs: FileSystem) returns (err: Option<PyError>)
      requires Valid()
      modifies this, tabs.Values
      ensures Valid()
      ensures Abs() == Group(old(Abs()), dir, names)
      ensures var n := FailIndex(Abs(), fs);
        err == if n < |order| then TabScan(Abs(), order[n], fs).error else None
      ensures ParsedUpTo(old(ParserMap()), FailIndex(Abs(), fs), fs)
    {
      ghost var before := ParserMap();
      GroupListing(dir, names);
      err := ParseAll(fs, before);
    }
  }

  class Win11NoteTabs {
    const tabDir: string
    const registry: TabRegistry

    constructor (tabDir: string, registry: TabRegistry)
      ensures this.tabDir == tabDir && this.registry == registry
    {
      this.tabDir := tabDir;
      this.registry := registry;
    }

    /** `Win11NoteTabs(tab_dir, listing)`: groups the listing into the
        shared registry, then parses every tab; an exception from a parse
        escapes, leaving the registry grouped and partly parsed. */
    static method Create(registry: TabRegistry, tabDir: string, names: seq<string>, fs: FileSystem)
      returns (r: Result<Win11NoteTabs, PyError>)
      requires registry.Valid()
      modifies registry, registry.tabs.Values
      ensures registry.Valid()
      ensures registry.Abs() == Group(old(registry.Abs()), tabDir, names)
      ensures var n := FailIndex(registry.Abs(), fs);
        && (r.Success? <==> n == |registry.order|)
        && (r.Failure? ==> n < |registry.order| && TabScan(registry.Abs(), registry.order[n], fs).error == Some(r.error))
      ensures r.Success? ==> fresh(r.value) && r.value.registry == registry && r.value.tabDir == tabDir
      ensures registry.ParsedUpTo(old(registry.ParserMap()), FailIndex(registry.Abs(), fs), fs)
    {
      var err := registry.GroupAndParse(tabDir, names, fs);
      if err.Some? {
        r := Failure(err.value);
      } else {
        var tabs := new Win11NoteTabs(tabDir, registry);
        r := Success(tabs);
      }
    }

    /** Consuming `__iter__`. */
    function Items(): (r: IterResult)
      requires registry.Valid()
      reads registry, registry.tabs.Values`parsed, registry.Parsers()
      ensures r.error.Some? <==>
        exists k :: k in registry.order && Visible(k) && registry.tabs[k].parsed == null
      ensures r.error.Some? ==> r.error == Some(TypeError)
      ensures r.error.None? ==> |r.pairs| == |VisibleRoots(registry.order)|
      ensures r.error.None? ==> forall i :: 0 <= i < |r.pairs| ==>
        var k := VisibleRoots(registry.order)[i];
        && r.pairs[i].0 == k + ".bin"
        && registry.tabs[k].parsed != null
        && r.pairs[i].1 == registry.tabs[k].parsed.Items()
      ensures forall i, j :: 0 <= i < j < |r.pairs| ==> r.pairs[i].0 != r.pairs[j].0
    {
      var records := registry.Records();
      IterateFailsIff(registry.order, records);
      IterateKeysDistinct(registry.order, records);
      IterateYields(registry.order, records);
      Iterate(registry.order, records)
    }
  }
}
