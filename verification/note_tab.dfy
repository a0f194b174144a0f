/** One Notepad tab (`Win11NoteTab`): the root name shared by a tab's files,
    the list of file formats seen for it, and the parser of the last
    non-auxiliary file.

    `Scan` is the pure reading of `_parse`'s loop over the formats; the
    class's `Parse` method is proved to end in the state it describes. */
module Tab {
  import opened Wrappers
  import opened PySeq
  import opened TabParser

  /** The auxiliary `.0.bin` and `.1.bin` files, which are never parsed. */
  const MagicFiles: seq<string> := [".0.bin", ".1.bin"]

  predicate IsMagic(format: string)
  {
    format in MagicFiles
  }

  /** `dir / f"{root}{format}"`, with the join kept opaque. */
  function FilePath(dir: string, root: string, format: string): Path
  {
    Path(dir, root + format)
  }

  /** The formats `_parse` opens, in order: those that are not auxiliary. */
  function NonMagic(formats: seq<string>): (r: seq<string>)
    ensures |r| <= |formats|
    decreases |formats|
  {
    if formats == [] then []
    else
      var init := NonMagic(formats[..|formats| - 1]);
      var f := formats[|formats| - 1];
      if IsMagic(f) then init else init + [f]
  }

  /** The formats opened are exactly the listed ones that are not auxiliary. */
  lemma {:induction false} NonMagicMembers(formats: seq<string>)
    ensures forall f :: f in NonMagic(formats) <==> f in formats && !IsMagic(f)
    decreases |formats|
  {
    if formats != [] {
      var init := formats[..|formats| - 1];
      NonMagicMembers(init);
      assert formats == init + [formats[|formats| - 1]];
    }
  }

  /** How `_parse`'s loop ends: the format whose parser was stored last in
      this run (`None` when none was), and the exception that escaped. */
  datatype ScanResult = ScanResult(stored: Option<string>, error: Option<PyError>)

  /** `_parse` over `formats`: each non-auxiliary format replaces the stored
      parser, and the first file that fails ends the loop with its error. */
  function Scan(dir: string, root: string, formats: seq<string>, fs: FileSystem): (r: ScanResult)
    ensures r.stored.Some? ==> r.stored.value in formats && !IsMagic(r.stored.value)
    decreases |formats|
  {
    if formats == [] then ScanResult(None, None)
    else
      var prev := Scan(dir, root, formats[..|formats| - 1], fs);
      var f := formats[|formats| - 1];
      if prev.error.Some? || IsMagic(f) then prev
      else
        match Load(FilePath(dir, root, f), fs)
        case Failure(e) => ScanResult(prev.stored, Some(e))
        case Success(_) => ScanResult(Some(f), None)
  }

  /** `Scan` of a list with one more format at its end. */
  lemma ScanSnoc(dir: string, root: string, formats: seq<string>, f: string, fs: FileSystem)
    ensures var prev := Scan(dir, root, formats, fs);
      Scan(dir, root, formats + [f], fs) ==
        if prev.error.Some? || IsMagic(f) then prev
        else match Load(FilePath(dir, root, f), fs)
          case Failure(e) => ScanResult(prev.stored, Some(e))
          case Success(_) => ScanResult(Some(f), None)
  {
    assert (formats + [f])[..|formats|] == formats;
  }

  /** Once a file has failed, later formats change nothing. */
  lemma {:induction false} ScanErrorSticks(dir: string, root: string, formats: seq<string>, more: seq<string>, fs: FileSystem)
    requires Scan(dir, root, formats, fs).error.Some?
    ensures Scan(dir, root, formats + more, fs) == Scan(dir, root, formats, fs)
    decreases |more|
  {
    if more != [] {
      var init := more[..|more| - 1];
      var all := formats + more;
      assert all != [] && all[..|all| - 1] == formats + init;
      ScanErrorSticks(dir, root, formats, init, fs);
      assert Scan(dir, root, all, fs) == Scan(dir, root, formats + init, fs);
    } else {
      assert formats + more == formats;
    }
  }

  /** Auxiliary formats play no part: the loop behaves as if only the
      non-auxiliary formats were listed. */
  lemma {:induction false} ScanSkipsMagic(dir: string, root: string, formats: seq<string>, fs: FileSystem)
    ensures Scan(dir, root, formats, fs) == Scan(dir, root, NonMagic(formats), fs)
    decreases |formats|
  {
    if formats != [] {
      var init := formats[..|formats| - 1];
      var f := formats[|formats| - 1];
      ScanSkipsMagic(dir, root, init, fs);
      assert formats == init + [f];
      ScanSnoc(dir, root, init, f, fs);
      if IsMagic(f) {
        assert NonMagic(formats) == NonMagic(init);
      } else {
        assert NonMagic(formats) == NonMagic(init) + [f];
        ScanSnoc(dir, root, NonMagic(init), f, fs);
      }
    }
  }

  /** When no file fails, the stored parser is that of the listed format
      at the largest position that is not auxiliary; when every listed
      format is auxiliary, nothing is stored. */
  lemma {:induction false} ScanStoresLastListed(dir: string, root: string, formats: seq<string>, fs: FileSystem)
    requires Scan(dir, root, formats, fs).error.None?
    ensures var stored := Scan(dir, root, formats, fs).stored;
      && (stored.None? <==> forall i :: 0 <= i < |formats| ==> IsMagic(formats[i]))
      && (stored.Some? ==> exists i :: 0 <= i < |formats| && LastNonMagicAt(formats, i) && stored.value == formats[i])
    decreases |formats|
  {
    if formats != [] {
      var n := |formats| - 1;
      var init, f := formats[..n], formats[n];
      assert formats == init + [f];
      ScanSnoc(dir, root, init, f, fs);
      var prev := Scan(dir, root, init, fs);
      assert prev.error.None?;
      ScanStoresLastListed(dir, root, init, fs);
      if IsMagic(f) {
        if prev.stored.Some? {
          var i :| 0 <= i < |init| && LastNonMagicAt(init, i) && prev.stored.value == init[i];
          assert LastNonMagicAt(formats, i);
        } else {
          forall i | 0 <= i < |formats|
            ensures IsMagic(formats[i])
          {
            if i < n {
              assert formats[i] == init[i];
            }
          }
        }
      } else {
        assert LastNonMagicAt(formats, n);
      }
    }
  }

  /** Position `i` holds a non-auxiliary format and every later one is
      auxiliary. */
  predicate LastNonMagicAt(formats: seq<string>, i: int)
    requires 0 <= i < |formats|
  {
    !IsMagic(formats[i]) && forall j :: i < j < |formats| ==> IsMagic(formats[j])
  }

  /** When no file fails, the stored parser is that of the last
      non-auxiliary format; with none, nothing is stored. */
  lemma {:induction false} ScanLastWins(dir: string, root: string, formats: seq<string>, fs: FileSystem)
    requires Scan(dir, root, formats, fs).error.None?
    ensures var nonMagic := NonMagic(formats);
      Scan(dir, root, formats, fs).stored == if nonMagic == [] then None else Some(nonMagic[|nonMagic| - 1])
    decreases |formats|
  {
    if formats != [] {
      var init := formats[..|formats| - 1];
      ScanLastWins(dir, root, init, fs);
    }
  }

  /** The loop fails exactly when some non-auxiliary file cannot be loaded. */
  lemma {:induction false} ScanFailsIff(dir: string, root: string, formats: seq<string>, fs: FileSystem)
    ensures Scan(dir, root, formats, fs).error.None? <==>
      forall i :: 0 <= i < |formats| && !IsMagic(formats[i]) ==> Load(FilePath(dir, root, formats[i]), fs).Success?
    decreases |formats|
  {
    if formats != [] {
      var init := formats[..|formats| - 1];
      var f := formats[|formats| - 1];
      ScanFailsIff(dir, root, init, fs);
      if Scan(dir, root, init, fs).error.Some? {
        var i :| 0 <= i < |init| && !IsMagic(init[i]) && Load(FilePath(dir, root, init[i]), fs).Failure?;
        assert formats[i] == init[i];
      }
    }
  }

  /** `formats[i]` is the first non-auxiliary format whose file fails to
      load, and it fails with `e`. */
  ghost predicate FirstFailureAt(dir: string, root: string, formats: seq<string>, fs: FileSystem, i: int, e: PyError)
  {
    && 0 <= i < |formats| && !IsMagic(formats[i])
    && Load(FilePath(dir, root, formats[i]), fs) == Failure(e)
    && forall j :: 0 <= j < i && !IsMagic(formats[j]) ==> Load(FilePath(dir, root, formats[j]), fs).Success?
  }

  /** The error that escapes is that of the first non-auxiliary file that
      fails to load. */
  lemma {:induction false} ScanFirstError(dir: string, root: string, formats: seq<string>, fs: FileSystem)
    requires Scan(dir, root, formats, fs).error.Some?
    ensures exists i :: FirstFailureAt(dir, root, formats, fs, i, Scan(dir, root, formats, fs).error.value)
    decreases |formats|
  {
    var init := formats[..|formats| - 1];
    var e := Scan(dir, root, formats, fs).error.value;
    if Scan(dir, root, init, fs).error.Some? {
      ScanFirstError(dir, root, init, fs);
      var i :| FirstFailureAt(dir, root, init, fs, i, e);
      assert FirstFailureAt(dir, root, formats, fs, i, e);
    } else {
      ScanFailsIff(dir, root, init, fs);
      assert FirstFailureAt(dir, root, formats, fs, |init|, e);
    }
  }

  /** A tab whose formats are all auxiliary stores no parser. */
  lemma AllMagicStoresNothing(dir: string, root: string, formats: seq<string>, fs: FileSystem)
    requires forall i :: 0 <= i < |formats| ==> IsMagic(formats[i])
    ensures Scan(dir, root, formats, fs) == ScanResult(None, None)
  {
    ScanSkipsMagic(dir, root, formats, fs);
    NonMagicMembers(formats);
    if NonMagic(formats) != [] {
      var f := NonMagic(formats)[0];
      assert f in formats;
    }
  }

  /** `p` is the parser `_parse` leaves when its loop ends in `r`: the one
      loaded from the file of the format stored last, or `before` when the
      loop stored none. */
  predicate ParsedAs(p: Win11NoteTabParser?, before: Win11NoteTabParser?, dir: string, root: string,
                     r: ScanResult, fs: FileSystem)
    reads p
  {
    && (r.stored.None? ==> p == before)
    && (r.stored.Some? ==>
          && p != null
          && p.filePath == FilePath(dir, root, r.stored.value)
          && Load(p.filePath, fs).Success?
          && p.Attrs() == AttributesOf(Load(p.filePath, fs).value))
  }

  class Win11NoteTab {
    const dir: string
    const rootTabName: string
    var tabFiles: seq<string>
    var parsed: Win11NoteTabParser?

    /** A new tab: no formats, no parser. */
    constructor (dir: string, rootTabName: string)
      ensures this.dir == dir && this.rootTabName == rootTabName
      ensures tabFiles == [] && parsed == null
    {
      this.dir := dir;
      this.rootTabName := rootTabName;
      tabFiles := [];
      parsed := null;
    }

    /** `_set_file`: one more format at the end; duplicates are kept. */
    method SetFile(format: string)
      modifies this`tabFiles
      ensures tabFiles == old(tabFiles) + [format]
    {
      tabFiles := tabFiles + [format];
    }

    /** The stored parser is the one `Scan` names, loaded from `fs`, or
        `before` when this run stored none. */
    predicate ParsedFrom(before: Win11NoteTabParser?, fs: FileSystem)
      reads this, parsed
    {
      ParsedAs(parsed, before, dir, rootTabName, Scan(dir, rootTabName, tabFiles, fs), fs)
    }

    /** `_parse`: builds a parser for every non-auxiliary format in order;
        an exception from one ends the loop and escapes. */
    method Parse(fs: FileSystem) returns (err: Option<PyError>)
      modifies this`parsed
      ensures err == Scan(dir, rootTabName, tabFiles, fs).error
      ensures ParsedFrom(old(parsed), fs)
      ensures parsed != old(parsed) ==> fresh(parsed)
    {
      var i := 0;
      while i < |tabFiles|
        invariant 0 <= i <= |tabFiles|
        invariant Scan(dir, rootTabName, tabFiles[..i], fs).error.None?
        invariant var r := Scan(dir, rootTabName, tabFiles[..i], fs);
          && (r.stored.None? ==> parsed == old(parsed))
          && (r.stored.Some? ==>
                && parsed != null && fresh(parsed)
                && parsed.filePath == FilePath(dir, rootTabName, r.stored.value)
                && Load(parsed.filePath, fs).Success?
                && parsed.Attrs() == AttributesOf(Load(parsed.filePath, fs).value))
      {
        var format := tabFiles[i];
        assert tabFiles[..i + 1] == tabFiles[..i] + [format];
        ScanSnoc(dir, rootTabName, tabFiles[..i], format, fs);
        if format in MagicFiles {
          i := i + 1;
          continue;
        }
        var r := Win11NoteTabParser.Open(FilePath(dir, rootTabName, format), fs);
        if r.Failure? {
          assert tabFiles == tabFiles[..i + 1] + tabFiles[i + 1..];
          ScanErrorSticks(dir, rootTabName, tabFiles[..i + 1], tabFiles[i + 1..], fs);
          return Some(r.error);
        }
        parsed := r.value;
        i := i + 1;
      }
      assert tabFiles[..i] == tabFiles;
      return None;
    }

    /** `__repr__`: the file name of each format, in order. */
    function Render(): (names: seq<string>)
      reads this
      ensures |names| == |tabFiles|
      ensures forall i :: 0 <= i < |tabFiles| ==> names[i] == rootTabName + tabFiles[i]
    {
      seq(|tabFiles|, i requires 0 <= i < |tabFiles| reads this => rootTabName + tabFiles[i])
    }
  }
}
