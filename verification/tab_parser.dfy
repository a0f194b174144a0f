/** The Notepad tab-state decoder (`Win11NoteTabParser`).

    `Decode` is the pure reading of a file's bytes: it says which attributes
    the parser assigns and which exception, if any, escapes. The class
    `Win11NoteTabParser` assigns its attributes one after another, as the
    Python object does, and its methods are proved to end in the state
    `Decode` describes. */
module TabParser {
  import opened Wrappers
  import opened PySeq
  import Utf16

  /** A file location: the directory and the file name joined onto it. */
  datatype Path = Path(dir: string, name: string)

  /** The bytes each existing file holds. */
  type FileSystem = map<Path, seq<byte>>

  /** The Python exceptions that can arise; only `ValueError` is caught
      by the parser. */
  datatype PyError =
    | IndexError(index: nat)
    | TypeError
    | ValueError
    | FileNotFoundError(path: Path)

  const DelimiterStartFlag: seq<byte> := [0x00, 0x01]
  const DelimiterEndFlag: seq<byte> := [0x01, 0x00, 0x00, 0x00]
  const SavedFileIndex: nat := 3
  const FilenameLenIndex: nat := 4
  const FilenameStartIndex: nat := 5
  const BodyEndIndex: int := -5

  /** `_decode_utf16`: the decoded text, or "" when decoding fails. */
  function DecodeUtf16(data: seq<byte>): (text: string)
    ensures |text| <= |data| / 2
    ensures |data| % 2 == 1 ==> text == ""
    ensures Utf16.Decode(data).None? ==> text == ""
    ensures Utf16.Decode(data).Some? ==> text == Utf16.Decode(data).value
  {
    match Utf16.Decode(data)
    case Some(s) => s
    case None => ""
  }

  /** `_find_delimiters`: the first start marker at or after `startIndex`,
      and the end marker searched from two bytes after it; the second
      index is reported 2 bytes before the end marker's actual position.
      `None` where `bytes.index` raises ValueError. */
  function FindDelimiters(data: seq<byte>, startIndex: nat): (r: Option<(nat, nat)>)
    ensures r.Some? ==>
      && startIndex <= r.value.0 && r.value.0 <= r.value.1
      && OccursAt(data, DelimiterStartFlag, r.value.0)
      && OccursAt(data, DelimiterEndFlag, r.value.1 + 2)
  {
    match IndexFrom(data, DelimiterStartFlag, startIndex)
    case None => None
    case Some(delimiterStart) =>
      match IndexFrom(data, DelimiterEndFlag, delimiterStart + |DelimiterStartFlag|)
      case None => None
      case Some(endAt) =>
        // data[start + 2:].index(end_flag) + start
        Some((delimiterStart, endAt - |DelimiterStartFlag|))
  }

  /** The delimiters found are the first start marker at or after
      `startIndex` and the first end marker at or after the start marker's
      end, minus 2; when none are found, one of the two searches fails. */
  lemma FindDelimitersFirstMatches(data: seq<byte>, startIndex: nat)
    ensures var r := FindDelimiters(data, startIndex);
      r.Some? ==>
        FirstAtOrAfter(data, DelimiterStartFlag, startIndex, r.value.0) &&
        FirstAtOrAfter(data, DelimiterEndFlag, r.value.0 + 2, r.value.1 + 2)
    ensures var r := FindDelimiters(data, startIndex);
      r.None? ==>
        NoneAtOrAfter(data, DelimiterStartFlag, startIndex) ||
        exists start :: FirstAtOrAfter(data, DelimiterStartFlag, startIndex, start) &&
                        NoneAtOrAfter(data, DelimiterEndFlag, start + 2)
  {
  }

  datatype Filename = Filename(lenByte: byte, lenUtf16: nat, bytes: seq<byte>)
  {
    /** `filename_utf_16`. */
    function Text(): string
    {
      DecodeUtf16(bytes)
    }
  }

  datatype Header = Header(magicBytes: seq<byte>, isSavedFile: bool, filename: Option<Filename>)

  datatype Body = Body(bytes: seq<byte>, endBytes: seq<byte>)
  {
    /** `body_utf16`. */
    function Text(): string
    {
      DecodeUtf16(bytes)
    }
  }

  /** What `_parse_header` does: read a header, or fail on the index it
      could not read. */
  datatype HeaderResult = HeaderRead(header: Header) | HeaderShort(index: nat)

  /** How parsing one buffer ends. */
  datatype Outcome =
      /** every attribute assigned */
    | Parsed(header: Header, body: Body)
      /** a marker is absent: `ValueError`, caught, leaves the header only */
    | MarkerMissing(header: Header)
      /** an unsaved tab: `None + 5` raises an uncaught `TypeError` */
    | UnsavedTypeError(header: Header)
      /** the buffer ends at or before `index` (3 or 4): uncaught `IndexError` */
    | ShortBuffer(index: nat, magicBytes: seq<byte>)

  function ReadHeader(data: seq<byte>): (r: HeaderResult)
    ensures r.HeaderShort? <==>
      |data| <= SavedFileIndex || (data[SavedFileIndex] != 0 && |data| <= FilenameLenIndex)
    ensures r.HeaderRead? ==>
      && r.header.magicBytes == data[..SavedFileIndex]
      && r.header.isSavedFile == (data[SavedFileIndex] != 0)
      && (r.header.filename.Some? <==> r.header.isSavedFile)
  {
    if |data| <= SavedFileIndex then HeaderShort(SavedFileIndex)
    else if data[SavedFileIndex] == 0 then
      HeaderRead(Header(Slice(data, 0, SavedFileIndex), false, None))
    else if |data| <= FilenameLenIndex then HeaderShort(FilenameLenIndex)
    else
      var lenByte := data[FilenameLenIndex];
      var lenUtf16: nat := (lenByte as int) * 2;
      var bytes := Slice(data, FilenameStartIndex, FilenameStartIndex + lenUtf16);
      HeaderRead(Header(Slice(data, 0, SavedFileIndex), true,
                        Some(Filename(lenByte, lenUtf16, bytes))))
  }

  /** Where `_parse_body` starts searching for a saved tab: just past the
      filename, `5 + filename_len_utf_16`. */
  function BodySearchStart(data: seq<byte>): nat
    requires |data| > FilenameLenIndex
  {
    FilenameStartIndex + 2 * (data[FilenameLenIndex] as int)
  }

  /** The body fields once the markers are found, from `_parse_body`. */
  function BodyAt(data: seq<byte>, delimiterEnd: nat): Body
  {
    var bytes := Slice(data, delimiterEnd + 4, BodyEndIndex);
    Body(bytes, Slice(data, BodyEndIndex, |data|))
  }

  /** `_parse` on a buffer. */
  function Decode(data: seq<byte>): (r: Outcome)
    ensures r.ShortBuffer? ==> r.index == SavedFileIndex || r.index == FilenameLenIndex
    ensures r.UnsavedTypeError? ==> !r.header.isSavedFile
    ensures r.Parsed? || r.MarkerMissing? ==> r.header.isSavedFile && r.header.filename.Some?
  {
    match ReadHeader(data)
    case HeaderShort(index) => ShortBuffer(index, Slice(data, 0, SavedFileIndex))
    case HeaderRead(header) =>
      if header.filename.None? then UnsavedTypeError(header)
      else
        match FindDelimiters(data, header.filename.value.lenUtf16 + FilenameStartIndex)
        case None => MarkerMissing(header)
        case Some(delimiters) => Parsed(header, BodyAt(data, delimiters.1))
  }

  /** The exception that escapes the parser's constructor. */
  function ErrorOf(outcome: Outcome): Option<PyError>
  {
    match outcome
    case Parsed(_, _) => None
    case MarkerMissing(_) => None
    case UnsavedTypeError(_) => Some(TypeError)
    case ShortBuffer(index, _) => Some(IndexError(index))
  }

  /** The instance attributes of a parser, `None` where never assigned. */
  datatype Attributes = Attributes(
    magicBytes: Option<seq<byte>>,
    isSavedFile: Option<bool>,
    filenameLenByte: Option<byte>,
    filenameLenUtf16: Option<nat>,
    filenameBytes: Option<seq<byte>>,
    filenameUtf16: Option<string>,
    bodyBytes: Option<seq<byte>>,
    bodyUtf16: Option<string>,
    bodyEndBytes: Option<seq<byte>>)

  const Unassigned := Attributes(None, None, None, None, None, None, None, None, None)

  function HeaderAttributes(header: Header): Attributes
  {
    match header.filename
    case None => Unassigned.(magicBytes := Some(header.magicBytes), isSavedFile := Some(header.isSavedFile))
    case Some(f) =>
      Attributes(Some(header.magicBytes), Some(header.isSavedFile), Some(f.lenByte), Some(f.lenUtf16),
                 Some(f.bytes), Some(f.Text()), None, None, None)
  }

  /** The attributes `_parse_header` leaves, whether or not it raises. */
  function HeaderStep(data: seq<byte>): Attributes
  {
    match ReadHeader(data)
    case HeaderShort(index) =>
      Unassigned.(magicBytes := Some(Slice(data, 0, SavedFileIndex)),
                  isSavedFile := if index == FilenameLenIndex then Some(true) else None)
    case HeaderRead(header) => HeaderAttributes(header)
  }

  function WithBody(a: Attributes, body: Body): Attributes
  {
    a.(bodyBytes := Some(body.bytes), bodyUtf16 := Some(body.Text()), bodyEndBytes := Some(body.endBytes))
  }

  function AttributesOf(outcome: Outcome): Attributes
  {
    match outcome
    case Parsed(header, body) => WithBody(HeaderAttributes(header), body)
    case MarkerMissing(header) => HeaderAttributes(header)
    case UnsavedTypeError(header) => HeaderAttributes(header)
    case ShortBuffer(index, magic) =>
      Unassigned.(magicBytes := Some(magic),
                  isSavedFile := if index == FilenameLenIndex then Some(true) else None)
  }

  /** Reading and parsing the file at `path`: the outcome when the
      constructor returns, or the exception that escapes it. */
  function Load(path: Path, fs: FileSystem): (r: Result<Outcome, PyError>)
    ensures r.Success? ==> path in fs && r.value == Decode(fs[path]) && ErrorOf(r.value).None?
    ensures r.Failure? ==> path !in fs || Some(r.error) == ErrorOf(Decode(fs[path]))
    ensures path !in fs ==> r == Failure(FileNotFoundError(path))
  {
    if path !in fs then Failure(FileNotFoundError(path))
    else
      var outcome := Decode(fs[path]);
      match ErrorOf(outcome)
      case Some(e) => Failure(e)
      case None => Success(outcome)
  }

  /** What `__iter__` yields for one attribute. Byte strings are yielded as
      their Python display form, which is not modelled: `BytesText` carries
      the bytes it renders, and `PathText` the path `str(file_path)` renders. */
  datatype Value =
    | Text(text: string)
    | Flag(flag: bool)
    | Int(number: int)
    | BytesText(bytes: seq<byte>)
    | PathText(path: Path)

  function Item<T>(key: string, v: Option<T>, f: T -> Value): seq<(string, Value)>
  {
    if v.Some? then [(key, f(v.value))] else []
  }

  /** `__iter__`: the public attributes actually assigned, in assignment order. */
  function ItemsOf(path: Path, a: Attributes): (r: seq<(string, Value)>)
    ensures 1 <= |r| <= 10 && r[0] == ("file_path", PathText(path))
  {
    [("file_path", PathText(path))]
    + Item("magic_bytes", a.magicBytes, b => BytesText(b))
    + Item("is_saved_file", a.isSavedFile, b => Flag(b))
    + Item("filename_len_byte", a.filenameLenByte, (n: byte) => Int(n))
    + Item("filename_len_utf_16", a.filenameLenUtf16, (n: nat) => Int(n))
    + Item("filename_bytes", a.filenameBytes, b => BytesText(b))
    + Item("filename_utf_16", a.filenameUtf16, s => Text(s))
    + Item("body_bytes", a.bodyBytes, b => BytesText(b))
    + Item("body_utf16", a.bodyUtf16, s => Text(s))
    + Item("body_end_bytes", a.bodyEndBytes, b => BytesText(b))
  }

  function Keys(items: seq<(string, Value)>): (keys: seq<string>)
    ensures |keys| == |items|
    ensures forall i :: 0 <= i < |items| ==> keys[i] == items[i].0
  {
    seq(|items|, i requires 0 <= i < |items| => items[i].0)
  }

  const HeaderKeys: seq<string> :=
    ["file_path", "magic_bytes", "is_saved_file", "filename_len_byte",
     "filename_len_utf_16", "filename_bytes", "filename_utf_16"]

  const BodyKeys: seq<string> := ["body_bytes", "body_utf16", "body_end_bytes"]

  /** `magic_bytes` is the first min(3, len) bytes and is always assigned;
      `is_saved_file` is whether byte 3 is non-zero; a buffer of at most 3
      bytes, or a saved one of at most 4, fails with an uncaught IndexError. */
  lemma HeaderPrefix(data: seq<byte>)
    ensures AttributesOf(Decode(data)).magicBytes == Some(data[..Min(SavedFileIndex, |data|)])
    ensures |data| <= SavedFileIndex ==>
      Decode(data) == ShortBuffer(SavedFileIndex, data) && AttributesOf(Decode(data)).isSavedFile == None
    ensures |data| > SavedFileIndex ==> AttributesOf(Decode(data)).isSavedFile == Some(data[SavedFileIndex] != 0)
    ensures Decode(data).ShortBuffer? <==>
      |data| <= SavedFileIndex || (data[SavedFileIndex] != 0 && |data| <= FilenameLenIndex)
    ensures Decode(data).ShortBuffer? ==> ErrorOf(Decode(data)) == Some(IndexError(Decode(data).index))
  {
    SliceFacts(data, 0, SavedFileIndex);
  }

  /** For a saved tab, `filename_len_utf_16` is twice byte 4 and
      `filename_bytes` is the (clamped) run of that many bytes from index 5. */
  lemma SavedFilename(data: seq<byte>)
    requires |data| > FilenameLenIndex && data[SavedFileIndex] != 0
    ensures Decode(data).Parsed? || Decode(data).MarkerMissing?
    ensures var h := Decode(data).header;
      && h.isSavedFile && h.filename.Some?
      && h.filename.value.lenByte == data[FilenameLenIndex]
      && h.filename.value.lenUtf16 == 2 * (data[FilenameLenIndex] as int)
      && h.filename.value.bytes == data[FilenameStartIndex..Min(BodySearchStart(data), |data|)]
      && |h.filename.value.bytes| <= h.filename.value.lenUtf16
  {
    SliceFacts(data, FilenameStartIndex, BodySearchStart(data));
  }

  /** An unsaved tab never gets a body: `filename_len_utf_16` is still None,
      and `None + 5` raises a TypeError that escapes. */
  lemma UnsavedRaisesTypeError(data: seq<byte>)
    requires |data| > SavedFileIndex && data[SavedFileIndex] == 0
    ensures Decode(data) == UnsavedTypeError(Header(data[..SavedFileIndex], false, None))
    ensures ErrorOf(Decode(data)) == Some(TypeError)
    ensures AttributesOf(Decode(data)).filenameLenUtf16 == None
    ensures AttributesOf(Decode(data)).bodyBytes == None
  {
    SliceFacts(data, 0, SavedFileIndex);
  }

  lemma FirstIsUnique<T>(s: seq<T>, pat: seq<T>, from: int, i: int, j: int)
    requires FirstAtOrAfter(s, pat, from, i) && FirstAtOrAfter(s, pat, from, j)
    ensures i == j
  {
  }

  /** A parsed record comes from a saved header whose delimiter search
      succeeded, and its body is read at the end position found. */
  lemma DecodeParsed(data: seq<byte>)
    requires Decode(data).Parsed?
    ensures |data| > FilenameLenIndex && data[SavedFileIndex] != 0
    ensures FindDelimiters(data, BodySearchStart(data)).Some?
    ensures Decode(data).body == BodyAt(data, FindDelimiters(data, BodySearchStart(data)).value.1)
  {
  }

  /** The body read two bytes before an end marker at `end`: from the marker's
      third byte up to the last five bytes, which are the trailer. */
  lemma BodyAtMarker(data: seq<byte>, end: nat)
    requires end >= FilenameStartIndex + 2 && OccursAt(data, DelimiterEndFlag, end)
    ensures |data| >= end + 4
    ensures BodyAt(data, end - 2).bytes == (if end + 2 < |data| - 5 then data[end + 2..|data| - 5] else [])
    ensures BodyAt(data, end - 2).endBytes == data[|data| - 5..]
  {
    SliceFacts(data, end + 2, BodyEndIndex);
    SliceFacts(data, BodyEndIndex, |data|);
  }

  /** A parsed body is the slice from two bytes past the first end-marker
      position up to the last five bytes (empty when that start is at or
      past len - 5), and the trailer is the last five bytes. */
  lemma ParsedBody(data: seq<byte>)
    requires Decode(data).Parsed?
    ensures |data| > FilenameLenIndex && data[SavedFileIndex] != 0
    ensures FindDelimiters(data, BodySearchStart(data)).Some?
    ensures var d := FindDelimiters(data, BodySearchStart(data)).value;
      && FirstAtOrAfter(data, DelimiterStartFlag, BodySearchStart(data), d.0)
      && FirstAtOrAfter(data, DelimiterEndFlag, d.0 + 2, d.1 + 2)
    ensures var end := FindDelimiters(data, BodySearchStart(data)).value.1 + 2;
      var body := Decode(data).body;
      body.bytes == (if end + 2 < |data| - 5 then data[end + 2..|data| - 5] else [])
    ensures |data| >= 11
    ensures Decode(data).body.endBytes == data[|data| - 5..]
  {
    DecodeParsed(data);
    var from := BodySearchStart(data);
    FindDelimitersFirstMatches(data, from);
    var d := FindDelimiters(data, from).value;
    BodyAtMarker(data, d.1 + 2);
  }

  /** With a saved header, the record lacks its body exactly when no start
      marker follows the filename, or no end marker follows the first one. */
  lemma MarkerMissingExactly(data: seq<byte>)
    requires |data| > FilenameLenIndex && data[SavedFileIndex] != 0
    ensures var from := BodySearchStart(data);
      Decode(data).MarkerMissing? <==>
        (NoneAtOrAfter(data, DelimiterStartFlag, from) ||
         exists start :: FirstAtOrAfter(data, DelimiterStartFlag, from, start) &&
                         NoneAtOrAfter(data, DelimiterEndFlag, start + 2))
  {
    var from := BodySearchStart(data);
    FindDelimitersFirstMatches(data, from);
    var r := FindDelimiters(data, from);
    if r.Some? {
      var d := r.value;
      assert OccursAt(data, DelimiterStartFlag, d.0);
      assert OccursAt(data, DelimiterEndFlag, d.1 + 2);
      forall start | FirstAtOrAfter(data, DelimiterStartFlag, from, start)
        ensures !NoneAtOrAfter(data, DelimiterEndFlag, start + 2)
      {
        FirstIsUnique(data, DelimiterStartFlag, from, start, d.0);
      }
    }
  }

  predicate HeaderAssigned(a: Attributes)
  {
    a.magicBytes.Some? && a.isSavedFile.Some? && a.filenameLenByte.Some? &&
    a.filenameLenUtf16.Some? && a.filenameBytes.Some? && a.filenameUtf16.Some?
  }

  /** With every header attribute assigned, the keys are the header's seven
      followed by whichever body attributes are assigned, all three or none. */
  lemma KeysWithHeader(path: Path, a: Attributes)
    requires HeaderAssigned(a)
    ensures a.bodyBytes.Some? && a.bodyUtf16.Some? && a.bodyEndBytes.Some? ==>
      Keys(ItemsOf(path, a)) == HeaderKeys + BodyKeys
    ensures a.bodyBytes.None? && a.bodyUtf16.None? && a.bodyEndBytes.None? ==>
      Keys(ItemsOf(path, a)) == HeaderKeys
  {
    var items := ItemsOf(path, a);
    if a.bodyBytes.Some? && a.bodyUtf16.Some? && a.bodyEndBytes.Some? {
      assert |items| == 10;
    } else if a.bodyBytes.None? && a.bodyUtf16.None? && a.bodyEndBytes.None? {
      assert |items| == 7;
    }
  }

  /** The keys `__iter__` yields: every attribute of a parsed record, the
      header's seven when a marker is missing; both kinds of surviving record
      are saved tabs. */
  lemma IteratedKeys(path: Path, data: seq<byte>)
    ensures Decode(data).Parsed? ==>
      Keys(ItemsOf(path, AttributesOf(Decode(data)))) == HeaderKeys + BodyKeys
    ensures Decode(data).MarkerMissing? ==>
      Keys(ItemsOf(path, AttributesOf(Decode(data)))) == HeaderKeys
    ensures ErrorOf(Decode(data)).None? ==> AttributesOf(Decode(data)).isSavedFile == Some(true)
  {
    var o := Decode(data);
    if o.Parsed? || o.MarkerMissing? {
      assert o.header.filename.Some?;
      KeysWithHeader(path, AttributesOf(o));
    }
  }

  /** The bytes of a saved tab: magic bytes, the saved flag, the name's
      length in code units, the name's bytes, both markers, the body's bytes
      and a five-byte trailer. */
  function SavedBytes(magic: seq<byte>, n: byte, nameBytes: seq<byte>, bodyBytes: seq<byte>, trailer: seq<byte>): seq<byte>
  {
    (magic + [1, n] + nameBytes) + (DelimiterStartFlag + DelimiterEndFlag + bodyBytes + trailer)
  }

  /** A saved tab with its name and body written in UTF-16LE. */
  function SavedLayout(magic: seq<byte>, name: string, body: string, trailer: seq<byte>): seq<byte>
    requires |Utf16.EncodeUnits(name)| < 256
  {
    SavedBytes(magic, |Utf16.EncodeUnits(name)|, Utf16.EncodeLittleEndian(name), Utf16.EncodeLittleEndian(body), trailer)
  }

  /** The same layout for an unsaved tab, which has no name. */
  function UnsavedLayout(magic: seq<byte>, body: string, trailer: seq<byte>): seq<byte>
    requires |magic| == 3 && |trailer| == 5
  {
    magic + [0] + DelimiterStartFlag + DelimiterEndFlag + Utf16.EncodeLittleEndian(body) + trailer
  }

  /** Where the four parts of `a + b + c + d` lie. */
  lemma Parts<T>(a: seq<T>, b: seq<T>, c: seq<T>, d: seq<T>, k: nat)
    requires k <= |b|
    ensures a + b + c + d == a + (b + c + d)
    ensures (a + b + c + d)[0..|a|] == a
    ensures (a + b + c + d)[|a|..|a| + |b|] == b
    ensures (a + b + c + d)[|a| + k..|a| + |b|] == b[k..]
    ensures (a + b + c + d)[|a| + k..|a| + |b| + |c|] == b[k..] + c
    ensures (a + b + c + d)[|a| + |b| + |c|..] == d
  {
  }

  /** Markers lying right at the search position are the ones found. */
  lemma MarkersAtStart(data: seq<byte>, from: nat)
    requires from + 6 <= |data| && data[from..from + 6] == DelimiterStartFlag + DelimiterEndFlag
    ensures FindDelimiters(data, from) == Some((from, from))
  {
    var markers := data[from..from + 6];
    assert data[from..from + 2] == markers[..2] == DelimiterStartFlag;
    assert data[from + 2..from + 6] == markers[2..] == DelimiterEndFlag;
    assert FirstAtOrAfter(data, DelimiterStartFlag, from, from);
    assert FirstAtOrAfter(data, DelimiterEndFlag, from + 2, from + 2);
    FindDelimitersFirstMatches(data, from);
    var d := FindDelimiters(data, from).value;
    FirstIsUnique(data, DelimiterStartFlag, from, d.0, from);
    FirstIsUnique(data, DelimiterEndFlag, from + 2, d.1 + 2, from + 2);
  }

  /** The body text of the layout: a U+0000 from the end marker's last two
      bytes, then the body. */
  lemma LeadingZeroBody(body: string)
    ensures Utf16.EncodeLittleEndian(['\0'] + body) == [0, 0] + Utf16.EncodeLittleEndian(body)
    ensures DecodeUtf16([0, 0] + Utf16.EncodeLittleEndian(body)) == ['\0'] + body
  {
    assert Utf16.EncodeUnits(['\0'] + body) == [0] + Utf16.EncodeUnits(body) by {
      assert (['\0'] + body)[1..] == body;
    }
    var units := [0] + Utf16.EncodeUnits(body);
    assert units[1..] == Utf16.EncodeUnits(body);
    Utf16.DecodeWithoutMark(['\0'] + body);
  }

  /** A saved header and markers found after the name give a parsed record. */
  lemma DecodeSaved(data: seq<byte>, header: Header, delimiters: (nat, nat))
    requires ReadHeader(data) == HeaderRead(header) && header.filename.Some?
    requires FindDelimiters(data, header.filename.value.lenUtf16 + FilenameStartIndex) == Some(delimiters)
    ensures Decode(data) == Parsed(header, BodyAt(data, delimiters.1))
  {
  }

  lemma SavedBytesHeader(magic: seq<byte>, n: byte, nameBytes: seq<byte>, bodyBytes: seq<byte>, trailer: seq<byte>)
    requires |magic| == 3 && |nameBytes| == 2 * n
    ensures ReadHeader(SavedBytes(magic, n, nameBytes, bodyBytes, trailer))
      == HeaderRead(Header(magic, true, Some(Filename(n, 2 * n, nameBytes))))
  {
    var data := SavedBytes(magic, n, nameBytes, bodyBytes, trailer);
    Parts(magic, [1, n], nameBytes, DelimiterStartFlag + DelimiterEndFlag + bodyBytes + trailer, 0);
    assert data[3] == 1 && data[4] == n;
    SliceFacts(data, 0, SavedFileIndex);
    SliceFacts(data, FilenameStartIndex, FilenameStartIndex + 2 * n);
  }

  lemma SavedBytesMarkers(magic: seq<byte>, n: byte, nameBytes: seq<byte>, bodyBytes: seq<byte>, trailer: seq<byte>)
    requires |magic| == 3 && |nameBytes| == 2 * n
    ensures var from := FilenameStartIndex + 2 * n;
      FindDelimiters(SavedBytes(magic, n, nameBytes, bodyBytes, trailer), from) == Some((from, from))
  {
    var prefix := magic + [1, n] + nameBytes;
    Parts(prefix, DelimiterStartFlag + DelimiterEndFlag, bodyBytes, trailer, 0);
    MarkersAtStart(SavedBytes(magic, n, nameBytes, bodyBytes, trailer), |prefix|);
  }

  lemma SavedBytesBody(magic: seq<byte>, n: byte, nameBytes: seq<byte>, bodyBytes: seq<byte>, trailer: seq<byte>)
    requires |magic| == 3 && |nameBytes| == 2 * n && |trailer| == 5
    ensures var body := BodyAt(SavedBytes(magic, n, nameBytes, bodyBytes, trailer), FilenameStartIndex + 2 * n);
      body.bytes == [0, 0] + bodyBytes && body.endBytes == trailer
  {
    var prefix := magic + [1, n] + nameBytes;
    var markers := DelimiterStartFlag + DelimiterEndFlag;
    var data := SavedBytes(magic, n, nameBytes, bodyBytes, trailer);
    var from := |prefix|;
    Parts(prefix, markers, bodyBytes, trailer, 0);
    assert |data| == from + 6 + |bodyBytes| + 5;
    assert OccursAt(data, DelimiterEndFlag, from + 2) by {
      Parts(prefix, markers, bodyBytes, trailer, 2);
      assert markers[2..] == DelimiterEndFlag;
    }
    assert data[from + 4..|data| - 5] == [0, 0] + bodyBytes by {
      Parts(prefix, markers, bodyBytes, trailer, 4);
      assert markers[4..] == [0, 0];
    }
    BodyAtMarker(data, from + 2);
  }

  /** A saved tab's bytes decode to its header and the body read from two
      bytes into the end marker. */
  lemma SavedBytesDecode(magic: seq<byte>, n: byte, nameBytes: seq<byte>, bodyBytes: seq<byte>, trailer: seq<byte>)
    requires |magic| == 3 && |nameBytes| == 2 * n && |trailer| == 5
    ensures Decode(SavedBytes(magic, n, nameBytes, bodyBytes, trailer)) == Parsed(
      Header(magic, true, Some(Filename(n, 2 * n, nameBytes))),
      Body([0, 0] + bodyBytes, trailer))
  {
    var from := FilenameStartIndex + 2 * n;
    SavedBytesHeader(magic, n, nameBytes, bodyBytes, trailer);
    SavedBytesMarkers(magic, n, nameBytes, bodyBytes, trailer);
    SavedBytesBody(magic, n, nameBytes, bodyBytes, trailer);
    DecodeSaved(SavedBytes(magic, n, nameBytes, bodyBytes, trailer),
                Header(magic, true, Some(Filename(n, 2 * n, nameBytes))), (from, from));
  }

  /** A saved tab in this layout recovers its magic bytes, name and trailer
      exactly; because the body is taken from two bytes into the end marker,
      its text gains a leading U+0000. */
  lemma SavedLayoutDecodes(magic: seq<byte>, name: string, body: string, trailer: seq<byte>)
    requires |magic| == 3 && |trailer| == 5 && |Utf16.EncodeUnits(name)| < 256
    requires name == [] || (name[0] != '\U{FEFF}' && name[0] != '\U{FFFE}')
    ensures var n := |Utf16.EncodeUnits(name)|;
      Decode(SavedLayout(magic, name, body, trailer)) == Parsed(
        Header(magic, true, Some(Filename(n, 2 * n, Utf16.EncodeLittleEndian(name)))),
        Body([0, 0] + Utf16.EncodeLittleEndian(body), trailer))
    ensures var o := Decode(SavedLayout(magic, name, body, trailer));
      o.Parsed? && o.header.filename.Some? && o.header.filename.value.Text() == name && o.body.Text() == ['\0'] + body
  {
    SavedBytesDecode(magic, |Utf16.EncodeUnits(name)|, Utf16.EncodeLittleEndian(name),
                     Utf16.EncodeLittleEndian(body), trailer);
    Utf16.DecodeWithoutMark(name);
    LeadingZeroBody(body);
  }

  /** An unsaved tab in the layout does not decode: it raises TypeError. */
  lemma UnsavedLayoutRaises(magic: seq<byte>, body: string, trailer: seq<byte>)
    requires |magic| == 3 && |trailer| == 5
    ensures Decode(UnsavedLayout(magic, body, trailer)) == UnsavedTypeError(Header(magic, false, None))
  {
    var data := UnsavedLayout(magic, body, trailer);
    assert data[3] == 0 && data[..3] == magic;
    UnsavedRaisesTypeError(data);
  }

  /** `Decode` told as the two steps of `_parse`: the header step, then
      the body step, which needs `filename_len_utf_16`. */
  lemma DecodeInSteps(data: seq<byte>)
    ensures ReadHeader(data).HeaderShort? ==>
      AttributesOf(Decode(data)) == HeaderStep(data) && ErrorOf(Decode(data)) == Some(IndexError(ReadHeader(data).index))
    ensures ReadHeader(data).HeaderRead? && HeaderStep(data).filenameLenUtf16.None? ==>
      AttributesOf(Decode(data)) == HeaderStep(data) && ErrorOf(Decode(data)) == Some(TypeError)
    ensures ReadHeader(data).HeaderRead? && HeaderStep(data).filenameLenUtf16.Some? ==>
      ErrorOf(Decode(data)) == None &&
      match FindDelimiters(data, HeaderStep(data).filenameLenUtf16.value + FilenameStartIndex)
      case None => AttributesOf(Decode(data)) == HeaderStep(data)
      case Some(d) => AttributesOf(Decode(data)) == WithBody(HeaderStep(data), BodyAt(data, d.1))
  {
  }

  class Win11NoteTabParser {
    const filePath: Path
    var magicBytes: Option<seq<byte>>
    var isSavedFile: Option<bool>
    var filenameLenByte: Option<byte>
    var filenameLenUtf16: Option<nat>
    var filenameBytes: Option<seq<byte>>
    var filenameUtf16: Option<string>
    var bodyBytes: Option<seq<byte>>
    var bodyUtf16: Option<string>
    var bodyEndBytes: Option<seq<byte>>

    function Attrs(): Attributes
      reads this
    {
      Attributes(magicBytes, isSavedFile, filenameLenByte, filenameLenUtf16, filenameBytes,
                 filenameUtf16, bodyBytes, bodyUtf16, bodyEndBytes)
    }

    /** The object before `_parse`: only the path is set. */
    constructor (filePath: Path)
      ensures this.filePath == filePath && Attrs() == Unassigned
    {
      this.filePath := filePath;
      magicBytes, isSavedFile := None, None;
      filenameLenByte, filenameLenUtf16, filenameBytes, filenameUtf16 := None, None, None, None;
      bodyBytes, bodyUtf16, bodyEndBytes := None, None, None;
    }

    /** `_parse_header`. */
    method ParseHeader(data: seq<byte>) returns (err: Option<PyError>)
      requires Attrs() == Unassigned
      modifies this
      ensures Attrs() == HeaderStep(data)
      ensures err == if ReadHeader(data).HeaderShort? then Some(IndexError(ReadHeader(data).index)) else None
    {
      magicBytes := Some(Slice(data, 0, SavedFileIndex));
      if |data| <= SavedFileIndex {
        return Some(IndexError(SavedFileIndex));
      }
      isSavedFile := Some(data[SavedFileIndex] != 0);
      if data[SavedFileIndex] != 0 {
        if |data| <= FilenameLenIndex {
          return Some(IndexError(FilenameLenIndex));
        }
        filenameLenByte := Some(data[FilenameLenIndex]);
        var lenUtf16: nat := (data[FilenameLenIndex] as int) * 2;
        filenameLenUtf16 := Some(lenUtf16);
        var filenameEnding := FilenameStartIndex + lenUtf16;
        var bytes := Slice(data, FilenameStartIndex, filenameEnding);
        filenameBytes := Some(bytes);
        filenameUtf16 := Some(DecodeUtf16(bytes));
      }
      return None;
    }

    /** `_parse_body`: reads `filename_len_utf_16`, which is still `None`
        for an unsaved tab. */
    method ParseBody(data: seq<byte>) returns (err: Option<PyError>)
      modifies this
      ensures old(filenameLenUtf16).None? ==> err == Some(TypeError) && Attrs() == old(Attrs())
      ensures old(filenameLenUtf16).Some? ==>
        match FindDelimiters(data, old(filenameLenUtf16).value + FilenameStartIndex)
        case None => err == Some(ValueError) && Attrs() == old(Attrs())
        case Some(delimiters) => err == None && Attrs() == WithBody(old(Attrs()), BodyAt(data, delimiters.1))
    {
      if filenameLenUtf16.None? {
        return Some(TypeError);
      }
      var delimiters := FindDelimiters(data, filenameLenUtf16.value + FilenameStartIndex);
      if delimiters.None? {
        return Some(ValueError);
      }
      // The second delimiter index is 2 before the end marker, so the body
      // runs from two bytes past the marker's start to five bytes before
      // the end; the rest is the trailer.
      var body := BodyAt(data, delimiters.value.1);
      bodyBytes := Some(body.bytes);
      bodyUtf16 := Some(body.Text());
      bodyEndBytes := Some(body.endBytes);
      return None;
    }

    /** `_parse` after the file read: a `ValueError` is caught, anything else
        escapes. */
    method Parse(data: seq<byte>) returns (err: Option<PyError>)
      requires Attrs() == Unassigned
      modifies this
      ensures Attrs() == AttributesOf(Decode(data))
      ensures err == ErrorOf(Decode(data))
    {
      DecodeInSteps(data);
      err := ParseHeader(data);
      if err.Some? {
        return;
      }
      err := ParseBody(data);
      if err == Some(ValueError) {
        err := None;
      }
    }

    /** The constructor with its file read: the parser of the file at `path`,
        or the exception that escapes it. */
    static method Open(path: Path, fs: FileSystem) returns (r: Result<Win11NoteTabParser, PyError>)
      ensures Load(path, fs).Failure? ==> r == Failure(Load(path, fs).error)
      ensures Load(path, fs).Success? ==>
        r.Success? && fresh(r.value) && r.value.filePath == path &&
        r.value.Attrs() == AttributesOf(Load(path, fs).value)
    {
      if path !in fs {
        return Failure(FileNotFoundError(path));
      }
      var parser := new Win11NoteTabParser(path);
      var err := parser.Parse(fs[path]);
      if err.Some? {
        return Failure(err.value);
      }
      return Success(parser);
    }

    /** `__iter__`. */
    function Items(): seq<(string, Value)>
      reads this
    {
      ItemsOf(filePath, Attrs())
    }
  }
}
