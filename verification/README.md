# Windows 11 Notepad tab-state ripper, modelled in Dafny

This project models the core of PyWIN11NoteRipper. That core reads the tab-state
files Windows 11 Notepad keeps for its open tabs and turns them into records.
It has three parts:

- **`Win11NoteTabParser`** (module `TabParser`, with `Utf16` and `PySeq`): it
  decodes one `.bin` file. The header gives the three magic bytes, the saved
  flag, the length byte of the file name and the UTF-16 name. The body is found
  by scanning for the start marker `00 01` and then the end marker
  `01 00 00 00`. The body runs up to the last five bytes, which are kept as the
  trailer. `Decode` is the pure reading of the bytes. The class assigns its
  attributes one at a time, as the Python object does, and its methods are
  proved to end in the state `Decode` describes.
- **`Win11NoteTab`** (module `Tab`): one tab. It holds its root name, the list
  of file formats (`.bin`, `.0.bin`, `.1.bin`) seen for it, and the parser of
  the last non-auxiliary format. `Scan` is the pure reading of its `_parse`
  loop.
- **`Win11NoteTabs`** (module `Tabs`): the grouper. It files each name of a
  directory listing under its root, parses every tab, and yields one record per
  tab. The tab dictionary is a class attribute that every construction
  mutates. It is modelled as the `TabRegistry` object handed to `Create`.
  `Registry` is its value, and `Group`, `FailIndex` and `Iterate` are the pure
  readings of the constructor's two loops and of `__iter__`.

Python exceptions are values of `PyError`. A method that can raise returns the
exception that escapes it, as `Option<PyError>` or `Result`. The file system
is a map from paths to bytes, and a missing path is the `FileNotFoundError`
that `open` raises.

Behaviour of the code worth knowing:

- **Unsaved tabs get no record.** `filename_len_utf_16` stays `None`, so
  `None + 5` raises a `TypeError`. Nothing catches it, and it ends the whole
  construction.
- **The body starts two bytes into the end marker.** `_find_delimiters`
  reports the end position 2 bytes early, so the body text gains a leading
  U+0000 (`SavedLayoutDecodes`).
- **A missing marker still leaves a record.** The `ValueError` is caught and
  the record keeps its header fields only (`MarkerMissingExactly`,
  `IteratedKeys`).
- **Short buffers and missing files abort the run.** A buffer too short for
  index 3 (or index 4 when saved) raises an `IndexError`, and a missing file
  raises `FileNotFoundError`. Both escape and end the construction.
- **The registry persists.** The tab dictionary outlives a construction, and
  a tab keeps the directory it was first created with (`GroupPersists`,
  `PersistenceExample`).
- **The root removes every occurrence.** It is computed with `str.replace`,
  so every occurrence of the format is removed, not only the suffix
  (`RootOfInnerOccurrence`). The root is the name without its suffix exactly
  when the format occurs nowhere earlier in the name (`RootOfStripsSuffixIff`).
  A name that ends in neither auxiliary suffix is filed as `.bin` whatever it
  ends with (`ClassifyOtherName`).
- **Auxiliary-only roots make iteration fail.** Such a root gets no parser,
  and `dict(None)` raises `TypeError` during iteration (`Items`,
  `NewAuxiliaryRootStoresNothing`). They are not dropped.
- **Output follows the listing.** Keys come in dictionary order, which is the
  order of first appearance in the listing (`GroupOrderExample`).
- **UTF-16 without a byte-order mark is native little-endian.** Python's
  `utf-16` codec reads mark-less bytes in the host's byte order, which is
  little-endian on Windows.

## Model

| member | source | states |
|---|---|---|
| PySeq.Slice | win11_note_ripper/win11_note_tab_parser.py:83-112 | a Python slice is never longer than the sequence, and within range it is exactly the subsequence |
| PySeq.ClampIndex | win11_note_ripper/win11_note_tab_parser.py:83 | a slice bound is normalised into [0, n]: negative bounds count from the end, and bounds past either end are clamped |
| PySeq.SliceFacts | win11_note_ripper/win11_note_tab_parser.py:107-112 | a Python slice never fails; within range it is the subsequence, and it is empty when the bounds cross or start past the end |
| PySeq.IndexFrom | win11_note_ripper/win11_note_tab_parser.py:142-143 | `bytes.index` from a position gives the first occurrence at or after it; it fails exactly when there is none |
| PySeq.Replace | win11_note_ripper/win11_note_tabs.py:44 | a sequence shorter than the target is returned unchanged; an occurrence at the start is replaced |
| PySeq.ReplaceShrinks | win11_note_ripper/win11_note_tabs.py:44 | `str.replace(x, '')` never lengthens a name and changes nothing when `x` does not occur |
| PySeq.ReplaceStripsSoleSuffix | win11_note_ripper/win11_note_tabs.py:44 | removing every occurrence strips a suffix when no other occurrence starts before it |
| PySeq.OccurrencesApart | win11_note_ripper/win11_note_tabs.py:44 | two occurrences of a pattern whose last element is unique are at least the pattern's length apart |
| PySeq.ReplaceRemovesTwo | win11_note_ripper/win11_note_tabs.py:44 | removing every occurrence of such a pattern, when it occurs twice, shortens the sequence by at least twice its length |
| Utf16.CodeUnits | win11_note_ripper/win11_note_tab_parser.py:126 | an even number of bytes gives half as many code units |
| Utf16.UnitsAfterMark | win11_note_ripper/win11_note_tab_parser.py:126 | the code units read after an optional byte-order mark are at most half as many as the bytes |
| Utf16.Decode | win11_note_ripper/win11_note_tab_parser.py:126 | the `utf-16` codec yields at most one character per two bytes |
| Utf16.DecodeUnitsFailsIff | win11_note_ripper/win11_note_tab_parser.py:126 | decoding code units fails exactly when some surrogate is unpaired: a high one not followed by a low one, or a low one not preceded by a high one |
| Utf16.DecodeFailsIff | win11_note_ripper/win11_note_tab_parser.py:125-129 | the codec fails exactly on an odd number of bytes or on an unpaired surrogate after the optional mark |
| Utf16.EncodeDecodeUnits | win11_note_ripper/win11_note_tab_parser.py:126 | code units that decode give themselves back when the text is encoded again |
| Utf16.CodeUnitsOfUnitBytes | win11_note_ripper/win11_note_tab_parser.py:126 | reading code units back from their bytes is the identity, in either byte order |
| Utf16.DecodeEncodeUnits | win11_note_ripper/win11_note_tab_parser.py:126 | decoding the code units of any string, surrogate pairs included, gives the string back |
| Utf16.DecodeWithLittleEndianMark | win11_note_ripper/win11_note_tab_parser.py:126 | FF FE followed by little-endian text decodes to the text |
| Utf16.DecodeWithBigEndianMark | win11_note_ripper/win11_note_tab_parser.py:126 | FE FF followed by big-endian text decodes to the text |
| Utf16.DecodeWithoutMark | win11_note_ripper/win11_note_tab_parser.py:126 | mark-less little-endian text decodes back unless it starts with U+FEFF or U+FFFE |
| Utf16.LeadingMarkCharacterIsConsumed | win11_note_ripper/win11_note_tab_parser.py:126 | a text starting with U+FEFF loses that character, whose bytes are read as a mark |
| Utf16.MalformedInputFails | win11_note_ripper/win11_note_tab_parser.py:125-129 | three fixed buffers, one of odd length, one with a lone high surrogate and one with a lone low surrogate, are decode errors |
| TabParser.DecodeUtf16 | win11_note_ripper/win11_note_tab_parser.py:115-129 | the decoded text when the codec succeeds, "" on any decode failure (odd length or unpaired surrogate); never more than half as long as the bytes |
| TabParser.FindDelimiters | win11_note_ripper/win11_note_tab_parser.py:131-144 | when both markers are found, the start marker lies at or after the start index and the end marker sits 2 past the reported end position |
| TabParser.ReadHeader | win11_note_ripper/win11_note_tab_parser.py:76-95 | the header read fails exactly for a buffer of at most 3 bytes or a saved one of at most 4; otherwise `magic_bytes` is the first three bytes, `is_saved_file` is byte 3 being non-zero, and a filename is read exactly for a saved tab |
| TabParser.Decode | win11_note_ripper/win11_note_tab_parser.py:58-113 | a short buffer fails at index 3 or 4; the TypeError outcome is an unsaved tab; every record with a filename comes from a saved tab |
| TabParser.FindDelimitersFirstMatches | win11_note_ripper/win11_note_tab_parser.py:131-144 | the start marker found is the first at or after the start index; the end position is 2 less than the first end marker at or after the start marker's end; a failure means one of the two is absent |
| TabParser.Load | win11_note_ripper/win11_note_tab_parser.py:47-74 | constructing a parser succeeds exactly when the file exists and its decode raises nothing uncaught; a missing path gives `FileNotFoundError` of that path, otherwise the error is the decode's exception |
| TabParser.HeaderPrefix | win11_note_ripper/win11_note_tab_parser.py:76-89 | `magic_bytes` is always the first min(3, len) bytes; `is_saved_file` is byte 3 being non-zero; an IndexError escapes exactly for buffers of at most 3 bytes, or saved ones of at most 4 |
| TabParser.SavedFilename | win11_note_ripper/win11_note_tab_parser.py:87-94 | a saved header gives `filename_len_utf_16` = 2 × byte 4 and the clamped name bytes from index 5 |
| TabParser.UnsavedRaisesTypeError | win11_note_ripper/win11_note_tab_parser.py:104 | an unsaved tab raises TypeError and gets no filename length and no body |
| TabParser.DecodeParsed | win11_note_ripper/win11_note_tab_parser.py:97-112 | a full record comes from a saved header whose marker search succeeded, with the body read at the end position found |
| TabParser.BodyAtMarker | win11_note_ripper/win11_note_tab_parser.py:107-112 | the body runs from two bytes into the end marker to the last five bytes, and the trailer is the last five bytes |
| TabParser.ParsedBody | win11_note_ripper/win11_note_tab_parser.py:97-113 | a full record's body is the bytes from 2 past the first end marker up to the last five (empty when that start is too late), and its trailer is the last five bytes |
| TabParser.MarkerMissingExactly | win11_note_ripper/win11_note_tab_parser.py:63-74 | a saved record lacks its body exactly when no start marker follows the name, or no end marker follows the first start marker |
| TabParser.ItemsOf | win11_note_ripper/win11_note_tab_parser.py:146-158 | the first pair is always `file_path`, and at most ten pairs are yielded |
| TabParser.KeysWithHeader | win11_note_ripper/win11_note_tab_parser.py:146-158 | with the header assigned, the keys are the seven header keys, plus the three body keys when the body is assigned |
| TabParser.IteratedKeys | win11_note_ripper/win11_note_tab_parser.py:146-158 | a full record yields all ten keys in assignment order, a marker-less one the seven header keys, and every surviving record is a saved tab |
| TabParser.SavedBytesDecode | win11_note_ripper/win11_note_tab_parser.py:76-113 | a saved tab laid out as magic, flag, length, name, markers, body, trailer decodes to exactly that header and to the body preceded by 00 00 |
| TabParser.SavedLayoutDecodes | win11_note_ripper/win11_note_tab_parser.py:76-113 | a saved tab written as UTF-16LE recovers its magic bytes, exact name and trailer; its body text gains a leading U+0000 |
| TabParser.UnsavedLayoutRaises | win11_note_ripper/win11_note_tab_parser.py:83-104 | an unsaved tab in the same layout raises TypeError after its header |
| TabParser.DecodeInSteps | win11_note_ripper/win11_note_tab_parser.py:58-113 | `Decode` is the header step followed by the body step: an IndexError stops after the header, no filename length gives TypeError, and a missing marker leaves the header attributes |
| TabParser.Win11NoteTabParser.constructor | win11_note_ripper/win11_note_tab_parser.py:27-55 | a new parser has its path and no attribute assigned |
| TabParser.Win11NoteTabParser.ParseHeader | win11_note_ripper/win11_note_tab_parser.py:76-95 | the header attributes are those `HeaderStep` gives, and an IndexError escapes exactly for a short header |
| TabParser.Win11NoteTabParser.ParseBody | win11_note_ripper/win11_note_tab_parser.py:97-113 | TypeError without a filename length; ValueError with nothing changed when a marker is missing; otherwise the three body attributes are added |
| TabParser.Win11NoteTabParser.Parse | win11_note_ripper/win11_note_tab_parser.py:58-74 | the attributes and the escaping exception are those `Decode` describes; a ValueError is caught |
| TabParser.Win11NoteTabParser.Open | win11_note_ripper/win11_note_tab_parser.py:47-66 | the parser of an existing file is new, has the path and holds the decoded attributes; otherwise the constructor's exception |
| Tab.NonMagic | win11_note_ripper/win11_note_tab.py:57-60 | the formats opened are at most those listed |
| Tab.NonMagicMembers | win11_note_ripper/win11_note_tab.py:57-60 | the formats opened are exactly the listed ones that are not `.0.bin` or `.1.bin` |
| Tab.Scan | win11_note_ripper/win11_note_tab.py:57-63 | the stored parser, if any, is that of a listed format that is not auxiliary |
| Tab.ScanErrorSticks | win11_note_ripper/win11_note_tab.py:57-63 | once a parse raises, later formats change nothing |
| Tab.ScanSkipsMagic | win11_note_ripper/win11_note_tab.py:59-60 | auxiliary formats play no part in the loop |
| Tab.ScanStoresLastListed | win11_note_ripper/win11_note_tab.py:57-63 | without an error, a parser is stored exactly when some listed format is not auxiliary, and it is the one at the largest such position |
| Tab.ScanLastWins | win11_note_ripper/win11_note_tab.py:57-63 | without an error, the stored parser is that of the last non-auxiliary format, or none |
| Tab.ScanFailsIff | win11_note_ripper/win11_note_tab.py:57-63 | the loop fails exactly when some non-auxiliary file fails to load |
| Tab.ScanFirstError | win11_note_ripper/win11_note_tab.py:57-63 | the error that escapes is that of the first non-auxiliary file that fails |
| Tab.AllMagicStoresNothing | win11_note_ripper/win11_note_tab.py:57-63 | a tab with only auxiliary formats stores no parser and raises nothing |
| Tab.Win11NoteTab.constructor | win11_note_ripper/win11_note_tab.py:29-41 | a new tab has its directory and root, no formats and no parser |
| Tab.Win11NoteTab.SetFile | win11_note_ripper/win11_note_tab.py:43-51 | one format is appended; duplicates are kept |
| Tab.Win11NoteTab.Parse | win11_note_ripper/win11_note_tab.py:53-63 | the escaping error and the stored parser are those `Scan` gives; a new parser is fresh |
| Tab.Win11NoteTab.Render | win11_note_ripper/win11_note_tab.py:65-75 | one file name per format, in order: the root followed by the format |
| Tabs.Classify | win11_note_ripper/win11_note_tabs.py:37-42 | `.0.bin` and `.1.bin` exactly for those suffixes, `.bin` for every other name |
| Tabs.RootOf | win11_note_ripper/win11_note_tabs.py:44 | the root is never longer than the name |
| Tabs.RootOfSoleSuffix | win11_note_ripper/win11_note_tabs.py:44 | a root followed by its format gives the root back when the format occurs nowhere else |
| Tabs.FormatLastUnique | win11_note_ripper/win11_note_tabs.py:37-44 | each of the three formats ends in a character found nowhere else in it |
| Tabs.RootOfEarlierOccurrence | win11_note_ripper/win11_note_tabs.py:44 | a name whose format also occurs before its suffix loses at least two copies, so its root is not the name without the suffix |
| Tabs.RootOfStripsSuffixIff | win11_note_ripper/win11_note_tabs.py:44 | for a name ending in its format, the root is the name without the suffix exactly when the format occurs nowhere earlier |
| Tabs.RootOfDotless | win11_note_ripper/win11_note_tabs.py:37-44 | a dot-free root followed by any of the three formats is filed under that format, with that root |
| Tabs.RootOfDoubledSuffix | win11_note_ripper/win11_note_tabs.py:44 | `a.bin.bin` has root `a`: every occurrence is removed |
| Tabs.RootOfInnerOccurrence | win11_note_ripper/win11_note_tabs.py:44 | `a.binx.bin` has root `ax`: an inner occurrence is removed too |
| Tabs.ClassifyOtherName | win11_note_ripper/win11_note_tabs.py:37-44 | `a.txt` is filed under `.bin` with root `a.txt` |
| Tabs.GetOrCreate | win11_note_ripper/win11_note_tabs.py:46-48 | afterwards the root has a tab |
| Tabs.AddFileShape | win11_note_ripper/win11_note_tabs.py:36-50 | one name appends its format to its root's tab, created at the end of the order with the current directory when absent |
| Tabs.Group | win11_note_ripper/win11_note_tabs.py:35-50 | the number of keys never drops and grows by at most one per name |
| Tabs.GroupWellFormed | win11_note_ripper/win11_note_tabs.py:35-50 | the dictionary keeps one entry per root, and its order lists each key once |
| Tabs.GroupOrder | win11_note_ripper/win11_note_tabs.py:35-50 | the keys are the earlier keys followed by the new roots in order of first appearance |
| Tabs.GroupFiles | win11_note_ripper/win11_note_tabs.py:35-50 | each root has a tab exactly when it had one or the listing names it; its formats are its earlier formats followed by those of its names, in order; its directory is the one it was created with |
| Tabs.GroupPersists | win11_note_ripper/win11_note_tabs.py:22 | earlier keys keep their place, their directory and their earlier formats |
| Tabs.GroupConcat | win11_note_ripper/win11_note_tabs.py:22-50 | two constructions in a row over the same directory group as one over the concatenated listings |
| Tabs.GroupCountsFiles | win11_note_ripper/win11_note_tabs.py:35-50 | each name adds exactly one format: the total grows by the listing's length |
| Tabs.GroupExample | win11_note_ripper/win11_note_tabs.py:35-50 | `a.bin a.0.bin b.bin a.1.bin` gives tabs `a` (`.bin .0.bin .1.bin`) and `b` (`.bin`), in that order |
| Tabs.GroupOrderExample | win11_note_ripper/win11_note_tabs.py:46-48 | the listing `b.bin a.bin` gives the order `b, a` |
| Tabs.PersistenceExample | win11_note_ripper/win11_note_tabs.py:22-48 | a second construction over another directory reuses the first tab, which keeps the first directory |
| Tabs.FailIndex | win11_note_ripper/win11_note_tabs.py:52-53 | every tab before the position parses without error, and the tab at it raises |
| Tabs.FailIndexIs | win11_note_ripper/win11_note_tabs.py:52-53 | the first failing tab's position is `FailIndex` |
| Tabs.NewAuxiliaryRootStoresNothing | win11_note_ripper/win11_note_tabs.py:46-53 | a new root with only auxiliary formats gets no parser |
| Tabs.VisibleRoots | win11_note_ripper/win11_note_tabs.py:62-63 | the roots reported are exactly those not starting with `_` |
| Tabs.Iterate | win11_note_ripper/win11_note_tabs.py:62-64 | at most one pair per dictionary entry, and the only exception is TypeError |
| Tabs.IterateFailsIff | win11_note_ripper/win11_note_tabs.py:62-64 | iteration fails, always with TypeError, exactly when a reported root has no parser |
| Tabs.IterateYields | win11_note_ripper/win11_note_tabs.py:62-64 | without a failure, the i-th key is the i-th reported root plus `.bin`, paired with its parser's record |
| Tabs.IterateRootsFrom | win11_note_ripper/win11_note_tabs.py:62-64 | every key yielded is a root of the dictionary plus `.bin` |
| Tabs.IterateKeysDistinct | win11_note_ripper/win11_note_tabs.py:62-64 | no two yielded keys are equal |
| Tabs.TabRegistry.constructor | win11_note_ripper/win11_note_tabs.py:22 | the dictionary starts empty |
| Tabs.TabRegistry.Records | win11_note_ripper/win11_note_tabs.py:64 | one record per tab, absent exactly for a tab without a parser, and otherwise the pairs its parser yields |
| Tabs.TabRegistry.TabFor | win11_note_ripper/win11_note_tabs.py:46-48 | the dictionary's value becomes `GetOrCreate` of the old one; an existing tab is returned as it was, and a new one is fresh with no parser |
| Tabs.TabRegistry.AppendFormat | win11_note_ripper/win11_note_tabs.py:50 | the dictionary's value becomes `Append` of the old one |
| Tabs.TabRegistry.AddListedFile | win11_note_ripper/win11_note_tabs.py:36-50 | the dictionary's value becomes `AddFile` of the old one; earlier tabs stay the same objects |
| Tabs.TabRegistry.GroupListing | win11_note_ripper/win11_note_tabs.py:35-50 | the dictionary's value becomes `Group` of the old one; earlier tabs keep their parser and new ones have none |
| Tabs.TabRegistry.ParseInOrder | win11_note_ripper/win11_note_tabs.py:52-53 | the loop stops at the first tab whose parse raises, with its error; tabs up to it are parsed, later ones untouched |
| Tabs.TabRegistry.ParseTabAt | win11_note_ripper/win11_note_tabs.py:52-53 | one pass parses the tab at its position, with that tab's `_parse` error, and leaves the other tabs' parsers as they were |
| Tabs.TabRegistry.ParseAll | win11_note_ripper/win11_note_tabs.py:52-53 | the error is that of the tab at `FailIndex`, or none; tabs up to it hold what `_parse` stores and later ones keep their parser; the grouping is unchanged |
| Tabs.TabRegistry.GroupAndParse | win11_note_ripper/win11_note_tabs.py:35-53 | the initialiser's two loops: the dictionary becomes `Group` of the old one, the error is that of the tab at `FailIndex` or none, and the parsers are those of `ParsedUpTo` |
| Tabs.Win11NoteTabs.Create | win11_note_ripper/win11_note_tabs.py:24-53 | the registry is grouped by the listing, and construction succeeds exactly when no tab's parse raises; otherwise it fails with the first error; the parsers are those of `ParsedUpTo` |
| Tabs.Win11NoteTabs.Items | win11_note_ripper/win11_note_tabs.py:55-64 | iteration fails with TypeError exactly when a reported root has no parser; otherwise the i-th pair is the i-th reported root plus `.bin` with the record of that root's parser, and no key repeats |

## Left out

- Logging (`loguru` calls) has no effect on the result and is not modelled.
- Reading files is replaced by a map from paths to bytes. Opening, closing and
  reading are assumed to succeed for every path in the map.
- The path join `dir / f"{root}{format}"` is kept opaque as `Path(dir, name)`,
  and `str(file_path)` is yielded as that path.
- Byte strings are yielded by `__iter__` as `str(value)`, Python's display form
  of the bytes. The model yields `BytesText(bytes)` and does not model the
  escaping.
- The `except UnicodeDecodeError` in `_parse` can never fire, because
  `_decode_utf16` catches decode errors itself. It is not modelled.
- Mark-less UTF-16 is decoded little-endian. The behaviour on a big-endian host
  is not modelled.
- `dict(value.parsed)` is modelled as the sequence of pairs the parser yields.
  Those keys are distinct attribute names, so no pair is lost.
- `__repr__` is modelled as the list of file names. Python's `str()` of a list
  is not modelled.
- `windows11.py`, `py_win11_note_ripper.py` and `__init__.py` are not part of
  this model. They cover finding the Notepad directory, listing it, and writing
  JSON.
- `Win11NoteTabs.__init__` receives the listing as an iterator of paths. The
  model takes the sequence of file names (`tab_path.name`).
