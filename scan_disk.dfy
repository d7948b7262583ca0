/**
 * The data side of the disk indexer (`utils/scandisk.py`): the category of a
 * file extension, the per-folder category counts, the choice of folders to
 * scan on a disk, and the rewrite of an existing HTML index that replaces a
 * disk's rows.
 *
 * The file system is given as data: the disk root and its entries, and for
 * every directory the list `rglob("*")` would produce. Mounting, `ffprobe`,
 * the prompt and the file writes are not part of this model.
 */
module ScanDisk {
  import opened Wrappers
  import opened Text

  // ---------------------------------------------------------------- get_category

  datatype Category = Audio | Video | Image | Other

  const AudioExtensions: seq<string> := [".mp3", ".wav", ".flac", ".aac", ".ogg"]
  const VideoExtensions: seq<string> := [".mp4", ".mkv", ".avi", ".mov", ".wmv"]
  const ImageExtensions: seq<string> := [".jpg", ".jpeg", ".png", ".tiff", ".gif"]

  /** `FILE_TYPES`, in the order the dictionary is searched. */
  const FileTypes: seq<(Category, seq<string>)> :=
    [(Audio, AudioExtensions), (Video, VideoExtensions), (Image, ImageExtensions)]

  /** The first category of `table` whose list holds `ext`, else `Other`. */
  function FindCategory(ext: string, table: seq<(Category, seq<string>)>): (c: Category)
    requires forall k :: 0 <= k < |table| ==> table[k].0 != Other
    ensures c == Other <==> forall k :: 0 <= k < |table| ==> ext !in table[k].1
    ensures c != Other ==> exists k :: 0 <= k < |table| && table[k].0 == c && ext in table[k].1 &&
                                      forall j :: 0 <= j < k ==> ext !in table[j].1
  {
    if table == [] then Other
    else if ext in table[0].1 then table[0].0
    else
      assert forall k :: 1 <= k < |table| ==> table[k] == table[1..][k - 1];
      var c := FindCategory(ext, table[1..]);
      if c != Other then
        var k :| 0 <= k < |table[1..]| && table[1..][k].0 == c && ext in table[1..][k].1 &&
          forall j :: 0 <= j < k ==> ext !in table[1..][j].1;
        assert table[k + 1].0 == c && ext in table[k + 1].1;
        c
      else
        c
  }

  /** No extension is listed under two categories. */
  lemma {:induction false} ExtensionListsDisjoint(e: string)
    ensures !(e in AudioExtensions && e in VideoExtensions)
    ensures !(e in AudioExtensions && e in ImageExtensions)
    ensures !(e in VideoExtensions && e in ImageExtensions)
  {
  }

  /** The category of a file suffix, compared in lower case. */
  function GetCategory(extension: string): (c: Category)
    ensures c == Audio <==> Lower(extension) in AudioExtensions
    ensures c == Video <==> Lower(extension) in VideoExtensions
    ensures c == Image <==> Lower(extension) in ImageExtensions
  {
    var ext := Lower(extension);
    ExtensionListsDisjoint(ext);
    assert FileTypes[0] == (Audio, AudioExtensions) && FileTypes[1] == (Video, VideoExtensions)
        && FileTypes[2] == (Image, ImageExtensions) && |FileTypes| == 3;
    FindCategory(ext, FileTypes)
  }

  lemma {:induction false} LowerIsIdempotent(s: string)
    ensures Lower(Lower(s)) == Lower(s)
  {
    var l := Lower(s);
    forall i | 0 <= i < |s| ensures Lower(l)[i] == l[i] {
      assert LowerChar(LowerChar(s[i])) == LowerChar(s[i]);
    }
  }

  /** The lookup ignores case: a suffix and its lower-case form agree. */
  lemma {:induction false} CategoryIgnoresCase(extension: string)
    ensures GetCategory(extension) == GetCategory(Lower(extension))
  {
    LowerIsIdempotent(extension);
  }

  lemma {:induction false} UpperCaseVideoSuffix()
    ensures GetCategory(".MP4") == Video
  {
    assert Lower(".MP4") == ".mp4";
  }

  // ------------------------------------------------------------ counting

  /** An entry of the scanned tree with what `Path` reports about it. */
  datatype DirEntry = DirEntry(path: string, isDir: bool, isFile: bool, suffix: string)

  /** The `counts` dictionary of one scanned folder. */
  datatype Counts = Counts(audio: nat, video: nat, image: nat, other: nat)
  {
    function Get(c: Category): nat {
      match c
      case Audio => audio
      case Video => video
      case Image => image
      case Other => other
    }

    /** `counts[cat] += 1`: that counter goes up by one and no other moves. */
    function Bump(c: Category): (r: Counts)
      ensures forall d :: r.Get(d) == if d == c then Get(d) + 1 else Get(d)
    {
      match c
      case Audio => this.(audio := audio + 1)
      case Video => this.(video := video + 1)
      case Image => this.(image := image + 1)
      case Other => this.(other := other + 1)
    }

    function Total(): nat {
      audio + video + image + other
    }
  }

  const NoCounts: Counts := Counts(0, 0, 0, 0)

  /** The counts after the loop has seen `files`: one per regular file, under its category. */
  function Tally(files: seq<DirEntry>): (counts: Counts)
    ensures counts.Total() <= |files|
  {
    if files == [] then NoCounts
    else
      var before := Tally(files[..|files| - 1]);
      var f := files[|files| - 1];
      if f.isFile then before.Bump(GetCategory(f.suffix)) else before
  }

  /** The inner loop of the folder scan. */
  method CountCategories(files: seq<DirEntry>) returns (counts: Counts)
    ensures counts == Tally(files)
  {
    counts := NoCounts;
    var i := 0;
    while i < |files|
      invariant 0 <= i <= |files|
      invariant counts == Tally(files[..i])
    {
      assert files[..i + 1][..i] == files[..i];
      var file := files[i];
      if file.isFile {
        var cat := GetCategory(file.suffix);
        counts := counts.Bump(cat);
      }
      i := i + 1;
    }
    assert files[..i] == files;
  }

  /** Positions of the regular files. */
  function FileIndices(files: seq<DirEntry>): set<int> {
    set i | 0 <= i < |files| && files[i].isFile
  }

  /** A regular file of category `c`. */
  predicate FileOf(f: DirEntry, c: Category) {
    f.isFile && GetCategory(f.suffix) == c
  }

  /** Positions of the regular files of category `c`. */
  function CategoryIndices(files: seq<DirEntry>, c: Category): set<int> {
    set i | 0 <= i < |files| && FileOf(files[i], c)
  }

  lemma {:induction false} CategoryIndicesStep(files: seq<DirEntry>, c: Category)
    requires files != []
    ensures var n := |files| - 1;
      CategoryIndices(files, c)
        == CategoryIndices(files[..n], c) + (if FileOf(files[n], c) then {n} else {})
  {
    var n := |files| - 1;
    var pre := files[..n];
    var a := CategoryIndices(pre, c);
    var b := CategoryIndices(files, c);
    var extra: set<int> := if FileOf(files[n], c) then {n} else {};
    forall i | i in b ensures i in a + extra {
      if i < n { assert pre[i] == files[i]; }
    }
    forall i | i in a + extra ensures i in b {
      if i < n { assert pre[i] == files[i]; }
    }
  }

  /** Each counter is the number of files of its category. */
  lemma {:induction false} TallyCountsCategory(files: seq<DirEntry>, c: Category)
    ensures Tally(files).Get(c) == |CategoryIndices(files, c)|
    decreases |files|
  {
    if files != [] {
      var n := |files| - 1;
      TallyCountsCategory(files[..n], c);
      CategoryIndicesStep(files, c);
      assert n !in CategoryIndices(files[..n], c);
    }
  }

  lemma {:induction false} FileIndicesStep(files: seq<DirEntry>)
    requires files != []
    ensures var n := |files| - 1;
      FileIndices(files) == FileIndices(files[..n]) + (if files[n].isFile then {n} else {})
  {
    var n := |files| - 1;
    var pre := files[..n];
    var a := FileIndices(pre);
    var b := FileIndices(files);
    var extra: set<int> := if files[n].isFile then {n} else {};
    forall i | i in b ensures i in a + extra {
      if i < n { assert pre[i] == files[i]; }
    }
    forall i | i in a + extra ensures i in b {
      if i < n { assert pre[i] == files[i]; }
    }
  }

  lemma {:induction false} BumpAddsOne(counts: Counts, c: Category)
    ensures counts.Bump(c).Total() == counts.Total() + 1
  {
  }

  /** The counters add up to the number of files scanned. */
  lemma {:induction false} TallyTotalIsFileCount(files: seq<DirEntry>)
    ensures Tally(files).Total() == |FileIndices(files)|
    decreases |files|
  {
    if files != [] {
      var n := |files| - 1;
      TallyTotalIsFileCount(files[..n]);
      FileIndicesStep(files);
      assert n !in FileIndices(files[..n]);
      if files[n].isFile {
        BumpAddsOne(Tally(files[..n]), GetCategory(files[n].suffix));
      }
    }
  }

  // ------------------------------------------------------------ analyse_disk

  /** `root_folders`: the directories directly under the disk root, in listing order. */
  function RootFolders(children: seq<DirEntry>): (dirs: seq<DirEntry>)
    ensures |dirs| <= |children|
  {
    if children == [] then []
    else
      var rest := RootFolders(children[..|children| - 1]);
      var e := children[|children| - 1];
      if e.isDir then rest + [e] else rest
  }

  /** The root folders are exactly the children that are directories. */
  lemma {:induction false} RootFoldersAreTheDirectories(children: seq<DirEntry>)
    ensures var dirs := RootFolders(children);
      (forall e :: e in dirs <==> e in children && e.isDir) &&
      (forall k :: 0 <= k < |dirs| ==> dirs[k].isDir && dirs[k] in children) &&
      ((forall e :: e in children ==> !e.isDir) ==> dirs == [])
    decreases |children|
  {
    if children != [] {
      var pre := children[..|children| - 1];
      var e := children[|children| - 1];
      RootFoldersAreTheDirectories(pre);
      assert forall x :: x in children <==> x in pre || x == e;
    }
  }

  /** The root folders keep the listing order: the filter distributes over
      concatenation, and one child is kept exactly when it is a directory. */
  lemma {:induction false} RootFoldersAppend(a: seq<DirEntry>, b: seq<DirEntry>)
    ensures RootFolders(a + b) == RootFolders(a) + RootFolders(b)
    decreases |b|
  {
    if b == [] {
      assert a + b == a;
    } else {
      var n := |b| - 1;
      assert (a + b)[..|a + b| - 1] == a + b[..n];
      assert (a + b)[|a + b| - 1] == b[n];
      RootFoldersAppend(a, b[..n]);
    }
  }

  lemma {:induction false} RootFoldersOfOne(e: DirEntry)
    ensures RootFolders([e]) == if e.isDir then [e] else []
  {
    assert [e][..0] == [];
  }

  /** The folders under the root when there are any, otherwise the root alone. */
  function ItemsToScan(root: DirEntry, children: seq<DirEntry>): (items: seq<DirEntry>)
    ensures |items| >= 1
  {
    var dirs := RootFolders(children);
    if dirs != [] then dirs else [root]
  }

  /** The label of a scanned item: the chosen root name, or its file name. */
  function FolderName(item: DirEntry, root: DirEntry, rootName: Option<string>): (name: string)
    ensures item.path == root.path && rootName.Some? && rootName.value != "" ==> name == rootName.value
    ensures item.path == root.path && (rootName.None? || rootName.value == "") ==> name == "<ROOT>"
    ensures item.path != root.path ==> name == BaseName(item.path)
  {
    if item.path == root.path then
      if rootName.Some? && rootName.value != "" then rootName.value else "<ROOT>"
    else BaseName(item.path)
  }

  /** `sorted(item.rglob("*")) if item.is_dir() else [item]`, with `listing` for the walk. */
  function ItemFiles(item: DirEntry, listing: map<string, seq<DirEntry>>): (files: seq<DirEntry>)
    requires item.isDir ==> item.path in listing
    ensures !item.isDir ==> files == [item]
    ensures item.isDir ==> files == listing[item.path]
  {
    if item.isDir then listing[item.path] else [item]
  }

  /** Every directory among the items to scan has a listing. */
  predicate ItemsListed(items: seq<DirEntry>, listing: map<string, seq<DirEntry>>) {
    forall k :: 0 <= k < |items| ==> items[k].isDir ==> items[k].path in listing
  }

  /** One entry of `results`: folder label, category counts and report file name. */
  datatype ScanResult = ScanResult(folder: string, counts: Counts, report: string)

  /** The result for one item: its label, the report name, and counts that add up
      to the number of regular files under it (one for a lone file). */
  function ResultFor(item: DirEntry, root: DirEntry, rootName: Option<string>,
                     listing: map<string, seq<DirEntry>>, report: string): (r: ScanResult)
    requires item.isDir ==> item.path in listing
    ensures r.folder == FolderName(item, root, rootName) && r.report == report
    ensures r.counts.Total() == |FileIndices(ItemFiles(item, listing))|
  {
    var files := ItemFiles(item, listing);
    TallyTotalIsFileCount(files);
    ScanResult(FolderName(item, root, rootName), Tally(files), report)
  }

  /** `(MEDIAINFO_DIR / f"{disk_number}.txt").name`: the report's file name, which is
      `<disk>.txt` unless the disk number itself holds a '/'. */
  function ReportName(diskNumber: string): (name: string)
    ensures '/' !in name
    ensures '/' !in diskNumber ==> name == diskNumber + ".txt"
    ensures forall c :: c in name ==> c in diskNumber + ".txt"
  {
    var path := diskNumber + ".txt";
    BaseNameOfPlainName(path);
    BaseNameChars(path);
    BaseName(path)
  }

  /** The scan of one disk: one result per item, in order, and the report name. */
  method AnalyseDisk(diskNumber: string, root: DirEntry, children: seq<DirEntry>,
                     listing: map<string, seq<DirEntry>>, rootName: Option<string>)
    returns (results: seq<ScanResult>)
    requires ItemsListed(ItemsToScan(root, children), listing)
    ensures var items := ItemsToScan(root, children);
      |results| == |items| &&
      forall k :: 0 <= k < |items| ==>
        results[k] == ResultFor(items[k], root, rootName, listing, ReportName(diskNumber))
  {
    var report := ReportName(diskNumber);
    var itemsToScan := ItemsToScan(root, children);
    results := [];
    var i := 0;
    while i < |itemsToScan|
      invariant 0 <= i <= |itemsToScan|
      invariant |results| == i
      invariant forall k :: 0 <= k < i ==>
        results[k] == ResultFor(itemsToScan[k], root, rootName, listing, report)
    {
      var r := ScanItem(itemsToScan[i], root, rootName, listing, report);
      results := results + [r];
      i := i + 1;
    }
  }

  /** One pass of the item loop: count the item's files and label it. */
  method ScanItem(item: DirEntry, root: DirEntry, rootName: Option<string>,
                  listing: map<string, seq<DirEntry>>, report: string) returns (r: ScanResult)
    requires item.isDir ==> item.path in listing
    ensures r == ResultFor(item, root, rootName, listing, report)
  {
    var files := if item.isDir then listing[item.path] else [item];
    var counts := CountCategories(files);
    var folderName;
    if item.path == root.path {
      folderName := if rootName.Some? && rootName.value != "" then rootName.value else "<ROOT>";
    } else {
      folderName := BaseName(item.path);
    }
    r := ScanResult(folderName, counts, report);
  }

  /** With folders under the root, exactly those are scanned, in order, under their names. */
  lemma {:induction false} FoldersAreScanned(root: DirEntry, children: seq<DirEntry>)
    requires exists e :: e in children && e.isDir
    ensures ItemsToScan(root, children) == RootFolders(children)
  {
    var e :| e in children && e.isDir;
    RootFoldersAreTheDirectories(children);
    assert e in RootFolders(children);
  }

  /** Without folders under the root, the root alone is scanned. */
  lemma {:induction false} RootIsScannedAlone(root: DirEntry, children: seq<DirEntry>)
    requires forall e :: e in children ==> !e.isDir
    ensures ItemsToScan(root, children) == [root]
  {
    RootFoldersAreTheDirectories(children);
  }

  // ------------------------------------------------------------ update_html

  /** The tag of a disk's rows: `data-disk='N'`. */
  function Marker(diskNumber: string): string {
    "data-disk='" + diskNumber + "'"
  }

  const Closer: string := "</tbody>"

  /** `[l for l in lines if f"data-disk='{disk}'" not in l]` */
  function KeepOtherDisks(lines: seq<string>, diskNumber: string): (kept: seq<string>)
    ensures forall k :: 0 <= k < |kept| ==> !Contains(kept[k], Marker(diskNumber))
    ensures forall l :: l in kept <==> l in lines && !Contains(l, Marker(diskNumber))
  {
    if lines == [] then []
    else
      var pre := lines[..|lines| - 1];
      var l := lines[|lines| - 1];
      assert forall x :: x in lines <==> x in pre || x == l;
      var rest := KeepOtherDisks(pre, diskNumber);
      if Contains(l, Marker(diskNumber)) then rest else rest + [l]
  }

  /** Filtering distributes over concatenation, so kept lines stay in their order. */
  lemma {:induction false} KeepOtherDisksAppend(a: seq<string>, b: seq<string>, diskNumber: string)
    ensures KeepOtherDisks(a + b, diskNumber) == KeepOtherDisks(a, diskNumber) + KeepOtherDisks(b, diskNumber)
    decreases |b|
  {
    if b == [] {
      assert a + b == a;
    } else {
      var n := |b| - 1;
      assert (a + b)[..|a + b| - 1] == a + b[..n];
      assert (a + b)[|a + b| - 1] == b[n];
      KeepOtherDisksAppend(a, b[..n], diskNumber);
    }
  }

  /** The cells of the table row written for one result of a rescan. */
  function RowCells(diskNumber: string, r: ScanResult): (cells: string)
    ensures |cells| > 13 + |diskNumber|
    ensures cells[..9 + |diskNumber|] == "<td>" + diskNumber + "</td>"
    ensures cells[|cells| - 9..] == "</a></td>"
  {
    var head := "<td>" + diskNumber + "</td>";
    var middle := "<td>" + r.folder + "</td>"
      + "<td>" + Decimal(r.counts.audio) + "</td>"
      + "<td>" + Decimal(r.counts.video) + "</td>"
      + "<td>" + Decimal(r.counts.image) + "</td>"
      + "<td>" + Decimal(r.counts.other) + "</td>"
      + "<td><a href='mediainfo/" + r.report + "' target='_blank'>" + r.report;
    var tail := "</a></td>";
    assert (head + middle + tail)[..|head|] == head;
    assert (head + middle + tail)[|head + middle|..] == tail;
    head + middle + tail
  }

  /** A written row: tagged with the disk, and a line of its own. */
  function RowHtml(diskNumber: string, r: ScanResult): (row: string)
    ensures Contains(row, Marker(diskNumber))
    ensures row[..4] == "<tr " && row[|row| - 6..] == "</tr>\n"
  {
    var rest := ">" + RowCells(diskNumber, r) + "</tr>\n";
    ContainsInside("<tr ", Marker(diskNumber), rest);
    "<tr " + Marker(diskNumber) + rest
  }

  function RowsHtml(diskNumber: string, results: seq<ScanResult>): (rows: seq<string>)
    ensures |rows| == |results|
    ensures forall k :: 0 <= k < |rows| ==> Contains(rows[k], Marker(diskNumber))
  {
    seq(|results|, k requires 0 <= k < |results| => RowHtml(diskNumber, results[k]))
  }

  /** The lines written: `rows` just before every line holding `</tbody>`, each line after. */
  function InsertBeforeClosers(lines: seq<string>, rows: seq<string>): (written: seq<string>)
    ensures |lines| <= |written|
    ensures lines != [] ==> written[|written| - 1] == lines[|lines| - 1]
  {
    if lines == [] then []
    else
      var l := lines[|lines| - 1];
      InsertBeforeClosers(lines[..|lines| - 1], rows)
        + (if Contains(l, Closer) then rows else []) + [l]
  }

  /** The rewrite of an existing index for a rescanned disk: the untagged lines
      it keeps are exactly the untagged lines it was given. */
  function Rewritten(lines: seq<string>, diskNumber: string, results: seq<ScanResult>): (written: seq<string>)
    ensures forall l :: l in written && !Contains(l, Marker(diskNumber)) <==>
                        l in lines && !Contains(l, Marker(diskNumber))
  {
    var kept := KeepOtherDisks(lines, diskNumber);
    var written := InsertBeforeClosers(kept, RowsHtml(diskNumber, results));
    FilterUndoesInsert(kept, RowsHtml(diskNumber, results), diskNumber);
    written
  }

  lemma {:induction false} InsertStep(lines: seq<string>, i: nat, rows: seq<string>)
    requires i < |lines|
    ensures InsertBeforeClosers(lines[..i + 1], rows)
         == InsertBeforeClosers(lines[..i], rows) + (if Contains(lines[i], Closer) then rows else []) + [lines[i]]
  {
    assert lines[..i + 1][..i] == lines[..i];
  }

  /** The rewrite loop of `update_html` for an index file that already exists. */
  method RewriteIndex(lines: seq<string>, diskNumber: string, results: seq<ScanResult>)
    returns (written: seq<string>)
    ensures written == Rewritten(lines, diskNumber, results)
  {
    var newLines := KeepOtherDisks(lines, diskNumber);
    ghost var rows := RowsHtml(diskNumber, results);
    written := [];
    var i := 0;
    while i < |newLines|
      invariant 0 <= i <= |newLines|
      invariant written == InsertBeforeClosers(newLines[..i], rows)
    {
      var l := newLines[i];
      InsertStep(newLines, i, rows);
      if Contains(l, Closer) {
        written := WriteRows(written, diskNumber, results);
      }
      written := written + [l];
      i := i + 1;
    }
    assert newLines[..i] == newLines;
  }

  /** The inner loop: one row per result, in order. */
  method WriteRows(written: seq<string>, diskNumber: string, results: seq<ScanResult>)
    returns (written': seq<string>)
    ensures written' == written + RowsHtml(diskNumber, results)
  {
    ghost var rows := RowsHtml(diskNumber, results);
    written' := written;
    var j := 0;
    while j < |results|
      invariant 0 <= j <= |results|
      invariant written' == written + rows[..j]
    {
      assert rows[..j + 1] == rows[..j] + [rows[j]];
      written' := written' + [RowHtml(diskNumber, results[j])];
      j := j + 1;
    }
    assert rows[..j] == rows;
  }

  /** Inserting distributes over concatenation of the kept lines. */
  lemma {:induction false} InsertAppend(a: seq<string>, b: seq<string>, rows: seq<string>)
    ensures InsertBeforeClosers(a + b, rows) == InsertBeforeClosers(a, rows) + InsertBeforeClosers(b, rows)
    decreases |b|
  {
    if b == [] {
      assert a + b == a;
    } else {
      var n := |b| - 1;
      var l := b[n];
      var e := if Contains(l, Closer) then rows else [];
      assert (a + b)[..|a + b| - 1] == a + b[..n];
      assert (a + b)[|a + b| - 1] == l;
      InsertAppend(a, b[..n], rows);
      var x, y := InsertBeforeClosers(a, rows), InsertBeforeClosers(b[..n], rows);
      AppendAssociative(x, y, e);
      AppendAssociative(x, y + e, [l]);
    }
  }

  /** With no `</tbody>` line nothing is inserted. */
  lemma {:induction false} NoCloserNoRows(lines: seq<string>, rows: seq<string>)
    requires forall k :: 0 <= k < |lines| ==> !Contains(lines[k], Closer)
    ensures InsertBeforeClosers(lines, rows) == lines
    decreases |lines|
  {
    if lines != [] {
      var n := |lines| - 1;
      NoCloserNoRows(lines[..n], rows);
      assert lines[..n] + [lines[n]] == lines;
    }
  }

  /** Every written line is a new row or an old line of another disk. */
  lemma {:induction false} WrittenLines(lines: seq<string>, rows: seq<string>)
    ensures forall x :: x in InsertBeforeClosers(lines, rows) ==> x in rows || x in lines
    decreases |lines|
  {
    if lines != [] {
      var n := |lines| - 1;
      WrittenLines(lines[..n], rows);
      assert forall x :: x in lines[..n] ==> x in lines;
    }
  }

  /** No old row of the rescanned disk survives the rewrite. */
  lemma {:induction false} OldRowsAreReplaced(lines: seq<string>, diskNumber: string,
                                              results: seq<ScanResult>)
    ensures forall x :: x in Rewritten(lines, diskNumber, results) ==>
      x in RowsHtml(diskNumber, results) || (x in lines && !Contains(x, Marker(diskNumber)))
  {
    WrittenLines(KeepOtherDisks(lines, diskNumber), RowsHtml(diskNumber, results));
  }

  /** Rows tagged with the disk are all dropped by the filter. */
  lemma {:induction false} TaggedRowsAreDropped(rows: seq<string>, diskNumber: string)
    requires forall k :: 0 <= k < |rows| ==> Contains(rows[k], Marker(diskNumber))
    ensures KeepOtherDisks(rows, diskNumber) == []
    decreases |rows|
  {
    if rows != [] {
      var n := |rows| - 1;
      TaggedRowsAreDropped(rows[..n], diskNumber);
      assert Contains(rows[n], Marker(diskNumber));
    }
  }

  lemma {:induction false} FilterUndoesInsert(kept: seq<string>, rows: seq<string>, diskNumber: string)
    requires forall k :: 0 <= k < |kept| ==> !Contains(kept[k], Marker(diskNumber))
    requires forall k :: 0 <= k < |rows| ==> Contains(rows[k], Marker(diskNumber))
    ensures KeepOtherDisks(InsertBeforeClosers(kept, rows), diskNumber) == kept
    decreases |kept|
  {
    if kept != [] {
      var n := |kept| - 1;
      var pre, l := kept[..n], kept[n];
      assert pre + [l] == kept;
      assert forall k :: 0 <= k < |pre| ==> pre[k] == kept[k];
      var e := if Contains(l, Closer) then rows else [];
      var x := InsertBeforeClosers(pre, rows);
      assert InsertBeforeClosers(kept, rows) == x + e + [l];
      FilterUndoesInsert(pre, rows, diskNumber);
      TaggedRowsAreDropped(rows, diskNumber);
      assert KeepOtherDisks(e, diskNumber) == [];
      KeepOtherDisksAppend(x, e, diskNumber);
      assert KeepOtherDisks(x + e, diskNumber) == pre;
      KeepOtherDisksAppend(x + e, [l], diskNumber);
      KeepUntagged(l, diskNumber);
    }
  }

  lemma {:induction false} KeepUntagged(l: string, diskNumber: string)
    requires !Contains(l, Marker(diskNumber))
    ensures KeepOtherDisks([l], diskNumber) == [l]
  {
    assert [l][..0] == [];
  }

  /** Rescanning a disk with the same results leaves the index as it is. */
  lemma {:induction false} RewriteIsIdempotent(lines: seq<string>, diskNumber: string,
                                               results: seq<ScanResult>)
    ensures Rewritten(Rewritten(lines, diskNumber, results), diskNumber, results)
         == Rewritten(lines, diskNumber, results)
  {
    FilterUndoesInsert(KeepOtherDisks(lines, diskNumber), RowsHtml(diskNumber, results), diskNumber);
  }
}
