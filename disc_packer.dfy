/**
 * The imperative side of `utils/disc_packer.py`: the mutable `Bin`, the
 * `first_fit_decreasing` loop over those objects, the row order of
 * `export_csv` and the destination names of `materialise_plan`.
 *
 * Each method is proved to compute the value that the `Packing` module
 * defines, so every property proved there holds for the objects here.
 */
module DiscPacker {
  import opened Text
  import opened Packing

  /** `Bin`: index, capacity and reserve are fixed when the bin is made;
      `used` and `files` grow with every successful `try_add`. */
  class Bin {
    const index: int
    const capacity: int
    const reserveBytes: int
    var used: int
    var files: seq<FileEntry>

    /** The bin as a value. */
    function View(): BinState
      reads this
    {
      BinState(index, capacity, reserveBytes, used, files)
    }

    /** `Bin(index=..., capacity=..., reserve_bytes=...)`: empty, nothing used. */
    constructor (index: int, capacity: int, reserveBytes: int)
      ensures View() == NewBin(index, capacity, reserveBytes)
    {
      this.index := index;
      this.capacity := capacity;
      this.reserveBytes := reserveBytes;
      used := 0;
      files := [];
    }

    /** `Bin.try_add`: succeeds exactly when `size + overhead` fits in what
        remains; then the entry is appended and `used` grows by that amount,
        otherwise the bin is left as it was. */
    method TryAdd(fe: FileEntry, perFileOverhead: int) returns (ok: bool)
      modifies this
      ensures ok <==> old(View()).Accepts(fe, perFileOverhead)
      ensures View() == if ok then old(View()).Add(fe, perFileOverhead) else old(View())
    {
      var needed := fe.size + perFileOverhead;
      if needed <= EffectiveCapacity(capacity, reserveBytes) - used {
        files := files + [fe];
        used := used + needed;
        ok := true;
      } else {
        ok := false;
      }
    }
  }

  /** The bins of a list, as values. */
  function Views(bins: seq<Bin>): (vs: seq<BinState>)
    reads bins
    ensures |vs| == |bins| && forall i :: 0 <= i < |bins| ==> vs[i] == bins[i].View()
  {
    if bins == [] then [] else Views(bins[..|bins| - 1]) + [bins[|bins| - 1].View()]
  }

  /** `first_fit_decreasing`: the bins it returns are new, distinct objects
      whose values are the bins of `FirstFitDecreasingPlan`, and the skipped
      list is that plan's. The threshold is the corrected one (see
      `Packing.TooBigThreshold`), with which the "must fit" assertion of a
      new bin is proved to hold. */
  method FirstFitDecreasing(files: seq<FileEntry>, capacity: int, reserveBytes: int,
                            perFileOverhead: int)
    returns (bins: seq<Bin>, skipped: seq<FileEntry>)
    ensures forall i :: 0 <= i < |bins| ==> fresh(bins[i])
    ensures forall i, j :: 0 <= i < j < |bins| ==> bins[i] != bins[j]
    ensures Plan(Views(bins), skipped)
            == FirstFitDecreasingPlan(files, capacity, reserveBytes, perFileOverhead)
  {
    var filesSorted := SortBySizeDescending(files);
    bins := [];
    skipped := [];
    var effectiveCapacity := Max(0, capacity - reserveBytes);
    var tooBigThresh := effectiveCapacity - perFileOverhead;
    ghost var plan := Plan([], []);
    var n := 0;
    while n < |filesSorted|
      invariant 0 <= n <= |filesSorted|
      invariant forall i :: 0 <= i < |bins| ==> fresh(bins[i])
      invariant forall i, j :: 0 <= i < j < |bins| ==> bins[i] != bins[j]
      invariant plan == PackInOrder(filesSorted[..n], capacity, reserveBytes, perFileOverhead)
      invariant |bins| == |plan.bins| && skipped == plan.skipped
      invariant forall i :: 0 <= i < |bins| ==> bins[i].View() == plan.bins[i]
    {
      var fe := filesSorted[n];
      PackInOrderStep(filesSorted, n, capacity, reserveBytes, perFileOverhead);
      bins, skipped := PackFile(bins, skipped, plan, fe, capacity, reserveBytes, perFileOverhead, tooBigThresh);
      plan := Place(plan, fe, capacity, reserveBytes, perFileOverhead);
      n := n + 1;
    }
    assert filesSorted[..n] == filesSorted;
    assert Views(bins) == plan.bins;
  }

  /** One turn of the loop of `first_fit_decreasing`: a file above the
      threshold is skipped, any other is placed first-fit. */
  method PackFile(bins: seq<Bin>, skipped: seq<FileEntry>, ghost plan: Plan, fe: FileEntry,
                  capacity: int, reserveBytes: int, perFileOverhead: int, tooBigThresh: int)
    returns (bins': seq<Bin>, skipped': seq<FileEntry>)
    requires tooBigThresh == TooBigThreshold(capacity, reserveBytes, perFileOverhead)
    requires forall i, j :: 0 <= i < j < |bins| ==> bins[i] != bins[j]
    requires |bins| == |plan.bins| && skipped == plan.skipped
    requires forall i :: 0 <= i < |bins| ==> bins[i].View() == plan.bins[i]
    modifies bins
    ensures forall i, j :: 0 <= i < j < |bins'| ==> bins'[i] != bins'[j]
    ensures forall i :: 0 <= i < |bins'| ==> (i < |bins| && bins'[i] == bins[i]) || fresh(bins'[i])
    ensures var next := Place(plan, fe, capacity, reserveBytes, perFileOverhead);
            |bins'| == |next.bins| && skipped' == next.skipped
            && forall i :: 0 <= i < |bins'| ==> bins'[i].View() == next.bins[i]
  {
    if fe.size > tooBigThresh {
      bins', skipped' := bins, skipped + [fe];
    } else {
      bins' := PlaceFile(bins, plan.bins, fe, capacity, reserveBytes, perFileOverhead);
      skipped' := skipped;
    }
  }

  /** The body of the loop of `first_fit_decreasing` for a file within the
      threshold: try the bins in order and stop at the first that takes the
      file; if none does, open a new bin with the next index, which is
      proved to take it. */
  method PlaceFile(bins: seq<Bin>, ghost before: seq<BinState>, fe: FileEntry, capacity: int,
                   reserveBytes: int, perFileOverhead: int)
    returns (bins': seq<Bin>)
    requires fe.size <= TooBigThreshold(capacity, reserveBytes, perFileOverhead)
    requires forall i, j :: 0 <= i < j < |bins| ==> bins[i] != bins[j]
    requires |bins| == |before| && forall i :: 0 <= i < |bins| ==> bins[i].View() == before[i]
    modifies bins
    ensures forall i, j :: 0 <= i < j < |bins'| ==> bins'[i] != bins'[j]
    ensures forall i :: 0 <= i < |bins'| ==> (i < |bins| && bins'[i] == bins[i]) || fresh(bins'[i])
    ensures var after := FirstFitInto(before, fe, capacity, reserveBytes, perFileOverhead);
            |bins'| == |after| && forall i :: 0 <= i < |bins'| ==> bins'[i].View() == after[i]
  {
    var placed := false;
    var j := 0;
    while j < |bins|
      invariant 0 <= j <= |bins| && !placed
      invariant forall k :: 0 <= k < |bins| ==> bins[k].View() == before[k]
      invariant forall k :: 0 <= k < j ==> !before[k].Accepts(fe, perFileOverhead)
    {
      placed := bins[j].TryAdd(fe, perFileOverhead);
      if placed {
        break;
      }
      j := j + 1;
    }
    if placed {
      FirstFitStep(before, fe, capacity, reserveBytes, perFileOverhead, j);
      bins' := bins;
      assert forall k :: 0 <= k < |bins| ==>
               bins'[k].View() == before[j := before[j].Add(fe, perFileOverhead)][k];
    } else {
      FirstFitStep(before, fe, capacity, reserveBytes, perFileOverhead, j);
      var newBin := OpenBin(|bins| + 1, capacity, reserveBytes, fe, perFileOverhead);
      bins' := bins + [newBin];
      assert forall k :: 0 <= k < |bins| ==> bins'[k] == bins[k] && bins'[k].View() == before[k];
    }
  }

  /** `Bin(index=len(bins) + 1, ...)` followed by the asserted `try_add`:
      with the file within the threshold the assertion holds, and the new
      bin holds just that file. */
  method OpenBin(index: int, capacity: int, reserveBytes: int, fe: FileEntry, perFileOverhead: int)
    returns (b: Bin)
    requires fe.size <= TooBigThreshold(capacity, reserveBytes, perFileOverhead)
    ensures fresh(b)
    ensures b.View() == BinState(index, capacity, reserveBytes, fe.size + perFileOverhead, [fe])
  {
    b := new Bin(index, capacity, reserveBytes);
    var ok := b.TryAdd(fe, perFileOverhead);
    assert ok;  // must fit
  }

  /** What one placement step yields, in terms of the first bin that takes
      the file (`k == |bins|` when none does). */
  lemma {:induction false} FirstFitStep(bins: seq<BinState>, fe: FileEntry, capacity: int, reserveBytes: int,
                     overhead: int, k: nat)
    requires fe.size <= TooBigThreshold(capacity, reserveBytes, overhead)
    requires k <= |bins| && (k < |bins| ==> bins[k].Accepts(fe, overhead))
    requires forall i :: 0 <= i < k ==> !bins[i].Accepts(fe, overhead)
    ensures k < |bins| ==>
              FirstFitInto(bins, fe, capacity, reserveBytes, overhead)
              == bins[k := bins[k].Add(fe, overhead)]
    ensures k == |bins| ==>
              FirstFitInto(bins, fe, capacity, reserveBytes, overhead)
              == bins + [BinState(|bins| + 1, capacity, reserveBytes, fe.size + overhead, [fe])]
  {
    assert FirstFit(bins, fe, overhead) == k;
    assert NewBin(|bins| + 1, capacity, reserveBytes).Add(fe, overhead)
        == BinState(|bins| + 1, capacity, reserveBytes, fe.size + overhead, [fe]);
  }

  // ---------------------------------------------------------------- export_csv

  /** One CSV row: the header, or `[b.index, str(fe.path), fe.size]`. */
  datatype CsvRow = Header | FileRow(discIndex: int, filePath: string, sizeBytes: nat)

  /** The rows of one bin, one per file, in the bin's order. */
  function BinRows(index: int, files: seq<FileEntry>): (rows: seq<CsvRow>)
    ensures |rows| == |files|
    ensures forall m :: 0 <= m < |files| ==>
              rows[m] == FileRow(index, files[m].path, files[m].size)
  {
    if files == [] then []
    else BinRows(index, files[..|files| - 1])
         + [FileRow(index, files[|files| - 1].path, files[|files| - 1].size)]
  }

  /** The file rows of the manifest: bin by bin, in each bin's order. */
  function FileRows(bins: seq<BinState>): (rows: seq<CsvRow>)
    ensures |rows| == |PackedFiles(bins)|
    ensures Header !in rows
  {
    if bins == [] then [] else FileRows(bins[..|bins| - 1]) + BinRows(bins[|bins| - 1].index, bins[|bins| - 1].files)
  }

  /** The rows `export_csv` writes: a header, then the file rows. */
  function ManifestRows(bins: seq<BinState>): (rows: seq<CsvRow>)
    ensures |rows| == 1 + |PackedFiles(bins)|
    ensures rows[0] == Header && Header !in rows[1..]
  {
    var body := FileRows(bins);
    assert ([Header] + body)[1..] == body;
    [Header] + body
  }

  /** `export_csv` over the bin objects: the header, then for each bin in
      turn the rows of its files. */
  method ExportCsv(bins: seq<Bin>) returns (rows: seq<CsvRow>)
    ensures rows == ManifestRows(Views(bins))
  {
    ghost var vs := Views(bins);
    rows := [Header];
    var i := 0;
    while i < |bins|
      invariant 0 <= i <= |bins|
      invariant rows == [Header] + FileRows(vs[..i])
    {
      AppendAssociative([Header], FileRows(vs[..i]), BinRows(vs[i].index, vs[i].files));
      assert vs[i].index == bins[i].index && vs[i].files == bins[i].files;
      FileRowsStep(vs, i);
      rows := WriteBinRows(rows, bins[i]);
      i := i + 1;
    }
    assert vs[..i] == vs;
  }

  /** The inner loop of `export_csv`: one row per file of the bin. */
  method WriteBinRows(rows: seq<CsvRow>, b: Bin) returns (rows': seq<CsvRow>)
    ensures rows' == rows + BinRows(b.index, b.files)
  {
    rows' := rows;
    var m := 0;
    while m < |b.files|
      invariant 0 <= m <= |b.files|
      invariant rows' == rows + BinRows(b.index, b.files[..m])
    {
      var fe := b.files[m];
      BinRowsStep(b.index, b.files, m);
      rows' := rows' + [FileRow(b.index, fe.path, fe.size)];
      AppendAssociative(rows, BinRows(b.index, b.files[..m]), [FileRow(b.index, fe.path, fe.size)]);
      m := m + 1;
    }
    assert b.files[..m] == b.files;
  }

  lemma {:induction false} BinRowsStep(index: int, files: seq<FileEntry>, m: nat)
    requires m < |files|
    ensures BinRows(index, files[..m + 1])
            == BinRows(index, files[..m]) + [FileRow(index, files[m].path, files[m].size)]
  {
    assert files[..m + 1][..m] == files[..m];
  }

  lemma {:induction false} FileRowsStep(bins: seq<BinState>, i: nat)
    requires i < |bins|
    ensures FileRows(bins[..i + 1]) == FileRows(bins[..i]) + BinRows(bins[i].index, bins[i].files)
  {
    assert bins[..i + 1][..i] == bins[..i];
  }

  /** Where the rows of bin `i` start among the file rows. */
  function RowOffset(bins: seq<BinState>, i: nat): nat
    requires i <= |bins|
  {
    |PackedFiles(bins[..i])|
  }

  /** There is one file row per packed file, and the r-th row names the r-th
      packed file, bin by bin. */
  lemma {:induction false} FileRowsFollowPackedFiles(bins: seq<BinState>)
    ensures |FileRows(bins)| == |PackedFiles(bins)|
    ensures forall r :: 0 <= r < |FileRows(bins)| ==>
              FileRows(bins)[r].FileRow? &&
              FileRows(bins)[r].filePath == PackedFiles(bins)[r].path &&
              FileRows(bins)[r].sizeBytes == PackedFiles(bins)[r].size
  {
    if bins != [] {
      FileRowsFollowPackedFiles(bins[..|bins| - 1]);
    }
  }

  /** The m-th file of bin i is written, tagged with that bin's index, at
      row `RowOffset(bins, i) + m`: rows are ordered by bin, then by the
      order within the bin. */
  lemma {:induction false} FileRowPosition(bins: seq<BinState>, i: nat, m: nat)
    requires i < |bins| && m < |bins[i].files|
    ensures RowOffset(bins, i) + |bins[i].files| <= |FileRows(bins)|
    ensures FileRows(bins)[RowOffset(bins, i) + m]
            == FileRow(bins[i].index, bins[i].files[m].path, bins[i].files[m].size)
  {
    var n := |bins|;
    var pre := bins[..n - 1];
    FileRowsFollowPackedFiles(pre);
    if i == n - 1 {
      assert bins[..i] == pre;
    } else {
      assert bins[..i] == pre[..i];
      FileRowPosition(pre, i, m);
    }
  }

  /** A file that the packer skipped never appears in the manifest; the
      manifest has exactly one row per packed file after its header. */
  lemma {:induction false} ManifestOmitsSkipped(files: seq<FileEntry>, capacity: int, reserveBytes: int,
                             overhead: int)
    ensures var p := FirstFitDecreasingPlan(files, capacity, reserveBytes, overhead);
            var rows := ManifestRows(p.bins);
            && |rows| == 1 + |PackedFiles(p.bins)|
            && rows[0] == Header
            && forall r :: 1 <= r < |rows| ==>
                 rows[r].FileRow? && FileEntry(rows[r].filePath, rows[r].sizeBytes) !in p.skipped
  {
    var p := FirstFitDecreasingPlan(files, capacity, reserveBytes, overhead);
    var rows := ManifestRows(p.bins);
    FileRowsFollowPackedFiles(p.bins);
    PackInOrderWellFormed(SortBySizeDescending(files), capacity, reserveBytes, overhead);
    forall r | 1 <= r < |rows|
      ensures rows[r].FileRow? && FileEntry(rows[r].filePath, rows[r].sizeBytes) !in p.skipped
    {
      assert rows[r] == FileRows(p.bins)[r - 1];
      PackedNotSkipped(p, capacity, reserveBytes, overhead, PackedFiles(p.bins)[r - 1]);
    }
  }

  lemma {:induction false} PackedNotSkipped(p: Plan, capacity: int, reserveBytes: int,
                                            overhead: int, fe: FileEntry)
    requires PlanWellFormed(p, capacity, reserveBytes, overhead)
    requires fe in PackedFiles(p.bins)
    ensures fe !in p.skipped
  {
    PackedFilesWithinThreshold(p.bins, capacity, reserveBytes, overhead, fe);
  }

  // ---------------------------------------------------------------- materialise_plan

  /** `f"disc_{index:03d}"`: "disc_" and the index in at least three digits. */
  function DiscDirName(index: int): (name: string)
    ensures |name| >= 6 && name[..5] == "disc_" && '/' !in name
    ensures index >= 0 ==> AllDigits(name[5..]) && DecimalValue(name[5..]) == index
    ensures 0 <= index < 1000 ==> |name| == 8
  {
    var digits := ZeroPaddedInt(index, 3);
    var name := "disc_" + digits;
    assert name[..5] == "disc_" && name[5..] == digits;
    FewDigits(if index >= 0 then index else 0);
    name
  }

  /** The first disc's directory is `disc_001`. */
  lemma {:induction false} FirstDiscDirName()
    ensures DiscDirName(1) == "disc_001"
  {
    assert Decimal(1) == "1";
    assert Repeat('0', 2) == "00";
    assert ZeroPaddedInt(1, 3) == "001";
  }

  /** `staging_dir / f"disc_{b.index:03d}" / fe.path.name`, for a staging
      directory written without a trailing '/'. */
  function Destination(stagingDir: string, index: int, path: string): (d: string)
    ensures BaseName(d) == BaseName(path)
  {
    var dir := stagingDir + "/" + DiscDirName(index);
    var name := BaseName(path);
    BaseNameAfterSlash(dir, name);
    dir + "/" + name
  }

  /** The base name of a destination is the base name of its source. */
  lemma {:induction false} BaseNameAfterSlash(x: string, b: string)
    requires '/' !in b
    ensures BaseName(x + "/" + b) == b
  {
    var w := x + "/" + b;
    var r := BaseName(w);
    assert w[|w| - |b| - 1] == '/';
    assert forall k :: |w| - |b| <= k < |w| ==> w[k] == b[k - (|w| - |b|)];
    assert |r| == |b|;
  }

  /** Two placed files get the same destination exactly when they are on the
      same disc and share a base name; the later link then replaces the
      earlier one. Files on different discs never collide. */
  lemma {:induction false} DestinationsCollideIff(stagingDir: string, i1: int, p1: string, i2: int, p2: string)
    ensures Destination(stagingDir, i1, p1) == Destination(stagingDir, i2, p2)
            <==> i1 == i2 && BaseName(p1) == BaseName(p2)
  {
    var b1, b2 := BaseName(p1), BaseName(p2);
    var d1, d2 := DiscDirName(i1), DiscDirName(i2);
    var h := stagingDir + "/";
    if Destination(stagingDir, i1, p1) == Destination(stagingDir, i2, p2) {
      BaseNameAfterSlash(h + d1, b1);
      BaseNameAfterSlash(h + d2, b2);
      CancelSuffix(h + d1 + "/", h + d2 + "/", b1);
      CancelSuffix(h + d1, h + d2, "/");
      CancelPrefix(h, d1, d2);
      CancelPrefix("disc_", ZeroPaddedInt(i1, 3), ZeroPaddedInt(i2, 3));
      ZeroPaddedIntInjective(i1, i2, 3);
    }
  }
}
