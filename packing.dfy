/**
 * First-Fit-Decreasing over integer byte sizes, as values.
 *
 * This module is the specification side of `utils/disc_packer.py`: the bin
 * accounting of `Bin`, the stable largest-first order of `sorted(...,
 * reverse=True)`, one placement step of `first_fit_decreasing`, and the plan
 * that the whole loop builds. The imperative `DiscPacker` module is proved to
 * compute exactly these values; everything the packer promises is proved
 * here about them.
 */
module Packing {

  datatype FileEntry = FileEntry(path: string, size: nat)

  function Max(a: int, b: int): int {
    if a >= b then a else b
  }

  /** `max(0, capacity - reserve_bytes)`: the bytes a bin may really hold. */
  function EffectiveCapacity(capacity: int, reserveBytes: int): (e: nat)
    ensures e >= capacity - reserveBytes
    ensures e == 0 || e == capacity - reserveBytes
  {
    Max(0, capacity - reserveBytes)
  }

  /** Bytes charged for a list of placed files: `size + overhead` each. */
  function Footprint(files: seq<FileEntry>, overhead: int): int {
    if files == [] then 0
    else Footprint(files[..|files| - 1], overhead) + files[|files| - 1].size + overhead
  }

  /** The value of one `Bin`: index, capacity, reserve, used bytes, files. */
  datatype BinState = BinState(index: int, capacity: int, reserveBytes: int, used: int,
                               files: seq<FileEntry>)
  {
    function Effective(): nat {
      EffectiveCapacity(capacity, reserveBytes)
    }

    /** `Bin.remaining`. */
    function Remaining(): (r: int)
      ensures r + used == Effective()
      ensures r >= 0 <==> used <= Effective()
    {
      Effective() - used
    }

    /** `Bin.utilisation`, exactly (the source computes it in floating point). */
    function Utilisation(): (u: real)
      ensures Effective() == 0 ==> u == 0.0
      ensures Effective() > 0 ==> u * Effective() as real == used as real
      ensures 0 <= used <= Effective() ==> 0.0 <= u <= 1.0
    {
      if Effective() == 0 then 0.0 else used as real / Effective() as real
    }

    /** The test of `Bin.try_add`: `size + overhead <= remaining`. */
    predicate Accepts(fe: FileEntry, overhead: int): (ok: bool)
      ensures ok <==> Add(fe, overhead).used <= Effective()
    {
      fe.size + overhead <= Remaining()
    }

    /** The effect of a successful `Bin.try_add`: the file is appended and its
        size and overhead are charged; index, capacity and reserve stay. */
    function Add(fe: FileEntry, overhead: int): (b: BinState)
      ensures b.index == index && b.capacity == capacity && b.reserveBytes == reserveBytes
      ensures b.files == files + [fe] && b.Effective() == Effective()
      ensures b.Remaining() == Remaining() - fe.size - overhead
    {
      this.(used := used + fe.size + overhead, files := files + [fe])
    }

    /** The bin invariant: `used` is the exact footprint of the files and
        stays within the effective capacity. */
    predicate Consistent(overhead: int) {
      used == Footprint(files, overhead) && used <= Effective()
    }
  }

  function NewBin(index: int, capacity: int, reserveBytes: int): BinState {
    BinState(index, capacity, reserveBytes, 0, [])
  }

  /** A successful add keeps the bin invariant: the new `used` is again the
      footprint of the new file list, and within the effective capacity. */
  lemma {:induction false} AddKeepsConsistent(b: BinState, fe: FileEntry, overhead: int)
    requires b.Consistent(overhead) && b.Accepts(fe, overhead)
    ensures b.Add(fe, overhead).Consistent(overhead)
    ensures b.Add(fe, overhead).files == b.files + [fe]
    ensures b.Add(fe, overhead).used == b.used + fe.size + overhead
  {
    var fs := b.files + [fe];
    assert fs[..|fs| - 1] == b.files;
  }

  // ---------------------------------------------------------------- threshold

  /** `too_big_thresh` exactly as disc_packer.py:118 computes it. */
  function TooBigThresholdAsWritten(capacity: int, reserveBytes: int, overhead: int): (t: int)
    ensures t >= 0 && t >= TooBigThreshold(capacity, reserveBytes, overhead)
    ensures TooBigThreshold(capacity, reserveBytes, overhead) >= 0 ==>
              t == TooBigThreshold(capacity, reserveBytes, overhead)
    ensures TooBigThreshold(capacity, reserveBytes, overhead) < 0 ==> t == 0
  {
    Max(0, EffectiveCapacity(capacity, reserveBytes) - overhead)
  }

  /** The threshold the model packs with: the largest size an empty bin
      accepts (the source's value without the clamp at zero). */
  function TooBigThreshold(capacity: int, reserveBytes: int, overhead: int): (t: int)
    ensures t + overhead == EffectiveCapacity(capacity, reserveBytes)
  {
    EffectiveCapacity(capacity, reserveBytes) - overhead
  }

  /** The threshold means what its name says: a file fits in a fresh bin iff
      its size is at most the threshold. */
  lemma {:induction false} NewBinAcceptsIffWithinThreshold(index: int, capacity: int, reserveBytes: int,
                                        overhead: int, fe: FileEntry)
    ensures NewBin(index, capacity, reserveBytes).Accepts(fe, overhead)
            <==> fe.size <= TooBigThreshold(capacity, reserveBytes, overhead)
  {
  }

  /** The clamp at disc_packer.py:118 lets an empty file through when the
      overhead exceeds the effective capacity, and then no new bin accepts
      it, so the "must fit" assertion at line 132 fails. */
  lemma {:induction false} AsWrittenThresholdBreaksMustFit()
    ensures var fe := FileEntry("empty.dat", 0);
            && !(fe.size > TooBigThresholdAsWritten(100, 0, 200))
            && !NewBin(1, 100, 0).Accepts(fe, 200)
  {
  }

  /** The corrected threshold decides differently from the source's only on
      those inputs, where the source aborts. */
  lemma {:induction false} CorrectionOnlyAffectsAbortingCase(capacity: int, reserveBytes: int, overhead: int,
                                          fe: FileEntry)
    ensures ((fe.size > TooBigThreshold(capacity, reserveBytes, overhead))
             != (fe.size > TooBigThresholdAsWritten(capacity, reserveBytes, overhead)))
            <==> (fe.size == 0 && EffectiveCapacity(capacity, reserveBytes) < overhead)
    ensures fe.size == 0 && EffectiveCapacity(capacity, reserveBytes) < overhead
            ==> !NewBin(1, capacity, reserveBytes).Accepts(fe, overhead)
  {
  }

  // ---------------------------------------------------------------- sort

  predicate SortedBySizeDescending(s: seq<FileEntry>) {
    forall i, j :: 0 <= i < j < |s| ==> s[i].size >= s[j].size
  }

  /** Insert `fe` before the first entry that is not larger than it, so that
      it precedes every entry of equal size (it came earlier in the input). */
  function InsertBySize(fe: FileEntry, s: seq<FileEntry>): seq<FileEntry> {
    if s == [] then [fe]
    else if s[0].size <= fe.size then [fe] + s
    else [s[0]] + InsertBySize(fe, s[1..])
  }

  /** Inserting into a largest-first sequence keeps it largest-first; the
      result starts with the inserted entry or with the old first entry. */
  lemma {:induction false} InsertBySizeSorted(fe: FileEntry, s: seq<FileEntry>)
    requires SortedBySizeDescending(s)
    ensures SortedBySizeDescending(InsertBySize(fe, s))
    ensures |InsertBySize(fe, s)| == |s| + 1
    ensures InsertBySize(fe, s)[0] == fe || (s != [] && InsertBySize(fe, s)[0] == s[0])
  {
    if s != [] && s[0].size > fe.size {
      var rest := s[1..];
      assert forall i :: 0 <= i < |rest| ==> rest[i] == s[i + 1];
      InsertBySizeSorted(fe, rest);
      var t := InsertBySize(fe, rest);
      var r := [s[0]] + t;
      assert s[0].size >= t[0].size;
      assert forall j :: 1 <= j < |r| ==> r[j] == t[j - 1];
    }
  }

  /** Inserting adds exactly the one entry. */
  lemma {:induction false} InsertBySizePermutes(fe: FileEntry, s: seq<FileEntry>)
    ensures multiset(InsertBySize(fe, s)) == multiset(s) + multiset{fe}
  {
    if s != [] && s[0].size > fe.size {
      var t := InsertBySize(fe, s[1..]);
      InsertBySizePermutes(fe, s[1..]);
      assert s == [s[0]] + s[1..];
      assert multiset(s) == multiset{s[0]} + multiset(s[1..]);
      assert InsertBySize(fe, s) == [s[0]] + t;
    }
  }

  /** `sorted(files, key=lambda f: f.size, reverse=True)`. */
  function SortBySizeDescending(s: seq<FileEntry>): (r: seq<FileEntry>)
    ensures SortedBySizeDescending(r)
    ensures multiset(r) == multiset(s)
  {
    if s == [] then []
    else
      var t := SortBySizeDescending(s[1..]);
      InsertBySizeSorted(s[0], t);
      InsertBySizePermutes(s[0], t);
      assert s == [s[0]] + s[1..];
      InsertBySize(s[0], t)
  }

  /** The entries of size `k`, in order. */
  function WithSize(s: seq<FileEntry>, k: nat): seq<FileEntry> {
    if s == [] then [] else (if s[0].size == k then [s[0]] else []) + WithSize(s[1..], k)
  }

  lemma {:induction false} InsertKeepsSizeClasses(fe: FileEntry, s: seq<FileEntry>, k: nat)
    requires SortedBySizeDescending(s)
    ensures WithSize(InsertBySize(fe, s), k) == (if fe.size == k then [fe] else []) + WithSize(s, k)
  {
    var here := if fe.size == k then [fe] else [];
    if s == [] {
      assert WithSize([fe], k) == here + WithSize([], k);
    } else if s[0].size > fe.size {
      var t := InsertBySize(fe, s[1..]);
      var first := if s[0].size == k then [s[0]] else [];
      var rest := WithSize(s[1..], k);
      InsertKeepsSizeClasses(fe, s[1..], k);
      assert ([s[0]] + t)[1..] == t;
      assert WithSize([s[0]] + t, k) == first + WithSize(t, k);
      assert WithSize(s, k) == first + rest;
      if here == [] {
        assert WithSize(t, k) == rest;
      } else {
        assert first == [];
        assert WithSize(t, k) == here + rest;
      }
    } else {
      assert ([fe] + s)[1..] == s;
      assert WithSize([fe] + s, k) == here + WithSize(s, k);
    }
  }

  /** The sort is stable: the entries of each size keep their input order. */
  lemma {:induction false} SortIsStable(s: seq<FileEntry>, k: nat)
    ensures WithSize(SortBySizeDescending(s), k) == WithSize(s, k)
  {
    if s != [] {
      SortIsStable(s[1..], k);
      InsertKeepsSizeClasses(s[0], SortBySizeDescending(s[1..]), k);
    }
  }

  lemma {:induction false} WithSizeMembers(s: seq<FileEntry>, k: nat, x: FileEntry)
    ensures x in WithSize(s, k) <==> x in s && x.size == k
  {
    if s != [] {
      WithSizeMembers(s[1..], k, x);
      assert s == [s[0]] + s[1..];
    }
  }

  /** A largest-first order that keeps each size class in input order is
      unique: so the processing order, and with it the whole plan, is
      determined by the input sequence. */
  lemma {:induction false} StableOrderIsUnique(r1: seq<FileEntry>, r2: seq<FileEntry>)
    requires SortedBySizeDescending(r1) && SortedBySizeDescending(r2)
    requires forall k :: WithSize(r1, k) == WithSize(r2, k)
    ensures r1 == r2
    decreases |r1|
  {
    if r1 == [] || r2 == [] {
      assert r1 != [] ==> WithSize(r1, r1[0].size) != [];
      assert r2 != [] ==> WithSize(r2, r2[0].size) != [];
    } else {
      var m1, m2 := r1[0].size, r2[0].size;
      WithSizeMembers(r1, m1, r1[0]);
      WithSizeMembers(r2, m1, WithSize(r2, m1)[0]);
      WithSizeMembers(r2, m2, r2[0]);
      WithSizeMembers(r1, m2, WithSize(r1, m2)[0]);
      assert m1 == m2;
      assert WithSize(r1, m1)[0] == r1[0];
      assert WithSize(r2, m1)[0] == r2[0];
      forall k
        ensures WithSize(r1[1..], k) == WithSize(r2[1..], k)
      {
        assert WithSize(r1, k) == WithSize(r2, k);
        if k == m1 {
          assert WithSize(r1, k) == [r1[0]] + WithSize(r1[1..], k);
          assert WithSize(r2, k) == [r2[0]] + WithSize(r2[1..], k);
          assert WithSize(r1, k)[1..] == WithSize(r1[1..], k);
          assert WithSize(r2, k)[1..] == WithSize(r2[1..], k);
        } else {
          assert WithSize(r1, k) == WithSize(r1[1..], k);
          assert WithSize(r2, k) == WithSize(r2[1..], k);
        }
      }
      StableOrderIsUnique(r1[1..], r2[1..]);
    }
  }

  // ---------------------------------------------------------------- placement

  /** The first bin, in creation order, that accepts `fe`; `|bins|` if none. */
  function FirstFit(bins: seq<BinState>, fe: FileEntry, overhead: int): (k: nat)
    ensures k <= |bins|
    ensures k < |bins| ==> bins[k].Accepts(fe, overhead)
    ensures forall j :: 0 <= j < k ==> !bins[j].Accepts(fe, overhead)
  {
    if bins == [] then 0
    else if bins[0].Accepts(fe, overhead) then 0
    else 1 + FirstFit(bins[1..], fe, overhead)
  }

  /** The result of `first_fit_decreasing`: bins in creation order, and the
      skipped files. */
  datatype Plan = Plan(bins: seq<BinState>, skipped: seq<FileEntry>)

  /** Lines 125-133 of disc_packer.py: the file goes into the first bin
      that takes it, or else into a new bin with the next index. */
  function FirstFitInto(bins: seq<BinState>, fe: FileEntry, capacity: int, reserveBytes: int,
                        overhead: int): (r: seq<BinState>)
    ensures |bins| <= |r| <= |bins| + 1
    ensures |r| == |bins| <==> FirstFit(bins, fe, overhead) < |bins|
    ensures |r| == |bins| + 1 ==> r[|bins|].index == |bins| + 1 && r[|bins|].files == [fe]
    ensures r[..FirstFit(bins, fe, overhead)] == bins[..FirstFit(bins, fe, overhead)]
  {
    var k := FirstFit(bins, fe, overhead);
    if k < |bins| then bins[k := bins[k].Add(fe, overhead)]
    else bins + [NewBin(|bins| + 1, capacity, reserveBytes).Add(fe, overhead)]
  }

  /** One iteration of the loop at disc_packer.py:120-133. */
  function Place(p: Plan, fe: FileEntry, capacity: int, reserveBytes: int, overhead: int): (q: Plan)
    ensures q.skipped == p.skipped + if fe.size > TooBigThreshold(capacity, reserveBytes, overhead) then [fe] else []
    ensures fe.size > TooBigThreshold(capacity, reserveBytes, overhead) ==> q.bins == p.bins
    ensures |q.bins| + |q.skipped| <= |p.bins| + |p.skipped| + 1
  {
    if fe.size > TooBigThreshold(capacity, reserveBytes, overhead) then
      Plan(p.bins, p.skipped + [fe])
    else
      Plan(FirstFitInto(p.bins, fe, capacity, reserveBytes, overhead), p.skipped)
  }

  /** The plan after the loop has processed `files` in the given order. */
  function PackInOrder(files: seq<FileEntry>, capacity: int, reserveBytes: int, overhead: int): (p: Plan)
    ensures |p.bins| + |p.skipped| <= |files|
  {
    if files == [] then Plan([], [])
    else Place(PackInOrder(files[..|files| - 1], capacity, reserveBytes, overhead),
               files[|files| - 1], capacity, reserveBytes, overhead)
  }

  /** Processing one more file of `files` is one more placement step. */
  lemma {:induction false} PackInOrderStep(files: seq<FileEntry>, n: nat, capacity: int, reserveBytes: int,
                        overhead: int)
    requires n < |files|
    ensures PackInOrder(files[..n + 1], capacity, reserveBytes, overhead)
            == Place(PackInOrder(files[..n], capacity, reserveBytes, overhead), files[n],
                     capacity, reserveBytes, overhead)
  {
    assert files[..n + 1][..n] == files[..n];
  }

  /** `first_fit_decreasing(files, capacity, reserve_bytes, per_file_overhead)`. */
  function FirstFitDecreasingPlan(files: seq<FileEntry>, capacity: int, reserveBytes: int,
                                  overhead: int): (p: Plan)
    ensures |p.bins| + |p.skipped| <= |files|
  {
    var sorted := SortBySizeDescending(files);
    assert |sorted| == |multiset(sorted)| == |multiset(files)| == |files|;
    PackInOrder(sorted, capacity, reserveBytes, overhead)
  }

  /** One step is first fit: a file within the threshold goes to the first
      bin that accepts it, or to a new bin with the next index when no
      existing bin accepts it; a file above the threshold is skipped. */
  lemma {:induction false} PlaceIsFirstFit(p: Plan, fe: FileEntry, capacity: int, reserveBytes: int, overhead: int)
    ensures var q := Place(p, fe, capacity, reserveBytes, overhead);
            var t := TooBigThreshold(capacity, reserveBytes, overhead);
            && (fe.size > t ==> q == Plan(p.bins, p.skipped + [fe]))
            && (fe.size <= t ==> q.skipped == p.skipped)
            && (fe.size <= t && (exists j :: 0 <= j < |p.bins| && p.bins[j].Accepts(fe, overhead)) ==>
                  exists k :: 0 <= k < |p.bins|
                    && p.bins[k].Accepts(fe, overhead)
                    && (forall j :: 0 <= j < k ==> !p.bins[j].Accepts(fe, overhead))
                    && q.bins == p.bins[k := p.bins[k].Add(fe, overhead)])
            && (fe.size <= t && (forall j :: 0 <= j < |p.bins| ==> !p.bins[j].Accepts(fe, overhead)) ==>
                  q.bins == p.bins + [BinState(|p.bins| + 1, capacity, reserveBytes,
                                               fe.size + overhead, [fe])])
  {
    var t := TooBigThreshold(capacity, reserveBytes, overhead);
    if fe.size <= t {
      var k := FirstFit(p.bins, fe, overhead);
      if k < |p.bins| {
        assert p.bins[k].Accepts(fe, overhead);
      } else {
        assert NewBin(|p.bins| + 1, capacity, reserveBytes).Add(fe, overhead)
            == BinState(|p.bins| + 1, capacity, reserveBytes, fe.size + overhead, [fe]);
      }
    }
  }

  // ---------------------------------------------------------------- plan invariants

  predicate BinWellFormed(b: BinState, i: int, capacity: int, reserveBytes: int, overhead: int) {
    && b.index == i + 1
    && b.capacity == capacity
    && b.reserveBytes == reserveBytes
    && b.files != []
    && b.Consistent(overhead)
    && forall m :: 0 <= m < |b.files| ==> b.files[m].size <= TooBigThreshold(capacity, reserveBytes, overhead)
  }

  /** Bins are numbered 1, 2, ... in creation order, share the capacity and
      reserve, are non-empty and consistent, hold only files within the
      threshold; skipped files are all above it. */
  predicate PlanWellFormed(p: Plan, capacity: int, reserveBytes: int, overhead: int) {
    && (forall i :: 0 <= i < |p.bins| ==> BinWellFormed(p.bins[i], i, capacity, reserveBytes, overhead))
    && (forall m :: 0 <= m < |p.skipped| ==> p.skipped[m].size > TooBigThreshold(capacity, reserveBytes, overhead))
  }

  /** Adding a file within the threshold to a well-formed bin that accepts
      it leaves the bin well formed. */
  lemma {:induction false} AddKeepsWellFormed(b: BinState, i: int, fe: FileEntry, capacity: int,
                                              reserveBytes: int, overhead: int)
    requires BinWellFormed(b, i, capacity, reserveBytes, overhead) && b.Accepts(fe, overhead)
    requires fe.size <= TooBigThreshold(capacity, reserveBytes, overhead)
    ensures BinWellFormed(b.Add(fe, overhead), i, capacity, reserveBytes, overhead)
  {
    AddKeepsConsistent(b, fe, overhead);
    var fs := b.files + [fe];
    assert forall m :: 0 <= m < |b.files| ==> fs[m] == b.files[m];
  }

  lemma {:induction false} PlaceKeepsWellFormed(p: Plan, fe: FileEntry, capacity: int,
                                                reserveBytes: int, overhead: int)
    requires PlanWellFormed(p, capacity, reserveBytes, overhead)
    ensures PlanWellFormed(Place(p, fe, capacity, reserveBytes, overhead), capacity, reserveBytes, overhead)
  {
    var t := TooBigThreshold(capacity, reserveBytes, overhead);
    var q := Place(p, fe, capacity, reserveBytes, overhead);
    if fe.size <= t {
      var k := FirstFit(p.bins, fe, overhead);
      if k < |p.bins| {
        assert q.bins == p.bins[k := p.bins[k].Add(fe, overhead)];
        AddKeepsWellFormed(p.bins[k], k, fe, capacity, reserveBytes, overhead);
        assert forall i :: 0 <= i < |q.bins| && i != k ==> q.bins[i] == p.bins[i];
      } else {
        var nb := NewBin(|p.bins| + 1, capacity, reserveBytes);
        assert q.bins == p.bins + [nb.Add(fe, overhead)];
        AddKeepsConsistent(nb, fe, overhead);
        assert BinWellFormed(q.bins[|p.bins|], |p.bins|, capacity, reserveBytes, overhead);
        assert forall i :: 0 <= i < |p.bins| ==> q.bins[i] == p.bins[i];
      }
    } else {
      assert q == Plan(p.bins, p.skipped + [fe]);
    }
  }

  /** Every plan the loop builds is well formed; in particular the "must fit"
      assertion of disc_packer.py:132 holds at every step. */
  lemma {:induction false} PackInOrderWellFormed(files: seq<FileEntry>, capacity: int,
                                                 reserveBytes: int, overhead: int)
    ensures PlanWellFormed(PackInOrder(files, capacity, reserveBytes, overhead), capacity, reserveBytes, overhead)
  {
    if files != [] {
      PackInOrderWellFormed(files[..|files| - 1], capacity, reserveBytes, overhead);
      PlaceKeepsWellFormed(PackInOrder(files[..|files| - 1], capacity, reserveBytes, overhead),
                           files[|files| - 1], capacity, reserveBytes, overhead);
    }
  }

  /** All placed files, bin by bin, in placement order within each bin. */
  function PackedFiles(bins: seq<BinState>): seq<FileEntry> {
    if bins == [] then [] else PackedFiles(bins[..|bins| - 1]) + bins[|bins| - 1].files
  }

  lemma {:induction false} PackedFilesAfterAdd(bins: seq<BinState>, k: nat, b: BinState, fe: FileEntry)
    requires k < |bins| && b.files == bins[k].files + [fe]
    ensures multiset(PackedFiles(bins[k := b])) == multiset(PackedFiles(bins)) + multiset{fe}
  {
    var n := |bins|;
    if k < n - 1 {
      assert bins[k := b][..n - 1] == bins[..n - 1][k := b];
      PackedFilesAfterAdd(bins[..n - 1], k, b, fe);
    } else {
      assert bins[k := b][..n - 1] == bins[..n - 1];
    }
  }

  /** The files of the input, in processing order, that are above the threshold. */
  function TooBig(files: seq<FileEntry>, threshold: int): seq<FileEntry> {
    if files == [] then []
    else TooBig(files[..|files| - 1], threshold)
         + (if files[|files| - 1].size > threshold then [files[|files| - 1]] else [])
  }

  /** The files a bin held before a step (none for a bin the step creates). */
  function FilesBefore(bins: seq<BinState>, i: nat): seq<FileEntry> {
    if i < |bins| then bins[i].files else []
  }

  /** What one step does to the contents of a plan: the file is added to the
      skipped list when it is above the threshold and to the bins otherwise. */
  lemma {:induction false} PlaceContents(p: Plan, fe: FileEntry, capacity: int, reserveBytes: int, overhead: int)
    ensures var q := Place(p, fe, capacity, reserveBytes, overhead);
            var t := TooBigThreshold(capacity, reserveBytes, overhead);
            && multiset(PackedFiles(q.bins)) + multiset(q.skipped)
               == multiset(PackedFiles(p.bins)) + multiset(p.skipped) + multiset{fe}
            && q.skipped == p.skipped + (if fe.size > t then [fe] else [])
  {
    if fe.size <= TooBigThreshold(capacity, reserveBytes, overhead) {
      var k := FirstFit(p.bins, fe, overhead);
      if k < |p.bins| {
        PackedFilesAfterAdd(p.bins, k, p.bins[k].Add(fe, overhead), fe);
      } else {
        var bins' := p.bins + [NewBin(|p.bins| + 1, capacity, reserveBytes).Add(fe, overhead)];
        assert bins'[..|bins'| - 1] == p.bins;
      }
    }
  }

  /** One step changes at most one bin, by appending the file to it, or
      appends one new bin holding just the file. */
  lemma {:induction false} PlaceShape(p: Plan, fe: FileEntry, capacity: int, reserveBytes: int, overhead: int)
    ensures var q := Place(p, fe, capacity, reserveBytes, overhead);
            && (|q.bins| == |p.bins| || |q.bins| == |p.bins| + 1)
            && forall i :: 0 <= i < |q.bins| ==>
                 q.bins[i].files == FilesBefore(p.bins, i) || q.bins[i].files == FilesBefore(p.bins, i) + [fe]
  {
    if fe.size <= TooBigThreshold(capacity, reserveBytes, overhead) {
      var k := FirstFit(p.bins, fe, overhead);
      if k == |p.bins| {
        var bins' := p.bins + [NewBin(|p.bins| + 1, capacity, reserveBytes).Add(fe, overhead)];
        assert bins'[|p.bins|].files == [] + [fe];
      }
    }
  }

  /** Partition: every input entry is placed or skipped, as often as it
      occurs in the input: none is lost and none duplicated. The skipped
      list is exactly the too-big files, in processing order. */
  lemma {:induction false} PackInOrderPartition(files: seq<FileEntry>, capacity: int,
                                                reserveBytes: int, overhead: int)
    ensures var p := PackInOrder(files, capacity, reserveBytes, overhead);
            && multiset(PackedFiles(p.bins)) + multiset(p.skipped) == multiset(files)
            && p.skipped == TooBig(files, TooBigThreshold(capacity, reserveBytes, overhead))
  {
    if files != [] {
      var pre := files[..|files| - 1];
      var fe := files[|files| - 1];
      PackInOrderPartition(pre, capacity, reserveBytes, overhead);
      PlaceContents(PackInOrder(pre, capacity, reserveBytes, overhead), fe, capacity, reserveBytes, overhead);
      assert files == pre + [fe];
    }
  }

  /** Hence a file is skipped iff it is above the threshold, and a file at or
      below the threshold is in some bin. */
  lemma {:induction false} PackInOrderThreshold(files: seq<FileEntry>, capacity: int, reserveBytes: int,
                             overhead: int, fe: FileEntry)
    requires fe in files
    ensures var p := PackInOrder(files, capacity, reserveBytes, overhead);
            var t := TooBigThreshold(capacity, reserveBytes, overhead);
            && (fe in p.skipped <==> fe.size > t)
            && (fe in PackedFiles(p.bins) <==> fe.size <= t)
  {
    var p := PackInOrder(files, capacity, reserveBytes, overhead);
    PackInOrderPartition(files, capacity, reserveBytes, overhead);
    PackInOrderWellFormed(files, capacity, reserveBytes, overhead);
    assert multiset(files)[fe] == multiset(PackedFiles(p.bins))[fe] + multiset(p.skipped)[fe];
    if fe in PackedFiles(p.bins) {
      PackedFilesWithinThreshold(p.bins, capacity, reserveBytes, overhead, fe);
    }
  }

  lemma {:induction false} PackedFilesWithinThreshold(bins: seq<BinState>, capacity: int,
                                                      reserveBytes: int, overhead: int, fe: FileEntry)
    requires forall i :: 0 <= i < |bins| ==> BinWellFormed(bins[i], i, capacity, reserveBytes, overhead)
    requires fe in PackedFiles(bins)
    ensures fe.size <= TooBigThreshold(capacity, reserveBytes, overhead)
  {
    var n := |bins|;
    if fe !in bins[n - 1].files {
      PackedFilesWithinThreshold(bins[..n - 1], capacity, reserveBytes, overhead, fe);
    } else {
      assert BinWellFormed(bins[n - 1], n - 1, capacity, reserveBytes, overhead);
    }
  }

  /** Every file of every bin is one of `files`. */
  predicate BinsDrawnFrom(bins: seq<BinState>, files: seq<FileEntry>) {
    forall i, m :: 0 <= i < |bins| && 0 <= m < |bins[i].files| ==> bins[i].files[m] in files
  }

  /** Every file of every bin comes from the processed input. */
  lemma {:induction false} PackedComeFromInput(files: seq<FileEntry>, capacity: int,
                                               reserveBytes: int, overhead: int)
    ensures BinsDrawnFrom(PackInOrder(files, capacity, reserveBytes, overhead).bins, files)
  {
    if files != [] {
      var pre := files[..|files| - 1];
      var fe := files[|files| - 1];
      var p := PackInOrder(pre, capacity, reserveBytes, overhead);
      var q := Place(p, fe, capacity, reserveBytes, overhead);
      PackedComeFromInput(pre, capacity, reserveBytes, overhead);
      PlaceShape(p, fe, capacity, reserveBytes, overhead);
      forall i, m | 0 <= i < |q.bins| && 0 <= m < |q.bins[i].files|
        ensures q.bins[i].files[m] in files
      {
        var before := FilesBefore(p.bins, i);
        if m < |before| {
          assert i < |p.bins| && q.bins[i].files[m] == p.bins[i].files[m];
          assert p.bins[i].files[m] in pre;
        } else {
          assert q.bins[i].files[m] == fe;
        }
      }
    }
  }

  predicate BinsSorted(bins: seq<BinState>) {
    forall i :: 0 <= i < |bins| ==> SortedBySizeDescending(bins[i].files)
  }

  /** Packing a largest-first sequence fills every bin largest-first. */
  lemma {:induction false} PackSortedKeepsBinsSorted(files: seq<FileEntry>, capacity: int,
                                                     reserveBytes: int, overhead: int)
    requires SortedBySizeDescending(files)
    ensures BinsSorted(PackInOrder(files, capacity, reserveBytes, overhead).bins)
  {
    if files != [] {
      var pre := files[..|files| - 1];
      var fe := files[|files| - 1];
      var p := PackInOrder(pre, capacity, reserveBytes, overhead);
      var q := Place(p, fe, capacity, reserveBytes, overhead);
      PackSortedKeepsBinsSorted(pre, capacity, reserveBytes, overhead);
      PackedComeFromInput(pre, capacity, reserveBytes, overhead);
      PlaceShape(p, fe, capacity, reserveBytes, overhead);
      assert forall x :: x in pre ==> x.size >= fe.size;
      forall i | 0 <= i < |q.bins|
        ensures SortedBySizeDescending(q.bins[i].files)
      {
        var before := FilesBefore(p.bins, i);
        if i < |p.bins| {
          assert SortedBySizeDescending(p.bins[i].files);
          forall m | 0 <= m < |before| ensures before[m].size >= fe.size {
            assert before[m] == p.bins[i].files[m];
            assert before[m] in pre;
          }
        }
      }
    }
  }

  // ---------------------------------------------------------------- first fit over the whole run

  /** No file of a later bin would fit, now, into an earlier bin. */
  predicate FirstFitOrdered(bins: seq<BinState>, overhead: int) {
    forall i, j, m :: 0 <= i < j < |bins| && 0 <= m < |bins[j].files| ==>
      !bins[i].Accepts(bins[j].files[m], overhead)
  }

  lemma {:induction false} PlaceKeepsFirstFitOrdered(p: Plan, fe: FileEntry, capacity: int, reserveBytes: int,
                                  overhead: int)
    requires overhead >= 0
    requires FirstFitOrdered(p.bins, overhead)
    ensures FirstFitOrdered(Place(p, fe, capacity, reserveBytes, overhead).bins, overhead)
  {
    var t := TooBigThreshold(capacity, reserveBytes, overhead);
    if fe.size <= t {
      var k := FirstFit(p.bins, fe, overhead);
      var q := Place(p, fe, capacity, reserveBytes, overhead).bins;
      if k < |p.bins| {
        forall i, j, m | 0 <= i < j < |q| && 0 <= m < |q[j].files|
          ensures !q[i].Accepts(q[j].files[m], overhead)
        {
          if j == k && m == |p.bins[k].files| {
            assert q[j].files[m] == fe;
          } else {
            assert q[j].files[m] == p.bins[j].files[m];
          }
        }
      } else {
        forall i, j, m | 0 <= i < j < |q| && 0 <= m < |q[j].files|
          ensures !q[i].Accepts(q[j].files[m], overhead)
        {
          if j == |p.bins| {
            assert q[j].files == [fe];
          }
        }
      }
    }
  }

  /** With a non-negative overhead, the first-fit choice made at every step
      is still visible in the final plan: a file placed in bin j does not fit
      into the final state of any bin i < j. */
  lemma {:induction false} PackInOrderFirstFitOrdered(files: seq<FileEntry>, capacity: int,
                                                      reserveBytes: int, overhead: int)
    requires overhead >= 0
    ensures FirstFitOrdered(PackInOrder(files, capacity, reserveBytes, overhead).bins, overhead)
  {
    if files != [] {
      PackInOrderFirstFitOrdered(files[..|files| - 1], capacity, reserveBytes, overhead);
      PlaceKeepsFirstFitOrdered(PackInOrder(files[..|files| - 1], capacity, reserveBytes, overhead),
                                files[|files| - 1], capacity, reserveBytes, overhead);
    }
  }

  lemma {:induction false} FootprintCoversEach(files: seq<FileEntry>, overhead: int, m: nat)
    requires overhead >= 0 && m < |files|
    ensures Footprint(files, overhead) >= files[m].size + overhead
  {
    var n := |files|;
    FootprintNonNegative(files[..n - 1], overhead);
    if m < n - 1 {
      FootprintCoversEach(files[..n - 1], overhead, m);
    }
  }

  lemma {:induction false} FootprintNonNegative(files: seq<FileEntry>, overhead: int)
    requires overhead >= 0
    ensures Footprint(files, overhead) >= 0
  {
    if files != [] {
      FootprintNonNegative(files[..|files| - 1], overhead);
    }
  }

  /** The classic consequence of first fit: any two bins together hold more
      than one bin's effective capacity, so at most one bin is half full or
      less. */
  lemma {:induction false} TwoBinsOverfillOne(files: seq<FileEntry>, capacity: int, reserveBytes: int,
                           overhead: int, i: nat, j: nat)
    requires overhead >= 0
    requires var p := PackInOrder(files, capacity, reserveBytes, overhead);
             i < j < |p.bins|
    ensures var p := PackInOrder(files, capacity, reserveBytes, overhead);
            p.bins[i].used + p.bins[j].used > EffectiveCapacity(capacity, reserveBytes)
  {
    var p := PackInOrder(files, capacity, reserveBytes, overhead);
    PackInOrderWellFormed(files, capacity, reserveBytes, overhead);
    PackInOrderFirstFitOrdered(files, capacity, reserveBytes, overhead);
    assert BinWellFormed(p.bins[i], i, capacity, reserveBytes, overhead);
    assert BinWellFormed(p.bins[j], j, capacity, reserveBytes, overhead);
    assert !p.bins[i].Accepts(p.bins[j].files[0], overhead);
    FootprintCoversEach(p.bins[j].files, overhead, 0);
  }

  // ---------------------------------------------------------------- the whole packer

  /** What `first_fit_decreasing` promises, over the original (unsorted)
      input: a well-formed plan that partitions the input, skipping exactly
      the files above the threshold, with each bin filled largest-first. */
  lemma {:induction false} FirstFitDecreasingPlanCorrect(files: seq<FileEntry>, capacity: int, reserveBytes: int,
                                      overhead: int)
    ensures var p := FirstFitDecreasingPlan(files, capacity, reserveBytes, overhead);
            && PlanWellFormed(p, capacity, reserveBytes, overhead)
            && multiset(PackedFiles(p.bins)) + multiset(p.skipped) == multiset(files)
            && (forall i :: 0 <= i < |p.bins| ==> SortedBySizeDescending(p.bins[i].files))
            && SortedBySizeDescending(p.skipped)
  {
    var sorted := SortBySizeDescending(files);
    PackInOrderWellFormed(sorted, capacity, reserveBytes, overhead);
    PackInOrderPartition(sorted, capacity, reserveBytes, overhead);
    PackSortedKeepsBinsSorted(sorted, capacity, reserveBytes, overhead);
    TooBigKeepsOrder(sorted, TooBigThreshold(capacity, reserveBytes, overhead));
  }

  lemma {:induction false} TooBigKeepsOrder(files: seq<FileEntry>, threshold: int)
    requires SortedBySizeDescending(files)
    ensures SortedBySizeDescending(TooBig(files, threshold))
    ensures forall x :: x in TooBig(files, threshold) ==> x in files
  {
    if files != [] {
      var pre := files[..|files| - 1];
      TooBigKeepsOrder(pre, threshold);
      assert forall x :: x in pre ==> x in files && x.size >= files[|files| - 1].size;
    }
  }
}
