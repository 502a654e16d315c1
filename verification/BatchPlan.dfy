/**
 Splitting an index listing into frames, with CBOR sizes counted by the header
 widths of section 3 of RFC 8949. Strings are counted in bytes.

 The plan measures the envelope once, with an empty array, and adds a slack
 for the array header; the results say that the real message still fits and
 that nothing is dropped, repeated or reordered.
 */
module BatchPlan {
  import opened Vectors
  import opened Reconcile

  const TARGET := 3 * 1024 * 1024
  const MAX_FRAME := 4 * 1024 * 1024
  const MAX_COLLECTION := 65536
  const SLACK := 8

  /** Bytes of the head that introduces a value of argument `n`. */
  function HeadSize(n: nat): (s: nat)
    ensures 1 <= s <= 9
  {
    if n < 24 then 1 else if n < 0x100 then 2 else if n < 0x1_0000 then 3 else if n < 0x1_0000_0000 then 5 else 9
  }

  function IntSize(n: int): nat { HeadSize(if n >= 0 then n else -1 - n) }

  function TextSize(s: string): nat { HeadSize(|s|) + |s| }

  function BytesSize(b: seq<Byte>): nat { HeadSize(|b|) + |b| }

  // --- Version vectors: the size is a sum over the keys, in whatever order ------------

  function CounterSize(v: Vector, k: NodeId): nat
    requires k in v
  {
    TextSize(k) + HeadSize(v[k])
  }

  ghost function CountersSize(v: Vector): nat {
    if v == map[] then 0
    else
      var k :| k in v;
      CounterSize(v, k) + CountersSize(v - {k})
  }

  lemma {:induction false} CountersSizeAnyOrder(v: Vector, k: NodeId)
    requires k in v
    ensures CountersSize(v) == CounterSize(v, k) + CountersSize(v - {k})
    decreases |v|
  {
    var j :| j in v && CountersSize(v) == CounterSize(v, j) + CountersSize(v - {j});
    if j != k {
      var vj, vk := v - {j}, v - {k};
      CountersSizeAnyOrder(vj, k);
      CountersSizeAnyOrder(vk, j);
      assert vj - {k} == vk - {j};
      assert CounterSize(vj, k) == CounterSize(v, k);
      assert CounterSize(vk, j) == CounterSize(v, j);
    }
  }

  ghost function VersionSize(v: Vector): nat { HeadSize(|v|) + CountersSize(v) }

  method ComputeVersionSize(v: Vector) returns (n: nat)
    ensures n == VersionSize(v)
  {
    n := HeadSize(|v|);
    var rest := v;
    while rest != map[]
      invariant rest.Keys <= v.Keys && forall k :: k in rest ==> rest[k] == v[k]
      invariant n + CountersSize(rest) == VersionSize(v)
      decreases rest.Keys
    {
      var k :| k in rest;
      CountersSizeAnyOrder(rest, k);
      n := n + CounterSize(rest, k);
      rest := rest - {k};
    }
  }

  // --- Entries and messages ---------------------------------------------------------------

  function TypeName(t: FileType): string {
    match t case File => "file" case Dir => "dir" case Symlink => "symlink"
  }

  /** One byte for the map of eight, then the eight keys with a one-byte head each. */
  const ENTRY_KEYS := 1 + (8 + 5 + 5 + 9 + 5 + 7 + 8 + 8)

  ghost function EntrySize(f: FileInfo): (n: nat)
    ensures n >= ENTRY_KEYS
  {
    ENTRY_KEYS + TextSize(f.relpath) + TextSize(TypeName(f.ftype)) + IntSize(f.size) + IntSize(f.mtimeNS)
    + HeadSize(f.mode) + BytesSize(f.sha256) + VersionSize(f.version) + 1
  }

  method ComputeEntrySize(f: FileInfo) returns (n: nat)
    ensures n == EntrySize(f)
  {
    var v := ComputeVersionSize(f.version);
    n := ENTRY_KEYS + TextSize(f.relpath) + TextSize(TypeName(f.ftype)) + IntSize(f.size) + IntSize(f.mtimeNS)
         + HeadSize(f.mode) + BytesSize(f.sha256) + v + 1;
  }

  ghost function EntriesSize(files: seq<FileInfo>): (n: nat)
    ensures n >= ENTRY_KEYS * |files|
  {
    if files == [] then 0 else EntriesSize(files[..|files| - 1]) + EntrySize(files[|files| - 1])
  }

  // --- What the wire allows ---------------------------------------------------------------

  const MAX_ID := 128
  const MAX_RELPATH := 4096
  const MAX_COUNTERS := 64

  /** The limits a receiver puts on a row; node ids have 16 characters and digests 32 bytes. */
  predicate WithinWireLimits(f: FileInfo) {
    && |f.relpath| <= MAX_RELPATH && |f.sha256| <= 32
    && |f.version| <= MAX_COUNTERS && forall k :: k in f.version ==> |k| == 16
  }

  /** A counter takes at most a 17-byte name and a 9-byte number. */
  lemma {:induction false} CountersBound(v: Vector)
    requires forall k :: k in v ==> |k| == 16
    ensures CountersSize(v) <= 26 * |v|
    decreases |v|
  {
    if v != map[] {
      var k :| k in v;
      CountersSizeAnyOrder(v, k);
      var rest := v - {k};
      assert v.Keys == rest.Keys + {k} && |v.Keys| == |v| && |rest.Keys| == |rest|;
      CountersBound(rest);
    }
  }

  /** No row the wire allows takes more than 6,000 bytes. */
  lemma WireRowBound(f: FileInfo)
    requires WithinWireLimits(f)
    ensures EntrySize(f) <= 6000
  {
    CountersBound(f.version);
  }

  /** Everything of a snapshot batch but the array head and the entries. */
  function SnapshotFixed(share: string, id: string, batch: nat): nat {
    1 + 9 + TextSize(share) + 12 + TextSize(id) + 6 + HeadSize(batch) + 6
  }

  ghost function SnapshotMessageSize(share: string, id: string, batch: nat, files: seq<FileInfo>): nat {
    SnapshotFixed(share, id, batch) + HeadSize(|files|) + EntriesSize(files)
  }

  /** The size the planner charges for a batch. */
  ghost function Charged(share: string, id: string, batch: nat, files: seq<FileInfo>): nat {
    SnapshotFixed(share, id, batch) + 1 + SLACK + EntriesSize(files)
  }

  /** A batch the planner accepts is a legal message: small enough, and short enough for the receiver. */
  lemma ChargedBatchFits(share: string, id: string, batch: nat, files: seq<FileInfo>)
    requires Charged(share, id, batch, files) <= TARGET
    ensures SnapshotMessageSize(share, id, batch, files) <= TARGET && TARGET + 1 <= MAX_FRAME
    ensures |files| < MAX_COLLECTION
  {
    assert ENTRY_KEYS * |files| <= TARGET;
  }

  /** How many leading rows fit one frame: as many as the budget allows, and no more. */
  method SnapshotBatchLen(share: string, id: string, batch: nat, rows: seq<FileInfo>) returns (n: nat)
    ensures n <= |rows|
    ensures n > 0 ==> Charged(share, id, batch, rows[..n]) <= TARGET
    ensures n < |rows| ==> Charged(share, id, batch, rows[..n + 1]) > TARGET
  {
    var total := SnapshotFixed(share, id, batch) + 1 + SLACK;
    n := 0;
    while n < |rows|
      invariant n <= |rows|
      invariant total == Charged(share, id, batch, rows[..n])
      invariant n > 0 ==> total <= TARGET
    {
      var size := ComputeEntrySize(rows[n]);
      assert rows[..n + 1][..n] == rows[..n];
      if total + size > TARGET { return; }
      total := total + size;
      n := n + 1;
    }
  }

  function Flatten(batches: seq<seq<FileInfo>>): seq<FileInfo> {
    if batches == [] then [] else Flatten(batches[..|batches| - 1]) + batches[|batches| - 1]
  }

  lemma FlattenAppend(batches: seq<seq<FileInfo>>, b: seq<FileInfo>)
    ensures Flatten(batches + [b]) == Flatten(batches) + b
  {
    assert (batches + [b])[..|batches|] == batches;
  }

  lemma SplitOff(done: seq<FileInfo>, rows: seq<FileInfo>, n: nat)
    requires n <= |rows|
    ensures done + rows == done + rows[..n] + rows[n..]
  {
  }

  /** A non-empty batch that makes a frame the receiver accepts. */
  ghost predicate LegalBatch(share: string, id: string, k: nat, b: seq<FileInfo>) {
    b != [] && |b| < MAX_COLLECTION && SnapshotMessageSize(share, id, k, b) <= TARGET
  }

  ghost predicate AllLegal(share: string, id: string, batches: seq<seq<FileInfo>>) {
    forall k :: 0 <= k < |batches| ==> LegalBatch(share, id, k, batches[k])
  }

  lemma AppendLegal(share: string, id: string, batches: seq<seq<FileInfo>>, b: seq<FileInfo>)
    requires AllLegal(share, id, batches) && b != [] && Charged(share, id, |batches|, b) <= TARGET
    ensures AllLegal(share, id, batches + [b])
  {
    ChargedBatchFits(share, id, |batches|, b);
  }

  /** Alone in batch `k` the row is already charged more than the target. */
  ghost predicate OverBudget(share: string, id: string, k: nat, row: FileInfo) {
    Charged(share, id, k, [row]) > TARGET
  }

  lemma WireRowIsInBudget(share: string, id: string, k: nat, row: FileInfo)
    requires WithinWireLimits(row) && |share| <= MAX_ID && |id| <= MAX_ID
    ensures !OverBudget(share, id, k, row)
  {
    WireRowBound(row);
    assert [row][..0] == [] && EntriesSize([row]) == EntriesSize([row][..0]) + EntrySize(row);
  }

  datatype Plan = Planned(batches: seq<seq<FileInfo>>) | Oversize(row: FileInfo)

  /**
   The whole plan: the rows are split, in order and completely, into legal
   batches, unless some row is over the budget of the batch it would start. That
   never happens to rows the wire allows.
   */
  method PlanSnapshot(share: string, id: string, listing: seq<FileInfo>) returns (plan: Plan)
    ensures plan.Planned? ==> Flatten(plan.batches) == listing
    ensures plan.Planned? ==> AllLegal(share, id, plan.batches)
    ensures plan.Oversize? ==> plan.row in listing && exists k :: 0 <= k < |listing| && OverBudget(share, id, k, plan.row)
    ensures |share| <= MAX_ID && |id| <= MAX_ID && (forall f :: f in listing ==> WithinWireLimits(f)) ==> plan.Planned?
  {
    var rows, batches := listing, [];
    while rows != []
      invariant Flatten(batches) + rows == listing && |batches| + |rows| <= |listing|
      invariant AllLegal(share, id, batches)
      decreases |rows|
    {
      var n := SnapshotBatchLen(share, id, |batches|, rows);
      if n == 0 {
        assert rows[..0 + 1] == [rows[0]];
        assert listing[|Flatten(batches)|] == rows[0];
        assert OverBudget(share, id, |batches|, rows[0]);
        if WithinWireLimits(rows[0]) && |share| <= MAX_ID && |id| <= MAX_ID { WireRowIsInBudget(share, id, |batches|, rows[0]); }
        return Oversize(rows[0]);
      }
      AppendLegal(share, id, batches, rows[..n]);
      FlattenAppend(batches, rows[..n]);
      SplitOff(Flatten(batches), rows, n);
      batches, rows := batches + [rows[..n]], rows[n..];
    }
    assert rows == [];
    assert Flatten(batches) + [] == Flatten(batches);
    return Planned(batches);
  }

  // --- Deltas: the envelope also names the range, and is measured with the last row's number ----

  function DeltaFixed(share: string, epoch: string, from: nat, to: nat): nat {
    1 + 9 + TextSize(share) + 6 + TextSize(epoch) + 9 + HeadSize(from) + 7 + HeadSize(to) + 8
  }

  ghost function DeltaEntrySize(seqno: nat, f: FileInfo): nat {
    1 + 4 + HeadSize(seqno) + 5 + EntrySize(f)
  }

  /** Entries `first`, `first + 1`, ... for consecutive rows. */
  ghost function DeltaEntriesSize(first: nat, rows: seq<FileInfo>): (n: nat)
    ensures n >= ENTRY_KEYS * |rows|
  {
    if rows == [] then 0
    else DeltaEntriesSize(first, rows[..|rows| - 1]) + DeltaEntrySize(first + |rows| - 1, rows[|rows| - 1])
  }

  ghost function DeltaMessageSize(share: string, epoch: string, from: nat, rows: seq<FileInfo>): nat
    requires rows != []
  {
    DeltaFixed(share, epoch, from, from + |rows| - 1) + HeadSize(|rows|) + DeltaEntriesSize(from, rows)
  }

  /** The planner charges a batch the widest end of range its page could give it. */
  ghost function DeltaCharged(share: string, epoch: string, from: nat, last: nat, rows: seq<FileInfo>): nat {
    DeltaFixed(share, epoch, from, last) + 1 + SLACK + DeltaEntriesSize(from, rows)
  }

  /** So the batch really sent is within bounds though it ends earlier. */
  lemma ChargedDeltaFits(share: string, epoch: string, from: nat, last: nat, rows: seq<FileInfo>)
    requires rows != [] && from + |rows| - 1 <= last
    requires DeltaCharged(share, epoch, from, last, rows) <= TARGET
    ensures DeltaMessageSize(share, epoch, from, rows) <= TARGET && |rows| < MAX_COLLECTION
  {
    HeadSizeMonotone(from + |rows| - 1, last);
    assert ENTRY_KEYS * |rows| <= TARGET;
  }

  lemma WireDeltaIsInBudget(share: string, epoch: string, from: nat, last: nat, row: FileInfo)
    requires WithinWireLimits(row) && |share| <= MAX_ID && |epoch| <= MAX_ID
    ensures DeltaCharged(share, epoch, from, last, [row]) <= TARGET
  {
    WireRowBound(row);
    assert [row][..0] == [];
    assert DeltaEntriesSize(from, [row]) == DeltaEntriesSize(from, [row][..0]) + DeltaEntrySize(from, row);
  }

  /** How many leading rows of a page go into one delta. */
  method DeltaBatchLen(share: string, epoch: string, from: nat, page: seq<FileInfo>) returns (n: nat)
    ensures n <= |page| && (page == [] ==> n == 0)
    ensures n > 0 ==> DeltaMessageSize(share, epoch, from, page[..n]) <= TARGET && n < MAX_COLLECTION
    ensures n < |page| ==> DeltaCharged(share, epoch, from, from + |page| - 1, page[..n + 1]) > TARGET
  {
    if page == [] { return 0; }
    ghost var last := from + |page| - 1;
    var total := DeltaFixed(share, epoch, from, from + |page| - 1) + 1 + SLACK;
    n := 0;
    while n < |page|
      invariant n <= |page|
      invariant total == DeltaCharged(share, epoch, from, last, page[..n])
      invariant n > 0 ==> total <= TARGET
    {
      var size := ComputeEntrySize(page[n]);
      assert page[..n + 1][..n] == page[..n];
      if total + (1 + 4 + HeadSize(from + n) + 5 + size) > TARGET { break; }
      total := total + (1 + 4 + HeadSize(from + n) + 5 + size);
      n := n + 1;
    }
    if n > 0 { ChargedDeltaFits(share, epoch, from, last, page[..n]); }
  }

  lemma HeadSizeMonotone(a: nat, b: nat)
    requires a <= b
    ensures HeadSize(a) <= HeadSize(b)
  {
  }
}
