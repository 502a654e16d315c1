/**
 The sizes the batch plan adds up are the lengths of the encoded messages, field
 by field, in whatever order the counters of a version vector are encoded.
 */
module BatchEncoding {
  import opened Vectors
  import opened Reconcile
  import opened BatchPlan
  import Cbor

  lemma HeadLength(major: nat, n: nat)
    ensures |Cbor.Head(major, n)| == HeadSize(n)
  {
  }

  lemma TextLength(s: string)
    ensures |Cbor.EncodeText(s)| == TextSize(s) == |Cbor.Encode(Cbor.Text(s))|
  {
    HeadLength(3, |s|);
  }

  function IntValue(n: int): Cbor.Value { if n >= 0 then Cbor.Unsigned(n) else Cbor.Negative(-1 - n) }

  lemma IntLength(n: int)
    ensures |Cbor.Encode(IntValue(n))| == IntSize(n)
  {
    if n >= 0 { HeadLength(0, n); } else { HeadLength(1, -1 - n); }
  }

  /** One field of a map adds its key and its value. */
  lemma FieldLength(v: Cbor.Value, n: nat)
    requires v.Pairs? && 0 < n <= |v.pairs|
    ensures |Cbor.EncodePairs(v, n)| == |Cbor.EncodePairs(v, n - 1)| + TextSize(v.pairs[n - 1].0) + |Cbor.Encode(v.pairs[n - 1].1)|
  {
    TextLength(v.pairs[n - 1].0);
  }

  function Field(key: string, v: Cbor.Value): nat { TextSize(key) + |Cbor.Encode(v)| }

  /** What the first `n` fields add. */
  ghost function FieldsUpTo(p: seq<(string, Cbor.Value)>, n: nat): nat
    requires n <= |p|
  {
    if n == 0 then 0 else FieldsUpTo(p, n - 1) + Field(p[n - 1].0, p[n - 1].1)
  }

  lemma {:induction false} FieldsLength(p: seq<(string, Cbor.Value)>, n: nat)
    requires n <= |p|
    ensures |Cbor.EncodePairs(Cbor.Pairs(p), n)| == FieldsUpTo(p, n)
  {
    if n > 0 {
      FieldsLength(p, n - 1);
      FieldLength(Cbor.Pairs(p), n);
    }
  }

  lemma PairsLength(p: seq<(string, Cbor.Value)>)
    ensures |Cbor.Encode(Cbor.Pairs(p))| == HeadSize(|p|) + FieldsUpTo(p, |p|)
  {
    FieldsLength(p, |p|);
    HeadLength(5, |p|);
  }

  lemma OneField(p: seq<(string, Cbor.Value)>, n: nat, key: string, v: Cbor.Value, k: nat, size: nat)
    requires n < |p| && p[n] == (key, v) && |key| == k < 24 && |Cbor.Encode(v)| == size
    ensures FieldsUpTo(p, n + 1) == FieldsUpTo(p, n) + 1 + k + size
  {
  }

  /** The node ids of a vector, in whatever order the encoder takes them. */
  ghost predicate OrdersKeys(ks: seq<NodeId>, v: Vector) {
    (forall k :: k in v <==> k in ks) && forall i, j :: 0 <= i < j < |ks| ==> ks[i] != ks[j]
  }

  function VersionValue(v: Vector, ks: seq<NodeId>): Cbor.Value
    requires forall k :: k in ks ==> k in v
  {
    Cbor.Pairs(seq(|ks|, i requires 0 <= i < |ks| => (ks[i], Cbor.Unsigned(v[ks[i]]))))
  }

  ghost function FirstKeys(ks: seq<NodeId>, n: nat): set<NodeId>
    requires n <= |ks|
  {
    set i | 0 <= i < n :: ks[i]
  }

  /** The first `n` counters as encoded, and the size of those left. */
  ghost predicate Accounts(v: Vector, ks: seq<NodeId>, n: nat, total: nat)
    requires OrdersKeys(ks, v) && n <= |ks|
  {
    |Cbor.EncodePairs(VersionValue(v, ks), n)| + CountersSize(v - FirstKeys(ks, n)) == total
  }

  lemma NextCounter(v: Vector, ks: seq<NodeId>, n: nat, total: nat)
    requires OrdersKeys(ks, v) && 0 < n <= |ks| && Accounts(v, ks, n - 1, total)
    ensures Accounts(v, ks, n, total)
  {
    CounterLength(v, ks, n);
    RestOfCounters(v, ks, n);
  }

  lemma {:induction false} CountersLength(v: Vector, ks: seq<NodeId>, n: nat)
    requires OrdersKeys(ks, v) && n <= |ks|
    ensures Accounts(v, ks, n, CountersSize(v))
  {
    if n == 0 {
      NoCounters(v, ks);
    } else {
      CountersLength(v, ks, n - 1);
      NextCounter(v, ks, n, CountersSize(v));
    }
  }

  lemma NoCounters(v: Vector, ks: seq<NodeId>)
    requires OrdersKeys(ks, v)
    ensures |Cbor.EncodePairs(VersionValue(v, ks), 0)| == 0 && v - FirstKeys(ks, 0) == v
  {
  }

  lemma CounterLength(v: Vector, ks: seq<NodeId>, n: nat)
    requires OrdersKeys(ks, v) && 0 < n <= |ks|
    ensures |Cbor.EncodePairs(VersionValue(v, ks), n)| == |Cbor.EncodePairs(VersionValue(v, ks), n - 1)| + CounterSize(v, ks[n - 1])
  {
    FieldLength(VersionValue(v, ks), n);
    HeadLength(0, v[ks[n - 1]]);
  }

  lemma RestOfCounters(v: Vector, ks: seq<NodeId>, n: nat)
    requires OrdersKeys(ks, v) && 0 < n <= |ks|
    ensures CountersSize(v - FirstKeys(ks, n - 1)) == CounterSize(v, ks[n - 1]) + CountersSize(v - FirstKeys(ks, n))
  {
    var k, rest := ks[n - 1], v - FirstKeys(ks, n - 1);
    assert k in rest && rest[k] == v[k];
    CountersSizeAnyOrder(rest, k);
    assert v - FirstKeys(ks, n) == rest - {k};
  }

  lemma {:induction false} KeysCount(ks: seq<NodeId>, n: nat)
    requires n <= |ks| && forall i, j :: 0 <= i < j < |ks| ==> ks[i] != ks[j]
    ensures |FirstKeys(ks, n)| == n
  {
    if n > 0 {
      KeysCount(ks, n - 1);
      NextKey(ks, n);
    }
  }

  lemma NextKey(ks: seq<NodeId>, n: nat)
    requires 0 < n <= |ks| && forall i, j :: 0 <= i < j < |ks| ==> ks[i] != ks[j]
    ensures FirstKeys(ks, n) == FirstKeys(ks, n - 1) + {ks[n - 1]} && ks[n - 1] !in FirstKeys(ks, n - 1)
  {
  }

  lemma VersionLength(v: Vector, ks: seq<NodeId>)
    requires OrdersKeys(ks, v)
    ensures |Cbor.Encode(VersionValue(v, ks))| == VersionSize(v)
  {
    CountersLength(v, ks, |ks|);
    KeysCount(ks, |ks|);
    assert FirstKeys(ks, |ks|) == v.Keys && v - v.Keys == map[];
    assert |v| == |v.Keys|;
    HeadLength(5, |ks|);
  }

  function RowValue(f: FileInfo, ks: seq<NodeId>): Cbor.Value
    requires forall k :: k in ks ==> k in f.version
  {
    Cbor.Pairs([("relpath", Cbor.Text(f.relpath)), ("type", Cbor.Text(TypeName(f.ftype))), ("size", IntValue(f.size)),
                ("mtime_ns", IntValue(f.mtimeNS)), ("mode", Cbor.Unsigned(f.mode)), ("sha256", Cbor.Blob(f.sha256)),
                ("version", VersionValue(f.version, ks)), ("deleted", Cbor.Flag(f.deleted))])
  }

  /** The size of a row is the length of its encoding, in whatever order its counters go. */
  lemma EntrySizeIsItsLength(f: FileInfo, ks: seq<NodeId>)
    requires OrdersKeys(ks, f.version)
    ensures |Cbor.Encode(RowValue(f, ks))| == EntrySize(f)
  {
    var p := RowValue(f, ks).pairs;
    PairsLength(p);
    TextLength(f.relpath);
    TextLength(TypeName(f.ftype));
    IntLength(f.size);
    IntLength(f.mtimeNS);
    OneField(p, 0, "relpath", Cbor.Text(f.relpath), 7, TextSize(f.relpath));
    OneField(p, 1, "type", Cbor.Text(TypeName(f.ftype)), 4, TextSize(TypeName(f.ftype)));
    OneField(p, 2, "size", IntValue(f.size), 4, IntSize(f.size));
    OneField(p, 3, "mtime_ns", IntValue(f.mtimeNS), 8, IntSize(f.mtimeNS));
    LastFields(p, f, ks);
  }

  lemma LastFields(p: seq<(string, Cbor.Value)>, f: FileInfo, ks: seq<NodeId>)
    requires OrdersKeys(ks, f.version) && |p| == 8
    requires p[4] == ("mode", Cbor.Unsigned(f.mode)) && p[5] == ("sha256", Cbor.Blob(f.sha256))
    requires p[6] == ("version", VersionValue(f.version, ks)) && p[7] == ("deleted", Cbor.Flag(f.deleted))
    ensures FieldsUpTo(p, 8) == FieldsUpTo(p, 4) + 5 + HeadSize(f.mode) + 7 + BytesSize(f.sha256) + 8 + VersionSize(f.version) + 8 + 1
  {
    HeadLength(0, f.mode);
    BlobLength(f.sha256);
    VersionLength(f.version, ks);
    OneField(p, 4, "mode", Cbor.Unsigned(f.mode), 4, HeadSize(f.mode));
    OneField(p, 5, "sha256", Cbor.Blob(f.sha256), 6, BytesSize(f.sha256));
    OneField(p, 6, "version", VersionValue(f.version, ks), 7, VersionSize(f.version));
    OneField(p, 7, "deleted", Cbor.Flag(f.deleted), 7, 1);
  }

  lemma BlobLength(b: seq<Byte>)
    ensures |Cbor.Encode(Cbor.Blob(b))| == BytesSize(b)
  {
    HeadLength(2, |b|);
  }

  /** An order of the counters for each row. */
  ghost predicate OrdersAll(orders: seq<seq<NodeId>>, files: seq<FileInfo>) {
    |orders| == |files| && forall i :: 0 <= i < |files| ==> OrdersKeys(orders[i], files[i].version)
  }

  ghost function RowValues(files: seq<FileInfo>, orders: seq<seq<NodeId>>): (vs: seq<Cbor.Value>)
    requires OrdersAll(orders, files)
    ensures |vs| == |files|
  {
    seq(|files|, i requires 0 <= i < |files| => RowValue(files[i], orders[i]))
  }

  lemma ItemLength(v: Cbor.Value, n: nat)
    requires v.List? && 0 < n <= |v.items|
    ensures |Cbor.EncodeItems(v, n)| == |Cbor.EncodeItems(v, n - 1)| + |Cbor.Encode(v.items[n - 1])|
  {
  }

  lemma {:induction false} RowsLength(files: seq<FileInfo>, orders: seq<seq<NodeId>>, n: nat)
    requires OrdersAll(orders, files) && n <= |files|
    ensures |Cbor.EncodeItems(Cbor.List(RowValues(files, orders)), n)| == EntriesSize(files[..n])
  {
    if n > 0 {
      RowsLength(files, orders, n - 1);
      ItemLength(Cbor.List(RowValues(files, orders)), n);
      EntrySizeIsItsLength(files[n - 1], orders[n - 1]);
      assert files[..n][..n - 1] == files[..n - 1] && files[..n][n - 1] == files[n - 1];
    }
  }

  ghost function SnapshotValue(share: string, id: string, batch: nat, files: seq<FileInfo>, orders: seq<seq<NodeId>>): Cbor.Value
    requires OrdersAll(orders, files)
  {
    Cbor.Pairs([("share_id", Cbor.Text(share)), ("snapshot_id", Cbor.Text(id)), ("batch", Cbor.Unsigned(batch)),
                ("files", Cbor.List(RowValues(files, orders)))])
  }

  /** So a snapshot batch is as long as it is said to be. */
  lemma SnapshotMessageSizeIsItsLength(share: string, id: string, batch: nat, files: seq<FileInfo>, orders: seq<seq<NodeId>>)
    requires OrdersAll(orders, files)
    ensures |Cbor.Encode(SnapshotValue(share, id, batch, files, orders))| == SnapshotMessageSize(share, id, batch, files)
  {
    var list := Cbor.List(RowValues(files, orders));
    var p := SnapshotValue(share, id, batch, files, orders).pairs;
    PairsLength(p);
    TextLength(share);
    TextLength(id);
    HeadLength(0, batch);
    FilesLength(files, orders);
    OneField(p, 0, "share_id", Cbor.Text(share), 8, TextSize(share));
    OneField(p, 1, "snapshot_id", Cbor.Text(id), 11, TextSize(id));
    OneField(p, 2, "batch", Cbor.Unsigned(batch), 5, HeadSize(batch));
    OneField(p, 3, "files", list, 5, HeadSize(|files|) + EntriesSize(files));
  }

  lemma ListLength(items: seq<Cbor.Value>, size: nat)
    requires |Cbor.EncodeItems(Cbor.List(items), |items|)| == size
    ensures |Cbor.Encode(Cbor.List(items))| == HeadSize(|items|) + size
  {
    HeadLength(4, |items|);
  }

  lemma FilesLength(files: seq<FileInfo>, orders: seq<seq<NodeId>>)
    requires OrdersAll(orders, files)
    ensures |Cbor.Encode(Cbor.List(RowValues(files, orders)))| == HeadSize(|files|) + EntriesSize(files)
  {
    RowsLength(files, orders, |files|);
    assert files[..|files|] == files;
    ListLength(RowValues(files, orders), EntriesSize(files));
  }

  function DeltaEntryValue(seqno: nat, f: FileInfo, ks: seq<NodeId>): Cbor.Value
    requires forall k :: k in ks ==> k in f.version
  {
    Cbor.Pairs([("seq", Cbor.Unsigned(seqno)), ("file", RowValue(f, ks))])
  }

  lemma DeltaEntryLength(seqno: nat, f: FileInfo, ks: seq<NodeId>)
    requires OrdersKeys(ks, f.version)
    ensures |Cbor.Encode(DeltaEntryValue(seqno, f, ks))| == DeltaEntrySize(seqno, f)
  {
    var p := DeltaEntryValue(seqno, f, ks).pairs;
    PairsLength(p);
    HeadLength(0, seqno);
    EntrySizeIsItsLength(f, ks);
    OneField(p, 0, "seq", Cbor.Unsigned(seqno), 3, HeadSize(seqno));
    OneField(p, 1, "file", RowValue(f, ks), 4, EntrySize(f));
  }

  ghost function DeltaEntryValues(from: nat, rows: seq<FileInfo>, orders: seq<seq<NodeId>>): (vs: seq<Cbor.Value>)
    requires OrdersAll(orders, rows)
    ensures |vs| == |rows|
  {
    seq(|rows|, i requires 0 <= i < |rows| => DeltaEntryValue(from + i, rows[i], orders[i]))
  }

  lemma OneEntryLength(from: nat, rows: seq<FileInfo>, orders: seq<seq<NodeId>>, n: nat)
    requires OrdersAll(orders, rows) && 0 < n <= |rows|
    ensures var list := Cbor.List(DeltaEntryValues(from, rows, orders));
            |Cbor.EncodeItems(list, n)| == |Cbor.EncodeItems(list, n - 1)| + DeltaEntrySize(from + n - 1, rows[n - 1])
  {
    var list := Cbor.List(DeltaEntryValues(from, rows, orders));
    ItemLength(list, n);
    DeltaEntryLength(from + n - 1, rows[n - 1], orders[n - 1]);
  }

  lemma OneEntrySize(from: nat, rows: seq<FileInfo>, n: nat)
    requires 0 < n <= |rows|
    ensures DeltaEntriesSize(from, rows[..n]) == DeltaEntriesSize(from, rows[..n - 1]) + DeltaEntrySize(from + n - 1, rows[n - 1])
  {
    assert rows[..n][..n - 1] == rows[..n - 1] && rows[..n][n - 1] == rows[n - 1];
  }

  lemma {:induction false} DeltaEntriesLength(from: nat, rows: seq<FileInfo>, orders: seq<seq<NodeId>>, n: nat)
    requires OrdersAll(orders, rows) && n <= |rows|
    ensures |Cbor.EncodeItems(Cbor.List(DeltaEntryValues(from, rows, orders)), n)| == DeltaEntriesSize(from, rows[..n])
  {
    if n > 0 {
      DeltaEntriesLength(from, rows, orders, n - 1);
      OneEntryLength(from, rows, orders, n);
      OneEntrySize(from, rows, n);
    }
  }

  ghost function DeltaValue(share: string, epoch: string, from: nat, rows: seq<FileInfo>, orders: seq<seq<NodeId>>): Cbor.Value
    requires OrdersAll(orders, rows) && rows != []
  {
    Cbor.Pairs([("share_id", Cbor.Text(share)), ("epoch", Cbor.Text(epoch)), ("from_seq", Cbor.Unsigned(from)),
                ("to_seq", Cbor.Unsigned(from + |rows| - 1)), ("entries", Cbor.List(DeltaEntryValues(from, rows, orders)))])
  }

  /** And so is a delta. */
  lemma DeltaMessageSizeIsItsLength(share: string, epoch: string, from: nat, rows: seq<FileInfo>, orders: seq<seq<NodeId>>)
    requires OrdersAll(orders, rows) && rows != []
    ensures |Cbor.Encode(DeltaValue(share, epoch, from, rows, orders))| == DeltaMessageSize(share, epoch, from, rows)
  {
    var list := Cbor.List(DeltaEntryValues(from, rows, orders));
    var p := DeltaValue(share, epoch, from, rows, orders).pairs;
    PairsLength(p);
    TextLength(share);
    TextLength(epoch);
    HeadLength(0, from);
    HeadLength(0, from + |rows| - 1);
    EntriesLength(from, rows, orders);
    OneField(p, 0, "share_id", Cbor.Text(share), 8, TextSize(share));
    OneField(p, 1, "epoch", Cbor.Text(epoch), 5, TextSize(epoch));
    OneField(p, 2, "from_seq", Cbor.Unsigned(from), 8, HeadSize(from));
    OneField(p, 3, "to_seq", Cbor.Unsigned(from + |rows| - 1), 6, HeadSize(from + |rows| - 1));
    OneField(p, 4, "entries", list, 7, HeadSize(|rows|) + DeltaEntriesSize(from, rows));
  }

  lemma EntriesLength(from: nat, rows: seq<FileInfo>, orders: seq<seq<NodeId>>)
    requires OrdersAll(orders, rows)
    ensures |Cbor.Encode(Cbor.List(DeltaEntryValues(from, rows, orders)))| == HeadSize(|rows|) + DeltaEntriesSize(from, rows)
  {
    DeltaEntriesLength(from, rows, orders, |rows|);
    assert rows[..|rows|] == rows;
    ListLength(DeltaEntryValues(from, rows, orders), DeltaEntriesSize(from, rows));
  }
}
