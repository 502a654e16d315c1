/**
 Scanning a share: every entry on disk is classified against the index into one
 of five buckets. A tombstone reaches every peer as a delete, so what must never
 happen is a tombstone for a path that is still there.

 The walk visits an entry when every directory above it was listed. Reading an
 entry may fail because it is gone or for another reason, such as permissions.
 */
module Scanner {
  import opened Vectors
  import opened Reconcile
  import opened Ignore

  /** How a system call on an entry went. */
  datatype Fault = Fine | Gone | Denied

  datatype Entry =
    | FileEntry(size: int, mtimeNS: int, mode: nat, digest: Option<seq<Byte>>, stat: Fault)
    | DirEntry(mtimeNS: int, mode: nat, stat: Fault, list: Fault)
    | LinkEntry

  datatype Row = Row(info: FileInfo, parked: bool)

  /** What one scan looks at. */
  datatype Setting = Setting(existing: map<string, Row>, disk: map<string, Entry>, matcher: Matcher, prune: bool)

  ghost predicate WellFormed(c: Setting) {
    forall p :: p in c.existing ==> c.existing[p].info.relpath == p
  }

  // --- What the walk reaches -------------------------------------------------------------------

  predicate IsDir(c: Setting, p: string) { p in c.disk && c.disk[p].DirEntry? }

  predicate Ignored(c: Setting, p: string) { Matches(c.matcher, p, IsDir(c, p)) }

  predicate OwnDirectory(c: Setting, p: string) { p == RESERVED && IsDir(c, p) }

  /** The walk lists what is below this directory. */
  predicate Descends(c: Setting, p: string) {
    && IsDir(c, p) && !OwnDirectory(c, p) && c.disk[p].list == Fine
    && (if Ignored(c, p) then !c.prune else c.disk[p].stat == Fine)
  }

  predicate Reached(c: Setting, p: string) {
    p in c.disk && forall i :: 0 <= i < |p| && Cuts(p, i) ==> Descends(c, p[..i])
  }

  /** The entry was seen where it stands: ignored, or present and not a link. */
  predicate MarksSelf(c: Setting, p: string)
    requires p in c.disk
  {
    && !OwnDirectory(c, p)
    && (Ignored(c, p) || (c.disk[p].FileEntry? && c.disk[p].stat != Gone) || (c.disk[p].DirEntry? && (c.disk[p].stat != Gone)))
  }

  /** The walk stops above indexed paths below `p`, and accounts for them here. */
  predicate Covers(c: Setting, p: string) {
    && IsDir(c, p) && !OwnDirectory(c, p)
    && (if Ignored(c, p) then c.prune || c.disk[p].list == Denied
        else c.disk[p].stat == Denied || (c.disk[p].stat == Fine && c.disk[p].list == Denied))
  }

  /** Ignored without descending: its indexed descendants are ignored with it. */
  predicate Prunes(c: Setting, p: string) { IsDir(c, p) && !OwnDirectory(c, p) && Ignored(c, p) && c.prune }

  // --- The five buckets, as functions of what was visited --------------------------------------------

  predicate IsLive(r: Row) { !r.info.deleted && !r.parked }

  /** No live row of this type: what is on disk counts as new. */
  predicate IsNew(c: Setting, p: string, t: FileType) {
    p !in c.existing || !IsLive(c.existing[p]) || c.existing[p].info.ftype != t
  }

  /** Visited, not ignored, and readable as an entry. */
  predicate Classified(c: Setting, p: string) {
    && p in c.disk && !OwnDirectory(c, p) && !Ignored(c, p)
    && !c.disk[p].LinkEntry? && c.disk[p].stat == Fine
  }

  predicate NeedsHash(was: FileInfo, e: Entry)
    requires e.FileEntry?
  {
    e.size != was.size || e.mtimeNS != was.mtimeNS
  }

  function CarriedVersion(c: Setting, p: string): Vector {
    if p in c.existing then c.existing[p].info.version else map[]
  }

  /** The row that describes what is on disk now. */
  function DiskRow(c: Setting, p: string): Row
    requires p in c.disk && !c.disk[p].LinkEntry?
  {
    match c.disk[p]
    case DirEntry(mtimeNS, mode, _, _) => Row(FileInfo(p, Dir, 0, mtimeNS, mode, [], CarriedVersion(c, p), false), false)
    case FileEntry(size, mtimeNS, mode, digest, _) =>
      Row(FileInfo(p, File, size, mtimeNS, mode, if digest.Some? then digest.value else [], CarriedVersion(c, p), false), false)
  }

  predicate IsAdded(c: Setting, p: string) {
    && Classified(c, p)
    && (if c.disk[p].DirEntry? then IsNew(c, p, Dir) else IsNew(c, p, File) && c.disk[p].digest.Some?)
  }

  /** A known file that has to be looked at again. */
  predicate IsKnownFile(c: Setting, p: string) {
    Classified(c, p) && c.disk[p].FileEntry? && !IsNew(c, p, File)
  }

  predicate IsChanged(c: Setting, p: string) {
    && IsKnownFile(c, p) && NeedsHash(c.existing[p].info, c.disk[p])
    && c.disk[p].digest.Some? && c.disk[p].digest.value != c.existing[p].info.sha256
  }

  predicate IsTouched(c: Setting, p: string) {
    && IsKnownFile(c, p)
    && (if NeedsHash(c.existing[p].info, c.disk[p])
        then c.disk[p].digest == Some(c.existing[p].info.sha256)
        else c.disk[p].mode != c.existing[p].info.mode)
  }

  /** A metadata-only row: rebuilt after hashing, or the old row with its new mode. */
  function TouchedRow(c: Setting, p: string): Row
    requires IsTouched(c, p)
  {
    if NeedsHash(c.existing[p].info, c.disk[p]) then DiskRow(c, p)
    else c.existing[p].(info := c.existing[p].info.(mode := c.disk[p].mode))
  }

  function AddedRows(c: Setting, visited: set<string>): map<string, Row> {
    map p | p in visited && IsAdded(c, p) :: DiskRow(c, p)
  }

  function ChangedRows(c: Setting, visited: set<string>): map<string, Row> {
    map p | p in visited && IsChanged(c, p) :: DiskRow(c, p)
  }

  function TouchedRows(c: Setting, visited: set<string>): map<string, Row> {
    map p | p in visited && IsTouched(c, p) :: TouchedRow(c, p)
  }

  predicate Parks(c: Setting, visited: set<string>, p: string) {
    (p in visited && p in c.disk && !OwnDirectory(c, p) && Ignored(c, p)) || exists d :: d in visited && Prunes(c, d) && Below(p, d)
  }

  function IgnoredRows(c: Setting, visited: set<string>): map<string, Row> {
    map p | p in c.existing && IsLive(c.existing[p]) && Parks(c, visited, p) :: c.existing[p]
  }

  predicate Seen(c: Setting, visited: set<string>, p: string) {
    (p in visited && p in c.disk && MarksSelf(c, p)) || (p in c.existing && exists d :: d in visited && Covers(c, d) && Below(p, d))
  }

  function DeletedRows(c: Setting, visited: set<string>): map<string, Row> {
    map p | p in c.existing && IsLive(c.existing[p]) && !Seen(c, visited, p) :: Tombstone(c.existing[p])
  }

  function Tombstone(r: Row): Row { r.(info := r.info.(deleted := true)) }

  /** Everything the walk visits. */
  function All(c: Setting): set<string> { set p | p in c.disk && Reached(c, p) }

  // --- What a scan promises -----------------------------------------------------------------------------

  /** A path below a reached directory the walk does not descend into is not reached. */
  lemma NotReachedBelow(c: Setting, p: string, d: string)
    requires Below(p, d) && !Descends(c, d)
    ensures !Reached(c, p)
  {
    BelowIsCut(p, d);
  }

  /** The five buckets have no path in common. */
  lemma BucketsAreDisjoint(c: Setting)
    ensures var v := All(c);
            var a, ch, t, d, i := AddedRows(c, v).Keys, ChangedRows(c, v).Keys, TouchedRows(c, v).Keys, DeletedRows(c, v).Keys, IgnoredRows(c, v).Keys;
            a !! ch && a !! t && a !! d && a !! i && ch !! t && ch !! d && ch !! i && t !! d && t !! i && d !! i
  {
    var v := All(c);
    forall p | p in v && Classified(c, p) ensures !Parks(c, v, p) && Seen(c, v, p) {
      forall d | d in v && Prunes(c, d) ensures !Below(p, d) {
        if Below(p, d) { NotReachedBelow(c, p, d); }
      }
    }
    forall p | p in c.existing && Parks(c, v, p) ensures Seen(c, v, p) {
      if d :| d in v && Prunes(c, d) && Below(p, d) {
        assert Covers(c, d);
      }
    }
  }

  /** Really on disk: neither it nor a directory above it is gone, and none is a link or syncat's own. */
  predicate OnDisk(c: Setting, p: string) {
    && p in c.disk && !c.disk[p].LinkEntry? && c.disk[p].stat != Gone && !IsReserved(p)
    && forall i :: 0 <= i < |p| && Cuts(p, i) ==> IsDir(c, p[..i]) && c.disk[p[..i]].stat != Gone && c.disk[p[..i]].list != Gone
  }

  /** Where the walk stops above a path it does not reach: at the first directory it does not descend into. */
  lemma {:induction false} FirstStop(c: Setting, p: string, n: nat) returns (i: int)
    requires n <= |p| && exists k :: 0 <= k < n && Cuts(p, k) && !Descends(c, p[..k])
    ensures 0 <= i < n && Cuts(p, i) && !Descends(c, p[..i])
    ensures p[..i] in c.disk ==> Reached(c, p[..i])
  {
    if k :| 0 <= k < n - 1 && Cuts(p, k) && !Descends(c, p[..k]) {
      i := FirstStop(c, p, n - 1);
    } else {
      i := n - 1;
      forall j | 0 <= j < |p[..i]| && Cuts(p[..i], j) ensures Descends(c, p[..i][..j]) {
        CutOfPrefix(p, i, j);
      }
    }
  }

  /** A path that is on disk, readable or not, is never tombstoned. */
  lemma OnDiskIsNeverTombstoned(c: Setting, p: string)
    requires OnDisk(c, p)
    ensures p !in DeletedRows(c, All(c))
  {
    if !Reached(c, p) && p in c.existing {
      var i := FirstStop(c, p, |p|);
      var d := p[..i];
      CutIsBelow(p, i);
      assert d != RESERVED;
      assert d in All(c) && Covers(c, d);
    }
  }

  /** A live path that is absent is tombstoned, unless something above it was ignored whole or could not be read. */
  lemma AbsentIsTombstoned(c: Setting, p: string)
    requires p in c.existing && IsLive(c.existing[p]) && p !in c.disk
    requires forall i :: 0 <= i < |p| && Cuts(p, i) && p[..i] in c.disk ==> Descends(c, p[..i])
    ensures p in DeletedRows(c, All(c))
  {
    forall d | d in All(c) && Covers(c, d) ensures !Below(p, d) {
      if Below(p, d) { BelowIsCut(p, d); }
    }
  }

  /**
   So is a live path that was listed but turns out to be gone, to be a link, or to
   be syncat's own directory, and is not ignored.
   */
  lemma GoneIsTombstoned(c: Setting, p: string)
    requires p in c.existing && IsLive(c.existing[p]) && Reached(c, p)
    requires || (p == RESERVED && c.disk[p].DirEntry?)
             || (!Matches(c.matcher, p, c.disk[p].DirEntry?) && (c.disk[p].LinkEntry? || c.disk[p].stat == Gone))
    ensures p in DeletedRows(c, All(c))
  {
    forall d | d in All(c) && Covers(c, d) ensures !Below(p, d) {
      if Below(p, d) { BelowIsCut(p, d); }
    }
  }

  /**
   A live row is parked whenever the walk meets its path and it is ignored; and
   when pruning is only used where that is allowed, only ignored paths are parked.
   A symbolic link, a directory the scan may not look into and syncat's own
   directory park nothing by being there.
   */
  lemma IgnoredIsParked(c: Setting, p: string)
    requires p in c.existing && IsLive(c.existing[p])
    ensures Reached(c, p) && Matches(c.matcher, p, IsDir(c, p)) && !OwnDirectory(c, p) ==> p in IgnoredRows(c, All(c))
    ensures (c.prune ==> PruneDirs(c.matcher)) && p in IgnoredRows(c, All(c)) ==> Matches(c.matcher, p, IsDir(c, p))
    ensures p in IgnoredRows(c, All(c)) ==> IgnoredRows(c, All(c))[p] == c.existing[p]
  {
    if (c.prune ==> PruneDirs(c.matcher)) && p in IgnoredRows(c, All(c)) {
      if d :| d in All(c) && Prunes(c, d) && Below(p, d) {
        MatchedDirectoryCoversDescendants(c.matcher, d, p, IsDir(c, p));
      }
    }
  }

  /** Below an ignored directory the walk pruned, every live row is parked, whether it is still on disk or not. */
  lemma PrunedIsParked(c: Setting, p: string, d: string)
    requires p in c.existing && IsLive(c.existing[p]) && Below(p, d)
    requires c.prune && Reached(c, d) && IsDir(c, d) && d != RESERVED && Matches(c.matcher, d, true)
    ensures p in IgnoredRows(c, All(c)) && p !in DeletedRows(c, All(c))
  {
    assert d in All(c) && Prunes(c, d) && Covers(c, d);
  }

  // --- Scanning again -----------------------------------------------------------------------------------

  function Stamped(r: Row, node: string): Row { r.(info := r.info.(version := Bump(r.info.version, node))) }

  /** The index after the scan is applied: new, changed and deleted rows get a new version, ignored rows are parked. */
  function ApplyScan(c: Setting, node: string): map<string, Row> {
    var v := All(c);
    var a, ch, t, d, i := AddedRows(c, v), ChangedRows(c, v), TouchedRows(c, v), DeletedRows(c, v), IgnoredRows(c, v);
    map p | p in c.existing.Keys + a.Keys ::
      if p in i then c.existing[p].(parked := true)
      else if p in d then Stamped(d[p], node)
      else if p in t then t[p]
      else if p in ch then Stamped(ch[p], node)
      else if p in a then Stamped(a[p], node)
      else c.existing[p]
  }

  /** The same tree scanned again, after the first scan was applied. */
  function Again(c: Setting, node: string): Setting { c.(existing := ApplyScan(c, node)) }

  /** What the walk does depends on the disk and the rules alone. */
  lemma SameWalk(c: Setting, c': Setting)
    requires c'.disk == c.disk && c'.matcher == c.matcher && c'.prune == c.prune
    ensures All(c') == All(c)
    ensures forall p :: Ignored(c', p) == Ignored(c, p) && Covers(c', p) == Covers(c, p) && Prunes(c', p) == Prunes(c, p)
    ensures forall p :: Classified(c', p) == Classified(c, p) && (p in c.disk ==> MarksSelf(c', p) == MarksSelf(c, p))
    ensures forall p :: Parks(c', All(c), p) == Parks(c, All(c), p)
  {
    forall p ensures Descends(c', p) == Descends(c, p) {}
    forall p ensures Reached(c', p) == Reached(c, p) {}
  }

  lemma ClassifiedIsKept(c: Setting, p: string)
    requires p in All(c) && Classified(c, p)
    ensures p !in IgnoredRows(c, All(c)) && p !in DeletedRows(c, All(c))
  {
    forall d | d in All(c) && Prunes(c, d) ensures !Below(p, d) {
      if Below(p, d) { NotReachedBelow(c, p, d); }
    }
  }

  /** What the index says of a classified path afterwards. */
  lemma AppliedAt(c: Setting, node: string, p: string)
    requires p in All(c) && Classified(c, p)
    ensures var m := ApplyScan(c, node);
            && (IsTouched(c, p) ==> p in m && m[p] == TouchedRow(c, p))
            && (IsChanged(c, p) ==> p in m && m[p] == Stamped(DiskRow(c, p), node))
            && (IsAdded(c, p) ==> p in m && m[p] == Stamped(DiskRow(c, p), node))
            && (!IsTouched(c, p) && !IsChanged(c, p) && !IsAdded(c, p) ==>
                  (p in m <==> p in c.existing) && (p in m ==> m[p] == c.existing[p]))
  {
    ClassifiedIsKept(c, p);
  }

  /** A row the scan lists for an indexed path has that path's version, whether live or not, and one for a new path has none. */
  lemma ListedRowsCarryTheVersion(c: Setting, visited: set<string>, p: string, r: Row)
    requires || (p in AddedRows(c, visited) && r == AddedRows(c, visited)[p])
             || (p in ChangedRows(c, visited) && r == ChangedRows(c, visited)[p])
             || (p in TouchedRows(c, visited) && r == TouchedRows(c, visited)[p])
             || (p in DeletedRows(c, visited) && r == DeletedRows(c, visited)[p])
    ensures r.info.version == if p in c.existing then c.existing[p].info.version else map[]
  {
  }

  /**
   Applying the scan gives new, changed and deleted paths a version above the
   one they had, below the counter's maximum, and leaves every other version as
   it was.
   */
  lemma ScanAdvancesVersions(c: Setting, node: string, p: string)
    requires p in ApplyScan(c, node)
    ensures var v, was := All(c), if p in c.existing then c.existing[p].info.version else map[];
            var got := ApplyScan(c, node)[p].info.version;
            if p in AddedRows(c, v) || p in ChangedRows(c, v) || p in DeletedRows(c, v)
            then At(was, node) < MAX_COUNTER ==> Dominates(got, was)
            else p in c.existing && got == was
  {
    var was := if p in c.existing then c.existing[p].info.version else map[];
    if At(was, node) < MAX_COUNTER { BumpDominatesUnlessItWraps(was, node); }
    BucketsAreDisjoint(c);
  }

  /** A deleted row stays in the index as a tombstone with its metadata, and a parked one keeps everything. */
  lemma GoneAndParkedRows(c: Setting, node: string, p: string)
    requires p in c.existing && (p in DeletedRows(c, All(c)) || p in IgnoredRows(c, All(c)))
    ensures var m, was := ApplyScan(c, node), c.existing[p];
            IsLive(was) && p in m &&
            if p in IgnoredRows(c, All(c)) then m[p] == was.(parked := true)
            else m[p] == was.(info := was.info.(deleted := true, version := m[p].info.version))
  {
    BucketsAreDisjoint(c);
  }

  /** Nothing is listed but readable files and directories that are not ignored, links and syncat's own directory aside. */
  lemma OnlySyncedEntriesAreListed(c: Setting, p: string)
    requires p in AddedRows(c, All(c)) || p in ChangedRows(c, All(c)) || p in TouchedRows(c, All(c))
    ensures p in c.disk && !c.disk[p].LinkEntry? && c.disk[p].stat == Fine
    ensures !Matches(c.matcher, p, c.disk[p].DirEntry?) && !(p == RESERVED && c.disk[p].DirEntry?) && !Below(p, RESERVED)
  {
    if Below(p, RESERVED) { NotReachedBelow(c, p, RESERVED); }
  }

  /** The entry is a file the index knows with this size and time: it is not read again. */
  predicate LooksUnchanged(c: Setting, p: string) {
    && p in c.disk && c.disk[p].FileEntry? && p in c.existing && IsLive(c.existing[p]) && c.existing[p].info.ftype.File?
    && c.disk[p].size == c.existing[p].info.size && c.disk[p].mtimeNS == c.existing[p].info.mtimeNS
  }

  /**
   After the scan is applied the index has a live row for every entry the walk
   reached and may not ignore, with the metadata found. A file that looks
   unchanged keeps everything but its mode, any other has the digest that was
   read, and one that could not be read keeps what the index had for it.
   */
  lemma ReachedIsIndexed(c: Setting, node: string, p: string)
    requires Reached(c, p) && !(p == RESERVED && c.disk[p].DirEntry?) && !Matches(c.matcher, p, c.disk[p].DirEntry?)
    requires !c.disk[p].LinkEntry? && c.disk[p].stat == Fine
    ensures var m, e := ApplyScan(c, node), c.disk[p];
            if e.FileEntry? && e.digest.None? && !LooksUnchanged(c, p) then
              (p in m <==> p in c.existing) && (p in m ==> m[p] == c.existing[p])
            else
              && p in m && IsLive(m[p])
              && if e.DirEntry? then m[p].info.ftype == Dir
                 else if LooksUnchanged(c, p) then m[p] == c.existing[p].(info := c.existing[p].info.(mode := e.mode))
                 else m[p].info == FileInfo(p, File, e.size, e.mtimeNS, e.mode, e.digest.value, m[p].info.version, false)
  {
    AppliedAt(c, node, p);
  }

  lemma NothingNewAtAll(c: Setting, node: string, p: string)
    requires p in All(c) && Classified(c, p)
    ensures var c' := c.(existing := ApplyScan(c, node));
            !IsAdded(c', p) && !IsChanged(c', p) && !IsTouched(c', p)
  {
    var m := ApplyScan(c, node);
    AppliedAt(c, node, p);
    var c' := c.(existing := m);
    StillClassified(c, m, p);
    if IsAdded(c, p) || IsChanged(c, p) {
      SettledRow(c, m, p, Stamped(DiskRow(c, p), node));
    } else if IsTouched(c, p) {
      SettledRow(c, m, p, TouchedRow(c, p));
    }
  }

  lemma StillClassified(c: Setting, m: map<string, Row>, p: string)
    ensures Classified(c.(existing := m), p) == Classified(c, p)
  {
  }

  /** A row that describes the entry leaves nothing to report about it. */
  lemma SettledRow(c: Setting, m: map<string, Row>, p: string, r: Row)
    requires Classified(c, p) && p in m && m[p] == r && IsLive(r)
    requires if c.disk[p].DirEntry? then r.info.ftype.Dir?
             else r.info.ftype.File? && !NeedsHash(r.info, c.disk[p]) && r.info.mode == c.disk[p].mode
    ensures var c' := c.(existing := m); !IsAdded(c', p) && !IsChanged(c', p) && !IsTouched(c', p)
  {
  }

  /** Rows that were tombstoned or parked stay so, and the others were seen. */
  lemma AppliedToUnclassified(c: Setting, node: string, p: string)
    requires p in ApplyScan(c, node) && !(p in All(c) && Classified(c, p))
    ensures p in c.existing
    ensures var r := ApplyScan(c, node)[p];
            if p in IgnoredRows(c, All(c)) then r.parked
            else if p in DeletedRows(c, All(c)) then r.info.deleted
            else r == c.existing[p]
  {
  }

  lemma NothingGoneOrParked(c: Setting, node: string, p: string)
    requires p in ApplyScan(c, node) && IsLive(ApplyScan(c, node)[p])
    ensures Seen(c, All(c), p) && !Parks(c, All(c), p)
  {
    if p in All(c) && Classified(c, p) {
      AppliedAt(c, node, p);
      forall d | d in All(c) && Prunes(c, d) ensures !Below(p, d) {
        if Below(p, d) { NotReachedBelow(c, p, d); }
      }
    } else {
      AppliedToUnclassified(c, node, p);
    }
  }

  /** Scanning the same tree again after applying the scan finds nothing. */
  lemma RescanFindsNothing(c: Setting, node: string)
    ensures var c' := Again(c, node);
            var v := All(c');
            AddedRows(c', v) == ChangedRows(c', v) == TouchedRows(c', v) == DeletedRows(c', v) == IgnoredRows(c', v) == map[]
  {
    var c' := Again(c, node);
    var v := All(c);
    SameWalk(c, c');
    forall p | p in v ensures !IsAdded(c', p) && !IsChanged(c', p) && !IsTouched(c', p) {
      if Classified(c, p) { NothingNewAtAll(c, node, p); }
    }
    forall p | p in c'.existing && IsLive(c'.existing[p]) ensures Seen(c', v, p) && !Parks(c', v, p) {
      NothingGoneOrParked(c, node, p);
      SeenAgain(c, c', p);
    }
    assert AddedRows(c', v) == map[] && ChangedRows(c', v) == map[] && TouchedRows(c', v) == map[];
    assert DeletedRows(c', v) == map[] && IgnoredRows(c', v) == map[];
  }

  lemma SeenAgain(c: Setting, c': Setting, p: string)
    requires c'.disk == c.disk && c'.matcher == c.matcher && c'.prune == c.prune && p in c'.existing && Seen(c, All(c), p)
    ensures Seen(c', All(c), p)
  {
    SameWalk(c, c');
  }

  // --- Pruning --------------------------------------------------------------------------------------------

  /** Where the unpruned walk goes on and the pruned one does not, an ignored directory was pruned. */
  lemma PrunedAbove(c: Setting, u: Setting, p: string) returns (d: string)
    requires c.prune && u == c.(prune := false) && Reached(u, p) && !Reached(c, p)
    ensures d in All(c) && Prunes(c, d) && Below(p, d)
  {
    var i := FirstStop(c, p, |p|);
    d := p[..i];
    CutIsBelow(p, i);
    assert Descends(u, d);
  }

  lemma PrunedWalkIsShorter(c: Setting, u: Setting, p: string)
    requires c.prune && u == c.(prune := false) && Reached(c, p)
    ensures Reached(u, p)
  {
    forall i | 0 <= i < |p| && Cuts(p, i) ensures Descends(u, p[..i]) { assert Descends(c, p[..i]); }
  }

  /** What the pruned walk misses is all ignored. */
  lemma PrunedPathsAreIgnored(c: Setting, u: Setting, p: string)
    requires c.prune && u == c.(prune := false) && PruneDirs(c.matcher) && Reached(u, p) && !Ignored(c, p)
    ensures Reached(c, p)
  {
    if !Reached(c, p) {
      var d := PrunedAbove(c, u, p);
      MatchedDirectoryCoversDescendants(c.matcher, d, p, IsDir(c, p));
    }
  }

  lemma PrunedWalkSeesAsMuch(c: Setting, u: Setting, p: string)
    requires c.prune && u == c.(prune := false) && p in c.existing && Seen(u, All(u), p)
    ensures Seen(c, All(c), p)
  {
    if p in All(u) && MarksSelf(u, p) {
      if !Reached(c, p) {
        var d := PrunedAbove(c, u, p);
        assert Covers(c, d);
      }
    } else {
      var e :| e in All(u) && Covers(u, e) && Below(p, e);
      if Reached(c, e) {
        assert Covers(c, e);
      } else {
        var d := PrunedAbove(c, u, e);
        BelowIsTransitive(p, e, d);
        assert Covers(c, d);
      }
    }
  }

  /**
   With no negation rule the pruned walk gives exactly the new, changed and
   touched rows of the full walk, and never an extra tombstone.
   */
  lemma PruningIsSound(c: Setting, u: Setting)
    requires c.prune && u == c.(prune := false) && PruneDirs(c.matcher)
    ensures AddedRows(c, All(c)) == AddedRows(u, All(u))
    ensures ChangedRows(c, All(c)) == ChangedRows(u, All(u))
    ensures TouchedRows(c, All(c)) == TouchedRows(u, All(u))
    ensures DeletedRows(c, All(c)).Keys <= DeletedRows(u, All(u)).Keys
  {
    forall p ensures p in All(c) && Classified(c, p) <==> p in All(u) && Classified(u, p) {
      if Reached(c, p) { PrunedWalkIsShorter(c, u, p); }
      if Reached(u, p) && Classified(u, p) { PrunedPathsAreIgnored(c, u, p); }
    }
    forall p | p in DeletedRows(c, All(c)) ensures p in DeletedRows(u, All(u)) {
      if Seen(u, All(u), p) { PrunedWalkSeesAsMuch(c, u, p); }
    }
  }
}
