/**
 The scan as it runs: a walk that appends to five lists and marks paths as
 seen, and a last pass over the index for what was not. It is proved to list
 each bucket of the specification exactly, every path once.
 */
module ScanWalk {
  import opened Reconcile
  import opened Ignore
  import opened Scanner

  /** The rows of `m`, each once, in some order. */
  ghost predicate Enumerates(rows: seq<Row>, m: map<string, Row>) {
    && (forall i :: 0 <= i < |rows| ==> rows[i].info.relpath in m && m[rows[i].info.relpath] == rows[i])
    && (forall p :: p in m ==> m[p] in rows && m[p].info.relpath == p)
    && (forall i, j :: 0 <= i < j < |rows| ==> rows[i].info.relpath != rows[j].info.relpath)
  }

  lemma ListOneMore(rows: seq<Row>, m: map<string, Row>, r: Row, m': map<string, Row>)
    requires Enumerates(rows, m) && r.info.relpath !in m && m' == m[r.info.relpath := r]
    ensures Enumerates(rows + [r], m')
  {
    var rows' := rows + [r];
    forall p | p in m' ensures m'[p] in rows' {
      if p == r.info.relpath { assert rows'[|rows|] == r; }
    }
  }

  /** The live rows among `paths`. */
  ghost function LiveAmong(c: Setting, paths: set<string>): map<string, Row> {
    map p | p in c.existing && IsLive(c.existing[p]) && p in paths :: c.existing[p]
  }

  ghost function Indexed(c: Setting, d: string): set<string> { set q | q in c.existing && Below(q, d) }

  /** What a pass over the index has noted when `todo` is left. */
  ghost function Noted(c: Setting, d: string, todo: set<string>): set<string> { Indexed(c, d) - todo }

  lemma NoneNoted(c: Setting, d: string)
    ensures Noted(c, d, c.existing.Keys) == {} && Noted(c, d, {}) == Indexed(c, d)
  {
  }

  lemma NoteOne(c: Setting, d: string, todo: set<string>, q: string)
    requires q in todo && todo <= c.existing.Keys
    ensures q in Indexed(c, d) <==> Below(q, d)
    ensures q !in Noted(c, d, todo)
    ensures Noted(c, d, todo - {q}) == if Below(q, d) then Noted(c, d, todo) + {q} else Noted(c, d, todo)
  {
  }

  ghost function ParkedPaths(c: Setting, visited: set<string>): set<string> { set q | q in c.existing && Parks(c, visited, q) }

  class Scan {
    var added: seq<Row>
    var changed: seq<Row>
    var touched: seq<Row>
    var deleted: seq<Row>
    var ignored: seq<Row>
    var seen: set<string>

    constructor ()
      ensures added == changed == touched == deleted == ignored == [] && seen == {}
    {
      added, changed, touched, deleted, ignored, seen := [], [], [], [], [], {};
    }

    /** The ignored list holds the live rows among `parked`. */
    ghost predicate Parked(c: Setting, parked: set<string>)
      reads this`ignored
    {
      Enumerates(ignored, LiveAmong(c, parked))
    }

    /** The lists hold what the visited entries call for. */
    ghost predicate After(c: Setting, visited: set<string>)
      reads this
    {
      && Enumerates(added, AddedRows(c, visited)) && Enumerates(changed, ChangedRows(c, visited)) && Enumerates(touched, TouchedRows(c, visited))
      && Parked(c, ParkedPaths(c, visited))
      && forall p :: p in c.existing ==> (p in seen <==> Seen(c, visited, p))
    }

    method NoteIgnored(c: Setting, p: string, ghost parked: set<string>)
      requires WellFormed(c) && Parked(c, parked) && p !in parked
      modifies this`ignored, this`seen
      ensures Parked(c, parked + {p}) && seen == old(seen) + {p}
    {
      seen := seen + {p};
      if p in c.existing && !c.existing[p].info.deleted && !c.existing[p].parked {
        ListOneMore(ignored, LiveAmong(c, parked), c.existing[p], LiveAmong(c, parked + {p}));
        ignored := ignored + [c.existing[p]];
      } else {
        assert LiveAmong(c, parked + {p}) == LiveAmong(c, parked);
      }
    }

    method NoteIgnoredSubtree(c: Setting, d: string, ghost parked: set<string>)
      requires WellFormed(c) && Parked(c, parked) && parked !! Indexed(c, d)
      modifies this`ignored, this`seen
      ensures Parked(c, parked + Indexed(c, d)) && seen == old(seen) + Indexed(c, d)
    {
      var todo := c.existing.Keys;
      NoneNoted(c, d);
      assert parked + {} == parked;
      while todo != {}
        invariant todo <= c.existing.Keys
        invariant Parked(c, parked + Noted(c, d, todo)) && seen == old(seen) + Noted(c, d, todo)
        decreases |todo|
      {
        var q :| q in todo;
        NoteNext(c, d, q, todo, parked, old(seen));
        todo := todo - {q};
      }
    }

    method NoteNext(c: Setting, d: string, q: string, ghost todo: set<string>, ghost parked: set<string>, ghost before: set<string>)
      requires WellFormed(c) && q in todo && todo <= c.existing.Keys && parked !! Indexed(c, d)
      requires Parked(c, parked + Noted(c, d, todo)) && seen == before + Noted(c, d, todo)
      modifies this`ignored, this`seen
      ensures Parked(c, parked + Noted(c, d, todo - {q})) && seen == before + Noted(c, d, todo - {q})
    {
      NoteOne(c, d, todo, q);
      if Below(q, d) {
        NoteIgnored(c, q, parked + Noted(c, d, todo));
        assert parked + Noted(c, d, todo) + {q} == parked + Noted(c, d, todo - {q});
      }
    }

    method KeepUnreadable(c: Setting, p: string, isDir: bool, fault: Fault)
      modifies this`seen
      ensures seen == if fault.Gone? then old(seen) else old(seen) + {p} + if isDir then Indexed(c, p) else {}
    {
      if fault.Gone? { return; }
      seen := seen + {p};
      if !isDir { return; }
      MarkIndexed(c, p);
    }

    method MarkIndexed(c: Setting, d: string)
      modifies this`seen
      ensures seen == old(seen) + Indexed(c, d)
    {
      var todo := c.existing.Keys;
      ghost var noted := {};
      NoneNoted(c, d);
      while todo != {}
        invariant todo <= c.existing.Keys && noted == Noted(c, d, todo) && seen == old(seen) + noted
        decreases |todo|
      {
        var q :| q in todo;
        NoteOne(c, d, todo, q);
        todo := todo - {q};
        if Below(q, d) {
          seen := seen + {q};
          noted := noted + {q};
        }
      }
    }

    /** A known or new file or directory goes to the bucket it belongs in. */
    method Classify(c: Setting, p: string, ghost visited: set<string>)
      requires WellFormed(c) && Classified(c, p) && p !in visited
      requires Enumerates(added, AddedRows(c, visited)) && Enumerates(changed, ChangedRows(c, visited)) && Enumerates(touched, TouchedRows(c, visited))
      modifies this`added, this`changed, this`touched
      ensures Enumerates(added, AddedRows(c, visited + {p})) && Enumerates(changed, ChangedRows(c, visited + {p})) && Enumerates(touched, TouchedRows(c, visited + {p}))
    {
      OneMoreVisit(c, p, visited);
      var e := c.disk[p];
      var existed := p in c.existing;
      if e.DirEntry? {
        if !existed || c.existing[p].info.deleted || c.existing[p].parked || c.existing[p].info.ftype != Dir {
          ListOneMore(added, AddedRows(c, visited), DiskRow(c, p), AddedRows(c, visited + {p}));
          added := added + [DiskRow(c, p)];
        }
        return;
      }
      if !existed || c.existing[p].info.deleted || c.existing[p].parked || c.existing[p].info.ftype != File {
        if e.digest.None? { return; }
        ListOneMore(added, AddedRows(c, visited), DiskRow(c, p), AddedRows(c, visited + {p}));
        added := added + [DiskRow(c, p)];
        return;
      }
      var was := c.existing[p];
      if NeedsHash(was.info, e) {
        if e.digest.None? { return; }
        if e.digest.value == was.info.sha256 {
          ListOneMore(touched, TouchedRows(c, visited), DiskRow(c, p), TouchedRows(c, visited + {p}));
          touched := touched + [DiskRow(c, p)];
        } else {
          ListOneMore(changed, ChangedRows(c, visited), DiskRow(c, p), ChangedRows(c, visited + {p}));
          changed := changed + [DiskRow(c, p)];
        }
      } else if e.mode != was.info.mode {
        var row := was.(info := was.info.(mode := e.mode));
        ListOneMore(touched, TouchedRows(c, visited), row, TouchedRows(c, visited + {p}));
        touched := touched + [row];
      }
    }

    /** An ignored entry is parked, with everything indexed below it if the walk stops here. */
    method VisitIgnored(c: Setting, p: string, ghost parked: set<string>)
      requires WellFormed(c) && p in c.disk && Ignored(c, p) && !OwnDirectory(c, p)
      requires Parked(c, parked) && p !in parked && p !in Indexed(c, p) && (Prunes(c, p) ==> parked !! Indexed(c, p))
      modifies this`ignored, this`seen
      ensures Parked(c, parked + {p} + if Prunes(c, p) then Indexed(c, p) else {})
      ensures seen == old(seen) + {p} + if Covers(c, p) then Indexed(c, p) else {}
    {
      var e := c.disk[p];
      NoteIgnored(c, p, parked);
      assert parked + {p} + {} == parked + {p};
      if e.DirEntry? && c.prune {
        NoteIgnoredSubtree(c, p, parked + {p});
      } else if e.DirEntry? && e.list != Fine {
        KeepUnreadable(c, p, true, e.list);
      }
    }

    /** One entry of the walk, with the second call a directory gets when it cannot be listed. */
    method Visit(c: Setting, p: string, ghost visited: set<string>)
      requires WellFormed(c) && p in All(c) && visited <= All(c) && p !in visited && After(c, visited)
      modifies this`added, this`changed, this`touched, this`ignored, this`seen
      ensures After(c, visited + {p})
    {
      OneMoreVisit(c, p, visited);
      SeenOneMore(c, p, visited);
      var e := c.disk[p];
      if p == RESERVED && e.DirEntry? {
        NothingParked(c, p, visited);
        return;
      }
      var isIgnored := MatchPath(c.matcher, p, e.DirEntry?);
      if isIgnored {
        ghost var parked := ParkedPaths(c, visited);
        NotParkedYet(c, p, visited);
        VisitIgnored(c, p, parked);
        SameParked(c, p, visited);
        return;
      }
      NothingParked(c, p, visited);
      if e.LinkEntry? { return; }
      if e.stat != Fine {
        KeepUnreadable(c, p, e.DirEntry?, e.stat);
        return;
      }
      seen := seen + {p};
      Classify(c, p, visited);
      if e.DirEntry? && e.list != Fine {
        KeepUnreadable(c, p, true, e.list);
      }
    }

    /**
     The whole scan. `walk` is the order in which the entries below the root
     come, each once. A root that cannot be read fails the scan.
     */
    method Run(existing: map<string, Row>, disk: map<string, Entry>, matcher: Matcher, rootOk: bool, walk: seq<string>)
      returns (ok: bool)
      requires var c := Setting(existing, disk, matcher, PruneDirs(matcher));
               && WellFormed(c)
               && (forall p :: p in walk <==> p in All(c))
               && (forall i, j :: 0 <= i < j < |walk| ==> walk[i] != walk[j])
      requires added == changed == touched == deleted == ignored == [] && seen == {}
      modifies this
      ensures ok == rootOk
      ensures ok ==> var c := Setting(existing, disk, matcher, PruneDirs(matcher));
                     && Enumerates(added, AddedRows(c, All(c))) && Enumerates(changed, ChangedRows(c, All(c)))
                     && Enumerates(touched, TouchedRows(c, All(c))) && Enumerates(deleted, DeletedRows(c, All(c)))
                     && Enumerates(ignored, IgnoredRows(c, All(c)))
    {
      if !rootOk { return false; }
      var c := Setting(existing, disk, matcher, PruneDirs(matcher));
      WalkAll(c, walk);
      AllParked(c);
      TombstoneUnseen(c);
      return true;
    }

    method WalkAll(c: Setting, walk: seq<string>)
      requires WellFormed(c) && (forall p :: p in walk <==> p in All(c))
      requires forall i, j :: 0 <= i < j < |walk| ==> walk[i] != walk[j]
      requires added == changed == touched == ignored == [] && seen == {}
      modifies this`added, this`changed, this`touched, this`ignored, this`seen
      ensures After(c, All(c))
    {
      NothingVisited(c);
      assert Firsts(walk, |walk|) == All(c) && Firsts(walk, 0) == {} by { assert walk[..|walk|] == walk; }
      for k := 0 to |walk|
        invariant After(c, Firsts(walk, k))
      {
        OneFurther(walk, k);
        Visit(c, walk[k], Firsts(walk, k));
      }
    }

    /** The last pass: live rows nothing accounted for become tombstones. */
    method TombstoneUnseen(c: Setting)
      requires WellFormed(c) && deleted == []
      requires forall p :: p in c.existing ==> (p in seen <==> Seen(c, All(c), p))
      modifies this`deleted
      ensures Enumerates(deleted, DeletedRows(c, All(c)))
    {
      ghost var want := DeletedRows(c, All(c));
      var todo := c.existing.Keys;
      ghost var listed: map<string, Row> := map[];
      while todo != {}
        invariant todo <= c.existing.Keys
        invariant listed == want - todo && Enumerates(deleted, listed)
        decreases |todo|
      {
        var p :| p in todo;
        ghost var before := todo;
        todo := todo - {p};
        var was := c.existing[p];
        if was.info.deleted || p in seen || was.parked {
          assert want - todo == listed;
          continue;
        }
        ListOneMore(deleted, listed, Tombstone(was), listed[p := Tombstone(was)]);
        assert want - todo == listed[p := Tombstone(was)];
        listed := listed[p := Tombstone(was)];
        deleted := deleted + [Tombstone(was)];
      }
      assert want - todo == want;
    }
  }

  ghost function Firsts(walk: seq<string>, k: nat): set<string>
    requires k <= |walk|
  {
    set p | p in walk[..k]
  }

  lemma OneFurther(walk: seq<string>, k: nat)
    requires k < |walk| && forall i, j :: 0 <= i < j < |walk| ==> walk[i] != walk[j]
    ensures walk[k] !in Firsts(walk, k) && Firsts(walk, k + 1) == Firsts(walk, k) + {walk[k]}
    ensures forall p :: p in Firsts(walk, k) ==> p in walk
    ensures walk[k] in walk
  {
    assert walk[..k + 1] == walk[..k] + [walk[k]];
  }

  lemma AllParked(c: Setting)
    ensures LiveAmong(c, ParkedPaths(c, All(c))) == IgnoredRows(c, All(c))
  {
  }

  lemma NothingVisited(c: Setting)
    ensures LiveAmong(c, ParkedPaths(c, {})) == map[] && AddedRows(c, {}) == ChangedRows(c, {}) == TouchedRows(c, {}) == map[]
    ensures forall p :: !Seen(c, {}, p)
  {
  }

  /** Visiting one more entry adds at most its own row to a bucket. */
  lemma OneMoreVisit(c: Setting, p: string, visited: set<string>)
    requires p !in visited
    ensures p !in AddedRows(c, visited) && p !in ChangedRows(c, visited) && p !in TouchedRows(c, visited)
    ensures AddedRows(c, visited + {p}) == if IsAdded(c, p) then AddedRows(c, visited)[p := DiskRow(c, p)] else AddedRows(c, visited)
    ensures ChangedRows(c, visited + {p}) == if IsChanged(c, p) then ChangedRows(c, visited)[p := DiskRow(c, p)] else ChangedRows(c, visited)
    ensures TouchedRows(c, visited + {p}) == if IsTouched(c, p) then TouchedRows(c, visited)[p := TouchedRow(c, p)] else TouchedRows(c, visited)
  {
  }

  lemma SeenOneMore(c: Setting, p: string, visited: set<string>)
    requires p in c.disk
    ensures forall q :: q in c.existing ==>
      (Seen(c, visited + {p}, q) <==> Seen(c, visited, q) || (q == p && MarksSelf(c, p)) || (Covers(c, p) && Below(q, p)))
  {
  }

  lemma ParkedOneMore(c: Setting, p: string, visited: set<string>)
    requires p in c.disk
    ensures forall q :: q in c.existing ==>
      (Parks(c, visited + {p}, q) <==> Parks(c, visited, q) || (q == p && !OwnDirectory(c, p) && Ignored(c, p)) || (Prunes(c, p) && Below(q, p)))
  {
  }

  /** What a visit to an ignored entry parks. */
  lemma SameParked(c: Setting, p: string, visited: set<string>)
    requires p in c.disk && Ignored(c, p) && !OwnDirectory(c, p)
    ensures LiveAmong(c, ParkedPaths(c, visited + {p}))
         == LiveAmong(c, ParkedPaths(c, visited) + {p} + if Prunes(c, p) then Indexed(c, p) else {})
  {
    ParkedOneMore(c, p, visited);
  }

  lemma NothingParked(c: Setting, p: string, visited: set<string>)
    requires p in c.disk && (OwnDirectory(c, p) || !Ignored(c, p))
    ensures ParkedPaths(c, visited + {p}) == ParkedPaths(c, visited)
  {
    ParkedOneMore(c, p, visited);
  }

  /** Neither the entry nor, if it is pruned, anything below it has been parked before. */
  lemma NotParkedYet(c: Setting, p: string, visited: set<string>)
    requires p in All(c) && visited <= All(c) && p !in visited
    ensures !Parks(c, visited, p) && p !in Indexed(c, p)
    ensures Prunes(c, p) ==> ParkedPaths(c, visited) !! Indexed(c, p)
  {
    forall d | d in visited && Prunes(c, d) ensures !Below(p, d) {
      if Below(p, d) { NotReachedBelow(c, p, d); }
    }
    if Below(p, p) { BelowIsCut(p, p); }
    if Prunes(c, p) {
      forall q | Below(q, p) ensures !Parks(c, visited, q) {
        NotReachedBelow(c, q, p);
        forall d | d in visited && Prunes(c, d) ensures !Below(q, d) {
          if Below(q, d) { Nested(c, q, p, d); }
        }
      }
    }
  }

  /** Two different reached directories above one path cannot both be pruned. */
  lemma Nested(c: Setting, q: string, p: string, d: string)
    requires Below(q, p) && Below(q, d) && p != d && Prunes(c, p) && Prunes(c, d)
    ensures !(Reached(c, p) && Reached(c, d))
  {
    BelowIsCut(q, p);
    BelowIsCut(q, d);
    if |p| < |d| {
      assert d[..|p|] == p && Cuts(d, |p|);
    } else {
      assert p[..|d|] == d && (|d| < |p| ==> Cuts(p, |d|));
    }
  }
}
