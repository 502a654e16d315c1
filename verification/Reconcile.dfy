/**
 The reconciler: what one node does about one path, given its own row and the
 row a peer advertises. Pure decisions; nothing here touches a file.
 */
module Reconcile {
  import opened Vectors
  import opened ConflictNames
  import opened Order

  datatype Option<T> = None | Some(value: T)

  type Byte = x: int | 0 <= x < 256

  datatype FileType = File | Dir | Symlink

  datatype FileInfo = FileInfo(
    relpath: string,
    ftype: FileType,
    size: int,
    mtimeNS: int,
    mode: nat,
    sha256: seq<Byte>,
    version: Vector,
    deleted: bool)

  const NO_INFO := FileInfo("", File, 0, 0, 0, [], map[], false)

  datatype Direction = Direction(inboundBlocked: bool, outboundBlocked: bool)

  /** Changes flow both ways. */
  const MIRROR := Direction(false, false)

  datatype Kind = NoAction | Pull | Delete | Resurrect | ConflictCopy | LocallyModified

  datatype Source = NoSource | Local | Remote

  datatype Action = Action(
    kind: Kind,
    relpath: string,
    resolved: FileInfo,
    source: Source,
    sourceVersion: Vector,
    conflictRelPath: string,
    conflictInfo: FileInfo,
    conflictSource: Source)

  function Plain(kind: Kind, relpath: string): Action {
    Action(kind, relpath, NO_INFO, NoSource, map[], "", NO_INFO, NoSource)
  }

  function Resolve(kind: Kind, relpath: string, info: FileInfo, source: Source, sourceVersion: Vector): Action {
    Action(kind, relpath, info, source, sourceVersion, "", NO_INFO, NoSource)
  }

  // --- Naming the losing side -----------------------------------------------------

  const CONFLICT_ID_LEN := 4

  function HexDigit(n: int): char
    requires 0 <= n < 16
  {
    "0123456789abcdef"[n]
  }

  function Hex(s: seq<Byte>): (r: string)
    ensures |r| == 2 * |s| && AllHex(r)
  {
    if s == [] then "" else [HexDigit(s[0] / 16), HexDigit(s[0] % 16)] + Hex(s[1..])
  }

  function HexValue(c: char): int { if c <= '9' then c as int - '0' as int else c as int - 'a' as int + 10 }

  lemma HexDigitReads(n: int)
    requires 0 <= n < 16
    ensures HexValue(HexDigit(n)) == n
  {
  }

  lemma HexParts(s: seq<Byte>, k: nat)
    requires s != [] && k < 2 * |s| - 2
    ensures Hex(s)[0] == HexDigit(s[0] / 16) && Hex(s)[1] == HexDigit(s[0] % 16) && Hex(s)[k + 2] == Hex(s[1..])[k]
  {
    TwoBefore(HexDigit(s[0] / 16), HexDigit(s[0] % 16), Hex(s[1..]), k);
  }

  lemma TwoBefore(a: char, b: char, tail: string, k: nat)
    requires k < |tail|
    ensures ([a, b] + tail)[0] == a && ([a, b] + tail)[1] == b && ([a, b] + tail)[k + 2] == tail[k]
  {
  }

  /** Two digits read as one byte. */
  lemma {:induction false} HexReads(s: seq<Byte>, i: nat)
    requires i < |s|
    ensures 16 * HexValue(Hex(s)[2 * i]) + HexValue(Hex(s)[2 * i + 1]) == s[i]
  {
    if i > 0 {
      HexReads(s[1..], i - 1);
      HexParts(s, 2 * (i - 1));
      HexParts(s, 2 * (i - 1) + 1);
    } else {
      HexDigitReads(s[0] / 16);
      HexDigitReads(s[0] % 16);
      assert Hex(s) == [HexDigit(s[0] / 16), HexDigit(s[0] % 16)] + Hex(s[1..]);
    }
  }

  function DerivedName(relpath: string, loser: FileInfo): string
    requires |loser.sha256| >= CONFLICT_ID_LEN
  {
    ConflictRelPath(relpath, Hex(loser.sha256[..CONFLICT_ID_LEN]), loser.mtimeNS)
  }

  /** Named after the loser itself; the resolving node's id and clock are only a fallback. */
  function LoserConflictRelPath(relpath: string, loser: FileInfo, node: NodeId, now: int): string {
    if |loser.sha256| >= CONFLICT_ID_LEN && DerivedName(relpath, loser) != relpath
    then DerivedName(relpath, loser)
    else ConflictRelPath(relpath, node, now)
  }

  // --- The decision ------------------------------------------------------------------

  /** Later mtime wins; on a tie, the larger digest. */
  predicate ConflictWinnerIsRemote(l: FileInfo, r: FileInfo) {
    if r.mtimeNS != l.mtimeNS then r.mtimeNS > l.mtimeNS else LexLess(l.sha256, r.sha256)
  }

  function ReconcileIdenticalContent(relpath: string, l: FileInfo, r: FileInfo): Action {
    Resolve(Pull, relpath, l.(version := Merge(l.version, r.version), relpath := relpath), NoSource, map[])
  }

  function ReconcileConcurrent(relpath: string, l: FileInfo, r: FileInfo, node: NodeId, dir: Direction, now: int): Action {
    var merged := Bump(Merge(l.version, r.version), node);
    if dir.outboundBlocked && !l.deleted then
      Resolve(LocallyModified, relpath, r, Remote, r.version)
    else if l.deleted != r.deleted then
      var winner := if l.deleted then r else l;
      Resolve(Resurrect, relpath, winner.(version := merged, relpath := relpath),
              if l.deleted then Remote else Local, winner.version)
    else if l.deleted then
      Resolve(Delete, relpath, r.(version := merged, relpath := relpath), NoSource, map[])
    else if l.sha256 == r.sha256 then
      ReconcileIdenticalContent(relpath, l, r)
    else
      var remoteWins := ConflictWinnerIsRemote(l, r);
      var winner, loser := if remoteWins then r else l, if remoteWins then l else r;
      var conflictPath := LoserConflictRelPath(relpath, loser, node, now);
      Action(ConflictCopy, relpath,
             winner.(version := merged, relpath := relpath), if remoteWins then Remote else Local, winner.version,
             conflictPath, loser.(relpath := conflictPath), if remoteWins then Local else Remote)
  }

  /** `valid` says which relative paths pass validation. */
  function ReconcileOne(relpath: string, local: Option<FileInfo>, remote: Option<FileInfo>,
                        node: NodeId, dir: Direction, now: int, valid: string -> bool): Action
  {
    if remote.Some? && (!valid(remote.value.relpath) || remote.value.ftype == Symlink) then
      Plain(NoAction, relpath)
    else if dir.inboundBlocked then
      Plain(NoAction, relpath)
    else if remote.None? then
      Plain(if dir.outboundBlocked then LocallyModified else NoAction, relpath)
    else
      var r := remote.value;
      var adopt := if r.deleted then Resolve(Delete, relpath, r, NoSource, map[])
                   else Resolve(Pull, relpath, r, Remote, r.version);
      if local.None? then adopt
      else
        var l := local.value;
        if Equal(l.version, r.version) then Plain(NoAction, relpath)
        else if Dominates(r.version, l.version) then adopt
        else if Dominates(l.version, r.version) then
          Plain(if dir.outboundBlocked then LocallyModified else NoAction, relpath)
        else ReconcileConcurrent(relpath, l, r, node, dir, now)
  }

  /** The row a node holds for the path once the action has been applied. */
  function RowAfter(local: Option<FileInfo>, a: Action): Option<FileInfo> {
    match a.kind
    case NoAction => local
    case LocallyModified => if a.source == Remote then Some(a.resolved) else local
    case ConflictCopy => Some(a.resolved.(relpath := a.relpath))
    case _ => Some(a.resolved)
  }
}
