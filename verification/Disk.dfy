/**
 A directory tree on disk, and the few system calls the apply and trash code
 makes on it. A path exists when something is stored at it or below it.
 */
module Disk {
  import opened Reconcile

  type Path = seq<string>

  /** A regular file stands for its content by its digest. */
  datatype Node = Directory | Regular(digest: seq<Byte>) | Link(target: string)

  type Tree = map<Path, Node>

  predicate IsFile(t: Tree, p: Path) { p in t && !t[p].Directory? }

  predicate Exists(t: Tree, p: Path) { exists q :: q in t && p <= q }

  /** Some parent of `p` is not a directory. */
  predicate Blocked(t: Tree, p: Path) { exists i :: 0 <= i < |p| && IsFile(t, p[..i]) }

  /** Nothing is stored below a file. */
  predicate Sound(t: Tree) { forall q :: q in t ==> !Blocked(t, q) }

  /** Every file or link content in the tree. */
  ghost function Contents(t: Tree): set<Node> { set p | p in t && !t[p].Directory? :: t[p] }

  ghost predicate Stays(before: Tree, p: Path, after: Tree)
    requires p in before
  {
    p in after && after[p] == before[p]
  }

  /** Every file of `before` is still where it was. */
  ghost predicate Grows(before: Tree, after: Tree) {
    forall p :: IsFile(before, p) ==> Stays(before, p, after)
  }

  // --- Making directories ------------------------------------------------------------------

  function Prefixes(p: Path): set<Path> { set i | 0 < i <= |p| :: p[..i] }

  function WithDirs(t: Tree, p: Path): (r: Tree)
    ensures forall q :: q in t ==> q in r && r[q] == t[q]
    ensures forall q :: q in r && q !in t ==> r[q] == Directory && q <= p && q != []
    ensures p == [] || p in r
  {
    assert p != [] ==> p[..|p|] == p;
    map q | q in t.Keys + Prefixes(p) :: if q in t then t[q] else Directory
  }

  /** Fails on a file in the way, and may fail after `depth` levels for any other reason. */
  function MkdirAll(t: Tree, p: Path, fault: Option<nat>): (bool, Tree) {
    if Blocked(t, p) || IsFile(t, p) then (false, t)
    else if fault.Some? then (false, WithDirs(t, p[..if fault.value < |p| then fault.value else |p|]))
    else (true, WithDirs(t, p))
  }

  lemma WithDirsSound(t: Tree, p: Path)
    requires Sound(t) && !Blocked(t, p) && !IsFile(t, p)
    ensures Sound(WithDirs(t, p))
  {
    var r := WithDirs(t, p);
    forall q, i | q in r && 0 <= i < |q| ensures !IsFile(r, q[..i]) {
      if q in t {
        assert !Blocked(t, q);
      } else {
        assert q[..i] == p[..i];
      }
    }
  }

  lemma MkdirAllSound(t: Tree, p: Path, fault: Option<nat>)
    requires Sound(t)
    ensures var (ok, r) := MkdirAll(t, p, fault);
            && Sound(r) && Grows(t, r) && Contents(r) == Contents(t)
            && (forall q :: q in r && q !in t ==> r[q] == Directory && q <= p)
            && (forall q :: IsFile(r, q) <==> IsFile(t, q))
            && (ok ==> !Blocked(r, p) && !IsFile(r, p) && (p == [] || p in r))
            && (ok <==> fault.None? && !Blocked(t, p) && !IsFile(t, p))
  {
    var (ok, r) := MkdirAll(t, p, fault);
    assert forall q :: IsFile(r, q) <==> IsFile(t, q);
    assert Contents(r) == Contents(t);
    if !Blocked(t, p) && !IsFile(t, p) {
      if fault.None? {
        WithDirsSound(t, p);
      } else {
        var d := if fault.value < |p| then fault.value else |p|;
        assert forall i :: 0 <= i <= d ==> p[..d][..i] == p[..i];
        assert d == |p| ==> p[..d] == p;
        WithDirsSound(t, p[..d]);
      }
    }
  }

  // --- Moving and removing -----------------------------------------------------------------------

  function Without(t: Tree, p: Path): Tree { map q | q in t && !(p <= q) :: t[q] }

  /** Where the entries of `t` at or below `src` land when `src` becomes `dst`. */
  function Landing(t: Tree, src: Path, dst: Path): (r: set<Path>)
    ensures forall q :: q in r <==> dst <= q && src + q[|dst|..] in t
  {
    var r := set p | p in t && src <= p :: dst + p[|src|..];
    assert forall p :: p in t && src <= p ==> src + (dst + p[|src|..])[|dst|..] == p;
    assert forall q :: dst <= q ==> dst + (src + q[|dst|..])[|src|..] == q;
    r
  }

  function Grafted(u: Tree, t: Tree, src: Path, dst: Path): Tree {
    u + map q | q in Landing(t, src, dst) :: t[src + q[|dst|..]]
  }

  lemma WithoutSound(t: Tree, p: Path)
    requires Sound(t)
    ensures Sound(Without(t, p)) && !Exists(Without(t, p), p)
  {
    var r := Without(t, p);
    forall q | q in r ensures !Blocked(r, q) { assert !Blocked(t, q); }
  }

  /** What moves lands with its content, and what was there stays. */
  lemma GraftedAt(u: Tree, t: Tree, src: Path, dst: Path)
    requires !Exists(u, dst)
    ensures var r := Grafted(u, t, src, dst);
            && (forall q :: q in u ==> q in r && r[q] == u[q])
            && (forall q :: q in t && src <= q ==> dst + q[|src|..] in r && r[dst + q[|src|..]] == t[q])
            && (forall q :: q in r && q !in u ==> dst <= q && src + q[|dst|..] in t && r[q] == t[src + q[|dst|..]])
  {
    forall q | q in t && src <= q ensures dst + q[|src|..] in Landing(t, src, dst) && src + (dst + q[|src|..])[|dst|..] == q {
    }
  }

  lemma GraftedSound(u: Tree, t: Tree, src: Path, dst: Path)
    requires Sound(u) && Sound(t) && !Exists(u, dst) && !Blocked(u, dst) && !Blocked(t, src)
    ensures Sound(Grafted(u, t, src, dst))
  {
    var r := Grafted(u, t, src, dst);
    GraftedAt(u, t, src, dst);
    forall q, i | q in r && 0 <= i < |q| ensures !IsFile(r, q[..i]) {
      GraftedUnblocked(u, t, src, dst, q, i);
    }
  }

  lemma GraftedUnblocked(u: Tree, t: Tree, src: Path, dst: Path, q: Path, i: nat)
    requires Sound(u) && Sound(t) && !Exists(u, dst) && !Blocked(u, dst) && !Blocked(t, src)
    requires q in Grafted(u, t, src, dst) && 0 <= i < |q|
    ensures !IsFile(Grafted(u, t, src, dst), q[..i])
  {
    GraftedAt(u, t, src, dst);
    var above := q[..i];
    if q in u {
      assert !Blocked(u, q);
      assert dst <= above ==> dst <= q;
      assert !IsFile(u, above);
    } else if i < |dst| {
      assert above == dst[..i];
      assert !IsFile(u, above);
    } else {
      var was := src + q[|dst|..];
      var cut := |src| + i - |dst|;
      assert was[..cut] == src + above[|dst|..];
      assert !Blocked(t, was);
      assert dst <= above;
      assert !IsFile(t, was[..cut]);
    }
  }

  predicate EmptyDirectory(t: Tree, p: Path) {
    p in t && t[p].Directory? && forall q :: q in t && p <= q ==> q == p
  }

  /**
   `rename(2)`: the source must exist and not contain the destination, and the
   destination's parents must be directories. A file replaces a file, and a
   directory replaces an empty directory.
   */
  function Rename(t: Tree, src: Path, dst: Path): (bool, Tree) {
    if !Exists(t, src) then (false, t)
    else if src <= dst || Blocked(t, dst) then (src == dst, t)
    else if Exists(t, dst) && !(if IsFile(t, src) then IsFile(t, dst) else EmptyDirectory(t, dst)) then (false, t)
    else (true, Grafted(Without(Without(t, src), dst), t, src, dst))
  }

  /** With nothing at the destination, a rename moves the source and touches nothing else. */
  lemma RenameMoves(t: Tree, src: Path, dst: Path)
    requires Sound(t) && !Exists(t, dst)
    ensures var (ok, r) := Rename(t, src, dst);
            && Sound(r)
            && (ok <==> Exists(t, src) && !(src <= dst) && !Blocked(t, dst))
            && (!ok ==> r == t)
            && (forall q :: q in t && !(src <= q) ==> q in r && r[q] == t[q])
            && (ok ==> forall q :: q in t && src <= q ==> dst + q[|src|..] in r && r[dst + q[|src|..]] == t[q])
            && (ok ==> !Exists(r, src))
            && (forall q :: q in r ==> (q in t && r[q] == t[q]) || dst <= q)
  {
    var (ok, r) := Rename(t, src, dst);
    if ok {
      var rest := Without(t, src);
      WithoutSound(t, src);
      assert Without(rest, dst) == rest;
      assert !Blocked(rest, dst) by { assert forall i :: 0 <= i < |dst| && IsFile(rest, dst[..i]) ==> IsFile(t, dst[..i]); }
      assert !Blocked(t, src) by {
        var q :| q in t && src <= q;
        assert forall i :: 0 <= i < |src| ==> q[..i] == src[..i];
        assert !Blocked(t, q);
      }
      assert !(dst <= src) by {
        var q :| q in t && src <= q;
        assert dst <= src ==> dst <= q;
      }
      GraftedAt(rest, t, src, dst);
      GraftedSound(rest, t, src, dst);
      forall q | q in r ensures !(src <= q) {
        if q !in rest {
          PrefixesNest(src, dst, q);
        }
      }
    }
  }

  /** Of two paths above the same one, one is above the other. */
  lemma PrefixesNest(a: Path, b: Path, q: Path)
    ensures a <= q && b <= q ==> a <= b || b <= a
  {
    if a <= q && b <= q {
      assert a == q[..|a|] && b == q[..|b|];
    }
  }

  lemma StillUnblocked(t: Tree, r: Tree, p: Path)
    requires !Blocked(t, p) && forall q :: IsFile(r, q) ==> IsFile(t, q)
    ensures !Blocked(r, p)
  {
  }

  /** A source that may be renamed onto something is not below it. */
  lemma NotBelowReplaced(t: Tree, src: Path, dst: Path)
    requires Sound(t) && src != dst && Rename(t, src, dst).0
    ensures !(dst <= src) && (forall q :: q in t && dst <= q ==> q == dst) && Exists(Without(t, dst), src)
  {
    var k :| k in t && src <= k;
    forall q | q in t && dst <= q ensures q == dst {
      assert q[..|dst|] == dst;
      assert !Blocked(t, q);
    }
    assert dst <= src ==> dst <= k;
    assert dst <= k && dst == k ==> src <= dst;
    assert k in Without(t, dst);
  }

  /** Replacing something is the same as renaming onto the free path. */
  lemma RenameAsIfFree(t: Tree, src: Path, dst: Path)
    requires Sound(t) && src != dst && Rename(t, src, dst).0
    ensures var t' := Without(t, dst);
            && Sound(t') && !Exists(t', dst) && Rename(t', src, dst) == Rename(t, src, dst)
            && (forall q :: q in t && src <= q ==> q in t')
  {
    var t' := Without(t, dst);
    NotBelowReplaced(t, src, dst);
    WithoutSound(t, dst);
    StillUnblocked(t, t', dst);
    forall q | q in t && src <= q ensures q in t' { PrefixesNest(src, dst, q); }
    assert Without(Without(t, src), dst) == Without(Without(t', src), dst);
    SameGraft(Without(Without(t, src), dst), t, t', src, dst);
  }

  lemma SameGraft(u: Tree, t: Tree, t': Tree, src: Path, dst: Path)
    requires forall q :: src <= q ==> (q in t <==> q in t') && (q in t ==> t[q] == t'[q])
    ensures Grafted(u, t, src, dst) == Grafted(u, t', src, dst)
  {
    LandingWithin(t, t', src, dst);
    LandingWithin(t', t, src, dst);
    assert Landing(t, src, dst) == Landing(t', src, dst);
  }

  lemma LandingWithin(t: Tree, t': Tree, src: Path, dst: Path)
    requires forall q :: q in t && src <= q ==> q in t' && t[q] == t'[q]
    ensures Landing(t, src, dst) <= Landing(t', src, dst)
    ensures forall q :: q in Landing(t, src, dst) ==> t[src + q[|dst|..]] == t'[src + q[|dst|..]]
  {
    forall q | q in Landing(t, src, dst)
      ensures q in Landing(t', src, dst) && t[src + q[|dst|..]] == t'[src + q[|dst|..]]
    {
      assert src <= src + q[|dst|..];
    }
  }

  /** A rename, whatever it replaces: every other file outside the source stays, and the source arrives whole. */
  lemma RenameKeepsOthers(t: Tree, src: Path, dst: Path)
    requires Sound(t)
    ensures var (ok, r) := Rename(t, src, dst);
            && Sound(r) && (!ok || src == dst ==> r == t)
            && (forall q :: IsFile(t, q) && !(src <= q) && q != dst ==> q in r && r[q] == t[q])
            && (ok && src != dst ==> forall q :: q in t && src <= q ==> dst + q[|src|..] in r && r[dst + q[|src|..]] == t[q])
  {
    if Rename(t, src, dst).0 && src != dst {
      RenameAsIfFree(t, src, dst);
      NotBelowReplaced(t, src, dst);
      RenameMoves(Without(t, dst), src, dst);
    }
  }
}
