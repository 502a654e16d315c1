/**
 Ignore rules: built-in and global globs, and a share's own ordered pattern
 list in which the last match decides and '!' re-includes. Compiled patterns
 are arbitrary predicates on paths.
 */
module Ignore {
  import opened Reconcile

  datatype Pattern = Pattern(negate: bool, dirOnly: bool, matches: string -> bool)

  datatype Matcher = NoMatcher | Matcher(globs: seq<string -> bool>, rules: seq<Pattern>)

  const RESERVED := ".syncat"

  /** `p` lies below directory `d`. */
  predicate Below(p: string, d: string) { d + "/" <= p }

  /** A slash at position `i` ends the ancestor `p[..i]`. */
  predicate Cuts(p: string, i: int) { 0 <= i < |p| && p[i] == '/' }

  lemma CutIsBelow(p: string, i: int)
    requires Cuts(p, i)
    ensures Below(p, p[..i])
  {
    assert p[..i] + "/" == p[..i + 1];
  }

  lemma BelowIsCut(p: string, d: string)
    requires Below(p, d)
    ensures |d| < |p| && Cuts(p, |d|) && p[..|d|] == d
  {
    var dir := d + "/";
    assert p[..|dir|] == dir;
    assert p[|d|] == dir[|d|];
    assert p[..|d|] == dir[..|d|];
  }

  /** Ancestors of an ancestor are ancestors, cut at the same place. */
  lemma CutOfPrefix(p: string, n: int, i: int)
    requires 0 <= n <= |p| && Cuts(p[..n], i)
    ensures Cuts(p, i) && p[..i] == p[..n][..i]
  {
  }

  lemma BelowIsTransitive(p: string, d: string, e: string)
    requires Below(p, d) && Below(d, e)
    ensures Below(p, e)
  {
    BelowIsCut(p, d);
    BelowIsCut(d, e);
    CutOfPrefix(p, |d|, |e|);
    CutIsBelow(p, |e|);
  }

  // --- A share's own rules -----------------------------------------------------------------------

  predicate Hits(pat: Pattern, p: string, isDir: bool) { (pat.dirOnly ==> isDir) && pat.matches(p) }

  /** Pattern `i` decides: it matches and none after it does. */
  predicate Decides(rules: seq<Pattern>, p: string, isDir: bool, i: int) {
    0 <= i < |rules| && Hits(rules[i], p, isDir) && forall j :: i < j < |rules| ==> !Hits(rules[j], p, isDir)
  }

  /** What the rules say of one path on its own: `Some(negate)` of the deciding pattern. */
  function LastHit(rules: seq<Pattern>, p: string, isDir: bool): (r: Option<bool>)
    ensures r.Some? <==> exists i :: 0 <= i < |rules| && Hits(rules[i], p, isDir)
    ensures r.Some? ==> exists i :: Decides(rules, p, isDir, i) && r.value == rules[i].negate
  {
    if rules == [] then None
    else
      var n := |rules| - 1;
      if Hits(rules[n], p, isDir) then assert Decides(rules, p, isDir, n); Some(rules[n].negate)
      else
        var r := LastHit(rules[..n], p, isDir);
        assert forall i :: Decides(rules[..n], p, isDir, i) ==> Decides(rules, p, isDir, i);
        r
  }

  lemma LastHitOfPrefix(rules: seq<Pattern>, p: string, isDir: bool, i: nat)
    requires i < |rules|
    ensures LastHit(rules[..i + 1], p, isDir)
         == if Hits(rules[i], p, isDir) then Some(rules[i].negate) else LastHit(rules[..i], p, isDir)
  {
    assert rules[..i + 1][..i] == rules[..i];
  }

  /** The rules without those that are for directories only. */
  function ForFiles(rules: seq<Pattern>): seq<Pattern> {
    if rules == [] then []
    else
      var n := |rules| - 1;
      ForFiles(rules[..n]) + if rules[n].dirOnly then [] else [rules[n]]
  }

  /** The rules with the restriction to directories dropped. */
  function ForAll(rules: seq<Pattern>): (r: seq<Pattern>)
    ensures |r| == |rules|
  {
    seq(|rules|, i requires 0 <= i < |rules| => rules[i].(dirOnly := false))
  }

  /** A directory-only rule says nothing of a file, and counts like any other for a directory. */
  lemma {:induction false} DirectoryOnlyRules(rules: seq<Pattern>, p: string)
    ensures LastHit(rules, p, false) == LastHit(ForFiles(rules), p, false)
    ensures LastHit(rules, p, true) == LastHit(ForAll(rules), p, true)
    decreases |rules|
  {
    if rules != [] {
      var n := |rules| - 1;
      DirectoryOnlyRules(rules[..n], p);
      assert ForAll(rules)[..n] == ForAll(rules[..n]);
      if rules[n].dirOnly {
        assert ForFiles(rules) == ForFiles(rules[..n]);
      } else {
        var f := ForFiles(rules);
        assert f[..|f| - 1] == ForFiles(rules[..n]) && f[|f| - 1] == rules[n];
      }
    }
  }

  /** Without directory-only rules the verdict of the last rule that matches is the same for files and directories. */
  lemma {:induction false} OtherRulesMatchAnything(rules: seq<Pattern>, p: string, isDir: bool)
    requires forall i :: 0 <= i < |rules| ==> !rules[i].dirOnly
    ensures LastHit(rules, p, isDir).None? <==> forall i :: 0 <= i < |rules| ==> !rules[i].matches(p)
    ensures LastHit(rules, p, true) == LastHit(rules, p, false)
    decreases |rules|
  {
    if rules != [] {
      OtherRulesMatchAnything(rules[..|rules| - 1], p, isDir);
      assert forall i :: 0 <= i < |rules| ==> (Hits(rules[i], p, isDir) <==> rules[i].matches(p));
    }
  }

  method MatchOne(rules: seq<Pattern>, p: string, isDir: bool) returns (negate: bool, matched: bool)
    ensures (if matched then Some(negate) else None) == LastHit(rules, p, isDir)
  {
    var i := |rules| - 1;
    assert rules[..i + 1] == rules;
    while i >= 0
      invariant -1 <= i < |rules|
      invariant LastHit(rules, p, isDir) == LastHit(rules[..i + 1], p, isDir)
    {
      LastHitOfPrefix(rules, p, isDir, i);
      if Hits(rules[i], p, isDir) { return rules[i].negate, true; }
      i := i - 1;
    }
    return false, false;
  }

  /** The verdict the ancestors cut before position `n` leave, shallowest first, the last match deciding. */
  function Inherited(rules: seq<Pattern>, p: string, n: nat): bool
    requires n <= |p|
  {
    if n == 0 then false
    else if p[n - 1] == '/' && LastHit(rules, p[..n - 1], true).Some? then !LastHit(rules, p[..n - 1], true).value
    else Inherited(rules, p, n - 1)
  }

  predicate RulesMatch(rules: seq<Pattern>, p: string, isDir: bool) {
    rules != [] && p != "" && p != "." &&
    match LastHit(rules, p, isDir)
    case Some(negate) => !negate
    case None => Inherited(rules, p, |p|)
  }

  lemma NoSlashInherits(rules: seq<Pattern>, p: string, from: nat, to: nat)
    requires from <= to <= |p| && '/' !in p[from..to]
    ensures Inherited(rules, p, to) == Inherited(rules, p, from)
  {
    if from < to {
      assert p[from..to - 1] == p[from..to][..to - 1 - from];
      assert p[to - 1] == p[from..to][to - 1 - from];
      NoSlashInherits(rules, p, from, to - 1);
    }
  }

  method IndexByte(p: string, start: nat) returns (k: int)
    requires start <= |p|
    ensures k < 0 ==> '/' !in p[start..]
    ensures k >= 0 ==> Cuts(p, start + k) && '/' !in p[start..start + k]
  {
    k := 0;
    while start + k < |p|
      invariant 0 <= k && start + k <= |p| && '/' !in p[start..start + k]
    {
      if p[start + k] == '/' { return; }
      assert p[start..start + k + 1] == p[start..start + k] + [p[start + k]];
      k := k + 1;
    }
    assert p[start..] == p[start..start + k];
    k := -1;
  }

  method MatchRules(rules: seq<Pattern>, p: string, isDir: bool) returns (ignored: bool)
    ensures ignored == RulesMatch(rules, p, isDir)
  {
    if |rules| == 0 || p == "" || p == "." { return false; }
    ignored := false;
    var start := 0;
    var slash := IndexByte(p, start);
    while slash >= 0
      invariant 0 <= start <= |p| && ignored == Inherited(rules, p, start)
      invariant slash < 0 ==> '/' !in p[start..]
      invariant slash >= 0 ==> Cuts(p, start + slash) && '/' !in p[start..start + slash]
      decreases |p| - start
    {
      NoSlashInherits(rules, p, start, start + slash);
      start := start + slash;
      var negate, matched := MatchOne(rules, p[..start], true);
      if matched { ignored := !negate; }
      start := start + 1;
      slash := IndexByte(p, start);
    }
    assert p[start..] == p[start..|p|];
    NoSlashInherits(rules, p, start, |p|);
    var negate, matched := MatchOne(rules, p, isDir);
    if matched { ignored := !negate; }
  }

  predicate HasNegations(rules: seq<Pattern>) { exists i :: 0 <= i < |rules| && rules[i].negate }

  /** Without negations an ancestor that is hit leaves every path below it ignored. */
  lemma {:induction false} HitIsInherited(rules: seq<Pattern>, p: string, i: int, n: nat)
    requires !HasNegations(rules) && Cuts(p, i) && i < n <= |p| && LastHit(rules, p[..i], true).Some?
    ensures Inherited(rules, p, n)
  {
    if n > i + 1 {
      HitIsInherited(rules, p, i, n - 1);
    }
  }

  lemma {:induction false} InheritedHasHit(rules: seq<Pattern>, p: string, n: nat) returns (i: int)
    requires n <= |p| && Inherited(rules, p, n)
    ensures 0 <= i < n && Cuts(p, i) && LastHit(rules, p[..i], true).Some?
  {
    if p[n - 1] == '/' && LastHit(rules, p[..n - 1], true).Some? {
      i := n - 1;
    } else {
      i := InheritedHasHit(rules, p, n - 1);
    }
  }

  lemma RulesCoverDescendants(rules: seq<Pattern>, d: string, p: string, isDir: bool)
    requires !HasNegations(rules) && RulesMatch(rules, d, true) && Below(p, d)
    ensures RulesMatch(rules, p, isDir)
  {
    BelowIsCut(p, d);
    var i := |d|;
    if LastHit(rules, d, true).None? {
      i := InheritedHasHit(rules, d, |d|);
      CutOfPrefix(p, |d|, i);
    }
    HitIsInherited(rules, p, i, |p|);
  }

  // --- The whole matcher -----------------------------------------------------------------------------

  function BaseFrom(p: string, i: nat): (b: nat)
    requires i <= |p|
    ensures b <= i
  {
    if i == 0 then 0 else if p[i - 1] == '/' then i else BaseFrom(p, i - 1)
  }

  function Base(p: string): string { p[BaseFrom(p, |p|)..] }

  predicate GlobHit(globs: seq<string -> bool>, p: string) {
    exists j :: 0 <= j < |globs| && (globs[j](Base(p)) || globs[j](p))
  }

  predicate IsReserved(p: string) { p == RESERVED || Below(p, RESERVED) }

  predicate Matches(m: Matcher, p: string, isDir: bool) {
    || IsReserved(p)
    || (m.Matcher? && (
          || (exists i :: 0 <= i < |p| && Cuts(p, i) && GlobHit(m.globs, p[..i]))
          || GlobHit(m.globs, p)
          || RulesMatch(m.rules, p, isDir)))
  }

  method MatchGlobs(globs: seq<string -> bool>, p: string) returns (hit: bool)
    ensures hit == GlobHit(globs, p)
  {
    var base := Base(p);
    for j := 0 to |globs|
      invariant forall k :: 0 <= k < j ==> !globs[k](base) && !globs[k](p)
    {
      if globs[j](base) { return true; }
      if globs[j](p) { return true; }
    }
    return false;
  }

  method MatchPath(m: Matcher, p: string, isDir: bool) returns (ignored: bool)
    ensures ignored == Matches(m, p, isDir)
  {
    if IsReserved(p) { return true; }
    if m.NoMatcher? { return false; }
    for i := 0 to |p|
      invariant forall k :: 0 <= k < i && Cuts(p, k) ==> !GlobHit(m.globs, p[..k])
    {
      if p[i] == '/' {
        var up := MatchGlobs(m.globs, p[..i]);
        if up { return true; }
      }
    }
    var hit := MatchGlobs(m.globs, p);
    if hit { return true; }
    ignored := MatchRules(m.rules, p, isDir);
  }

  lemma {:induction false} NoSlashFrom(p: string, i: nat)
    requires i <= |p|
    ensures var b := BaseFrom(p, i); (b > 0 ==> p[b - 1] == '/') && forall k :: b <= k < i ==> p[k] != '/'
  {
    if i > 0 && p[i - 1] != '/' { NoSlashFrom(p, i - 1); }
  }

  /** The base name is what follows the last slash. */
  lemma BaseIsTheLastElement(p: string, dir: string, name: string)
    requires p == dir + name && (dir == "" || dir[|dir| - 1] == '/') && '/' !in name
    ensures Base(p) == name
  {
    var b := BaseFrom(p, |p|);
    NoSlashFrom(p, |p|);
    forall k | |dir| <= k < |p| ensures p[k] != '/' { assert p[k] == name[k - |dir|]; }
    assert |dir| > 0 ==> p[|dir| - 1] == dir[|dir| - 1];
  }

  /**
   syncat's own directory is ignored even without a matcher. A glob on the path or
   on a directory above it, as a whole or by base name, decides before any rule.
   Otherwise the rules do.
   */
  lemma WhatIsIgnored(m: Matcher, p: string, isDir: bool)
    ensures p == ".syncat" || ".syncat/" <= p ==> Matches(m, p, isDir)
    ensures m.NoMatcher? && p != ".syncat" && !(".syncat/" <= p) ==> !Matches(m, p, isDir)
    ensures m.Matcher? && (exists d :: GlobOn(m.globs, p, d)) ==> Matches(m, p, isDir)
    ensures m.Matcher? && p != ".syncat" && !(".syncat/" <= p) && !(exists d :: GlobOn(m.globs, p, d)) ==>
              (Matches(m, p, isDir) <==> RulesMatch(m.rules, p, isDir))
  {
    assert RESERVED + "/" == ".syncat/";
    if m.Matcher? { GlobsOnIff(m.globs, p); }
  }

  /** A glob matches `d`, which is the path or a directory above it, as a whole or by its base name. */
  ghost predicate GlobOn(globs: seq<string -> bool>, p: string, d: string) {
    (d == p || Below(p, d)) && exists j :: 0 <= j < |globs| && (globs[j](d) || globs[j](Base(d)))
  }

  lemma GlobsOnIff(globs: seq<string -> bool>, p: string)
    ensures (exists d :: GlobOn(globs, p, d)) <==> GlobHit(globs, p) || exists i :: 0 <= i < |p| && Cuts(p, i) && GlobHit(globs, p[..i])
  {
    forall d | GlobOn(globs, p, d) ensures d == p || (Cuts(p, |d|) && p[..|d|] == d) { if d != p { BelowIsCut(p, d); } }
    forall d ensures GlobOn(globs, p, d) <==> (d == p || Below(p, d)) && GlobHit(globs, d) {}
    assert GlobHit(globs, p) ==> GlobOn(globs, p, p);
    forall i | Cuts(p, i) && GlobHit(globs, p[..i]) ensures GlobOn(globs, p, p[..i]) { CutIsBelow(p, i); }
  }

  lemma OneDecides(rules: seq<Pattern>, p: string, isDir: bool, i: int)
    requires Decides(rules, p, isDir, i)
    ensures LastHit(rules, p, isDir) == Some(rules[i].negate)
  {
  }

  /** The last rule that matches the path itself decides, else the last one for the deepest directory above it that has any. */
  lemma WhatRulesSay(rules: seq<Pattern>, p: string, isDir: bool)
    requires p != "" && p != "."
    ensures forall i :: 0 <= i < |rules| && rules[i].matches(p) && (rules[i].dirOnly ==> isDir)
                        && (forall j :: i < j < |rules| && rules[j].matches(p) ==> rules[j].dirOnly && !isDir) ==>
              (RulesMatch(rules, p, isDir) <==> !rules[i].negate)
    ensures rules != [] && LastHit(rules, p, isDir).None? ==> forall k :: DeepestWithVerdict(rules, p, k) ==>
              (RulesMatch(rules, p, isDir) <==> LastHit(rules, p[..k], true) == Some(false))
    ensures LastHit(rules, p, isDir).None? && (forall k :: Cuts(p, k) ==> LastHit(rules, p[..k], true).None?) ==> !RulesMatch(rules, p, isDir)
  {
    forall i | 0 <= i < |rules| && rules[i].matches(p) && (rules[i].dirOnly ==> isDir)
               && (forall j :: i < j < |rules| && rules[j].matches(p) ==> rules[j].dirOnly && !isDir)
      ensures RulesMatch(rules, p, isDir) <==> !rules[i].negate
    {
      assert Decides(rules, p, isDir, i);
      OneDecides(rules, p, isDir, i);
    }
    forall k | DeepestWithVerdict(rules, p, k) ensures Inherited(rules, p, |p|) <==> LastHit(rules, p[..k], true) == Some(false) {
      DeepestIsInherited(rules, p, k, |p|);
    }
    if Inherited(rules, p, |p|) { var k := InheritedHasHit(rules, p, |p|); }
  }

  ghost predicate DeepestWithVerdict(rules: seq<Pattern>, p: string, k: int) {
    Cuts(p, k) && LastHit(rules, p[..k], true).Some? && forall n :: k < n && Cuts(p, n) ==> LastHit(rules, p[..n], true).None?
  }

  lemma {:induction false} DeepestIsInherited(rules: seq<Pattern>, p: string, k: int, n: nat)
    requires DeepestWithVerdict(rules, p, k) && k < n <= |p|
    ensures Inherited(rules, p, n) <==> LastHit(rules, p[..k], true) == Some(false)
  {
    if n - 1 > k { DeepestIsInherited(rules, p, k, n - 1); }
  }

  /** A matched directory may be pruned: no rule can re-include anything below it. */
  predicate PruneDirs(m: Matcher) { m.NoMatcher? || !HasNegations(m.rules) }

  /** When pruning is allowed, everything below a matched directory is matched too. */
  lemma MatchedDirectoryCoversDescendants(m: Matcher, d: string, p: string, isDir: bool)
    requires PruneDirs(m) && Matches(m, d, true) && Below(p, d)
    ensures Matches(m, p, isDir)
  {
    BelowIsCut(p, d);
    if IsReserved(d) {
      if d != RESERVED { BelowIsTransitive(p, d, RESERVED); }
    } else if i :| 0 <= i < |d| && Cuts(d, i) && GlobHit(m.globs, d[..i]) {
      CutOfPrefix(p, |d|, i);
      assert GlobHit(m.globs, p[..i]);
    } else if GlobHit(m.globs, d) {
      assert GlobHit(m.globs, p[..|d|]);
    } else {
      RulesCoverDescendants(m.rules, d, p, isDir);
    }
  }

  /** A negation that re-includes something below a matched directory is exactly what pruning would lose. */
  lemma NegationCanReinclude(d: string, p: string)
    returns (m: Matcher)
    requires Below(p, d) && d != "" && d != "." && !IsReserved(p)
    ensures m.Matcher? && !PruneDirs(m) && Matches(m, d, true) && !Matches(m, p, false)
  {
    var rules := [Pattern(false, false, q => q == d), Pattern(true, false, q => q == p)];
    m := Matcher([], rules);
    BelowIsCut(p, d);
    assert rules[1].negate;
    assert Hits(rules[0], d, true) && !Hits(rules[1], d, true);
    assert LastHit(rules, d, true) == Some(false) by {
      var i :| Decides(rules, d, true, i) && LastHit(rules, d, true).value == rules[i].negate;
    }
    assert Hits(rules[1], p, false);
    assert LastHit(rules, p, false) == Some(true) by {
      var i :| Decides(rules, p, false, i) && LastHit(rules, p, false).value == rules[i].negate;
    }
  }
}
