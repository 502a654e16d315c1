/**
 Names of conflict copies: `<name>.sync-conflict-YYYYMMDD-HHMMSS-<id><ext>`.

 A marker already in the name is removed before a new one is inserted. The
 results say exactly when that keeps names from growing, and that a copy never
 takes the path of the file it lost to.
 */
module ConflictNames {
  import opened Calendar

  // --- Time stamps ------------------------------------------------------------

  function DateDigits(day: int): (s: string)
    ensures |s| == 8 && AllDigits(s)
  {
    var (y, m, d) := CivilDate(day);
    Digits(y, 4) + Digits(m, 2) + Digits(d, 2)
  }

  function TimeDigits(t: int): (s: string)
    ensures |s| == 6 && AllDigits(s)
  {
    Digits(t / 3600, 2) + Digits(t / 60 % 60, 2) + Digits(t % 60, 2)
  }

  /** YYYYMMDD-HHMMSS in UTC, for a time in nanoseconds since 1970. */
  function Stamp(ns: int): (s: string)
    ensures IsStamp(s)
  {
    var secs := ns / 1_000_000_000;
    var date, time := DateDigits(secs / 86400), TimeDigits(secs % 86400);
    var s := date + "-" + time;
    assert s[..8] == date && s[9..] == time;
    s
  }

  lemma TwoDigits(n: int)
    requires 0 <= n < 100
    ensures Number(Digits(n, 2)) == n
  {
    assert Power10(2) == 10 * Power10(1) == 10 * (10 * Power10(0));
    DigitsRead(n, 2);
  }

  lemma FourDigits(n: int)
    requires 0 <= n < 10000
    ensures Number(Digits(n, 4)) == n
  {
    assert Power10(4) == 10 * Power10(3) == 10 * (10 * Power10(2)) == 10 * (10 * (10 * Power10(1)));
    DigitsRead(n, 4);
  }

  /** Up to the year 9999 a stamp reads as the date and the time of day. */
  lemma StampReads(ns: int)
    ensures var s, secs := Stamp(ns), ns / 1_000_000_000;
            var (y, m, d) := CivilDate(secs / 86400);
            (0 <= y < 10000 ==> Number(s[..4]) == y) && Number(s[4..6]) == m && Number(s[6..8]) == d
            && IsTimeOfDay(secs % 86400, Number(s[9..11]), Number(s[11..13]), Number(s[13..15]))
  {
    var secs := ns / 1_000_000_000;
    var (y, m, d) := CivilDate(secs / 86400);
    DateRange(secs / 86400);
    StampParts(y, m, d, secs % 86400, Stamp(ns));
    if 0 <= y < 10000 { FourDigits(y); }
    TwoDigits(m);
    TwoDigits(d);
    ClockReads(secs % 86400);
  }

  predicate IsTimeOfDay(t: int, hour: int, minute: int, second: int) {
    0 <= hour < 24 && 0 <= minute < 60 && 0 <= second < 60 && 3600 * hour + 60 * minute + second == t
  }

  lemma ClockReads(t: int)
    requires 0 <= t < 86400
    ensures IsTimeOfDay(t, Number(Digits(t / 3600, 2)), Number(Digits(t / 60 % 60, 2)), Number(Digits(t % 60, 2)))
  {
    TwoDigits(t / 3600);
    TwoDigits(t / 60 % 60);
    TwoDigits(t % 60);
    ClockParts(t);
  }

  lemma ClockParts(t: int)
    ensures 3600 * (t / 3600) + 60 * (t / 60 % 60) + t % 60 == t
  {
  }

  lemma StampParts(y: int, m: int, d: int, t: int, s: string)
    requires s == (Digits(y, 4) + Digits(m, 2) + Digits(d, 2)) + "-" + (Digits(t / 3600, 2) + Digits(t / 60 % 60, 2) + Digits(t % 60, 2))
    ensures s[..4] == Digits(y, 4) && s[4..6] == Digits(m, 2) && s[6..8] == Digits(d, 2)
    ensures s[9..11] == Digits(t / 3600, 2) && s[11..13] == Digits(t / 60 % 60, 2) && s[13..15] == Digits(t % 60, 2)
  {
    SixParts(Digits(y, 4), Digits(m, 2), Digits(d, 2), Digits(t / 3600, 2), Digits(t / 60 % 60, 2), Digits(t % 60, 2), s);
  }

  lemma SixParts(a: string, b: string, c: string, d: string, e: string, f: string, s: string)
    requires |a| == 4 && |b| == |c| == |d| == |e| == |f| == 2 && s == (a + b + c) + "-" + (d + e + f)
    ensures s[..4] == a && s[4..6] == b && s[6..8] == c && s[9..11] == d && s[11..13] == e && s[13..15] == f
  {
    var date, time := a + b + c, d + e + f;
    assert s[..8] == date && s[9..] == time;
    assert date[..4] == a && date[4..6] == b && date[6..8] == c;
    assert time[..2] == d && time[2..4] == e && time[4..6] == f;
  }

  // --- Markers ------------------------------------------------------------------

  predicate IsHex(c: char) { '0' <= c <= '9' || 'a' <= c <= 'f' }

  predicate AllDigits(s: string) { forall i :: 0 <= i < |s| ==> IsDigit(s[i]) }

  predicate AllHex(s: string) { forall i :: 0 <= i < |s| ==> IsHex(s[i]) }

  predicate IsStamp(s: string) {
    |s| == 15 && AllDigits(s[..8]) && s[8] == '-' && AllDigits(s[9..])
  }

  const TAG := ".sync-conflict-"

  function HexRun(s: string): (n: nat)
    ensures n <= |s| && AllHex(s[..n]) && (n < |s| ==> !IsHex(s[n]))
  {
    if s == "" || !IsHex(s[0]) then 0 else 1 + HexRun(s[1..])
  }

  /** Length of the marker `s` starts with, or 0. The identifier is matched greedily. */
  function MarkerLen(s: string): (n: nat)
    ensures n <= |s|
  {
    if |s| >= 32 && s[..15] == TAG && IsStamp(s[15..30]) && s[30] == '-' then
      var h := HexRun(s[31..]);
      if h > 0 then 31 + h else 0
    else 0
  }

  /** `s` with every marker removed, found left to right without overlap. */
  function Strip(s: string): (r: string)
    ensures |r| <= |s|
    decreases |s|
  {
    if s == "" then ""
    else if MarkerLen(s) > 0 then Strip(s[MarkerLen(s)..])
    else [s[0]] + Strip(s[1..])
  }

  ghost predicate MarkerFree(s: string) {
    forall i :: 0 <= i < |s| ==> MarkerLen(s[i..]) == 0
  }

  function Marker(id: string, ns: int): (m: string)
    ensures |m| == 31 + |id|
  {
    TAG + Stamp(ns) + "-" + id
  }

  // --- Names --------------------------------------------------------------------

  /** Index just past the last '/', or 0. */
  function BaseStart(p: string): (i: nat)
    ensures i <= |p| && (i > 0 ==> p[i - 1] == '/') && '/' !in p[i..]
  {
    if p == "" then 0
    else if p[|p| - 1] == '/' then |p|
    else
      var i := BaseStart(p[..|p| - 1]);
      assert p[i..] == p[..|p| - 1][i..] + [p[|p| - 1]];
      i
  }

  /** Index of the last '.', or -1. */
  function LastDot(s: string): (i: int)
    ensures -1 <= i < |s| && (i >= 0 ==> s[i] == '.')
  {
    if s == "" then -1 else if s[|s| - 1] == '.' then |s| - 1 else LastDot(s[..|s| - 1])
  }

  /** Where the extension starts: at the last dot, unless that leads the name or is missing. */
  function ExtStart(base: string): (i: nat)
    ensures i <= |base| && (i < |base| ==> i > 0 && base[i] == '.')
  {
    var i := LastDot(base);
    if i <= 0 then |base| else i
  }

  function Insert(base: string, marker: string): (r: string)
    ensures |r| == |base| + |marker|
  {
    var i := ExtStart(base);
    base[..i] + marker + base[i..]
  }

  function ConflictRelPath(relpath: string, id: string, ns: int): (r: string)
    ensures |r| == BaseStart(relpath) + |Strip(relpath[BaseStart(relpath)..])| + 31 + |id|
  {
    var i := BaseStart(relpath);
    relpath[..i] + Insert(Strip(relpath[i..]), Marker(id, ns))
  }

  // --- Removing markers ----------------------------------------------------------

  predicate IsMarker(m: string) {
    |m| >= 32 && m[..15] == TAG && IsStamp(m[15..30]) && m[30] == '-' && AllHex(m[31..])
  }

  lemma MarkerShape(id: string, ns: int)
    requires id != "" && AllHex(id)
    ensures IsMarker(Marker(id, ns))
  {
    var m := Marker(id, ns);
    assert m[..15] == TAG && m[15..30] == Stamp(ns) && m[31..] == id;
  }

  lemma MarkerEndsWithId(id: string, ns: int)
    ensures Marker(id, ns)[31..] == id
  {
  }

  /** A matched marker has a dot only at its front. */
  lemma MarkerHasOneDot(s: string)
    ensures forall j :: 1 <= j < MarkerLen(s) ==> s[j] != '.'
  {
    forall j | 1 <= j < MarkerLen(s) ensures s[j] != '.' {
      var t := s[15..30];
      if j < 15 { assert s[j] == s[..15][j]; }
      else if j < 23 { assert s[j] == t[..8][j - 15]; }
      else if j == 23 { assert s[j] == t[8]; }
      else if j < 30 { assert s[j] == t[9..][j - 24]; }
      else if j > 30 { assert s[j] == s[31..][..HexRun(s[31..])][j - 31]; }
    }
  }

  /** So a dot after `x` never becomes part of a marker that starts in `x`. */
  lemma MarkerStopsAtDot(x: string, y: string)
    requires x != "" && (y == "" || y[0] == '.')
    ensures MarkerLen(x + y) == MarkerLen(x)
  {
    var s := x + y;
    if |x| >= 32 {
      assert s[..15] == x[..15] && s[15..30] == x[15..30] && s[31..] == x[31..] + y;
      HexRunStops(x[31..], y);
    } else {
      MarkerHasOneDot(s);
      assert y != "" ==> s[|x|] == '.';
    }
  }

  lemma HexRunStops(x: string, y: string)
    requires y == "" || !IsHex(y[0])
    ensures HexRun(x + y) == HexRun(x)
  {
    if x != "" {
      assert (x + y)[1..] == x[1..] + y;
      HexRunStops(x[1..], y);
    } else {
      assert x + y == y;
    }
  }

  lemma MarkerIsMatchedWhole(m: string, e: string)
    requires IsMarker(m) && (e == "" || !IsHex(e[0]))
    ensures MarkerLen(m + e) == |m|
  {
    var s := m + e;
    assert s[..15] == m[..15] && s[15..30] == m[15..30] && s[31..] == m[31..] + e;
    HexRunStops(m[31..], e);
    HexRunWhole(m[31..]);
  }

  lemma HexRunWhole(id: string)
    requires AllHex(id)
    ensures HexRun(id) == |id|
  {
    if id != "" { HexRunWhole(id[1..]); }
  }

  /** Stripping treats the text before and after a dot independently. */
  lemma {:induction false} StripSplits(x: string, y: string)
    requires y == "" || y[0] == '.'
    ensures Strip(x + y) == Strip(x) + Strip(y)
    decreases |x|
  {
    if x == "" {
      assert x + y == y && Strip(x) == "";
    } else {
      var s, n := x + y, MarkerLen(x);
      MarkerStopsAtDot(x, y);
      if n > 0 {
        assert s[n..] == x[n..] + y;
        StripSplits(x[n..], y);
      } else {
        assert s[1..] == x[1..] + y && s[0] == x[0];
        StripSplits(x[1..], y);
        assert Strip(s) == [x[0]] + (Strip(x[1..]) + Strip(y));
      }
    }
  }

  /** A marker put between `x` and `e` is removed again, and nothing else changes. */
  lemma StripRemovesMarker(x: string, m: string, e: string)
    requires IsMarker(m) && (e == "" || !IsHex(e[0]))
    ensures Strip(x + (m + e)) == Strip(x) + Strip(e)
  {
    assert (m + e)[0] == m[..15][0] == '.';
    StripSplits(x, m + e);
    MarkerIsMatchedWhole(m, e);
    assert (m + e)[|m|..] == e;
  }

  lemma {:induction false} StripUnchangedIffMarkerFree(s: string)
    ensures Strip(s) == s <==> MarkerFree(s)
    decreases |s|
  {
    if s != "" {
      assert s[0..] == s;
      if MarkerLen(s) > 0 {
        assert |Strip(s)| < |s|;
      } else {
        StripUnchangedIffMarkerFree(s[1..]);
        StripTail(s);
        MarkerFreeTail(s);
      }
    }
  }

  lemma StripTail(s: string)
    requires s != "" && MarkerLen(s) == 0
    ensures Strip(s) == s <==> Strip(s[1..]) == s[1..]
  {
    var r := Strip(s[1..]);
    assert Strip(s) == [s[0]] + r && ([s[0]] + r)[1..] == r;
    assert s == [s[0]] + s[1..];
  }

  lemma MarkerFreeTail(s: string)
    requires s != "" && MarkerLen(s) == 0
    ensures MarkerFree(s) <==> MarkerFree(s[1..])
  {
    assert s[0..] == s;
    assert forall i :: 0 <= i < |s[1..]| ==> s[1..][i..] == s[i + 1..];
    if MarkerFree(s[1..]) {
      forall i | 0 <= i < |s| ensures MarkerLen(s[i..]) == 0 {
        if i > 0 { assert MarkerLen(s[1..][i - 1..]) == 0; }
      }
    }
  }

  lemma {:induction false} ShorterIfChanged(s: string)
    ensures Strip(s) == s || |Strip(s)| < |s|
    decreases |s|
  {
    if s != "" && MarkerLen(s) == 0 {
      ShorterIfChanged(s[1..]);
      assert s == [s[0]] + s[1..];
    }
  }

  lemma StripForgetsMarker(x: string, m: string, e: string)
    requires IsMarker(m) && (e == "" || e[0] == '.')
    ensures Strip(x + (m + e)) == Strip(x + e)
  {
    StripRemovesMarker(x, m, e);
    StripSplits(x, e);
  }

  lemma InsertSplits(base: string, m: string)
    ensures var i := ExtStart(base);
            Insert(base, m) == base[..i] + (m + base[i..]) && base == base[..i] + base[i..]
  {
  }

  lemma StripInsert(base: string, m: string)
    requires IsMarker(m)
    ensures Strip(Insert(base, m)) == Strip(base)
  {
    var i := ExtStart(base);
    InsertSplits(base, m);
    StripForgetsMarker(base[..i], m, base[i..]);
  }

  lemma {:induction false} NoDotAfterTheLast(s: string)
    ensures forall k :: LastDot(s) < k < |s| ==> s[k] != '.'
  {
    if s != "" && s[|s| - 1] != '.' {
      NoDotAfterTheLast(s[..|s| - 1]);
      forall k | LastDot(s) < k < |s| ensures s[k] != '.' {
        if k < |s| - 1 { assert s[k] == s[..|s| - 1][k]; }
      }
    }
  }

  /** The marker goes after the directory and the stem, before an extension that holds no other dot. */
  lemma MarkerBeforeExtension(relpath: string, id: string, ns: int) returns (dir: string, stem: string, ext: string)
    ensures ConflictRelPath(relpath, id, ns) == dir + (stem + (Marker(id, ns) + ext))
    ensures (dir == "" || dir[|dir| - 1] == '/') && dir <= relpath && '/' !in relpath[|dir|..]
    ensures stem + ext == Strip(relpath[|dir|..])
    ensures ext != "" ==> stem != "" && ext[0] == '.'
    ensures forall k :: (if ext == "" then 0 else |stem|) < k < |stem + ext| ==> (stem + ext)[k] != '.'
  {
    var i := BaseStart(relpath);
    var b := Strip(relpath[i..]);
    dir, stem, ext := relpath[..i], b[..ExtStart(b)], b[ExtStart(b)..];
    InsertSplits(b, Marker(id, ns));
    NoDotAfterTheLast(b);
    assert stem + ext == b;
  }

  // --- The results ----------------------------------------------------------------

  lemma {:induction false} BaseOfCopy(dir: string, base: string)
    requires (dir == "" || dir[|dir| - 1] == '/') && '/' !in base
    ensures BaseStart(dir + base) == |dir|
    decreases |base|
  {
    var p := dir + base;
    if base == "" {
      assert p == dir;
    } else {
      var n := |base| - 1;
      var q := p[..|p| - 1];
      assert q == dir + base[..n] && p[|p| - 1] == base[n];
      assert '/' !in base[..n];
      BaseOfCopy(dir, base[..n]);
      assert BaseStart(p) == BaseStart(q);
    }
  }

  lemma {:induction false} StripKeepsCharacters(s: string, c: char)
    requires c !in s
    ensures c !in Strip(s)
    decreases |s|
  {
    if s != "" {
      StripKeepsCharacters(s[if MarkerLen(s) > 0 then MarkerLen(s) else 1..], c);
    }
  }

  lemma MarkerHasNoSlash(m: string)
    requires IsMarker(m)
    ensures '/' !in m
  {
    forall j | 0 <= j < |m| ensures m[j] != '/' {
      var t := m[15..30];
      if j < 15 { assert m[j] == m[..15][j]; }
      else if j < 23 { assert m[j] == t[..8][j - 15]; }
      else if j == 23 { assert m[j] == t[8]; }
      else if j < 30 { assert m[j] == t[9..][j - 24]; }
      else if j > 30 { assert m[j] == m[31..][j - 31]; }
    }
  }

  /** The stripped base name of a copy is the base name it was made from, stripped once more. */
  lemma {:induction false} CopyOfCopy(relpath: string, id: string, ns: int)
    requires id != "" && AllHex(id)
    ensures var i := BaseStart(relpath);
            var p := ConflictRelPath(relpath, id, ns);
            && BaseStart(p) == i && p[..i] == relpath[..i]
            && Strip(p[i..]) == Strip(Strip(relpath[i..]))
  {
    var i := BaseStart(relpath);
    var b, m := Strip(relpath[i..]), Marker(id, ns);
    MarkerShape(id, ns);
    StripKeepsCharacters(relpath[i..], '/');
    MarkerHasNoSlash(m);
    BaseOfCopy(relpath[..i], Insert(b, m));
    StripInsert(b, m);
    assert (relpath[..i] + Insert(b, m))[i..] == Insert(b, m);
  }

  /**
   Renaming a conflict copy gives the same name as renaming the original
   exactly when the original's name has no marker left after one stripping.
   */
  lemma {:induction false} RenamingACopyIsRenamingTheOriginal(relpath: string, id1: string, t1: int, id2: string, t2: int)
    requires id1 != "" && AllHex(id1)
    ensures ConflictRelPath(ConflictRelPath(relpath, id1, t1), id2, t2) == ConflictRelPath(relpath, id2, t2)
       <==> MarkerFree(Strip(relpath[BaseStart(relpath)..]))
  {
    var b := Strip(relpath[BaseStart(relpath)..]);
    CopyOfCopy(relpath, id1, t1);
    StripUnchangedIffMarkerFree(b);
    ShorterIfChanged(b);
  }

  /** In particular names without a marker never grow, however often their copies conflict again. */
  lemma {:induction false} MarkerFreeNamesNeverGrow(relpath: string, id1: string, t1: int, id2: string, t2: int)
    requires id1 != "" && AllHex(id1)
    requires MarkerFree(relpath[BaseStart(relpath)..])
    ensures ConflictRelPath(ConflictRelPath(relpath, id1, t1), id2, t2) == ConflictRelPath(relpath, id2, t2)
  {
    StripUnchangedIffMarkerFree(relpath[BaseStart(relpath)..]);
    RenamingACopyIsRenamingTheOriginal(relpath, id1, t1, id2, t2);
  }

  /** What is left of one marker spelled around another is a marker. */
  lemma {:induction false} StripNested(x: string, m: string, e: string)
    requires |x| < 32 && |e| < 32 && e != "" && !IsHex(e[0]) && IsMarker(m)
    ensures Strip(x + (m + e)) == x + e
  {
    StripRemovesMarker(x, m, e);
    ShortIsMarkerFree(x);
    ShortIsMarkerFree(e);
  }

  lemma {:induction false} ShortIsMarkerFree(s: string)
    requires |s| < 32
    ensures Strip(s) == s
    decreases |s|
  {
    if s != "" {
      ShortIsMarkerFree(s[1..]);
      assert s == [s[0]] + s[1..];
    }
  }

  lemma NestedIsABase(x: string, m: string, e: string)
    requires IsMarker(m) && IsMarker(x + e)
    ensures BaseStart(x + (m + e)) == 0
  {
    var p := x + (m + e);
    MarkerHasNoSlash(m);
    MarkerHasNoSlash(x + e);
    assert forall j :: 0 <= j < |e| ==> (x + e)[|x| + j] == e[j];
    assert forall j :: 0 <= j < |x| ==> (x + e)[j] == x[j];
    assert '/' !in p;
    assert "" + p == p;
    BaseOfCopy("", p);
  }

  lemma AMarkerIsNotMarkerFree(s: string)
    requires IsMarker(s)
    ensures !MarkerFree(s)
  {
    assert s + "" == s && s[0..] == s;
    MarkerIsMatchedWhole(s, "");
  }

  /**
   The condition is not idle: a name that spells one marker around another
   still has a marker after one stripping, so renaming its copy changes it.
   */
  lemma {:induction false} NestedMarkersChangeTheName(x: string, m: string, e: string, id1: string, t1: int, id2: string, t2: int)
    requires id1 != "" && AllHex(id1)
    requires |x| < 32 && |e| < 32 && e != "" && !IsHex(e[0])
    requires IsMarker(m) && IsMarker(x + e)
    ensures var p := x + (m + e);
            ConflictRelPath(ConflictRelPath(p, id1, t1), id2, t2) != ConflictRelPath(p, id2, t2)
  {
    var p := x + (m + e);
    NestedIsABase(x, m, e);
    assert p[BaseStart(p)..] == p;
    StripNested(x, m, e);
    AMarkerIsNotMarkerFree(x + e);
    RenamingACopyIsRenamingTheOriginal(p, id1, t1, id2, t2);
  }

  lemma NestedMarkersExist() returns (x: string, m: string, e: string)
    ensures |x| < 32 && |e| < 32 && e != "" && !IsHex(e[0]) && IsMarker(m) && IsMarker(x + e)
  {
    var t := "20200101-000000";
    x, m, e := TAG[..2], TAG + t + "-" + "ab", TAG[2..] + (t + "-" + "cd");
    assert IsStamp(t);
    assert m[..15] == TAG && m[15..30] == t && m[31..] == "ab";
    var o := x + e;
    assert o == TAG + t + "-" + "cd";
    assert o[..15] == TAG && o[15..30] == t && o[31..] == "cd";
  }
}
