/**
 A share's index as a table of rows by path, and the journal of writes that
 produced it. Entry `s` of the journal is `log[s - 1]`; sequence 0 means none.
 */
module IndexLog {
  import opened Reconcile

  type Table = map<string, FileInfo>

  /** `m` with each row stored under its path, later rows replacing earlier ones. */
  function ApplyRows(m: Table, rows: seq<FileInfo>): Table {
    if rows == [] then m
    else
      var n := |rows| - 1;
      ApplyRows(m, rows[..n])[rows[n].relpath := rows[n]]
  }

  /** The table after every write of the journal. */
  function TableOf(log: seq<FileInfo>): Table {
    ApplyRows(map[], log)
  }

  /** Sequence of the last write of `p` among the first `n`, or 0. */
  function LastWrite(log: seq<FileInfo>, p: string, n: nat): (s: nat)
    requires n <= |log|
    ensures s <= n && (s > 0 ==> log[s - 1].relpath == p)
    ensures forall k :: s <= k < n ==> log[k].relpath != p
  {
    if n == 0 then 0 else if log[n - 1].relpath == p then n else LastWrite(log, p, n - 1)
  }

  /** What a run of writes leaves under a path: the last one, or what was there. */
  lemma {:induction false} ApplyRowsAt(m: Table, rows: seq<FileInfo>, p: string)
    ensures var s := LastWrite(rows, p, |rows|);
            var t := ApplyRows(m, rows);
            && (p in t <==> p in m || s > 0)
            && (p in t ==> t[p] == if s > 0 then rows[s - 1] else m[p])
  {
    if rows != [] {
      var n := |rows| - 1;
      ApplyRowsAt(m, rows[..n], p);
      LastWriteOfPrefix(rows[..n], rows, p, n);
    }
  }

  /** Later writes do not change which write was last before them. */
  lemma {:induction false} LastWriteOfPrefix(short: seq<FileInfo>, long: seq<FileInfo>, p: string, n: nat)
    requires short <= long && n <= |short|
    ensures LastWrite(short, p, n) == LastWrite(long, p, n)
  {
    if n > 0 {
      LastWriteOfPrefix(short, long, p, n - 1);
      assert short[n - 1] == long[n - 1];
    }
  }

  /** The last write up to `n` is the last one in `(k, n]`, or else the last up to `k`. */
  lemma {:induction false} LastWriteSplit(log: seq<FileInfo>, p: string, k: nat, n: nat)
    requires k <= n <= |log|
    ensures var s := LastWrite(log[k..n], p, n - k);
            LastWrite(log, p, n) == if s > 0 then k + s else LastWrite(log, p, k)
    decreases n
  {
    if k < n {
      LastWriteSplit(log, p, k, n - 1);
      assert log[k..n][n - k - 1] == log[n - 1];
      LastWriteOfPrefix(log[k..n - 1], log[k..n], p, n - k - 1);
    }
  }

  lemma TableAt(log: seq<FileInfo>, p: string)
    ensures var s := LastWrite(log, p, |log|);
            && (p in TableOf(log) <==> s > 0)
            && (s > 0 ==> TableOf(log)[p] == log[s - 1] && log[s - 1].relpath == p)
  {
    ApplyRowsAt(map[], log, p);
  }
}
