/** Byte-wise lexicographic order, used for digests and for path names. */
module Order {

  /** `a` sorts strictly before `b`; a proper prefix sorts first. */
  predicate LexLess(a: seq<int>, b: seq<int>) {
    if b == [] then false
    else if a == [] then true
    else if a[0] != b[0] then a[0] < b[0]
    else LexLess(a[1..], b[1..])
  }

  /** Any two different sequences are ordered one way and not the other. */
  lemma {:induction false} LexTotal(a: seq<int>, b: seq<int>)
    ensures a == b ==> !LexLess(a, b)
    ensures a != b ==> (LexLess(a, b) <==> !LexLess(b, a))
  {
    if a != [] && b != [] && a[0] == b[0] {
      LexTotal(a[1..], b[1..]);
      assert a == [a[0]] + a[1..] && b == [b[0]] + b[1..];
    }
  }

  /** The first difference decides, and a proper prefix comes first. */
  predicate DecidesAt(a: seq<int>, b: seq<int>, i: int) {
    && 0 <= i <= |a| && i < |b| && a[..i] == b[..i]
    && (i < |a| ==> a[i] < b[i])
  }

  lemma HeadsAgree(a: seq<int>, b: seq<int>, i: int)
    ensures 0 < i <= |a| && i <= |b| && a[..i] == b[..i] ==> a[0] == b[0]
  {
    if 0 < i <= |a| && i <= |b| { assert a[..i][0] == a[0] && b[..i][0] == b[0]; }
  }

  lemma {:induction false} LexLessIff(a: seq<int>, b: seq<int>)
    ensures LexLess(a, b) <==> exists i :: DecidesAt(a, b, i)
  {
    if a == [] || b == [] || a[0] != b[0] {
      if b != [] && (a == [] || a[0] < b[0]) { assert DecidesAt(a, b, 0); }
      forall i | DecidesAt(a, b, i) ensures i == 0 { HeadsAgree(a, b, i); }
    } else {
      LexLessIff(a[1..], b[1..]);
      forall i ensures i > 0 ==> (DecidesAt(a, b, i) <==> DecidesAt(a[1..], b[1..], i - 1)) {
        if 0 < i <= |a| && i <= |b| {
          assert a[..i] == [a[0]] + a[1..][..i - 1] && b[..i] == [b[0]] + b[1..][..i - 1];
          assert a[..i][1..] == a[1..][..i - 1] && b[..i][1..] == b[1..][..i - 1];
        }
      }
      assert !DecidesAt(a, b, 0);
      if k :| DecidesAt(a[1..], b[1..], k) { assert DecidesAt(a, b, k + 1); }
    }
  }

  lemma {:induction false} LexTransitive(a: seq<int>, b: seq<int>, c: seq<int>)
    requires LexLess(a, b) && LexLess(b, c)
    ensures LexLess(a, c)
  {
    if a != [] && a[0] == b[0] && b[0] == c[0] {
      LexTransitive(a[1..], b[1..], c[1..]);
    }
  }

  function Codes(s: string): (r: seq<int>)
    ensures |r| == |s| && forall i :: 0 <= i < |s| ==> r[i] == s[i] as int
  {
    seq(|s|, i requires 0 <= i < |s| => s[i] as int)
  }

  predicate Before(p: string, q: string) {
    LexLess(Codes(p), Codes(q))
  }

  lemma BeforeTotal(p: string, q: string)
    ensures p == q ==> !Before(p, q)
    ensures p != q ==> (Before(p, q) <==> !Before(q, p))
  {
    LexTotal(Codes(p), Codes(q));
    if Codes(p) == Codes(q) {
      forall i | 0 <= i < |p| ensures p[i] == q[i] { assert Codes(p)[i] == Codes(q)[i]; }
    }
  }

  predicate Ascending(s: seq<string>) {
    forall i, j :: 0 <= i < j < |s| ==> Before(s[i], s[j])
  }

  method InsertSorted(s: seq<string>, p: string) returns (r: seq<string>)
    requires Ascending(s) && p !in s
    ensures Ascending(r)
    ensures forall q :: q in r <==> q in s || q == p
  {
    var i := 0;
    while i < |s| && Before(s[i], p)
      invariant 0 <= i <= |s|
      invariant forall j :: 0 <= j < i ==> Before(s[j], p)
    {
      i := i + 1;
    }
    r := s[..i] + [p] + s[i..];
    forall j | i <= j < |s| ensures Before(p, s[j]) {
      BeforeTotal(s[i], p);
      if i < j { LexTransitive(Codes(p), Codes(s[i]), Codes(s[j])); }
    }
    forall j, k | 0 <= j < k < |r| ensures Before(r[j], r[k]) {
      if k < i {
      } else if k == i {
      } else if j < i {
        assert r[k] == s[k - 1] && Before(s[j], s[k - 1]);
      } else if j == i {
        assert r[k] == s[k - 1];
      } else {
        assert r[j] == s[j - 1] && r[k] == s[k - 1];
      }
    }
    assert s == s[..i] + s[i..];
  }

  /** The elements of a set in ascending order. */
  method Sort(paths: set<string>) returns (r: seq<string>)
    ensures Ascending(r) && forall q :: q in r <==> q in paths
  {
    r := [];
    var todo := paths;
    while todo != {}
      invariant todo <= paths && Ascending(r)
      invariant forall q :: q in r <==> q in paths - todo
      decreases todo
    {
      var p :| p in todo;
      r := InsertSorted(r, p);
      todo := todo - {p};
    }
  }
}
