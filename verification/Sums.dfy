/** Totals over block sizes and segment sizes. */
module Sums {
  import opened Common
  import opened Tiling

  ghost function Sum(m: map<nat, nat>): nat
    decreases |m|
  {
    if m == map[] then 0
    else
      var k :| k in m;
      assert |m - {k}| < |m| by { assert (m - {k}).Keys == m.Keys - {k}; }
      m[k] + Sum(m - {k})
  }

  lemma {:induction false} SumRemove(m: map<nat, nat>, k: nat)
    requires k in m
    ensures Sum(m) == m[k] + Sum(m - {k})
    decreases |m|
  {
    var c :| c in m && Sum(m) == m[c] + Sum(m - {c});
    if c != k {
      var m1, m2 := m - {c}, m - {k};
      assert m1.Keys == m.Keys - {c} && m2.Keys == m.Keys - {k};
      SumRemove(m1, k);
      SumRemove(m2, c);
      assert m1 - {k} == m2 - {c};
    }
  }

  /** Setting an entry replaces its contribution. */
  lemma SumSet(m: map<nat, nat>, k: nat, v: nat)
    ensures Sum(m[k := v]) == Sum(m) + v - if k in m then m[k] else 0
  {
    SumRemove(m[k := v], k);
    assert m[k := v] - {k} == m - {k};
    if k in m { SumRemove(m, k); } else { assert m - {k} == m; }
  }

  function Total(segs: seq<Segment>): nat {
    if segs == [] then 0 else segs[0].size + Total(segs[1..])
  }

  lemma {:induction false} TotalConcat(s1: seq<Segment>, s2: seq<Segment>)
    ensures Total(s1 + s2) == Total(s1) + Total(s2)
  {
    if s1 == [] {
      assert s1 + s2 == s2;
    } else {
      assert (s1 + s2)[1..] == s1[1..] + s2;
      TotalConcat(s1[1..], s2);
    }
  }

  lemma {:induction false} TotalAt(segs: seq<Segment>, j: nat)
    requires j < |segs|
    ensures Total(segs) == Total(segs[..j] + segs[j + 1..]) + segs[j].size
  {
    var rest := segs[..j] + segs[j + 1..];
    if j == 0 {
      assert rest == segs[1..];
    } else {
      TotalAt(segs[1..], j - 1);
      assert rest[1..] == segs[1..][..j - 1] + segs[1..][j..];
    }
  }

  /** Disjoint segments cannot exceed the address space they lie in, so no sum of segment sizes wraps. */
  lemma {:induction false} TotalFits(segs: seq<Segment>, lo: nat, hi: nat)
    requires lo <= hi && NoRepeat(segs)
    requires forall s :: s in segs ==> lo <= s.base && s.base + s.size <= hi && s.size > 0
    requires forall s, s' {:trigger s.Disjoint(s')} :: s in segs && s' in segs && s != s' ==> s.Disjoint(s')
    ensures Total(segs) <= hi - lo
    decreases |segs|
  {
    if segs != [] {
      var j := Topmost(segs);
      var top, rest := segs[j], segs[..j] + segs[j + 1..];
      TotalAt(segs, j);
      forall s | s in rest ensures s in segs && s.base + s.size <= top.base {
        var i :| 0 <= i < |rest| && rest[i] == s;
        assert s == segs[if i < j then i else i + 1];
        assert s.Disjoint(top);
      }
      forall i, k | 0 <= i < k < |rest| ensures rest[i] != rest[k] {
        assert rest[i] == segs[if i < j then i else i + 1];
        assert rest[k] == segs[if k < j then k else k + 1];
      }
      TotalFits(rest, lo, top.base);
    }
  }

  lemma {:induction false} Topmost(segs: seq<Segment>) returns (j: nat)
    requires segs != []
    ensures j < |segs| && forall i :: 0 <= i < |segs| ==> segs[i].base <= segs[j].base
  {
    if |segs| == 1 {
      j := 0;
    } else {
      var k := Topmost(segs[1..]);
      j := if segs[0].base > segs[k + 1].base then 0 else k + 1;
      assert forall i :: 0 < i < |segs| ==> segs[i] == segs[1..][i - 1];
    }
  }
}
