/** The line diff of the test runner, with plain line comparison. */
module ArrayDiff {
  import opened Common

  // ---------------------------------------------------------------- looking ahead

  /** The length of the longest common subsequence of `a[i..]` and `b[j..]`. */
  ghost function Longest(a: seq<string>, b: seq<string>, i: nat, j: nat): nat
    decreases |a| - i + |b| - j
  {
    if i >= |a| || j >= |b| then 0
    else Max(Max(Longest(a, b, i + 1, j), Longest(a, b, i, j + 1)),
             if a[i] == b[j] then 1 + Longest(a, b, i + 1, j + 1) else 0)
  }

  lemma {:induction false} LongestShrinks(a: seq<string>, b: seq<string>, i: nat, j: nat, i': nat, j': nat)
    requires i <= i' && j <= j'
    ensures Longest(a, b, i', j') <= Longest(a, b, i, j)
    decreases i' - i + j' - j
  {
    if i < i' {
      LongestShrinks(a, b, i + 1, j, i', j');
    } else if j < j' {
      LongestShrinks(a, b, i, j + 1, i', j');
    }
  }

  function Budget(steps: real): nat {
    if steps <= 0.0 then 0 else steps.Floor + 1
  }

  /** `count_array_diff`: matches found within a budget of steps, which halving makes fractional. */
  method CountDiff(a: seq<string>, b: seq<string>, i0: nat, j0: nat, steps0: real) returns (equal: nat)
    ensures equal <= Longest(a, b, i0, j0)
    ensures i0 < |a| && j0 < |b| && a[i0] == b[j0] ==> equal > 0
    decreases Budget(steps0)
  {
    var i, j, steps := i0, j0, steps0;
    equal := 0;
    while i < |a| && j < |b| && a[i] == b[j]
      invariant i0 <= i && j0 <= j && steps <= steps0 && equal + Longest(a, b, i, j) <= Longest(a, b, i0, j0)
      invariant equal == i - i0 == j - j0
    {
      i, j, equal, steps := i + 1, j + 1, equal + 1, steps - 1.0;
    }
    steps := steps - 1.0;
    if steps > 0.0 {
      var eq1 := CountDeleting(a, b, i, j, steps, steps0);
      var eq2 := CountInserting(a, b, i, j, steps, steps0);
      if eq1 > eq2 {
        equal := equal + eq1;
      } else if eq2 > 0 {
        equal := equal + eq2;
      }
    }
  }

  /** The loop that skips lines of the first side, with half of the steps. */
  method CountDeleting(a: seq<string>, b: seq<string>, i: nat, j: nat, steps: real, ghost steps0: real)
    returns (best: nat)
    requires 0.0 < steps <= steps0 - 1.0
    ensures best <= Longest(a, b, i, j)
    decreases Budget(steps0), 0
  {
    best := 0;
    var st := steps / 2.0;
    var ofs := i + 1;
    while ofs < |a| && st > 0.0
      invariant i < ofs && best <= Longest(a, b, i, j) && st <= steps
    {
      st := st - 1.0;
      var eq := CountDiff(a, b, ofs, j, st);
      LongestShrinks(a, b, i, j, ofs, j);
      best := Max(best, eq);
      ofs := ofs + 1;
    }
  }

  /** The loop that skips lines of the second side. */
  method CountInserting(a: seq<string>, b: seq<string>, i: nat, j: nat, steps: real, ghost steps0: real)
    returns (best: nat)
    requires 0.0 < steps <= steps0 - 1.0
    ensures best <= Longest(a, b, i, j)
    decreases Budget(steps0), 0
  {
    best := 0;
    var st := steps;
    var ofs := j + 1;
    while ofs < |b| && st > 0.0
      invariant j < ofs && best <= Longest(a, b, i, j) && st <= steps
    {
      st := st - 1.0;
      var eq := CountDiff(a, b, i, ofs, st);
      LongestShrinks(a, b, i, j, i, ofs);
      best := Max(best, eq);
      ofs := ofs + 1;
    }
  }

  // ---------------------------------------------------------------- edit scripts

  /** A line of the diff: `Del` for a wanted line that is missing, `Ins` for an output line too many;
      `at` counts from 0, and is printed plus one. */
  datatype Edit = Del(at: nat, text: string) | Ins(at: nat, text: string)

  /** The lines that the first `n` edits name as missing, in order. */
  ghost function DelsIn(diff: seq<Edit>, n: nat): seq<nat>
    requires n <= |diff|
  {
    if n == 0 then [] else DelsIn(diff, n - 1) + if diff[n - 1].Del? then [diff[n - 1].at] else []
  }

  /** Those that they name as too many. */
  ghost function InssIn(diff: seq<Edit>, n: nat): seq<nat>
    requires n <= |diff|
  {
    if n == 0 then [] else InssIn(diff, n - 1) + if diff[n - 1].Ins? then [diff[n - 1].at] else []
  }

  ghost function Dels(diff: seq<Edit>): seq<nat> {
    DelsIn(diff, |diff|)
  }

  ghost function Inss(diff: seq<Edit>): seq<nat> {
    InssIn(diff, |diff|)
  }

  lemma {:induction false} SameBefore(diff: seq<Edit>, e: Edit, n: nat)
    requires n <= |diff|
    ensures DelsIn(diff + [e], n) == DelsIn(diff, n) && InssIn(diff + [e], n) == InssIn(diff, n)
  {
    if n > 0 { SameBefore(diff, e, n - 1); }
  }

  ghost predicate Increasing(s: seq<nat>, n: nat) {
    && (forall i, j :: 0 <= i < j < |s| ==> s[i] < s[j])
    && (forall i :: 0 <= i < |s| ==> s[i] < n)
  }

  /** The first `n` lines of `s` without those in `gone`. */
  ghost function Without(s: seq<string>, gone: seq<nat>, n: nat): seq<string>
    requires n <= |s|
  {
    if n == 0 then [] else Without(s, gone, n - 1) + if n - 1 in gone then [] else [s[n - 1]]
  }

  /** Each edit quotes the line that it names. */
  ghost predicate Quotes(w: seq<string>, o: seq<string>, diff: seq<Edit>) {
    forall i {:trigger diff[i]} :: 0 <= i < |diff| ==> QuotesLine(w, o, diff[i])
  }

  /** A correct edit script: each side in order and no line twice, and what is left of both sides is the same. */
  ghost predicate IsScript(w: seq<string>, o: seq<string>, diff: seq<Edit>) {
    && Quotes(w, o, diff) && Increasing(Dels(diff), |w|) && Increasing(Inss(diff), |o|)
    && Without(w, Dels(diff), |w|) == Without(o, Inss(diff), |o|)
  }

  lemma {:induction false} WithoutLater(s: seq<string>, gone: seq<nat>, n: nat, x: nat)
    requires n <= |s| && n <= x
    ensures Without(s, gone + [x], n) == Without(s, gone, n)
  {
    if n > 0 { WithoutLater(s, gone, n - 1, x); }
  }

  /** The lines that a diff names on either side. */
  ghost predicate Names(diff: seq<Edit>, dels: seq<nat>, inss: seq<nat>) {
    Dels(diff) == dels && Inss(diff) == inss
  }

  lemma NamesDel(diff: seq<Edit>, dels: seq<nat>, inss: seq<nat>, at: nat, text: string)
    requires Names(diff, dels, inss)
    ensures Names(diff + [Del(at, text)], dels + [at], inss)
  {
    SameBefore(diff, Del(at, text), |diff|);
    assert inss + [] == inss;
  }

  lemma NamesIns(diff: seq<Edit>, dels: seq<nat>, inss: seq<nat>, at: nat, text: string)
    requires Names(diff, dels, inss)
    ensures Names(diff + [Ins(at, text)], dels, inss + [at])
  {
    SameBefore(diff, Ins(at, text), |diff|);
    assert dels + [] == dels;
  }

  /** The edit quotes the line that it names. */
  ghost predicate QuotesLine(w: seq<string>, o: seq<string>, e: Edit) {
    match e
    case Del(at, text) => at < |w| && text == w[at]
    case Ins(at, text) => at < |o| && text == o[at]
  }

  lemma QuotesMore(w: seq<string>, o: seq<string>, diff: seq<Edit>, e: Edit)
    requires Quotes(w, o, diff) && QuotesLine(w, o, e)
    ensures Quotes(w, o, diff + [e])
  {
  }

  /** What the first loop keeps: the two sides agree up to `i` and `j` but for the lines noted. */
  ghost predicate Agree(w: seq<string>, o: seq<string>, i: nat, j: nat, old1: seq<nat>, old2: seq<nat>) {
    && i <= |w| && j <= |o| && Increasing(old1, i) && Increasing(old2, j)
    && Without(w, old1, i) == Without(o, old2, j)
  }

  lemma AgreeMatch(w: seq<string>, o: seq<string>, i: nat, j: nat, old1: seq<nat>, old2: seq<nat>)
    requires Agree(w, o, i, j, old1, old2) && i < |w| && j < |o| && w[i] == o[j]
    ensures Agree(w, o, i + 1, j + 1, old1, old2)
  {
  }

  lemma AgreeDelete(w: seq<string>, o: seq<string>, i: nat, j: nat, old1: seq<nat>, old2: seq<nat>)
    requires Agree(w, o, i, j, old1, old2) && i < |w|
    ensures Agree(w, o, i + 1, j, old1 + [i], old2)
  {
    WithoutLater(w, old1, i, i);
  }

  lemma AgreeInsert(w: seq<string>, o: seq<string>, i: nat, j: nat, old1: seq<nat>, old2: seq<nat>)
    requires Agree(w, o, i, j, old1, old2) && j < |o|
    ensures Agree(w, o, i, j + 1, old1, old2 + [j])
  {
    WithoutLater(o, old2, j, j);
  }

  /** The first `c` lines of both sides are the same. */
  ghost predicate Shared(w: seq<string>, o: seq<string>, c: nat) {
    c <= |w| && c <= |o| && forall k :: 0 <= k < c ==> w[k] == o[k]
  }

  ghost predicate From(s: seq<nat>, c: nat) {
    forall k :: 0 <= k < |s| ==> c <= s[k]
  }

  /** What the first loop keeps of `c` lines that both sides begin with: none of them is noted. */
  ghost predicate Spares(w: seq<string>, o: seq<string>, i: nat, j: nat, old1: seq<nat>, old2: seq<nat>, c: nat) {
    Shared(w, o, c) ==> (i == j || (c <= i && c <= j)) && From(old1, c) && From(old2, c)
  }

  lemma Noted(w: seq<string>, o: seq<string>, i: nat, j: nat, old1: seq<nat>, old2: seq<nat>, c: nat)
    requires Spares(w, o, i, j, old1, old2, c) && i < |w| && j < |o| && w[i] != o[j]
    ensures Spares(w, o, i + 1, j, old1 + [i], old2, c) && Spares(w, o, i, j + 1, old1, old2 + [j], c)
    ensures Spares(w, o, i + 1, j + 1, old1 + [i], old2 + [j], c)
  {
  }

  /** The first loop of `generate_array_diff`: lines are matched, or noted for one side or both, but none of the `c`
      lines that both sides begin with. */
  method Align(w: seq<string>, o: seq<string>, ghost c: nat)
    returns (i: nat, j: nat, old1: seq<nat>, old2: seq<nat>)
    ensures Agree(w, o, i, j, old1, old2) && (i == |w| || j == |o|)
    ensures Shared(w, o, c) ==> c <= i && c <= j && From(old1, c) && From(old2, c)
  {
    i, j, old1, old2 := 0, 0, [], [];
    while i < |w| && j < |o|
      invariant Agree(w, o, i, j, old1, old2) && Spares(w, o, i, j, old1, old2, c)
      decreases |w| - i + |o| - j
    {
      if w[i] == o[j] {
        AgreeMatch(w, o, i, j, old1, old2);
        i, j := i + 1, j + 1;
      } else {
        Noted(w, o, i, j, old1, old2, c);
        var c1 := CountDiff(w, o, i + 1, j, 10.0);
        var c2 := CountDiff(w, o, i, j + 1, 10.0);
        if c1 > c2 {
          AgreeDelete(w, o, i, j, old1, old2);
          i, old1 := i + 1, old1 + [i];
        } else if c2 > 0 {
          AgreeInsert(w, o, i, j, old1, old2);
          j, old2 := j + 1, old2 + [j];
        } else {
          AgreeDelete(w, o, i, j, old1, old2);
          AgreeInsert(w, o, i + 1, j, old1 + [i], old2);
          i, j, old1, old2 := i + 1, j + 1, old1 + [i], old2 + [j];
        }
      }
    }
  }

  /** `diff` quotes what it names, which are the lines `dels` and `inss`. */
  ghost predicate Written(w: seq<string>, o: seq<string>, diff: seq<Edit>, dels: seq<nat>, inss: seq<nat>) {
    Quotes(w, o, diff) && Names(diff, dels, inss)
  }

  lemma WriteDel(w: seq<string>, o: seq<string>, diff: seq<Edit>, dels: seq<nat>, inss: seq<nat>, at: nat)
    requires Written(w, o, diff, dels, inss) && at < |w|
    ensures Written(w, o, diff + [Del(at, w[at])], dels + [at], inss)
  {
    QuotesMore(w, o, diff, Del(at, w[at]));
    NamesDel(diff, dels, inss, at, w[at]);
  }

  lemma WriteIns(w: seq<string>, o: seq<string>, diff: seq<Edit>, dels: seq<nat>, inss: seq<nat>, at: nat)
    requires Written(w, o, diff, dels, inss) && at < |o|
    ensures Written(w, o, diff + [Ins(at, o[at])], dels, inss + [at])
  {
    QuotesMore(w, o, diff, Ins(at, o[at]));
    NamesIns(diff, dels, inss, at, o[at]);
  }

  /** The first `p1` and `p2` of the noted lines are merged into `diff`. */
  ghost predicate Merged(w: seq<string>, o: seq<string>, diff: seq<Edit>, old1: seq<nat>, p1: nat, old2: seq<nat>,
                         p2: nat) {
    && p1 <= |old1| && p2 <= |old2| && Written(w, o, diff, old1[..p1], old2[..p2])
    && (p1 == 0 && p2 == 0 ==> diff == [])
  }

  lemma MergeDel(w: seq<string>, o: seq<string>, diff: seq<Edit>, old1: seq<nat>, p1: nat, old2: seq<nat>, p2: nat)
    requires Merged(w, o, diff, old1, p1, old2, p2) && p1 < |old1| && old1[p1] < |w|
    ensures Merged(w, o, diff + [Del(old1[p1], w[old1[p1]])], old1, p1 + 1, old2, p2)
  {
    WriteDel(w, o, diff, old1[..p1], old2[..p2], old1[p1]);
    assert old1[..p1 + 1] == old1[..p1] + [old1[p1]];
  }

  lemma MergeIns(w: seq<string>, o: seq<string>, diff: seq<Edit>, old1: seq<nat>, p1: nat, old2: seq<nat>, p2: nat)
    requires Merged(w, o, diff, old1, p1, old2, p2) && p2 < |old2| && old2[p2] < |o|
    ensures Merged(w, o, diff + [Ins(old2[p2], o[old2[p2]])], old1, p1, old2, p2 + 1)
  {
    WriteIns(w, o, diff, old1[..p1], old2[..p2], old2[p2]);
    assert old2[..p2 + 1] == old2[..p2] + [old2[p2]];
  }

  /** The choice of the second loop: the first side goes on with a run of consecutive lines, or is the
      only one left, or is behind while the second side has no run to go on with. */
  predicate TakesFirst(old1: seq<nat>, p1: nat, l1: int, old2: seq<nat>, p2: nat, l2: int)
    requires p1 <= |old1| && p2 <= |old2|
  {
    || (p1 < |old1| && old1[p1] == l1 + 1)
    || p2 == |old2|
    || (p1 < |old1| && old2[p2] != l2 + 1 && old1[p1] < old2[p2])
  }

  /** The second loop: the noted lines of both sides merged. */
  method Merge(w: seq<string>, o: seq<string>, old1: seq<nat>, old2: seq<nat>, ghost i: nat, ghost j: nat)
    returns (diff: seq<Edit>)
    requires Agree(w, o, i, j, old1, old2)
    ensures Written(w, o, diff, old1, old2) && (old1 == [] && old2 == [] ==> diff == [])
  {
    diff := [];
    var p1: nat, p2: nat := 0, 0;
    var l1: int, l2: int := -2, -2;
    while p1 < |old1| || p2 < |old2|
      invariant Merged(w, o, diff, old1, p1, old2, p2)
      decreases |old1| - p1 + |old2| - p2
    {
      if TakesFirst(old1, p1, l1, old2, p2, l2) {
        MergeDel(w, o, diff, old1, p1, old2, p2);
        l1 := old1[p1];
        diff := diff + [Del(old1[p1], w[old1[p1]])];
        p1 := p1 + 1;
      } else {
        MergeIns(w, o, diff, old1, p1, old2, p2);
        l2 := old2[p2];
        diff := diff + [Ins(old2[p2], o[old2[p2]])];
        p2 := p2 + 1;
      }
    }
    assert old1[..p1] == old1 && old2[..p2] == old2;
  }

  /** The numbers from `i` up to but not including `n`. */
  ghost function Range(i: nat, n: nat): seq<nat>
    requires i <= n
  {
    if i == n then [] else Range(i, n - 1) + [n - 1]
  }

  /** Wanted lines from `i` on, all missing. */
  ghost function Missing(w: seq<string>, i: nat, n: nat): seq<Edit>
    requires i <= n <= |w|
  {
    if i == n then [] else Missing(w, i, n - 1) + [Del(n - 1, w[n - 1])]
  }

  /** Output lines from `j` on, all too many. */
  ghost function Surplus(o: seq<string>, j: nat, n: nat): seq<Edit>
    requires j <= n <= |o|
  {
    if j == n then [] else Surplus(o, j, n - 1) + [Ins(n - 1, o[n - 1])]
  }

  lemma {:induction false} MissingAgrees(w: seq<string>, o: seq<string>, i: nat, j: nat, dels: seq<nat>, inss: seq<nat>,
                                         n: nat)
    requires Agree(w, o, i, j, dels, inss) && i <= n <= |w|
    ensures Agree(w, o, n, j, dels + Range(i, n), inss)
  {
    if i == n {
      assert dels + [] == dels;
    } else {
      MissingAgrees(w, o, i, j, dels, inss, n - 1);
      AgreeDelete(w, o, n - 1, j, dels + Range(i, n - 1), inss);
      assert dels + Range(i, n) == dels + Range(i, n - 1) + [n - 1];
    }
  }

  lemma {:induction false} MissingWritten(w: seq<string>, o: seq<string>, diff: seq<Edit>,
                                          dels: seq<nat>, inss: seq<nat>, i: nat, n: nat)
    requires Written(w, o, diff, dels, inss) && i <= n <= |w|
    ensures Written(w, o, diff + Missing(w, i, n), dels + Range(i, n), inss)
  {
    if i == n {
      assert dels + [] == dels && diff + [] == diff;
    } else {
      MissingWritten(w, o, diff, dels, inss, i, n - 1);
      WriteDel(w, o, diff + Missing(w, i, n - 1), dels + Range(i, n - 1), inss, n - 1);
      assert dels + Range(i, n) == dels + Range(i, n - 1) + [n - 1];
      assert diff + Missing(w, i, n) == diff + Missing(w, i, n - 1) + [Del(n - 1, w[n - 1])];
    }
  }

  lemma {:induction false} SurplusAgrees(w: seq<string>, o: seq<string>, i: nat, j: nat, dels: seq<nat>, inss: seq<nat>,
                                         n: nat)
    requires Agree(w, o, i, j, dels, inss) && j <= n <= |o|
    ensures Agree(w, o, i, n, dels, inss + Range(j, n))
  {
    if j == n {
      assert inss + [] == inss;
    } else {
      SurplusAgrees(w, o, i, j, dels, inss, n - 1);
      AgreeInsert(w, o, i, n - 1, dels, inss + Range(j, n - 1));
      assert inss + Range(j, n) == inss + Range(j, n - 1) + [n - 1];
    }
  }

  lemma {:induction false} SurplusWritten(w: seq<string>, o: seq<string>, diff: seq<Edit>,
                                          dels: seq<nat>, inss: seq<nat>, j: nat, n: nat)
    requires Written(w, o, diff, dels, inss) && j <= n <= |o|
    ensures Written(w, o, diff + Surplus(o, j, n), dels, inss + Range(j, n))
  {
    if j == n {
      assert inss + [] == inss && diff + [] == diff;
    } else {
      SurplusWritten(w, o, diff, dels, inss, j, n - 1);
      WriteIns(w, o, diff + Surplus(o, j, n - 1), dels, inss + Range(j, n - 1), n - 1);
      assert inss + Range(j, n) == inss + Range(j, n - 1) + [n - 1];
      assert diff + Surplus(o, j, n) == diff + Surplus(o, j, n - 1) + [Ins(n - 1, o[n - 1])];
    }
  }

  /** The wanted lines that are left. */
  method EmitMissing(w: seq<string>, i0: nat, diff0: seq<Edit>) returns (diff: seq<Edit>)
    requires i0 <= |w|
    ensures diff == diff0 + Missing(w, i0, |w|)
  {
    diff := diff0;
    for i := i0 to |w|
      invariant diff == diff0 + Missing(w, i0, i)
    {
      diff := diff + [Del(i, w[i])];
    }
  }

  /** The output lines that are left. */
  method EmitSurplus(o: seq<string>, j0: nat, diff0: seq<Edit>) returns (diff: seq<Edit>)
    requires j0 <= |o|
    ensures diff == diff0 + Surplus(o, j0, |o|)
  {
    diff := diff0;
    for j := j0 to |o|
      invariant diff == diff0 + Surplus(o, j0, j)
    {
      diff := diff + [Ins(j, o[j])];
    }
  }

  /** The whole script: the noted lines merged, and what is left of both sides. */
  lemma WholeScript(w: seq<string>, o: seq<string>, i: nat, j: nat, dels: seq<nat>, inss: seq<nat>, diff: seq<Edit>)
    requires Agree(w, o, i, j, dels, inss) && Written(w, o, diff, dels, inss)
    ensures IsScript(w, o, diff + Missing(w, i, |w|) + Surplus(o, j, |o|))
  {
    MissingAgrees(w, o, i, j, dels, inss, |w|);
    MissingWritten(w, o, diff, dels, inss, i, |w|);
    var dels', diff' := dels + Range(i, |w|), diff + Missing(w, i, |w|);
    SurplusAgrees(w, o, |w|, j, dels', inss, |o|);
    SurplusWritten(w, o, diff', dels', inss, j, |o|);
  }

  lemma NoneFrom(s: seq<nat>, n: nat, c: nat)
    requires Increasing(s, n) && n <= c
    ensures From(s, c) ==> s == []
  {
    if s != [] { assert s[0] < c; }
  }

  lemma {:induction false} RangeFrom(i: nat, n: nat, c: nat)
    requires c <= i <= n
    ensures From(Range(i, n), c)
  {
    if i < n { RangeFrom(i, n - 1, c); }
  }

  lemma ScriptFrom(w: seq<string>, o: seq<string>, i: nat, j: nat, dels: seq<nat>, inss: seq<nat>, diff: seq<Edit>,
                   c: nat)
    requires Agree(w, o, i, j, dels, inss) && Written(w, o, diff, dels, inss)
    requires c <= i && c <= j && From(dels, c) && From(inss, c)
    ensures var all := diff + Missing(w, i, |w|) + Surplus(o, j, |o|); From(Dels(all), c) && From(Inss(all), c)
  {
    MissingWritten(w, o, diff, dels, inss, i, |w|);
    SurplusWritten(w, o, diff + Missing(w, i, |w|), dels + Range(i, |w|), inss, j, |o|);
    RangeFrom(i, |w|, c);
    RangeFrom(j, |o|, c);
  }

  /** `generate_array_diff` for plain lines: a correct edit script for all inputs. */
  method Generate(w: seq<string>, o: seq<string>, ghost c: nat) returns (diff: seq<Edit>)
    ensures IsScript(w, o, diff)
    ensures diff == [] <==> w == o
    ensures Shared(w, o, c) ==> From(Dels(diff), c) && From(Inss(diff), c)
  {
    var i: nat, j: nat, old1: seq<nat>, old2: seq<nat> := Align(w, o, if w == o then |w| else c);
    diff := Merge(w, o, old1, old2, i, j);
    WholeScript(w, o, i, j, old1, old2, diff);
    if w == o {
      NoneFrom(old1, i, |w|);
      NoneFrom(old2, j, |w|);
    } else if Shared(w, o, c) {
      ScriptFrom(w, o, i, j, old1, old2, diff, c);
    }
    diff := EmitMissing(w, i, diff);
    diff := EmitSurplus(o, j, diff);
    EmptyScript(w, o, diff);
  }

  /** Only equal sides have an empty script. */
  lemma EmptyScript(w: seq<string>, o: seq<string>, diff: seq<Edit>)
    requires IsScript(w, o, diff)
    ensures diff == [] ==> w == o
  {
    NothingGone(w, |w|);
    NothingGone(o, |o|);
    assert w[..|w|] == w && o[..|o|] == o;
  }

  lemma {:induction false} NothingGone(s: seq<string>, n: nat)
    requires n <= |s|
    ensures Without(s, [], n) == s[..n]
  {
    if n > 0 { NothingGone(s, n - 1); }
  }
}
