/** The order in which extension modules are started: sorting by dependencies and the start-up check. */
module ModuleOrder {

  datatype DepKind = Required | Optional | Conflicts
  datatype Dep = Dep(name: string, kind: DepKind)
  datatype Module = Module(name: string, started: bool, deps: seq<Dep>)

  function LowerChar(c: char): char {
    if 'A' <= c <= 'Z' then (c as int + 32) as char else c
  }

  /** The key that case-insensitive comparison and the registry use. */
  function Lower(s: string): (r: string)
    ensures |r| == |s|
    ensures forall i :: 0 <= i < |s| ==> r[i] == LowerChar(s[i])
  {
    if s == [] then [] else Lower(s[..|s| - 1]) + [LowerChar(s[|s| - 1])]
  }

  /** Dependency `d` asks for module `r` to come first. */
  predicate Asks(d: Dep, r: Module) {
    d.kind != Conflicts && Lower(d.name) == Lower(r.name)
  }

  /** The not yet started module `m` wants `r` before itself. */
  ghost predicate Wants(m: Module, r: Module) {
    !m.started && exists i :: 0 <= i < |m.deps| && Asks(m.deps[i], r)
  }

  /** No module has the name of another. */
  ghost predicate Distinct(s: seq<Module>) {
    forall i, j :: 0 <= i < j < |s| ==> Lower(s[i].name) != Lower(s[j].name)
  }

  /** The dependencies have no cycle: a rank falls along each of them. */
  ghost predicate Acyclic(s: seq<Module>, rank: map<string, nat>) {
    && (forall m :: m in s ==> Lower(m.name) in rank)
    && (forall m, r {:trigger Wants(m, r)} :: m in s && r in s && m != r && Wants(m, r) ==>
          rank[Lower(r.name)] < rank[Lower(m.name)])
  }

  /** Nothing that an element before `n` wants comes after it. */
  ghost predicate Ordered(s: seq<Module>, n: nat) {
    forall i, j {:trigger s[i], s[j]} :: 0 <= i < n && i < j < |s| ==> !Wants(s[i], s[j])
  }

  function Swap(s: seq<Module>, i: nat, j: nat): seq<Module>
    requires i < |s| && j < |s|
  {
    s[i := s[j]][j := s[i]]
  }

  lemma SwapBehind(s: seq<Module>, i: nat, j: nat, n: nat)
    requires n <= i < j < |s| && Ordered(s, n) && Distinct(s)
    ensures Ordered(Swap(s, i, j), n) && Distinct(Swap(s, i, j)) && multiset(Swap(s, i, j)) == multiset(s)
  {
    var s' := Swap(s, i, j);
    forall p, q | 0 <= p < n && p < q < |s'| ensures !Wants(s'[p], s'[q]) {
      assert s'[p] == s[p] && s'[q] == s[if q == i then j else if q == j then i else q];
    }
    forall p, q | 0 <= p < q < |s'| ensures Lower(s'[p].name) != Lower(s'[q].name) {
      var p0, q0 := if p == i then j else if p == j then i else p, if q == i then j else if q == j then i else q;
      assert s'[p] == s[p0] && s'[q] == s[q0] && p0 != q0;
    }
    assert multiset(s[i := s[j]]) == multiset(s) - multiset{s[i]} + multiset{s[j]};
  }

  lemma SameMembers(s: seq<Module>, s': seq<Module>, rank: map<string, nat>)
    requires Acyclic(s, rank) && multiset(s) == multiset(s')
    ensures Acyclic(s', rank)
  {
    forall m | m in s' ensures m in s { assert m in multiset(s'); }
  }

  /** Dependency `d` of the module at `b1` asks for the one at `b2`, for none between them, and no dependency before
      `d` asks for one behind `b1`. */
  ghost predicate AskedFirst(s: seq<Module>, b1: nat, b2: nat, d: nat)
    requires b1 < b2 < |s|
  {
    && d < |s[b1].deps| && Asks(s[b1].deps[d], s[b2])
    && (forall j :: b1 < j < b2 ==> !Asks(s[b1].deps[d], s[j]))
    && (forall i, j :: 0 <= i < d && b1 < j < |s| ==> !Asks(s[b1].deps[i], s[j]))
  }

  /** The module at `b1` wants the one at `b2`, and wants it next. */
  ghost predicate WantsNext(s: seq<Module>, b1: nat, b2: nat) {
    b1 < b2 < |s| && Wants(s[b1], s[b2]) && exists d: nat :: AskedFirst(s, b1, b2, d)
  }

  /** The search for a module behind `b1` that `a[b1]` wants: the first such for the first dependency. */
  method FindWanted(a: array<Module>, b1: nat) returns (b2: nat)
    requires b1 < a.Length
    ensures b1 < b2 <= a.Length
    ensures b2 < a.Length ==> WantsNext(a[..], b1, b2)
    ensures b2 == a.Length ==> forall j :: b1 < j < a.Length ==> !Wants(a[b1], a[j])
  {
    var m := a[b1];
    if !m.started {
      for d := 0 to |m.deps|
        invariant forall i, j :: 0 <= i < d && b1 < j < a.Length ==> !Asks(m.deps[i], a[j])
      {
        if m.deps[d].kind != Conflicts {
          b2 := b1 + 1;
          while b2 < a.Length
            invariant b1 < b2 <= a.Length
            invariant forall j :: b1 < j < b2 ==> !Asks(m.deps[d], a[j])
          {
            if Lower(m.deps[d].name) == Lower(a[b2].name) {
              assert AskedFirst(a[..], b1, b2, d);
              return;
            }
            b2 := b2 + 1;
          }
        }
      }
    }
    b2 := a.Length;
  }

  /** One round of the sort at `b1`: the module that the one there wants next takes its place, or there is none and
      the sort moves on. */
  ghost predicate Rounds(s: seq<Module>, b1: nat, s': seq<Module>, b1': nat)
    requires b1 < |s|
  {
    || (b1' == b1 && exists b2: nat :: WantsNext(s, b1, b2) && s' == Swap(s, b1, b2))
    || (b1' == b1 + 1 && s' == s && forall j :: b1 < j < |s| ==> !Wants(s[b1], s[j]))
  }

  method Round(a: array<Module>, b1: nat) returns (b1': nat)
    requires b1 < a.Length
    modifies a
    ensures Rounds(old(a[..]), b1, a[..], b1')
  {
    var b2 := FindWanted(a, b1);
    ghost var s := a[..];
    if b2 < a.Length {
      a[b1], a[b2] := a[b2], a[b1];
      assert a[..] == Swap(s, b1, b2);
      return b1;
    }
    return b1 + 1;
  }

  /** Where the sort stands. */
  datatype Place = Place(list: seq<Module>, at: nat)

  ghost predicate Follows(p: Place, q: Place) {
    p.at < |p.list| && Rounds(p.list, p.at, q.list, q.at)
  }

  ghost predicate RoundAt(run: seq<Place>, i: nat) {
    i + 1 < |run| && Follows(run[i], run[i + 1])
  }

  /** A run of the sort, as far as it has come. */
  ghost predicate Sorting(run: seq<Place>) {
    forall i: nat {:trigger RoundAt(run, i)} :: i + 1 < |run| ==> RoundAt(run, i)
  }

  /** A round has one outcome, */
  lemma RoundsAlike(s: seq<Module>, b1: nat, s1: seq<Module>, c1: nat, s2: seq<Module>, c2: nat)
    requires b1 < |s| && Rounds(s, b1, s1, c1) && Rounds(s, b1, s2, c2)
    ensures s1 == s2 && c1 == c2
  {
    if c1 == b1 && c2 == b1 {
      var b2: nat :| WantsNext(s, b1, b2) && s1 == Swap(s, b1, b2);
      var b2': nat :| WantsNext(s, b1, b2') && s2 == Swap(s, b1, b2');
      NextAlike(s, b1, b2, b2');
    }
  }

  lemma NextAlike(s: seq<Module>, b1: nat, b2: nat, b2': nat)
    requires WantsNext(s, b1, b2) && WantsNext(s, b1, b2')
    ensures b2 == b2'
  {
    var d: nat :| AskedFirst(s, b1, b2, d);
    var d': nat :| AskedFirst(s, b1, b2', d');
  }

  /** so two runs from the same list agree as far as both have come. */
  lemma {:induction false} RunsAlike(run: seq<Place>, run': seq<Place>, n: nat)
    requires n < |run| && n < |run'| && Sorting(run) && Sorting(run') && run[0] == run'[0]
    ensures run[n] == run'[n]
  {
    if n > 0 {
      RunsAlike(run, run', n - 1);
      assert RoundAt(run, n - 1) && RoundAt(run', n - 1);
      var p, q, q' := run[n - 1], run[n], run'[n];
      RoundsAlike(p.list, p.at, q.list, q.at, q'.list, q'.at);
    }
  }

  /** A run from the beginning of `s0` to place `at` of `s`. */
  ghost predicate Leads(run: seq<Place>, s0: seq<Module>, s: seq<Module>, at: nat) {
    run != [] && Sorting(run) && run[0] == Place(s0, 0) && run[|run| - 1] == Place(s, at)
  }

  lemma LeadsOn(run: seq<Place>, s0: seq<Module>, s: seq<Module>, at: nat, s': seq<Module>, at': nat)
    requires Leads(run, s0, s, at) && at < |s| && Rounds(s, at, s', at')
    ensures Leads(run + [Place(s', at')], s0, s', at')
  {
    var next := run + [Place(s', at')];
    forall i: nat | i + 1 < |next| ensures RoundAt(next, i) {
      assert i + 1 < |run| ==> RoundAt(run, i);
      assert Follows(Place(s, at), Place(s', at'));
    }
  }

  /** `zend_sort_modules`, with its run. */
  method SortModules(a: array<Module>, ghost rank: map<string, nat>) returns (ghost run: seq<Place>)
    requires Distinct(a[..]) && Acyclic(a[..], rank)
    modifies a
    ensures multiset(a[..]) == multiset(old(a[..])) && Ordered(a[..], a.Length) && Distinct(a[..])
    ensures Leads(run, old(a[..]), a[..], a.Length)
  {
    var b1 := 0;
    run := [Place(a[..], 0)];
    while b1 < a.Length
      invariant b1 <= a.Length && Ordered(a[..], b1) && Distinct(a[..]) && Acyclic(a[..], rank)
      invariant multiset(a[..]) == multiset(old(a[..])) && Leads(run, old(a[..]), a[..], b1)
      decreases a.Length - b1, if b1 < a.Length then rank[Lower(a[..][b1].name)] else 0
    {
      ghost var s, at := a[..], b1;
      b1 := Round(a, b1);
      RoundKeeps(s, at, a[..], b1, rank);
      LeadsOn(run, old(a[..]), s, at, a[..], b1);
      run := run + [Place(a[..], b1)];
    }
  }

  lemma RoundKeeps(s: seq<Module>, b1: nat, s': seq<Module>, b1': nat, rank: map<string, nat>)
    requires b1 < |s| && Ordered(s, b1) && Distinct(s) && Acyclic(s, rank) && Rounds(s, b1, s', b1')
    ensures b1' <= |s'| == |s| && Ordered(s', b1') && Distinct(s') && Acyclic(s', rank) && multiset(s') == multiset(s)
    ensures b1' == b1 ==> rank[Lower(s'[b1].name)] < rank[Lower(s[b1].name)]
  {
    if b1' == b1 {
      var b2: nat :| WantsNext(s, b1, b2) && s' == Swap(s, b1, b2);
      SwapBehind(s, b1, b2, b1);
      SameMembers(s, s', rank);
      Falls(s, b1, b2, rank);
    } else {
      OrderedNext(s, b1);
    }
  }

  lemma Falls(s: seq<Module>, b1: nat, b2: nat, rank: map<string, nat>)
    requires b1 < b2 < |s| && Distinct(s) && Acyclic(s, rank) && Wants(s[b1], s[b2])
    ensures rank[Lower(s[b2].name)] < rank[Lower(s[b1].name)]
  {
    assert s[b1] in s && s[b2] in s;
  }

  lemma OrderedNext(s: seq<Module>, n: nat)
    requires n < |s| && Ordered(s, n) && forall j :: n < j < |s| ==> !Wants(s[n], s[j])
    ensures Ordered(s, n + 1)
  {
  }

  // ---------------------------------------------------------------- cycles

  /** The module wants another one of the set. */
  ghost predicate WantsIn(m: Module, c: set<Module>) {
    exists r :: r in c && r != m && Wants(m, r)
  }

  /** Each module of the set wants another one of it. */
  ghost predicate Cyclic(c: set<Module>) {
    c != {} && forall m {:trigger WantsIn(m, c)} :: m in c ==> WantsIn(m, c)
  }

  /** Modules of the list that want each other in a circle. */
  ghost predicate CircleIn(s: seq<Module>, c: set<Module>) {
    Cyclic(c) && forall m {:trigger m in c} :: m in c ==> m in s
  }

  /** A set of modules that want each other in a circle is still to be sorted. */
  ghost predicate Stuck(s: seq<Module>, b1: nat, c: set<Module>) {
    Cyclic(c) && b1 <= |s| && forall m {:trigger m in c} :: m in c ==> m in s[b1..]
  }

  lemma StuckSwap(s: seq<Module>, b1: nat, b2: nat, c: set<Module>)
    requires Stuck(s, b1, c) && b1 < b2 < |s|
    ensures Stuck(Swap(s, b1, b2), b1, c)
  {
    var s' := Swap(s, b1, b2);
    forall m | m in c ensures m in s'[b1..] {
      var i :| 0 <= i < |s[b1..]| && s[b1..][i] == m;
      var i' := if i == 0 then b2 - b1 else if i == b2 - b1 then 0 else i;
      assert s'[b1..][i'] == m;
    }
  }

  lemma StuckBehind(s: seq<Module>, b1: nat, c: set<Module>)
    requires Stuck(s, b1, c) && b1 < |s| && forall j :: b1 < j < |s| ==> !Wants(s[b1], s[j])
    ensures Stuck(s, b1 + 1, c)
  {
    NotHere(s, b1, c);
    forall m | m in c ensures m in s[b1 + 1..] {
      var i :| 0 <= i < |s[b1..]| && s[b1..][i] == m;
      assert s[b1 + 1..][i - 1] == m;
    }
  }

  /** The sort never gets past a circle: no round does, ... */
  lemma StuckOn(s: seq<Module>, b1: nat, c: set<Module>, s': seq<Module>, b1': nat)
    requires Stuck(s, b1, c) && b1 < |s| && Rounds(s, b1, s', b1')
    ensures Stuck(s', b1', c) && b1' < |s'|
  {
    if b1' == b1 {
      var b2: nat :| WantsNext(s, b1, b2) && s' == Swap(s, b1, b2);
      StuckSwap(s, b1, b2, c);
    } else {
      StuckBehind(s, b1, c);
    }
    var m :| m in c;
    assert m in s'[b1'..];
  }

  lemma NotHere(s: seq<Module>, b1: nat, c: set<Module>)
    requires Stuck(s, b1, c) && b1 < |s| && forall j :: b1 < j < |s| ==> !Wants(s[b1], s[j])
    ensures s[b1] !in c
  {
    forall r | r in c && r != s[b1] ensures !Wants(s[b1], r) {
      var i :| 0 <= i < |s[b1..]| && s[b1..][i] == r;
      assert s[b1 + i] == r;
    }
    assert !WantsIn(s[b1], c);
  }

  /** ... so however long it runs, it has not ended. */
  lemma {:induction false} NeverEnds(run: seq<Place>, c: set<Module>, n: nat)
    requires n < |run| && Sorting(run) && run[0].at == 0 && CircleIn(run[0].list, c)
    ensures Stuck(run[n].list, run[n].at, c) && run[n].at < |run[n].list|
  {
    if n == 0 {
      assert run[0].list[0..] == run[0].list;
      var m :| m in c;
      assert m in run[0].list;
    } else {
      NeverEnds(run, c, n - 1);
      assert RoundAt(run, n - 1);
      StuckOn(run[n - 1].list, run[n - 1].at, c, run[n].list, run[n].at);
    }
  }

  /** A rank rules out circles. */
  lemma {:induction false} NoCircle(s: seq<Module>, rank: map<string, nat>, c: set<Module>, m: Module)
    requires Acyclic(s, rank) && CircleIn(s, c) && m in c
    ensures false
    decreases rank[Lower(m.name)]
  {
    assert WantsIn(m, c);
    var r :| r in c && r != m && Wants(m, r);
    assert m in s && r in s;
    NoCircle(s, rank, c, r);
  }

  /** The modules outside `rest` have ranks below `n` that fall along their wants, which do not lead into `rest`. */
  ghost predicate RankedBut(s: seq<Module>, rest: set<Module>, rank: map<string, nat>, n: nat) {
    && (forall m :: m in s && m !in rest ==> Lower(m.name) in rank && rank[Lower(m.name)] < n)
    && (forall m, r {:trigger Wants(m, r)} :: m in s && r in s && m !in rest && m != r && Wants(m, r) ==>
          r !in rest && rank[Lower(r.name)] < rank[Lower(m.name)])
  }

  /** Without a circle there is always a module that wants nothing that has no rank yet. */
  lemma {:induction false} RankRest(s: seq<Module>, rest: set<Module>, rank: map<string, nat>, n: nat)
      returns (full: map<string, nat>)
    requires Distinct(s) && (forall m :: m in rest ==> m in s) && RankedBut(s, rest, rank, n)
    requires forall c :: c != {} && c <= rest ==> !Cyclic(c)
    ensures Acyclic(s, full)
    decreases |rest|
  {
    if rest == {} {
      return rank;
    }
    assert !Cyclic(rest);
    var m :| m in rest && !WantsIn(m, rest);
    RankOne(s, rest, rank, n, m);
    full := RankRest(s, rest - {m}, rank[Lower(m.name) := n], n + 1);
  }

  lemma RankOne(s: seq<Module>, rest: set<Module>, rank: map<string, nat>, n: nat, m: Module)
    requires Distinct(s) && (forall x :: x in rest ==> x in s) && RankedBut(s, rest, rank, n)
    requires m in rest && !WantsIn(m, rest)
    ensures RankedBut(s, rest - {m}, rank[Lower(m.name) := n], n + 1)
  {
    forall x | x in s && x != m ensures Lower(x.name) != Lower(m.name) { OwnName(s, x, m); }
  }

  lemma OwnName(s: seq<Module>, x: Module, y: Module)
    requires Distinct(s) && x in s && y in s && x != y
    ensures Lower(x.name) != Lower(y.name)
  {
    var i :| 0 <= i < |s| && s[i] == x;
    var j :| 0 <= j < |s| && s[j] == y;
  }

  /** `SortModules` demands a rank, which the modules have exactly if no set of them wants each other in a circle;
      on a circle, by `NeverEnds`, the source does not return. */
  lemma RankedOrCircular(s: seq<Module>)
    requires Distinct(s)
    ensures (exists rank :: Acyclic(s, rank)) <==> !exists c :: CircleIn(s, c)
  {
    forall rank, c ensures !(Acyclic(s, rank) && CircleIn(s, c)) {
      if Acyclic(s, rank) && CircleIn(s, c) { NoCircle(s, rank, c, AnyOf(c)); }
    }
    if !exists c :: CircleIn(s, c) {
      forall c | c != {} && c <= (set m | m in s) ensures !Cyclic(c) { assert !CircleIn(s, c); }
      var rank := RankRest(s, set m | m in s, map[], 0);
      assert Acyclic(s, rank);
    }
  }

  ghost function AnyOf(c: set<Module>): Module
    requires c != {}
  {
    var m :| m in c; m
  }

  /** Two modules that require each other. */
  lemma TwoInACircle(p: string, q: string) returns (s: seq<Module>, c: set<Module>)
    requires Lower(p) != Lower(q)
    ensures Distinct(s) && CircleIn(s, c)
  {
    var x, y := Module(p, false, [Dep(q, Required)]), Module(q, false, [Dep(p, Required)]);
    assert Asks(x.deps[0], y) && Asks(y.deps[0], x);
    Mutual(x, y);
    s, c := [x, y], {x, y};
  }

  lemma Mutual(x: Module, y: Module)
    requires x != y && Wants(x, y) && Wants(y, x)
    ensures CircleIn([x, y], {x, y})
  {
    assert x in [x, y] && y in [x, y] && x in {x, y} && y in {x, y};
    assert WantsIn(x, {x, y}) && WantsIn(y, {x, y});
  }

  // ---------------------------------------------------------------- start-up

  /** The list has a module of that name. */
  ghost predicate Registered(s: seq<Module>, name: string) {
    exists j :: 0 <= j < |s| && Lower(name) == Lower(s[j].name)
  }

  /** Every module that `m` requires is registered. */
  ghost predicate Provided(s: seq<Module>, m: Module) {
    forall i {:trigger m.deps[i]} :: 0 <= i < |m.deps| && m.deps[i].kind == Required ==> Registered(s, m.deps[i].name)
  }

  ghost predicate Satisfiable(s: seq<Module>) {
    forall m {:trigger Provided(s, m)} :: m in s && !m.started ==> Provided(s, m)
  }

  /** The first `n` modules started. */
  ghost predicate StartedUpTo(s0: seq<Module>, s: seq<Module>, n: nat) {
    && |s| == |s0|
    && forall i :: 0 <= i < |s| ==> s[i] == if i < n then s0[i].(started := true) else s0[i]
  }

  /** A module of that name is started, or is the one at `n`, which counts as started. */
  ghost predicate Available(s: seq<Module>, name: string, n: nat) {
    exists j :: 0 <= j < |s| && Lower(name) == Lower(s[j].name) && (s[j].started || j == n)
  }

  /** The dependency test of `zend_startup_module_ex`. */
  method DependenciesMet(a: array<Module>, n: nat) returns (ok: bool)
    requires n < a.Length
    ensures ok <==> forall i {:trigger a[n].deps[i]} :: 0 <= i < |a[n].deps| && a[n].deps[i].kind == Required ==>
                      Available(a[..], a[n].deps[i].name, n)
  {
    for i := 0 to |a[n].deps|
      invariant forall i' {:trigger a[n].deps[i']} :: 0 <= i' < i && a[n].deps[i'].kind == Required ==>
                  Available(a[..], a[n].deps[i'].name, n)
    {
      if a[n].deps[i].kind == Required {
        var found := Find(a, a[n].deps[i].name, n);
        if !found {
          return false;
        }
      }
    }
    return true;
  }

  method Find(a: array<Module>, name: string, n: nat) returns (found: bool)
    ensures found <==> Available(a[..], name, n)
  {
    for j := 0 to a.Length
      invariant forall j' :: 0 <= j' < j ==> !(Lower(name) == Lower(a[j'].name) && (a[j'].started || j' == n))
    {
      if Lower(name) == Lower(a[j].name) && (a[j].started || j == n) {
        assert Lower(name) == Lower(a[..][j].name);
        return true;
      }
    }
    return false;
  }

  /** In a sorted list what is registered is available in time. */
  lemma InTime(s0: seq<Module>, s: seq<Module>, n: nat, i: nat)
    requires Ordered(s0, |s0|) && StartedUpTo(s0, s, n) && n < |s|
    requires !s[n].started && i < |s[n].deps| && s[n].deps[i].kind == Required
    ensures Available(s, s[n].deps[i].name, n) <==> Registered(s0, s0[n].deps[i].name)
  {
    var name := s0[n].deps[i].name;
    if Registered(s0, name) {
      var j :| 0 <= j < |s0| && Lower(name) == Lower(s0[j].name);
      assert Asks(s0[n].deps[i], s0[j]);
      assert j <= n;
      assert Lower(name) == Lower(s[j].name);
    }
    if Available(s, name, n) {
      var j :| 0 <= j < |s| && Lower(name) == Lower(s[j].name) && (s[j].started || j == n);
      assert Lower(name) == Lower(s0[j].name);
    }
  }

  /** Start-up came as far as the module at `n` of the sorted list, whose dependency test failed: that module is
      taken out of the registry, those before it are started, and those behind it are not. */
  ghost predicate BrokeOff(s: seq<Module>, n: nat, left: seq<Module>) {
    && n < |s| && !s[n].started && !Provided(s, s[n])
    && ProvidedBefore(s, n)
    && |left| == |s| - 1 && StartedUpTo(s[..n], left[..n], n) && left[n..] == s[n + 1..]
  }

  /** The modules before `n` have what they require. */
  ghost predicate ProvidedBefore(s: seq<Module>, n: nat) {
    forall i {:trigger Provided(s, s[i])} :: 0 <= i < n && i < |s| && !s[i].started ==> Provided(s, s[i])
  }

  /** The module at `n` started, or its dependency test failed. */
  method StartOne(a: array<Module>, n: nat, ghost s: seq<Module>) returns (ok: bool)
    requires n < a.Length && Ordered(s, |s|) && StartedUpTo(s, a[..], n)
    modifies a
    ensures |s| == a.Length && (ok <==> s[n].started || Provided(s, s[n]))
    ensures if ok then StartedUpTo(s, a[..], n + 1) else a[..] == old(a[..])
  {
    if a[n].started {
      return true;
    }
    forall i | 0 <= i < |a[n].deps| && a[n].deps[i].kind == Required
      ensures Available(a[..], a[n].deps[i].name, n) <==> Registered(s, s[n].deps[i].name)
    {
      InTime(s, a[..], n, i);
    }
    ok := DependenciesMet(a, n);
    if ok {
      a[n] := a[n].(started := true);
    }
  }

  lemma LeftOver(s: seq<Module>, a: seq<Module>, n: nat)
    requires n < |s| && StartedUpTo(s, a, n) && !s[n].started && !Provided(s, s[n]) && ProvidedBefore(s, n)
    ensures BrokeOff(s, n, a[..n] + a[n + 1..])
  {
    var left := a[..n] + a[n + 1..];
    assert left[..n] == a[..n] && left[n..] == a[n + 1..];
    assert a[n + 1..] == s[n + 1..];
  }

  /** `zend_startup_modules`, with start-up functions that succeed; it returns SUCCESS in any case. The result is
      the registry: all modules started in an order in which none comes before what it wants, or, exactly if some
      required module is not registered, what is left when the first dependency test fails. */
  method StartupModules(a: array<Module>, ghost rank: map<string, nat>) returns (left: seq<Module>)
    requires Distinct(a[..]) && Acyclic(a[..], rank)
    modifies a
    ensures exists s :: Sorted(old(a[..]), s) && if Satisfiable(old(a[..])) then StartedUpTo(s, left, |s|)
                                                 else exists n :: BrokeOff(s, n, left)
  {
    var _ := SortModules(a, rank);
    ghost var s := a[..];
    StaysSatisfiable(old(a[..]), s);
    assert Sorted(old(a[..]), s);
    for n := 0 to a.Length
      invariant StartedUpTo(s, a[..], n) && ProvidedBefore(s, n)
    {
      var ok := StartOne(a, n, s);
      if !ok {
        LeftOver(s, a[..], n);
        assert s[n] in s && !Satisfiable(s);
        left := a[..n] + a[n + 1..];
        assert left == a[..][..n] + a[..][n + 1..];
        return;
      }
    }
    assert Satisfiable(s);
    left := a[..];
  }

  /** A module that requires one that is not registered vanishes from the registry, although SUCCESS is returned. */
  method Vanishes(p: string, q: string) returns (left: seq<Module>)
    requires Lower(p) != Lower(q)
    ensures left == []
  {
    var x := Module(p, false, [Dep(q, Required)]);
    var a := new Module[1](_ => x);
    assert a[..] == [x];
    assert x.deps[0].kind == Required && !Registered([x], q) && !Provided([x], x);
    left := StartupModules(a, map[Lower(p) := 0]);
    assert x in [x] && !Satisfiable([x]);
    ghost var s :| Sorted([x], s) && exists n :: BrokeOff(s, n, left);
    assert |multiset(s)| == |multiset([x])|;
  }

  ghost predicate Sorted(s0: seq<Module>, s: seq<Module>) {
    multiset(s) == multiset(s0) && Ordered(s, |s|)
  }

  lemma StaysSatisfiable(s: seq<Module>, s': seq<Module>)
    requires multiset(s) == multiset(s')
    ensures Satisfiable(s) <==> Satisfiable(s')
  {
    forall m ensures m in s <==> m in s' { assert m in multiset(s) <==> m in multiset(s'); }
    forall name: string ensures Registered(s, name) <==> Registered(s', name) {
      if Registered(s, name) { SameNames(s, s', name); }
      if Registered(s', name) { SameNames(s', s, name); }
    }
    forall m: Module ensures Provided(s, m) <==> Provided(s', m) { }
  }

  lemma SameNames(s: seq<Module>, s': seq<Module>, name: string)
    requires multiset(s) == multiset(s') && Registered(s, name)
    ensures Registered(s', name)
  {
    var j :| 0 <= j < |s| && Lower(name) == Lower(s[j].name);
    assert s[j] in multiset(s);
    assert s[j] in s';
  }
}
