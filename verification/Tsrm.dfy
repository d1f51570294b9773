/** The thread-safe resource manager: per-thread storage for registered resources, kept in a hash
    table of chains under one mutex and cached in thread-local storage. */
module Tsrm {

  import opened Common

  /** A registered resource: whether it has a destructor, and whether its id was freed. */
  datatype ResType = ResType(dtor: bool, done: bool)

  /** The entry of a thread; `count` is the length of `storage`, whose slots hold blocks or NULL. */
  datatype Entry = Entry(thread: nat, storage: seq<Option<nat>>)

  /** How often each block was passed to its destructor and to `free`, and the slot it was made for. */
  datatype Log = Log(owner: map<nat, (nat, nat)>, destroyed: map<nat, nat>, freed: map<nat, nat>)

  /** The table of chains, each a list of entry addresses, the entries, and the thread-local pointers. */
  datatype State =
    State(types: seq<ResType>, chains: seq<seq<nat>>, entries: map<nat, Entry>, tls: map<nat, nat>, log: Log)

  function HashOf(thread: nat, size: nat): (h: nat)
    requires size > 0
    ensures h < size
  {
    thread % size
  }

  /** A multiple of the size is 0 or at least as far from 0 as the size. */
  lemma Multiple(k: int, size: int)
    requires size > 0
    ensures k == 0 || k * size >= size || k * size <= -size
  {
    if k >= 1 {
      assert (k - 1) * size >= 0;
    } else if k <= -1 {
      assert (-k - 1) * size >= 0;
    }
  }

  lemma Gathered(a: int, b: int, c: int, size: int)
    ensures a * size - b * size - c * size == (a - b - c) * size
  {
  }

  /** Two threads share a chain exactly if the table size divides their difference. */
  lemma Congruent(t: nat, thread: nat, size: nat)
    requires size > 0
    ensures HashOf(t, size) == HashOf(thread, size) <==> (t - thread) % size == 0
  {
    var q, q', p := t / size, thread / size, (t - thread) / size;
    Gathered(q, q', p, size);
    Multiple(q - q' - p, size);
  }

  // ---------------------------------------------------------------- the invariant

  /** The entry at `a` is in the chain of its thread, and no other entry has its thread. */
  ghost predicate Linked(s: State, a: nat)
    requires |s.chains| > 0
  {
    && a in s.entries && a in s.chains[HashOf(s.entries[a].thread, |s.chains|)]
    && forall b :: b in s.entries && s.entries[b].thread == s.entries[a].thread ==> a == b
  }

  /** Each chain links entries, each once, of threads that belong there. */
  ghost predicate ChainOk(s: State, h: nat)
    requires h < |s.chains|
  {
    && NoRepeat(s.chains[h])
    && forall a :: a in s.chains[h] ==> a in s.entries && HashOf(s.entries[a].thread, |s.chains|) == h
  }

  ghost predicate TableOk(s: State) {
    && |s.chains| > 0
    && (forall h: nat {:trigger ChainOk(s, h)} :: h < |s.chains| ==> ChainOk(s, h))
    && (forall a {:trigger Linked(s, a)} :: a in s.entries ==> Linked(s, a))
  }

  /** Slot `j` of the entry at `a` is NULL exactly if resource `j` is done; else its block is unharmed. */
  ghost predicate SlotOk(types: seq<ResType>, log: Log, e: Entry, a: nat, j: nat) {
    && j < |e.storage| && j < |types|
    && match e.storage[j] {
         case None => types[j].done
         case Some(b) =>
           && !types[j].done && b in log.owner && log.owner[b] == (a, j)
           && b in log.destroyed && log.destroyed[b] == 0 && b in log.freed && log.freed[b] == 0
       }
  }

  /** The entry has one slot for each of the first `n` resources. */
  ghost predicate EntryOk(types: seq<ResType>, log: Log, e: Entry, a: nat, n: nat) {
    |e.storage| == n <= |types| && forall j: nat {:trigger SlotOk(types, log, e, a, j)} :: j < n ==>
      SlotOk(types, log, e, a, j)
  }

  /** The block is in its slot. */
  ghost predicate Live(s: State, b: nat)
    requires b in s.log.owner
  {
    var (a, j) := s.log.owner[b];
    a in s.entries && j < |s.entries[a].storage| && s.entries[a].storage[j] == Some(b)
  }

  /** A block that is no longer in its slot went to its destructor once, if it has one, and was freed once. */
  ghost predicate BlockOk(s: State, b: nat) {
    && b in s.log.owner && b in s.log.destroyed && b in s.log.freed && s.log.owner[b].1 < |s.types|
    && (!Live(s, b) ==> s.log.freed[b] == 1 && s.log.destroyed[b] == if s.types[s.log.owner[b].1].dtor then 1 else 0)
  }

  /** What holds whenever the mutex is free. */
  ghost predicate Shared(s: State) {
    && TableOk(s)
    && (forall a {:trigger EntryOk(s.types, s.log, s.entries[a], a, |s.types|)} :: a in s.entries ==>
          EntryOk(s.types, s.log, s.entries[a], a, |s.types|))
    && (forall b {:trigger BlockOk(s, b)} :: b in s.log.owner ==> BlockOk(s, b))
  }

  /** The thread-local pointer of a thread is its entry: what holds as long as threads ask for their own
      resources only, do not swap contexts and do not free the entries of others. */
  ghost predicate Own(s: State) {
    && (forall t {:trigger s.tls[t]} :: t in s.tls ==> s.tls[t] in s.entries && s.entries[s.tls[t]].thread == t)
    && (forall a {:trigger s.entries[a]} :: a in s.entries ==>
         s.entries[a].thread in s.tls && s.tls[s.entries[a].thread] == a)
  }

  /** Block `b` is still known, for the same slot, and its counts have not fallen. */
  ghost predicate BlockKept(log: Log, log': Log, b: nat) {
    && b in log.owner && b in log'.owner && log'.owner[b] == log.owner[b]
    && (b in log.destroyed ==> b in log'.destroyed && log.destroyed[b] <= log'.destroyed[b])
    && (b in log.freed ==> b in log'.freed && log.freed[b] <= log'.freed[b])
  }

  /** No block is forgotten. */
  ghost predicate LogGrows(log: Log, log': Log) {
    forall b {:trigger BlockKept(log, log', b)} :: b in log.owner ==> BlockKept(log, log', b)
  }

  lemma GrowsTwice(log: Log, log1: Log, log2: Log)
    requires LogGrows(log, log1) && LogGrows(log1, log2)
    ensures LogGrows(log, log2)
  {
    forall b | b in log.owner ensures BlockKept(log, log2, b) {
      assert BlockKept(log, log1, b) && BlockKept(log1, log2, b);
    }
  }

  // ---------------------------------------------------------------- tearing down

  function Destroy(log: Log, b: nat): Log
    requires b in log.destroyed
  {
    log.(destroyed := log.destroyed[b := log.destroyed[b] + 1])
  }

  function Release(log: Log, b: nat): Log
    requires b in log.freed
  {
    log.(freed := log.freed[b := log.freed[b] + 1])
  }

  /** Block `b` is in one of the first `n` slots of the entry at `a`. */
  ghost predicate InSlots(log: Log, e: Entry, a: nat, n: nat, b: nat)
    requires b in log.owner && n <= |e.storage|
  {
    var (a0, j) := log.owner[b];
    a0 == a && 0 <= j < n && e.storage[j] == Some(b)
  }

  ghost predicate SameBlocks(log: Log, log': Log) {
    log'.owner == log.owner && log'.destroyed.Keys == log.destroyed.Keys && log'.freed.Keys == log.freed.Keys
  }

  /** The destructors ran for the blocks in the first `d` slots of the entry at `a`, and those in the
      first `f` slots were freed. */
  ghost predicate Torn(types: seq<ResType>, log: Log, log': Log, e: Entry, a: nat, d: nat, f: nat)
    requires d <= |e.storage| == |types| && f <= |e.storage|
  {
    && SameBlocks(log, log')
    && (forall b :: b in log.owner && b in log.destroyed ==>
          log'.destroyed[b] ==
          log.destroyed[b] + if InSlots(log, e, a, d, b) && types[log.owner[b].1].dtor then 1 else 0)
    && (forall b :: b in log.owner && b in log.freed ==>
          log'.freed[b] == log.freed[b] + if InSlots(log, e, a, f, b) then 1 else 0)
  }

  /** How many of the first `n` resources are done and have a destructor. */
  ghost function NullCalls(types: seq<ResType>, n: nat): nat
    requires n <= |types|
  {
    if n == 0 then 0 else NullCalls(types, n - 1) + if types[n - 1].done && types[n - 1].dtor then 1 else 0
  }

  /** A thread that leaves passes NULL to a destructor exactly if some freed resource has one. */
  lemma {:induction false} NullCallsExactly(types: seq<ResType>, n: nat)
    requires n <= |types|
    ensures NullCalls(types, n) > 0 <==> exists j :: 0 <= j < n && types[j].done && types[j].dtor
  {
    if n > 0 {
      NullCallsExactly(types, n - 1);
      assert types[n - 1].done && types[n - 1].dtor ==> NullCalls(types, n) > 0;
    }
  }

  lemma TornStart(types: seq<ResType>, log: Log, e: Entry, a: nat)
    requires |e.storage| == |types|
    ensures Torn(types, log, log, e, a, 0, 0)
  {
  }

  /** One more slot destroyed. */
  lemma TornDestroy(types: seq<ResType>, log: Log, log': Log, e: Entry, a: nat, i: nat, f: nat)
    requires i < |e.storage| == |types| && f <= |e.storage| && Torn(types, log, log', e, a, i, f) &&
             SlotOk(types, log, e, a, i)
    ensures var d := e.storage[i];
            d.Some? && types[i].dtor ==>
                d.value in log'.destroyed && Torn(types, log, Destroy(log', d.value), e, a, i + 1, f)
    ensures !(e.storage[i].Some? && types[i].dtor) ==> Torn(types, log, log', e, a, i + 1, f)
  {
  }

  /** One more slot freed. */
  lemma TornRelease(types: seq<ResType>, log: Log, log': Log, e: Entry, a: nat, d: nat, i: nat)
    requires i < |e.storage| == |types| && d <= |e.storage| && Torn(types, log, log', e, a, d, i) &&
             SlotOk(types, log, e, a, i)
    ensures var b := e.storage[i];
            b.Some? ==> b.value in log'.freed && Torn(types, log, Release(log', b.value), e, a, d, i + 1)
    ensures e.storage[i].None? ==> Torn(types, log, log', e, a, d, i + 1)
  {
  }

  /** The two loops of `ts_free_thread` over an entry: all destructors, then all frees. Slots that are
      NULL are passed to their destructors too: that happens `nulls` times. */
  method TearDown(types: seq<ResType>, e: Entry, ghost a: nat, log: Log) returns (log': Log, nulls: nat)
    requires EntryOk(types, log, e, a, |types|)
    ensures Torn(types, log, log', e, a, |types|, |types|) && nulls == NullCalls(types, |types|)
  {
    log', nulls := log, 0;
    TornStart(types, log, e, a);
    for i := 0 to |e.storage|
      invariant Torn(types, log, log', e, a, i, 0) && nulls == NullCalls(types, i)
    {
      assert SlotOk(types, log, e, a, i);
      TornDestroy(types, log, log', e, a, i, 0);
      if types[i].dtor {
        if e.storage[i].Some? {
          log' := Destroy(log', e.storage[i].value);
        } else {
          nulls := nulls + 1;
        }
      }
    }
    for i := 0 to |e.storage|
      invariant Torn(types, log, log', e, a, |types|, i)
    {
      assert SlotOk(types, log, e, a, i);
      TornRelease(types, log, log', e, a, |types|, i);
      if e.storage[i].Some? {
        log' := Release(log', e.storage[i].value);
      }
    }
  }

  /** The loop of `tsrm_shutdown` over an entry: each slot that is not NULL destroyed and freed. */
  method TearDownAtShutdown(types: seq<ResType>, e: Entry, ghost a: nat, log: Log) returns (log': Log)
    requires EntryOk(types, log, e, a, |types|)
    ensures Torn(types, log, log', e, a, |types|, |types|)
  {
    log' := log;
    TornStart(types, log, e, a);
    for i := 0 to |e.storage|
      invariant Torn(types, log, log', e, a, i, i)
    {
      assert SlotOk(types, log, e, a, i);
      TornDestroy(types, log, log', e, a, i, i);
      if e.storage[i].Some? {
        if !types[i].done && types[i].dtor {
          log' := Destroy(log', e.storage[i].value);
        }
        TornRelease(types, log, log', e, a, i + 1, i);
        log' := Release(log', e.storage[i].value);
      } else {
        TornRelease(types, log, log', e, a, i + 1, i);
      }
    }
  }

  lemma TornGrows(types: seq<ResType>, log: Log, log': Log, e: Entry, a: nat, d: nat, f: nat)
    requires d <= |e.storage| == |types| && f <= |e.storage| && Torn(types, log, log', e, a, d, f)
    ensures LogGrows(log, log')
  {
  }

  function Unlink(chain: seq<nat>, i: nat): seq<nat>
    requires i < |chain|
  {
    chain[..i] + chain[i + 1..]
  }

  /** The entry at place `i` of chain `h` taken out, with its blocks torn down. */
  function Removed(s: State, h: nat, i: nat, log': Log): State
    requires h < |s.chains| && i < |s.chains[h]|
  {
    s.(chains := s.chains[h := Unlink(s.chains[h], i)], entries := s.entries - {s.chains[h][i]}, log := log')
  }

  lemma Unlinked(chain: seq<nat>, i: nat)
    requires i < |chain| && NoRepeat(chain)
    ensures NoRepeat(Unlink(chain, i)) && forall a :: a in Unlink(chain, i) <==> a in chain && a != chain[i]
  {
    var u := Unlink(chain, i);
    forall k | 0 <= k < |u| ensures u[k] == chain[if k < i then k else k + 1] { }
    forall a | a in chain && a != chain[i] ensures a in u {
      var k :| 0 <= k < |chain| && chain[k] == a;
      assert u[if k < i then k else k - 1] == a;
    }
  }

  lemma RemoveKeepsTable(s: State, h: nat, i: nat, log': Log)
    requires TableOk(s) && h < |s.chains| && i < |s.chains[h]|
    ensures TableOk(Removed(s, h, i, log')) && s.chains[h][i] in s.entries
  {
    var s', a := Removed(s, h, i, log'), s.chains[h][i];
    assert ChainOk(s, h);
    Unlinked(s.chains[h], i);
    forall h': nat | h' < |s'.chains| ensures ChainOk(s', h') {
      assert ChainOk(s, h');
    }
    forall b | b in s'.entries ensures Linked(s', b) { assert Linked(s, b); }
  }

  lemma RemoveKeeps(s: State, h: nat, i: nat, log': Log)
    requires Shared(s) && h < |s.chains| && i < |s.chains[h]| && s.chains[h][i] in s.entries
    requires |s.entries[s.chains[h][i]].storage| == |s.types|
    requires Torn(s.types, s.log, log', s.entries[s.chains[h][i]], s.chains[h][i], |s.types|, |s.types|)
    ensures Shared(Removed(s, h, i, log'))
  {
    RemoveKeepsTable(s, h, i, log');
    var s', a := Removed(s, h, i, log'), s.chains[h][i];
    forall c | c in s'.entries ensures EntryOk(s'.types, s'.log, s'.entries[c], c, |s'.types|) {
      var e := s.entries[c];
      assert EntryOk(s.types, s.log, e, c, |s.types|);
      forall j: nat | j < |s.types| ensures SlotOk(s.types, log', e, c, j) { assert SlotOk(s.types, s.log, e, c, j); }
    }
    forall b | b in s'.log.owner ensures BlockOk(s', b) {
      assert BlockOk(s, b);
      var (c, j) := s.log.owner[b];
      if Live(s, b) {
        assert EntryOk(s.types, s.log, s.entries[c], c, |s.types|) && SlotOk(s.types, s.log, s.entries[c], c, j);
      }
    }
  }

  // ---------------------------------------------------------------- new entries

  /** A block made for slot `j` of the entry at `a`. */
  function Record(log: Log, b: nat, a: nat, j: nat): Log {
    Log(log.owner[b := (a, j)], log.destroyed[b := 0], log.freed[b := 0])
  }

  method Fresh<T>(used: map<nat, T>) returns (b: nat)
    ensures b !in used
  {
    b := 0;
    ghost var left := used.Keys;
    while b in used
      invariant forall i :: i in used && i >= b ==> i in left
      decreases left
    {
      left := left - {b};
      b := b + 1;
    }
  }

  ghost predicate SameBlock(log: Log, log': Log, b: nat) {
    && b in log'.owner && b in log.owner && log'.owner[b] == log.owner[b]
    && (b in log.destroyed ==> b in log'.destroyed && log'.destroyed[b] == log.destroyed[b])
    && (b in log.freed ==> b in log'.freed && log'.freed[b] == log.freed[b])
  }

  ghost predicate NewBlock(log': Log, storage: seq<Option<nat>>, a: nat, b: nat) {
    && b in log'.owner && b in log'.destroyed && b in log'.freed
    && log'.owner[b].0 == a && 0 <= log'.owner[b].1 < |storage| && storage[log'.owner[b].1] == Some(b)
  }

  /** All that is new in `log'` are the blocks in the slots of the entry at `a`. */
  ghost predicate Extended(log: Log, log': Log, storage: seq<Option<nat>>, a: nat) {
    && (forall b {:trigger SameBlock(log, log', b)} :: b in log.owner ==> SameBlock(log, log', b))
    && (forall b {:trigger NewBlock(log', storage, a, b)} :: b in log'.owner && b !in log.owner ==>
       NewBlock(log', storage, a, b))
    && (forall j :: 0 <= j < |storage| && storage[j].Some? ==> storage[j].value !in log.owner)
  }

  lemma ExtendedGrows(log: Log, log': Log, storage: seq<Option<nat>>, a: nat)
    requires Extended(log, log', storage, a)
    ensures LogGrows(log, log')
  {
    forall b | b in log.owner ensures BlockKept(log, log', b) { assert SameBlock(log, log', b); }
  }

  lemma ExtendNull(log: Log, log': Log, storage: seq<Option<nat>>, a: nat)
    requires Extended(log, log', storage, a)
    ensures Extended(log, log', storage + [None], a)
  {
    forall b | b in log'.owner && b !in log.owner ensures NewBlock(log', storage + [None], a, b) {
      assert NewBlock(log', storage, a, b);
    }
  }

  lemma ExtendBlock(log: Log, log': Log, storage: seq<Option<nat>>, a: nat, b: nat)
    requires Extended(log, log', storage, a) && b !in log'.owner
    ensures Extended(log, Record(log', b, a, |storage|), storage + [Some(b)], a)
  {
    var log2 := Record(log', b, a, |storage|);
    forall c | c in log.owner ensures SameBlock(log, log2, c) { assert SameBlock(log, log', c); }
    assert b in log.owner ==> SameBlock(log, log', b);
    forall c | c in log2.owner && c !in log.owner ensures NewBlock(log2, storage + [Some(b)], a, c) {
      if c != b { assert NewBlock(log', storage, a, c); }
    }
  }

  /** The storage of a new entry: a block for each resource that is not done. */
  method NewStorage(types: seq<ResType>, ghost thread: nat, a: nat, log: Log)
    returns (storage: seq<Option<nat>>, log': Log)
    ensures EntryOk(types, log', Entry(thread, storage), a, |types|) && Extended(log, log', storage, a)
  {
    storage, log' := [], log;
    for i := 0 to |types|
      invariant EntryOk(types, log', Entry(thread, storage), a, i) && Extended(log, log', storage, a)
    {
      ghost var e, was := Entry(thread, storage), log';
      if types[i].done {
        ExtendNull(log, log', storage, a);
        storage := storage + [None];
      } else {
        var b := Fresh(log'.owner);
        ExtendBlock(log, log', storage, a, b);
        log' := Record(log', b, a, i);
        storage := storage + [Some(b)];
      }
      forall j: nat | j < i + 1 ensures SlotOk(types, log', Entry(thread, storage), a, j) {
        if j < i { assert SlotOk(types, was, e, a, j); }
      }
    }
  }

  /** The entry `e` linked at `a`, with the thread-local pointer of the calling thread set to it. */
  function Added(s: State, caller: nat, a: nat, e: Entry, log': Log): State
    requires |s.chains| > 0
  {
    var h := HashOf(e.thread, |s.chains|);
    s.(chains := s.chains[h := s.chains[h] + [a]], entries := s.entries[a := e], tls := s.tls[caller := a], log := log')
  }

  lemma AddKeepsTable(s: State, caller: nat, a: nat, e: Entry, log': Log)
    requires TableOk(s) && a !in s.entries && forall c :: c in s.entries ==> s.entries[c].thread != e.thread
    ensures TableOk(Added(s, caller, a, e, log'))
  {
    var s' := Added(s, caller, a, e, log');
    forall h: nat | h < |s'.chains| ensures ChainOk(s', h) { assert ChainOk(s, h); }
    forall c | c in s'.entries ensures Linked(s', c) { if c != a { assert Linked(s, c); } }
  }

  lemma AddKeeps(s: State, caller: nat, a: nat, e: Entry, log': Log)
    requires Shared(s) && a !in s.entries && forall c :: c in s.entries ==> s.entries[c].thread != e.thread
    requires EntryOk(s.types, log', e, a, |s.types|) && Extended(s.log, log', e.storage, a)
    ensures Shared(Added(s, caller, a, e, log')) && (Own(s) && caller == e.thread ==> Own(Added(s, caller, a, e, log')))
  {
    AddKeepsTable(s, caller, a, e, log');
    var s' := Added(s, caller, a, e, log');
    forall c | c in s'.entries ensures EntryOk(s'.types, s'.log, s'.entries[c], c, |s'.types|) {
      if c != a {
        assert EntryOk(s.types, s.log, s.entries[c], c, |s.types|);
        forall j: nat | j < |s.types| ensures SlotOk(s.types, log', s.entries[c], c, j) {
          var d := s.entries[c].storage[j];
          assert SlotOk(s.types, s.log, s.entries[c], c, j) && (d.Some? ==> SameBlock(s.log, log', d.value));
        }
      }
    }
    forall b | b in s'.log.owner ensures BlockOk(s', b) {
      if b in s.log.owner {
        assert BlockOk(s, b) && SameBlock(s.log, log', b);
      } else {
        assert NewBlock(log', e.storage, a, b);
      }
    }
  }

  // ---------------------------------------------------------------- new resources

  /** `Shared`, but entries may still lack the slot of the last resource. */
  ghost predicate Growing(s: State) {
    && TableOk(s) && |s.types| > 0 && !s.types[|s.types| - 1].done
    && (forall a {:trigger s.entries[a]} :: a in s.entries ==>
          |s.types| - 1 <= |s.entries[a].storage| && EntryOk(s.types, s.log, s.entries[a], a, |s.entries[a].storage|))
    && (forall b {:trigger BlockOk(s, b)} :: b in s.log.owner ==> BlockOk(s, b))
  }

  lemma GrowStarts(s: State, dtor: bool)
    requires Shared(s)
    ensures Growing(s.(types := s.types + [ResType(dtor, false)]))
  {
    var s' := s.(types := s.types + [ResType(dtor, false)]);
    forall h: nat | h < |s'.chains| ensures ChainOk(s', h) { assert ChainOk(s, h); }
    forall a | a in s'.entries ensures Linked(s', a) && EntryOk(s'.types, s'.log, s'.entries[a], a, |s.types|) {
      assert Linked(s, a) && EntryOk(s.types, s.log, s.entries[a], a, |s.types|);
      forall j: nat | j < |s.types| ensures SlotOk(s'.types, s.log, s.entries[a], a, j) {
        assert SlotOk(s.types, s.log, s.entries[a], a, j);
      }
    }
    forall b | b in s'.log.owner ensures BlockOk(s', b) { assert BlockOk(s, b); }
  }

  /** The entry at `a` given a block for its next slot. */
  function Grown(s: State, a: nat, b: nat): State
    requires a in s.entries
  {
    var e := s.entries[a];
    s.(entries := s.entries[a := e.(storage := e.storage + [Some(b)])], log := Record(s.log, b, a, |e.storage|))
  }

  lemma GrowKeepsTable(s: State, a: nat, b: nat)
    requires TableOk(s) && a in s.entries
    ensures TableOk(Grown(s, a, b))
  {
    var s' := Grown(s, a, b);
    forall h: nat | h < |s'.chains| ensures ChainOk(s', h) { assert ChainOk(s, h); }
    forall c | c in s'.entries ensures Linked(s', c) { assert Linked(s, c); }
  }

  lemma GrowKeepsEntry(s: State, a: nat, b: nat, c: nat)
    requires Growing(s) && a in s.entries && |s.entries[a].storage| < |s.types| && b !in s.log.owner && c in s.entries
    ensures var s' := Grown(s, a, b); EntryOk(s'.types, s'.log, s'.entries[c], c, |s'.entries[c].storage|)
  {
    var s', e := Grown(s, a, b), s.entries[c];
    forall j: nat | j < |s'.entries[c].storage| ensures SlotOk(s.types, s'.log, s'.entries[c], c, j) {
      if j < |e.storage| { assert SlotOk(s.types, s.log, e, c, j); }
    }
  }

  lemma GrowKeeps(s: State, a: nat, b: nat)
    requires Growing(s) && a in s.entries && |s.entries[a].storage| < |s.types| && b !in s.log.owner
    ensures Growing(Grown(s, a, b))
  {
    var s' := Grown(s, a, b);
    GrowKeepsTable(s, a, b);
    forall c | c in s'.entries ensures EntryOk(s'.types, s'.log, s'.entries[c], c, |s'.entries[c].storage|) {
      GrowKeepsEntry(s, a, b, c);
    }
    forall x | x in s'.log.owner ensures BlockOk(s', x) {
      if x != b { assert BlockOk(s, x); }
    }
  }

  /** Every entry was reached before place `i` of chain `h`. */
  ghost predicate Reached(s: State, h: nat, i: nat, a: nat) {
    || (exists h': nat :: h' < h && h' < |s.chains| && a in s.chains[h'])
    || (h < |s.chains| && exists i': nat :: i' < i && i' < |s.chains[h]| && s.chains[h][i'] == a)
  }

  lemma AllReached(s: State, a: nat)
    requires TableOk(s) && a in s.entries
    ensures Reached(s, |s.chains|, 0, a)
  {
    assert Linked(s, a);
  }

  /** All entries reached before place `i` of chain `h` have a slot for every resource. */
  ghost predicate GrownSoFar(s0: State, s: State, h: nat, i: nat) {
    && Growing(s) && Follows(s0, s)
    && forall a {:trigger Reached(s, h, i, a)} :: a in s.entries && Reached(s, h, i, a) ==>
       |s.entries[a].storage| == |s.types|
  }

  /** One entry of `ts_allocate_id`: its missing slots filled. */
  method GrowEntry(s0: State, s: State, h: nat, i: nat) returns (s': State)
    requires GrownSoFar(s0, s, h, i) && h < |s.chains| && i < |s.chains[h]|
    ensures GrownSoFar(s0, s', h, i + 1)
  {
    s' := s;
    var a := s'.chains[h][i];
    assert ChainOk(s', h);
    while |s'.entries[a].storage| < |s'.types|
      invariant GrownSoFar(s0, s', h, i) && s'.chains == s.chains && a in s'.entries
      decreases |s'.types| - |s'.entries[a].storage|
    {
      var b := Fresh(s'.log.owner);
      GrowKeeps(s', a, b);
      GrownFollows(s0, s', a, b);
      forall c ensures Reached(Grown(s', a, b), h, i, c) <==> Reached(s', h, i, c) { }
      s' := Grown(s', a, b);
    }
    forall c | c in s'.entries && Reached(s', h, i + 1, c) ensures |s'.entries[c].storage| == |s'.types| {
      NextReached(s', h, i, c);
    }
  }

  lemma NextReached(s: State, h: nat, i: nat, c: nat)
    requires h < |s.chains| && i < |s.chains[h]| && Reached(s, h, i + 1, c)
    ensures Reached(s, h, i, c) || c == s.chains[h][i]
  {
  }

  lemma ChainReached(s: State, h: nat, c: nat)
    requires h < |s.chains| && Reached(s, h + 1, 0, c)
    ensures Reached(s, h, |s.chains[h]|, c)
  {
    if c in s.chains[h] {
      var i :| 0 <= i < |s.chains[h]| && s.chains[h][i] == c;
    }
  }

  lemma GrownFollows(s0: State, s: State, a: nat, b: nat)
    requires Follows(s0, s) && a in s.entries && b !in s.log.owner
    ensures Follows(s0, Grown(s, a, b))
  {
    forall c | c in s0.log.owner ensures BlockKept(s0.log, Grown(s, a, b).log, c) {
      assert BlockKept(s0.log, s.log, c);
    }
  }

  /** The loops of `ts_allocate_id` over all chains. */
  method GrowAll(s: State) returns (s': State)
    requires Growing(s)
    ensures Shared(s') && Follows(s, s')
  {
    s' := s;
    for h := 0 to |s.chains|
      invariant GrownSoFar(s, s', h, 0)
    {
      for i := 0 to |s.chains[h]|
        invariant GrownSoFar(s, s', h, i)
      {
        s' := GrowEntry(s, s', h, i);
      }
      forall c | c in s'.entries && Reached(s', h + 1, 0, c) ensures |s'.entries[c].storage| == |s'.types| {
        ChainReached(s', h, c);
      }
    }
    forall a | a in s'.entries ensures EntryOk(s'.types, s'.log, s'.entries[a], a, |s'.types|) { AllReached(s', a); }
  }

  ghost predicate Follows(s: State, s': State) {
    && LogGrows(s.log, s'.log)
    && s'.types == s.types && s'.chains == s.chains && s'.tls == s.tls && s'.entries.Keys == s.entries.Keys
    && forall a :: a in s.entries ==>
         s'.entries[a].thread == s.entries[a].thread && |s.entries[a].storage| <= |s'.entries[a].storage| &&
         s'.entries[a].storage[..|s.entries[a].storage|] == s.entries[a].storage
  }

  // ---------------------------------------------------------------- freeing a resource

  /** `Shared`, but slot `j` of an entry may be NULL already. */
  ghost predicate Clearing(s: State, j: nat) {
    && TableOk(s) && j < |s.types|
    && (forall a {:trigger s.entries[a]} :: a in s.entries ==>
         |s.entries[a].storage| == |s.types| && ClearEntry(s.types, s.log, s.entries[a], a, j))
    && (forall b {:trigger BlockOk(s, b)} :: b in s.log.owner ==> BlockOk(s, b))
  }

  ghost predicate ClearEntry(types: seq<ResType>, log: Log, e: Entry, a: nat, j: nat) {
    forall k: nat {:trigger SlotOk(types, log, e, a, k)} :: k < |types| ==>
      SlotOk(types, log, e, a, k) || (k == j && k < |e.storage| && e.storage[k] == None)
  }

  /** Slot `j` of the entry at `a` destroyed, freed and set to NULL. */
  function Cleared(s: State, a: nat, j: nat): State
    requires a in s.entries && j < |s.entries[a].storage| && j < |s.types| && s.entries[a].storage[j].Some?
    requires s.entries[a].storage[j].value in s.log.destroyed && s.entries[a].storage[j].value in s.log.freed
  {
    var e := s.entries[a];
    var b := e.storage[j].value;
    var log := if s.types[j].dtor then Destroy(s.log, b) else s.log;
    s.(entries := s.entries[a := e.(storage := e.storage[j := None])], log := Release(log, b))
  }

  lemma ClearKeeps(s: State, a: nat, j: nat)
    requires Clearing(s, j) && a in s.entries && s.entries[a].storage[j].Some?
    ensures var b := s.entries[a].storage[j].value; b in s.log.destroyed && b in s.log.freed
    ensures Clearing(Cleared(s, a, j), j)
  {
    var e := s.entries[a];
    var b := e.storage[j].value;
    assert SlotOk(s.types, s.log, e, a, j);
    var s' := Cleared(s, a, j);
    forall h: nat | h < |s'.chains| ensures ChainOk(s', h) { assert ChainOk(s, h); }
    forall c | c in s'.entries ensures Linked(s', c) { assert Linked(s, c); }
    forall c | c in s'.entries ensures ClearEntry(s'.types, s'.log, s'.entries[c], c, j) {
      assert ClearEntry(s.types, s.log, s.entries[c], c, j);
      forall k: nat | k < |s.types|
        ensures SlotOk(s'.types, s'.log, s'.entries[c], c, k) || (k == j && s'.entries[c].storage[k] == None)
      {
        assert SlotOk(s.types, s.log, s.entries[c], c, k) || (k == j && s.entries[c].storage[k] == None);
      }
    }
    forall x | x in s'.log.owner ensures BlockOk(s', x) { assert BlockOk(s, x); }
  }

  /** The same entries, of the same threads, in the same chains, with other slots. */
  ghost predicate SameEntries(s: State, s': State) {
    && s'.chains == s.chains && s'.tls == s.tls && s'.entries.Keys == s.entries.Keys
    && forall a :: a in s.entries ==> s'.entries[a].thread == s.entries[a].thread
  }

  ghost predicate ClearedSoFar(s0: State, s: State, j: nat, h: nat, i: nat) {
    && Clearing(s, j) && SameEntries(s0, s) && s.types == s0.types && LogGrows(s0.log, s.log)
    && forall a {:trigger Reached(s, h, i, a)} :: a in s.entries && Reached(s, h, i, a) ==>
       s.entries[a].storage[j] == None
  }

  /** The loops of `ts_free_id` over all chains. */
  method ClearAll(s: State, j: nat) returns (s': State)
    requires Shared(s) && j < |s.types|
    ensures Clearing(s', j) && SameEntries(s, s') && s'.types == s.types && LogGrows(s.log, s'.log)
    ensures forall a :: a in s'.entries ==> s'.entries[a].storage[j] == None
  {
    s' := s;
    ClearStarts(s, j);
    for h := 0 to |s.chains|
      invariant ClearedSoFar(s, s', j, h, 0)
    {
      for i := 0 to |s.chains[h]|
        invariant ClearedSoFar(s, s', j, h, i)
      {
        s' := ClearPlace(s, s', j, h, i);
      }
      forall c | c in s'.entries && Reached(s', h + 1, 0, c) ensures s'.entries[c].storage[j] == None {
        ChainReached(s', h, c);
      }
    }
    forall a | a in s'.entries ensures s'.entries[a].storage[j] == None { AllReached(s', a); }
  }

  lemma ClearStarts(s: State, j: nat)
    requires Shared(s) && j < |s.types|
    ensures ClearedSoFar(s, s, j, 0, 0)
  {
    forall a | a in s.entries
      ensures |s.entries[a].storage| == |s.types| && ClearEntry(s.types, s.log, s.entries[a], a, j)
    {
      assert EntryOk(s.types, s.log, s.entries[a], a, |s.types|);
    }
  }

  method ClearPlace(s0: State, s: State, j: nat, h: nat, i: nat) returns (s': State)
    requires ClearedSoFar(s0, s, j, h, i) && h < |s.chains| && i < |s.chains[h]|
    ensures ClearedSoFar(s0, s', j, h, i + 1)
  {
    s' := s;
    var a := s.chains[h][i];
    assert ChainOk(s, h);
    if s.entries[a].storage[j].Some? {
      ClearKeeps(s, a, j);
      s' := Cleared(s, a, j);
      forall b | b in s0.log.owner ensures BlockKept(s0.log, s'.log, b) { assert BlockKept(s0.log, s.log, b); }
    }
    forall c | c in s'.entries && Reached(s', h, i + 1, c) ensures s'.entries[c].storage[j] == None {
      NextReached(s', h, i, c);
      assert Reached(s', h, i, c) ==> Reached(s, h, i, c);
    }
  }

  lemma ClearEnds(s: State, j: nat)
    requires Clearing(s, j) && forall a :: a in s.entries ==> s.entries[a].storage[j] == None
    ensures Shared(s.(types := s.types[j := s.types[j].(done := true)]))
  {
    var s' := s.(types := s.types[j := s.types[j].(done := true)]);
    forall h: nat | h < |s'.chains| ensures ChainOk(s', h) { assert ChainOk(s, h); }
    forall a | a in s'.entries ensures Linked(s', a) && EntryOk(s'.types, s'.log, s'.entries[a], a, |s'.types|) {
      assert Linked(s, a) && ClearEntry(s.types, s.log, s.entries[a], a, j);
      forall k: nat | k < |s.types| ensures SlotOk(s'.types, s.log, s.entries[a], a, k) {
        assert SlotOk(s.types, s.log, s.entries[a], a, k) || (k == j && s.entries[a].storage[k] == None);
      }
    }
    forall b | b in s'.log.owner ensures BlockOk(s', b) { assert BlockOk(s, b); }
  }

  // ---------------------------------------------------------------- lookups

  /** The entry at `a` is that of the thread. */
  ghost predicate Finds(s: State, thread: nat, a: nat) {
    a in s.entries && s.entries[a].thread == thread
  }

  /** The thread-local pointer gives the entry that the walk of the chain would find, and no other. */
  lemma FastIsSlow(s: State, thread: nat, a: nat)
    requires Shared(s) && Own(s)
    ensures thread in s.tls && s.tls[thread] == a <==> Finds(s, thread, a)
  {
  }

  lemma InChain(s: State, a: nat)
    requires TableOk(s) && a in s.entries
    ensures a in s.chains[HashOf(s.entries[a].thread, |s.chains|)]
  {
    assert Linked(s, a);
  }

  lemma OwnAfterRemoval(s: State, h: nat, i: nat, log': Log)
    requires TableOk(s) && Own(s) && h < |s.chains| && i < |s.chains[h]| && s.chains[h][i] in s.entries
    ensures var t := s.entries[s.chains[h][i]].thread;
            Own(Removed(s, h, i, log').(tls := s.tls - {t}))
  {
    var a := s.chains[h][i];
    assert Linked(s, a);
  }

  lemma OwnKept(s: State, s': State)
    requires Own(s) && SameEntries(s, s')
    ensures Own(s')
  {
  }

  // ---------------------------------------------------------------- the manager

  class Manager {
    var s: State
    /** `tsmm_mutex`, and how often it was taken and given back. */
    var locked: bool
    var acquired: nat
    var released: nat

    /** The mutex is free, and was given back as often as it was taken. */
    ghost predicate Idle()
      reads this
    {
      !locked && acquired == released && Shared(s)
    }

    /** `tsrm_startup` */
    constructor (expectedThreads: nat)
      requires expectedThreads > 0
      ensures Idle() && Own(s) && s.types == [] && s.entries == map[] && s.log.owner == map[]
      ensures |s.chains| == expectedThreads
    {
      s := State([], seq(expectedThreads, _ => []), map[], map[], Log(map[], map[], map[]));
      locked, acquired, released := false, 0, 0;
    }

    method Lock()
      requires !locked
      modifies `locked, `acquired
      ensures locked && acquired == old(acquired) + 1
    {
      locked, acquired := true, acquired + 1;
    }

    method Unlock()
      requires locked
      modifies `locked, `released
      ensures !locked && released == old(released) + 1
    {
      locked, released := false, released + 1;
    }

    /** The walk of a chain to the entry of a thread, or to its end. */
    method Find(thread: nat) returns (h: nat, i: nat)
      requires TableOk(s)
      ensures h < |s.chains| && h == HashOf(thread, |s.chains|) && i <= |s.chains[h]|
      ensures i < |s.chains[h]| ==> Finds(s, thread, s.chains[h][i])
      ensures i == |s.chains[h]| ==> forall a :: !Finds(s, thread, a)
    {
      h, i := HashOf(thread, |s.chains|), 0;
      assert ChainOk(s, h);
      while i < |s.chains[h]| && s.entries[s.chains[h][i]].thread != thread
        invariant i <= |s.chains[h]| && forall k :: 0 <= k < i ==> s.entries[s.chains[h][k]].thread != thread
      {
        i := i + 1;
      }
      if i == |s.chains[h]| {
        forall a ensures !Finds(s, thread, a) {
          if Finds(s, thread, a) { InChain(s, a); }
        }
      }
    }

    /** `ts_allocate_id`: every entry gets a slot with a block for the new resource. */
    method AllocateId(dtor: bool) returns (id: nat)
      requires Idle()
      modifies this
      ensures Idle() && LogGrows(old(s).log, s.log) && (old(Own(s)) ==> Own(s)) && SameEntries(old(s), s)
      ensures id == |old(s).types| && s.types == old(s).types + [ResType(dtor, false)]
    {
      Lock();
      id := |s.types|;
      GrowStarts(s, dtor);
      ghost var s0 := s;
      s := s.(types := s.types + [ResType(dtor, false)]);
      s := GrowAll(s);
      Unlock();
      if old(Own(s)) { OwnKept(s0, s); }
    }

    /** `ts_free_id` */
    method FreeId(j: nat)
      requires Idle() && j < |s.types|
      modifies this
      ensures Idle() && LogGrows(old(s).log, s.log) && (old(Own(s)) ==> Own(s)) && SameEntries(old(s), s)
      ensures s.types == old(s).types[j := old(s).types[j].(done := true)]
      ensures forall a :: a in s.entries ==> |s.entries[a].storage| == |s.types| && s.entries[a].storage[j] == None
    {
      Lock();
      ghost var s0 := s;
      s := ClearAll(s, j);
      ClearEnds(s, j);
      s := s.(types := s.types[j := s.types[j].(done := true)]);
      Unlock();
      if old(Own(s)) { OwnKept(s0, s); }
    }

    /** `allocate_new_resource`, which gives the mutex back. */
    method AllocateNewResource(caller: nat, thread: nat) returns (a: nat)
      requires locked && acquired == released + 1 && Shared(s) && forall c :: !Finds(s, thread, c)
      modifies this
      ensures Idle() && a !in old(s).entries && Finds(s, thread, a) && s.entries - {a} == old(s).entries &&
              s.types == old(s).types
      ensures s.tls == old(s).tls[caller := a] && (old(Own(s)) && caller == thread ==> Own(s)) &&
              LogGrows(old(s).log, s.log)
      ensures |s.chains| == |old(s).chains|
    {
      a := Fresh(s.entries);
      assert forall c :: c in s.entries ==> s.entries[c].thread != thread by {
        forall c | c in s.entries ensures s.entries[c].thread != thread { assert !Finds(s, thread, c); }
      }
      var storage, log := NewStorage(s.types, thread, a, s.log);
      AddKeeps(s, caller, a, Entry(thread, storage), log);
      ExtendedGrows(s.log, log, storage, a);
      s := Added(s, caller, a, Entry(thread, storage), log);
      Unlock();
    }

    /** The part of `ts_resource_ex` under the mutex, in which `caller` asks for the resources of `thread`:
        the entry, or a new one after which it starts over. */
    method Enter(caller: nat, thread: nat) returns (found: bool, a: nat)
      requires Idle()
      modifies this
      ensures Idle() && Finds(s, thread, a) && (old(Own(s)) && caller == thread ==> Own(s)) && s.types == old(s).types
      ensures LogGrows(old(s).log, s.log)
      ensures found <==> exists c :: Finds(old(s), thread, c)
      ensures found ==> s == old(s)
      ensures |s.chains| == |old(s).chains|
      ensures !found ==> a !in old(s).entries && s.entries - {a} == old(s).entries && s.tls == old(s).tls[caller := a]
    {
      Lock();
      var h, i := Find(thread);
      if i == |s.chains[h]| {
        found := false;
        a := AllocateNewResource(caller, thread);
      } else {
        found, a := true, s.chains[h][i];
        Unlock();
      }
    }

    /** `ts_resource_ex` without a thread id, undisturbed: the second round always finds the entry. */
    method Resource(thread: nat) returns (a: nat)
      requires Idle() && Own(s)
      modifies this
      ensures Idle() && Own(s) && Finds(s, thread, a) && thread in s.tls && s.tls[thread] == a
      ensures LogGrows(old(s).log, s.log)
      ensures (exists c :: Finds(old(s), thread, c)) ==> s == old(s)
    {
      if thread in s.tls {
        return s.tls[thread];
      }
      forall c ensures !Finds(s, thread, c) { FastIsSlow(s, thread, c); }
      var found;
      found, a := Enter(thread, thread);
      if !found {
        ghost var log := s.log;
        found, a := Enter(thread, thread);
        assert found;
        GrowsTwice(old(s).log, log, s.log);
      }
    }

    /** `ts_free_thread` */
    method FreeThread(thread: nat) returns (nulls: nat)
      requires Idle()
      modifies this
      ensures Idle() && (old(Own(s)) ==> Own(s)) && s.types == old(s).types && forall a :: !Finds(s, thread, a)
      ensures LogGrows(old(s).log, s.log)
      ensures s.entries == OtherThan(old(s), thread)
      ensures nulls == if exists a :: Finds(old(s), thread, a) then NullCalls(s.types, |s.types|) else 0
    {
      Lock();
      nulls := 0;
      var h, i := Find(thread);
      if i < |s.chains[h]| {
        var a := s.chains[h][i];
        assert EntryOk(s.types, s.log, s.entries[a], a, |s.types|) && Linked(s, a) && Finds(s, thread, a);
        assert s.entries - {a} == OtherThan(s, thread);
        var log;
        log, nulls := TearDown(s.types, s.entries[a], a, s.log);
        TornGrows(s.types, s.log, log, s.entries[a], a, |s.types|, |s.types|);
        RemoveKeeps(s, h, i, log);
        if Own(s) { OwnAfterRemoval(s, h, i, log); }
        s := Removed(s, h, i, log).(tls := s.tls - {thread});
        SharedIgnoresTls(Removed(old(s), h, i, log), s);
      } else {
        forall c | c in s.entries ensures s.entries[c].thread != thread { assert !Finds(s, thread, c); }
        assert s.entries == OtherThan(s, thread);
      }
      Unlock();
    }

    /** `ts_free_worker_threads`: only the chain of the calling thread is walked. */
    method FreeWorkerThreads(thread: nat)
      requires Idle()
      modifies this
      ensures Idle() && s.types == old(s).types && s.tls == old(s).tls && |s.chains| == |old(s).chains|
      ensures LogGrows(old(s).log, s.log)
      ensures s.entries == map a | a in old(s).entries && !Worker(old(s), thread, a) :: old(s).entries[a]
    {
      Lock();
      var h, i := HashOf(thread, |s.chains|), 0;
      while i < |s.chains[h]|
        invariant locked && acquired == released + 1 && Shared(s) && LogGrows(old(s).log, s.log)
        invariant s.types == old(s).types && s.tls == old(s).tls && |s.chains| == |old(s).chains| && i <= |s.chains[h]|
        invariant forall k :: 0 <= k < i ==> Finds(s, thread, s.chains[h][k])
        invariant forall a :: a in s.entries ==> a in old(s).entries && s.entries[a] == old(s).entries[a]
        invariant forall a :: a in old(s).entries && a !in s.entries ==> Worker(old(s), thread, a)
        decreases |s.chains[h]| - i
      {
        var a := s.chains[h][i];
        assert ChainOk(s, h);
        assert EntryOk(s.types, s.log, s.entries[a], a, |s.types|);
        if s.entries[a].thread != thread {
          Congruent(s.entries[a].thread, thread, |s.chains|);
          var log, _ := TearDown(s.types, s.entries[a], a, s.log);
          TornGrows(s.types, s.log, log, s.entries[a], a, |s.types|, |s.types|);
          GrowsTwice(old(s).log, s.log, log);
          RemoveKeeps(s, h, i, log);
          s := Removed(s, h, i, log);
        } else {
          i := i + 1;
        }
      }
      forall a | a in s.entries ensures !Worker(s, thread, a) {
        InChain(s, a);
        Congruent(s.entries[a].thread, thread, |s.chains|);
      }
      Unlock();
    }

    /** `tsrm_shutdown`: afterwards every block that ever was has been freed once, and destroyed once if
        its resource has a destructor. */
    method Shutdown()
      requires Idle()
      modifies this
      ensures s.entries == map[] && s.log.owner == old(s).log.owner && s.types == old(s).types
      ensures AllSettled(s.types, s.log)
    {
      for h := 0 to |s.chains|
        invariant Shared(s) && s.types == old(s).types && |s.chains| == |old(s).chains| &&
                  s.log.owner == old(s).log.owner
        invariant forall k :: 0 <= k < h ==> s.chains[k] == []
      {
        while s.chains[h] != []
          invariant Shared(s) && s.types == old(s).types && |s.chains| == |old(s).chains| &&
                    s.log.owner == old(s).log.owner
          invariant forall k :: 0 <= k < h ==> s.chains[k] == []
          decreases |s.chains[h]|
        {
          var a := s.chains[h][0];
          assert ChainOk(s, h);
          assert EntryOk(s.types, s.log, s.entries[a], a, |s.types|);
          var log := TearDownAtShutdown(s.types, s.entries[a], a, s.log);
          RemoveKeeps(s, h, 0, log);
          s := Removed(s, h, 0, log);
        }
      }
      forall a ensures a !in s.entries {
        if a in s.entries { InChain(s, a); }
      }
      forall b | b in s.log.owner ensures BlockOk(s, b) && !Live(s, b) { assert BlockOk(s, b); }
    }
  }

  /** The entries of all other threads. */
  ghost function OtherThan(s: State, thread: nat): map<nat, Entry> {
    map a | a in s.entries && s.entries[a].thread != thread :: s.entries[a]
  }

  /** The entry of another thread whose number differs from `thread` by a multiple of the table size. */
  ghost predicate Worker(s: State, thread: nat, a: nat)
    requires |s.chains| > 0
  {
    a in s.entries && s.entries[a].thread != thread && (s.entries[a].thread - thread) % |s.chains| == 0
  }

  lemma SharedIgnoresTls(s: State, s': State)
    requires Shared(s) && s' == s.(tls := s'.tls)
    ensures Shared(s')
  {
    forall h: nat | h < |s'.chains| ensures ChainOk(s', h) { assert ChainOk(s, h); }
    forall a | a in s'.entries ensures Linked(s', a) { assert Linked(s, a); }
    forall b | b in s'.log.owner ensures BlockOk(s', b) { assert BlockOk(s, b); }
  }

  /** Freeing the worker threads leaves no other thread exactly if all of them differ from the calling
      thread by multiples of the table size, although it is meant to free them all. */
  lemma WorkersElsewhere(s: State, thread: nat, left: map<nat, Entry>)
    requires |s.chains| > 0 && left == map a | a in s.entries && !Worker(s, thread, a) :: s.entries[a]
    ensures (forall a :: a in left ==> left[a].thread == thread) <==>
              (forall a :: a in s.entries ==> (s.entries[a].thread - thread) % |s.chains| == 0)
  {
    if forall a :: a in left ==> left[a].thread == thread {
      forall a | a in s.entries && s.entries[a].thread != thread ensures Worker(s, thread, a) {
        assert a !in left;
      }
    }
  }

  /** A worker thread in another chain survives: threads 0 and 1 with two chains, when thread 0 frees its workers. */
  method WorkerSurvives() returns (m: Manager, a: nat)
    ensures m.Idle() && Finds(m.s, 1, a) && forall c :: !Worker(m.s, 0, c)
  {
    m := new Manager(2);
    var _, _ := m.Enter(0, 0);
    var _, b := m.Enter(1, 1);
    a := b;
    m.FreeWorkerThreads(0);
  }

  /** NULL reaches a destructor: thread 0 leaves after its one resource was freed. */
  method NullDestroyed() returns (m: Manager, nulls: nat)
    ensures m.Idle() && nulls == 1
  {
    m := new Manager(1);
    var id := m.AllocateId(true);
    var _, a := m.Enter(0, 0);
    m.FreeId(id);
    assert Finds(m.s, 0, a) && m.s.types == [ResType(true, true)];
    nulls := m.FreeThread(0);
    assert NullCalls(m.s.types, 1) == 1;
  }

  // ---------------------------------------------------------------- runs

  /** Every block that was ever made has been freed once, and passed once to its destructor if it has one. */
  ghost predicate AllSettled(types: seq<ResType>, log: Log) {
    forall b {:trigger Settled(types, log, b)} :: b in log.owner ==> Settled(types, log, b)
  }

  ghost predicate Settled(types: seq<ResType>, log: Log, b: nat) {
    && b in log.owner && b in log.freed && log.freed[b] == 1 && b in log.destroyed && log.owner[b].1 < |types|
    && log.destroyed[b] == if types[log.owner[b].1].dtor then 1 else 0
  }

  /** The logs after the steps of a run: no block is forgotten from one to any later one. */
  ghost predicate Chronicle(logs: seq<Log>) {
    forall i, j {:trigger logs[i], logs[j]} :: 0 <= i <= j < |logs| ==> LogGrows(logs[i], logs[j])
  }

  lemma NextLog(logs: seq<Log>, log: Log)
    requires Chronicle(logs) && logs != [] && LogGrows(logs[|logs| - 1], log)
    ensures Chronicle(logs + [log])
  {
    var logs' := logs + [log];
    forall i, j | 0 <= i <= j < |logs'| ensures LogGrows(logs'[i], logs'[j]) {
      if j == |logs| {
        if i == j {
          SameLogGrows(log);
        } else {
          assert LogGrows(logs[i], logs[|logs| - 1]);
          GrowsTwice(logs[i], logs[|logs| - 1], log);
        }
      } else {
        assert LogGrows(logs[i], logs[j]);
      }
    }
  }

  lemma SameLogGrows(log: Log)
    ensures LogGrows(log, log)
  {
  }

  /** A step of some thread: asking for its own resources or for those of another thread, registering and
      freeing a resource, leaving, and freeing the worker threads. */
  datatype Step =
    | Ask(thread: nat)
    | AskFor(caller: nat, thread: nat)
    | Register(dtor: bool)
    | Unregister(resource: nat)
    | Leave(thread: nat)
    | FreeWorkers(thread: nat)

  /** The steps of runs in which threads mind their own resources. */
  predicate Private(step: Step) {
    !step.AskFor? && !step.FreeWorkers?
  }

  /** One round of `ts_resource_ex` for its own thread; `again` says that this is the round after a miss. */
  method Round(m: Manager, thread: nat, again: bool) returns (done: bool, a: nat)
    requires m.Idle() && Own(m.s) && (again ==> thread in m.s.tls)
    modifies m
    ensures m.Idle() && Own(m.s) && Finds(m.s, thread, a) && m.s.tls == old(m.s).tls[thread := a]
    ensures again ==> done
    ensures done ==> m.s == old(m.s) && thread in m.s.tls && m.s.tls[thread] == a
    ensures m.s.types == old(m.s).types && LogGrows(old(m.s).log, m.s.log)
  {
    SameLogGrows(m.s.log);
    if !again && thread in m.s.tls {
      return true, m.s.tls[thread];
    }
    if again { FastIsSlow(m.s, thread, m.s.tls[thread]); }
    done, a := m.Enter(thread, thread);
    FastIsSlow(m.s, thread, a);
  }

  /** Any interleaving of private steps, in which a miss and the round after it may be far apart: the
      invariant holds between all steps, every lock was given back, no thread needs a third round, and
      the thread-local pointers stay those that the hash table would give. */
  method RunPrivately(m: Manager, steps: seq<Step>) returns (ghost logs: seq<Log>)
    requires m.Idle() && Own(m.s) && forall i :: 0 <= i < |steps| ==> Private(steps[i])
    modifies m
    ensures m.Idle() && Own(m.s)
    ensures |logs| == |steps| + 1 && logs[0] == old(m.s).log && logs[|steps|] == m.s.log && Chronicle(logs)
  {
    var missed: set<nat> := {};
    logs := [m.s.log];
    SameLogGrows(m.s.log);
    for i := 0 to |steps|
      invariant m.Idle() && Own(m.s) && forall t :: t in missed ==> t in m.s.tls
      invariant |logs| == i + 1 && logs[0] == old(m.s).log && logs[i] == m.s.log && Chronicle(logs)
    {
      missed := PrivateStep(m, steps[i], missed);
      NextLog(logs, m.s.log);
      logs := logs + [m.s.log];
    }
  }

  method PrivateStep(m: Manager, step: Step, missed: set<nat>) returns (missed': set<nat>)
    requires m.Idle() && Own(m.s) && Private(step) && forall t :: t in missed ==> t in m.s.tls
    modifies m
    ensures m.Idle() && Own(m.s) && (forall t :: t in missed' ==> t in m.s.tls) && LogGrows(old(m.s).log, m.s.log)
  {
    missed' := missed;
    SameLogGrows(m.s.log);
    match step
    case Ask(t) =>
      var done, _ := Round(m, t, t in missed);
      missed' := if done then missed - {t} else missed + {t};
    case Register(dtor) =>
      var _ := m.AllocateId(dtor);
    case Unregister(j) =>
      if j < |m.s.types| {
        m.FreeId(j);
      }
    case Leave(t) =>
      if t !in missed {
        var _ := LeaveOne(m, t);
      }
  }

  method LeaveOne(m: Manager, t: nat) returns (nulls: nat)
    requires m.Idle() && Own(m.s)
    modifies m
    ensures m.Idle() && Own(m.s) && forall u :: u != t && u in old(m.s).tls ==> u in m.s.tls
    ensures LogGrows(old(m.s).log, m.s.log)
  {
    ghost var s := m.s;
    nulls := m.FreeThread(t);
    forall u | u != t && u in s.tls ensures u in m.s.tls {
      FastIsSlow(s, u, s.tls[u]);
      FastIsSlow(m.s, u, s.tls[u]);
    }
  }

  /** Any interleaving of any steps: thread-local pointers may go astray, but what the mutex protects
      stays whole, every lock was given back, and no block is forgotten. */
  method Run(m: Manager, steps: seq<Step>) returns (ghost logs: seq<Log>)
    requires m.Idle()
    modifies m
    ensures m.Idle()
    ensures |logs| == |steps| + 1 && logs[0] == old(m.s).log && logs[|steps|] == m.s.log && Chronicle(logs)
  {
    logs := [m.s.log];
    SameLogGrows(m.s.log);
    for i := 0 to |steps|
      invariant m.Idle()
      invariant |logs| == i + 1 && logs[0] == old(m.s).log && logs[i] == m.s.log && Chronicle(logs)
    {
      AnyStep(m, steps[i]);
      NextLog(logs, m.s.log);
      logs := logs + [m.s.log];
    }
  }

  method AnyStep(m: Manager, step: Step)
    requires m.Idle()
    modifies m
    ensures m.Idle() && LogGrows(old(m.s).log, m.s.log)
  {
    SameLogGrows(m.s.log);
    match step
    case Ask(t) =>
      if t !in m.s.tls {
        var _, _ := m.Enter(t, t);
      }
    case AskFor(c, t) =>
      var _, _ := m.Enter(c, t);
    case Register(dtor) =>
      var _ := m.AllocateId(dtor);
    case Unregister(j) =>
      if j < |m.s.types| {
        m.FreeId(j);
      }
    case Leave(t) =>
      var _ := m.FreeThread(t);
    case FreeWorkers(t) =>
      m.FreeWorkerThreads(t);
  }

  /** From start-up through any run to shutdown: every block that was ever made, at any step, was freed
      exactly once and reached its destructor exactly once if its resource has one. */
  method Lifetime(expectedThreads: nat, steps: seq<Step>) returns (m: Manager, ghost logs: seq<Log>)
    requires expectedThreads > 0
    ensures |logs| == |steps| + 1 && AllSettled(m.s.types, m.s.log)
    ensures forall i, b :: 0 <= i < |logs| && b in logs[i].owner ==>
              b in m.s.log.owner && m.s.log.owner[b] == logs[i].owner[b] && Settled(m.s.types, m.s.log, b)
  {
    m := new Manager(expectedThreads);
    logs := Run(m, steps);
    m.Shutdown();
    forall i, b | 0 <= i < |logs| && b in logs[i].owner
      ensures b in m.s.log.owner && m.s.log.owner[b] == logs[i].owner[b] && Settled(m.s.types, m.s.log, b)
    {
      assert LogGrows(logs[i], logs[|steps|]);
      assert BlockKept(logs[i], logs[|steps|], b);
      assert Settled(m.s.types, m.s.log, b);
    }
  }
}
