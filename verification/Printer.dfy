/** Recursive printing of arrays and objects, guarded against cycles by a counter in every table. */
module Printer {

  import opened Common

  /** A value: a scalar, an array, or an object with its table of properties if it has one. */
  datatype Value = Scalar(text: string) | Arr(table: nat) | Obj(className: Option<string>, properties: Option<nat>)

  datatype Row = Row(key: string, value: Value)

  type Tables = map<nat, seq<Row>>

  /** One call of the write function. */
  datatype Write = Text(s: string) | RecursionMark

  const INDENT := 4

  /** The table that a value shows, if any. */
  function TableOf(v: Value): Option<nat> {
    match v
    case Scalar(_) => None
    case Arr(t) => Some(t)
    case Obj(_, p) => p
  }

  ghost predicate Refers(ts: Tables, v: Value) {
    TableOf(v).Some? ==> TableOf(v).value in ts
  }

  /** Every table that is mentioned exists; cycles are allowed. */
  ghost predicate Closed(ts: Tables) {
    forall t, i {:trigger ts[t][i]} :: t in ts && 0 <= i < |ts[t]| ==> Refers(ts, ts[t][i].value)
  }

  // ---------------------------------------------------------------- what is to be printed

  function Spaces(n: nat): (r: seq<Write>)
    ensures |r| == n && forall i :: 0 <= i < n ==> r[i] == Text(" ")
  {
    seq(n, _ => Text(" "))
  }

  function Heading(v: Value): seq<Write> {
    match v
    case Scalar(text) => [Text(text)]
    case Arr(_) => [Text("Array\n")]
    case Obj(c, _) => [Text(if c.Some? then c.value else "Unknown Class"), Text(" Object\n")]
  }

  /** The rows of a table in parentheses. */
  function Framed(indent: nat, rows: seq<Write>): seq<Write> {
    Spaces(indent) + [Text("(\n")] + rows + Spaces(indent) + [Text(")\n")]
  }

  /** One row. */
  function RowText(indent: nat, key: seq<Write>, value: seq<Write>): seq<Write> {
    Spaces(indent) + [Text("[")] + key + [Text("] => ")] + value + [Text("\n")]
  }

  lemma WriteFramed(w: seq<Write>, indent: nat, rows: seq<Write>)
    ensures w + Spaces(indent) + [Text("(\n")] + rows + Spaces(indent) + [Text(")\n")] == w + Framed(indent, rows)
  {
  }

  lemma AppendTwice(a: seq<Write>, b: seq<Write>, c: seq<Write>)
    ensures a + b + c == a + (b + c)
  {
  }

  lemma WriteRow(w: seq<Write>, rows: seq<Write>, indent: nat, key: seq<Write>, value: seq<Write>)
    ensures w + rows + Spaces(indent) + [Text("[")] + key + [Text("] => ")] + value + [Text("\n")] ==
            w + (rows + RowText(indent, key, value))
  {
  }

  /** How a key is spelled: property names are unmangled, other keys are not. */
  type Speller = (string, bool) -> seq<Write>

  /** The output for a value while the tables `open` are being printed around it. */
  ghost function Render(ts: Tables, spell: Speller, v: Value, indent: nat, open: set<nat>): seq<Write>
    requires Closed(ts) && Refers(ts, v)
    decreases |ts.Keys - open|, 0
  {
    match TableOf(v)
    case None => Heading(v)
    case Some(t) =>
      if t in open then Heading(v) + [RecursionMark]
      else
        Smaller(ts, open, t);
        Heading(v) + Framed(indent, Rows(ts, spell, t, |ts[t]|, v.Obj?, indent + INDENT, open + {t}))
  }

  lemma Smaller(ts: Tables, open: set<nat>, t: nat)
    requires t in ts && t !in open
    ensures |ts.Keys - (open + {t})| < |ts.Keys - open|
  {
    assert ts.Keys - (open + {t}) == (ts.Keys - open) - {t};
    assert t in ts.Keys - open;
  }

  /** The output for the first `n` rows of table `t`. */
  ghost function Rows(ts: Tables, spell: Speller, t: nat, n: nat, isObject: bool, indent: nat,
                      open: set<nat>): seq<Write>
    requires Closed(ts) && t in ts && n <= |ts[t]|
    decreases |ts.Keys - open|, n + 1
  {
    if n == 0 then []
    else
      var row := ts[t][n - 1];
      Rows(ts, spell, t, n - 1, isObject, indent, open) +
      RowText(indent, spell(row.key, isObject), Render(ts, spell, row.value, indent + INDENT, open))
  }

  /** A rank that falls from every table to those it mentions: there is no cycle. */
  ghost predicate Acyclic(ts: Tables, rank: map<nat, nat>) {
    && rank.Keys == ts.Keys
    && forall t, i {:trigger ts[t][i]} :: t in ts && 0 <= i < |ts[t]| ==> Lower(ts, rank, ts[t][i].value, rank[t])
  }

  ghost predicate Lower(ts: Tables, rank: map<nat, nat>, v: Value, r: int) {
    TableOf(v).Some? ==> TableOf(v).value in rank && rank[TableOf(v).value] < r
  }

  /** The spelling of keys never writes the recursion mark. */
  ghost predicate Honest(spell: Speller) {
    forall k, o :: RecursionMark !in spell(k, o)
  }

  /** Without cycles the recursion mark is never printed. */
  lemma {:induction false} NoMark(ts: Tables, spell: Speller, rank: map<nat, nat>, v: Value, indent: nat,
                                  open: set<nat>, r: nat)
    requires Closed(ts) && Acyclic(ts, rank) && Honest(spell) && Refers(ts, v) && Lower(ts, rank, v, r)
    requires forall t :: t in open && t in rank ==> r <= rank[t]
    ensures RecursionMark !in Render(ts, spell, v, indent, open)
    decreases |ts.Keys - open|, 0
  {
    match TableOf(v)
    case None =>
    case Some(t) =>
      Smaller(ts, open, t);
      NoMarkRows(ts, spell, rank, t, |ts[t]|, v.Obj?, indent + INDENT, open + {t});
      NoMarkAround(v, indent, Rows(ts, spell, t, |ts[t]|, v.Obj?, indent + INDENT, open + {t}));
  }

  lemma NoMarkAround(v: Value, indent: nat, rows: seq<Write>)
    requires RecursionMark !in rows
    ensures RecursionMark !in Heading(v) + Framed(indent, rows)
  {
  }

  lemma {:induction false} NoMarkRows(ts: Tables, spell: Speller, rank: map<nat, nat>, t: nat, n: nat, isObject: bool,
                                      indent: nat, open: set<nat>)
    requires Closed(ts) && Acyclic(ts, rank) && Honest(spell) && t in ts && n <= |ts[t]|
    requires forall u :: u in open && u in rank ==> rank[t] <= rank[u]
    ensures RecursionMark !in Rows(ts, spell, t, n, isObject, indent, open)
    decreases |ts.Keys - open|, n + 1
  {
    if n > 0 {
      NoMarkRows(ts, spell, rank, t, n - 1, isObject, indent, open);
      var row := ts[t][n - 1];
      NoMark(ts, spell, rank, row.value, indent + INDENT, open, rank[t]);
    }
  }

  /** Table `t` has a row that shows table `u`. */
  ghost predicate Shows(ts: Tables, t: nat, u: nat) {
    t in ts && u in ts && exists i :: 0 <= i < |ts[t]| && TableOf(ts[t][i].value) == Some(u)
  }

  /** A walk from table to table. */
  ghost predicate Walk(ts: Tables, ws: seq<nat>) {
    && ws != [] && (forall i :: 0 <= i < |ws| ==> ws[i] in ts)
    && forall i :: 0 <= i < |ws| - 1 ==> Shows(ts, ws[i], ws[i + 1])
  }

  /** A walk that starts at the table of `v` and comes back to one of its tables is printed with a mark. */
  lemma {:induction false} CycleIsMarked(ts: Tables, spell: Speller, v: Value, indent: nat, open: set<nat>,
                                         ws: seq<nat>)
    requires Closed(ts) && Walk(ts, ws) && TableOf(v) == Some(ws[0])
    requires ws[|ws| - 1] in open || exists i :: 0 <= i < |ws| - 1 && ws[i] == ws[|ws| - 1]
    ensures RecursionMark in Render(ts, spell, v, indent, open)
    decreases |ws|
  {
    var t := ws[0];
    if t in open {
      var r := Render(ts, spell, v, indent, open);
      assert r[|r| - 1] == RecursionMark;
    } else {
      Smaller(ts, open, t);
      assert Shows(ts, ws[0], ws[1]);
      var i :| 0 <= i < |ts[t]| && TableOf(ts[t][i].value) == Some(ws[1]);
      CycleIsMarked(ts, spell, ts[t][i].value, indent + INDENT + INDENT, open + {t}, ws[1..]);
      RowIsPrinted(ts, spell, t, i, |ts[t]|, v.Obj?, indent + INDENT, open + {t});
      InFrame(indent, Rows(ts, spell, t, |ts[t]|, v.Obj?, indent + INDENT, open + {t}), RecursionMark);
    }
  }

  lemma InFrame(indent: nat, rows: seq<Write>, x: Write)
    requires x in rows
    ensures x in Framed(indent, rows)
  {
    var i :| 0 <= i < |rows| && rows[i] == x;
    assert Framed(indent, rows)[indent + 1 + i] == x;
  }

  lemma {:induction false} RowIsPrinted(ts: Tables, spell: Speller, t: nat, i: nat, n: nat, isObject: bool,
                                        indent: nat, open: set<nat>)
    requires Closed(ts) && t in ts && i < n <= |ts[t]|
    requires RecursionMark in Render(ts, spell, ts[t][i].value, indent + INDENT, open)
    ensures RecursionMark in Rows(ts, spell, t, n, isObject, indent, open)
    decreases n
  {
    var row, before := ts[t][n - 1], Rows(ts, spell, t, n - 1, isObject, indent, open);
    var key, value := spell(row.key, isObject), Render(ts, spell, row.value, indent + INDENT, open);
    if i < n - 1 {
      RowIsPrinted(ts, spell, t, i, n - 1, isObject, indent, open);
    } else {
      InRow(indent, key, value, RecursionMark);
    }
    InEither(before, RowText(indent, key, value), RecursionMark);
  }

  lemma InEither(a: seq<Write>, b: seq<Write>, x: Write)
    ensures x in a + b <==> x in a || x in b
  {
  }

  lemma InRow(indent: nat, key: seq<Write>, value: seq<Write>, x: Write)
    requires x in value
    ensures x in RowText(indent, key, value)
  {
    var i :| 0 <= i < |value| && value[i] == x;
    assert RowText(indent, key, value)[indent + 1 + |key| + 1 + i] == x;
  }

  // ---------------------------------------------------------------- printing

  class Output {
    const tables: Tables
    const spell: Speller
    /** `nApplyCount` of every table, a byte. */
    var applyCount: map<nat, nat>
    var written: seq<Write>

    ghost predicate Valid()
      reads `applyCount
    {
      Closed(tables) && applyCount.Keys == tables.Keys && forall t :: t in applyCount ==> applyCount[t] < 255
    }

    /** The tables whose counter guards them. */
    ghost function Open(): set<nat>
      reads `applyCount
    {
      set t | t in applyCount && applyCount[t] > 0
    }

    constructor (tables: Tables, spell: Speller)
      requires Closed(tables)
      ensures Valid() && this.tables == tables && this.spell == spell && Open() == {} && written == []
    {
      this.tables := tables;
      this.spell := spell;
      applyCount := map t | t in tables :: 0;
      written := [];
    }

    method Puts(s: string)
      modifies `written
      ensures written == old(written) + [Text(s)]
    {
      written := written + [Text(s)];
    }

    method PutSpaces(n: nat)
      modifies `written
      ensures written == old(written) + Spaces(n)
    {
      for i := 0 to n
        invariant written == old(written) + Spaces(i)
      {
        assert Spaces(i + 1) == Spaces(i) + [Text(" ")];
        Puts(" ");
      }
    }

    /** `zend_print_zval_r_ex`: it ends on every graph, restores all counters, and prints what is to be printed. */
    method Print(v: Value, indent: nat)
      requires Valid() && Refers(tables, v)
      modifies this
      ensures Valid() && applyCount == old(applyCount)
      ensures written == old(written) + Render(tables, spell, v, indent, old(Open()))
      decreases |tables.Keys - Open()|, 4
    {
      written := written + Heading(v);
      if TableOf(v).Some? {
        ghost var w := written;
        PrintGuarded(TableOf(v).value, indent, v.Obj?);
        AppendTwice(old(written), Heading(v), written[|w|..]);
      }
    }

    /** A table printed with its counter raised, unless it was raised before. */
    method PrintGuarded(t: nat, indent: nat, isObject: bool)
      requires Valid() && t in tables
      modifies this
      ensures applyCount == old(applyCount)
      ensures t in old(Open()) ==> written == old(written) + [RecursionMark]
      ensures t !in old(Open()) ==>
                written == old(written) +
                  Framed(indent, Rows(tables, spell, t, |tables[t]|, isObject, indent + INDENT, old(Open()) + {t}))
      decreases |tables.Keys - Open()|, 3
    {
      applyCount := applyCount[t := applyCount[t] + 1];
      if applyCount[t] > 1 {
        written := written + [RecursionMark];
      } else {
        assert Open() == old(Open()) + {t};
        Smaller(tables, old(Open()), t);
        PrintHash(t, indent, isObject);
      }
      applyCount := applyCount[t := applyCount[t] - 1];
      assert applyCount == old(applyCount);
    }

    /** `print_hash` */
    method PrintHash(t: nat, indent: nat, isObject: bool)
      requires Valid() && t in tables
      modifies this
      ensures applyCount == old(applyCount)
      ensures written == old(written) +
                         Framed(indent, Rows(tables, spell, t, |tables[t]|, isObject, indent + INDENT, old(Open())))
      decreases |tables.Keys - Open()|, 6
    {
      PutSpaces(indent);
      Puts("(\n");
      ghost var w := written;
      for i := 0 to |tables[t]|
        invariant applyCount == old(applyCount)
        invariant written == w + Rows(tables, spell, t, i, isObject, indent + INDENT, old(Open()))
      {
        PrintRow(t, i, indent + INDENT, isObject, w);
      }
      WriteFramed(old(written), indent, Rows(tables, spell, t, |tables[t]|, isObject, indent + INDENT, old(Open())));
      PutSpaces(indent);
      Puts(")\n");
    }

    /** One round of its loop. */
    method PrintRow(t: nat, i: nat, indent: nat, isObject: bool, ghost w: seq<Write>)
      requires Valid() && t in tables && i < |tables[t]|
      requires written == w + Rows(tables, spell, t, i, isObject, indent, Open())
      modifies this
      ensures applyCount == old(applyCount)
      ensures written == w + Rows(tables, spell, t, i + 1, isObject, indent, old(Open()))
      decreases |tables.Keys - Open()|, 5
    {
      var row := tables[t][i];
      PutSpaces(indent);
      Puts("[");
      written := written + spell(row.key, isObject);
      Puts("] => ");
      ghost var value := Render(tables, spell, row.value, indent + INDENT, Open());
      WriteRow(w, Rows(tables, spell, t, i, isObject, indent, Open()), indent, spell(row.key, isObject), value);
      Print(row.value, indent + INDENT);
      Puts("\n");
    }
  }

  /** The table of `array("a" => 1, "b" => <itself>)`. */
  const CYCLE: Tables := map[0 := [Row("a", Scalar("1")), Row("b", Arr(0))]]

  /** What is printed for it. */
  const CYCLE_TEXT: seq<Write> :=
    [Text("Array\n"), Text("(\n")] +
    (Spaces(4) + [Text("["), Text("a"), Text("] => "), Text("1"), Text("\n")]) +
    (Spaces(4) + [Text("["), Text("b"), Text("] => "), Text("Array\n"), RecursionMark, Text("\n")]) +
    [Text(")\n")]

  method PrintCycle() returns (o: Output)
    ensures o.written == CYCLE_TEXT
  {
    o := new Output(CYCLE, (k: string, _: bool) => [Text(k)]);
    CycleText(o.spell);
    o.Print(Arr(0), 0);
    assert [] + CYCLE_TEXT == CYCLE_TEXT;
  }

  lemma CycleRows(spell: Speller)
    requires spell("a", false) == [Text("a")] && spell("b", false) == [Text("b")]
    ensures Closed(CYCLE)
    ensures Rows(CYCLE, spell, 0, 2, false, 4, {0}) ==
            RowText(4, [Text("a")], [Text("1")]) + RowText(4, [Text("b")], [Text("Array\n")] + [RecursionMark])
  {
    assert Render(CYCLE, spell, Scalar("1"), 8, {0}) == [Text("1")];
    assert Render(CYCLE, spell, Arr(0), 8, {0}) == [Text("Array\n")] + [RecursionMark];
    assert Rows(CYCLE, spell, 0, 0, false, 4, {0}) == [];
    assert Rows(CYCLE, spell, 0, 1, false, 4, {0}) == RowText(4, [Text("a")], [Text("1")]);
  }

  lemma RowsText()
    ensures RowText(4, [Text("a")], [Text("1")]) ==
            Spaces(4) + [Text("["), Text("a"), Text("] => "), Text("1"), Text("\n")]
    ensures RowText(4, [Text("b")], [Text("Array\n")] + [RecursionMark]) ==
            Spaces(4) + [Text("["), Text("b"), Text("] => "), Text("Array\n"), RecursionMark, Text("\n")]
  {
  }

  lemma FramedText(rows: seq<Write>)
    ensures [Text("Array\n")] + Framed(0, rows) == [Text("Array\n"), Text("(\n")] + rows + [Text(")\n")]
  {
  }

  lemma CycleText(spell: Speller)
    requires spell("a", false) == [Text("a")] && spell("b", false) == [Text("b")]
    ensures Closed(CYCLE) && Render(CYCLE, spell, Arr(0), 0, {}) == CYCLE_TEXT
  {
    var first := RowText(4, [Text("a")], [Text("1")]);
    var second := RowText(4, [Text("b")], [Text("Array\n")] + [RecursionMark]);
    CycleRows(spell);
    RowsText();
    assert {} + {0} == {0};
    FramedText(first + second);
    AppendTwice([Text("Array\n"), Text("(\n")], first, second);
  }
}
