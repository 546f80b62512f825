/** The uploaded table as the scoring path sees it: an ordered list of named
    columns of equal length. Column assignment and column selection follow the
    data-frame library's rules, including for column names that occur more than
    once (stripping can make two uploaded names equal). */
module Frames {
  import opened Cleaning

  /** A cell: uploaded text, a real-valued score, or an integer flag. */
  datatype Value = Text(s: string) | Number(x: real) | Whole(n: int)

  datatype Column = Column(name: string, cells: seq<Value>)

  /** The column labels, in table order (`df.columns`). */
  function Names(cols: seq<Column>): seq<string> {
    seq(|cols|, i requires 0 <= i < |cols| => cols[i].name)
  }

  /** Every column holds one cell per row. */
  predicate Rectangular(cols: seq<Column>, rows: nat) {
    forall i :: 0 <= i < |cols| ==> |cols[i].cells| == rows
  }

  /** `df.columns = df.columns.str.strip()`: every label stripped, cells untouched. */
  function StripNames(cols: seq<Column>): seq<Column> {
    seq(|cols|, i requires 0 <= i < |cols| => Column(Strip(cols[i].name), cols[i].cells))
  }

  /** Cleaning keeps the number, order and contents of the columns, leaves
      every label trimmed, and a second cleaning changes nothing. */
  lemma StripNamesSound(cols: seq<Column>, rows: nat)
    ensures |StripNames(cols)| == |cols|
    ensures forall i :: 0 <= i < |cols| ==>
      StripNames(cols)[i].cells == cols[i].cells && Trimmed(StripNames(cols)[i].name)
    ensures Rectangular(cols, rows) ==> Rectangular(StripNames(cols), rows)
    ensures StripNames(StripNames(cols)) == StripNames(cols)
  {
    var once := StripNames(cols);
    forall i | 0 <= i < |cols|
      ensures StripNames(once)[i] == once[i]
    {
      StripIdempotent(cols[i].name);
    }
  }

  /** The columns labelled `name`, in table order (`df[name]` when it is a
      frame of several columns). */
  function Matching(cols: seq<Column>, name: string): (r: seq<Column>)
    ensures forall c :: c in r <==> c in cols && c.name == name
  {
    if cols == [] then []
    else (if cols[0].name == name then [cols[0]] else []) + Matching(cols[1..], name)
  }

  /** `n` copies of column `c`. */
  function Repeat(c: Column, n: nat): seq<Column> {
    if n == 0 then [] else [c] + Repeat(c, n - 1)
  }

  lemma NamesCons(cols: seq<Column>)
    requires cols != []
    ensures multiset(Names(cols)) == multiset{cols[0].name} + multiset(Names(cols[1..]))
  {
    var rest := Names(cols[1..]);
    assert Names(cols) == [cols[0].name] + rest by {
      forall i | 0 <= i < |cols|
        ensures Names(cols)[i] == ([cols[0].name] + rest)[i]
      {
        if 0 < i {
          assert rest[i - 1] == cols[1..][i - 1].name;
        }
      }
    }
  }

  /** With zero or one column under a label, overwriting it leaves one column. */
  lemma RepeatOnce(c: Column, n: nat)
    requires n <= 1
    ensures Repeat(c, if n == 0 then 1 else n) == [c]
  {
    assert Repeat(c, 1) == [c] + [];
  }

  /** `Matching` finds as many columns as the label occurs in `df.columns`. */
  lemma {:induction false} MatchingCount(cols: seq<Column>, name: string)
    ensures |Matching(cols, name)| == multiset(Names(cols))[name]
    ensures |Matching(cols, name)| > 0 <==> name in Names(cols)
  {
    if cols != [] {
      MatchingCount(cols[1..], name);
      NamesCons(cols);
    }
  }

  lemma {:induction false} MatchingAppend(cols: seq<Column>, c: Column, name: string)
    ensures Matching(cols + [c], name) == Matching(cols, name) + (if c.name == name then [c] else [])
  {
    if cols == [] {
      assert cols + [c] == [c];
    } else {
      assert (cols + [c])[1..] == cols[1..] + [c];
      MatchingAppend(cols[1..], c, name);
    }
  }

  /** Overwrite, in place, every column labelled `name`. */
  function Replace(cols: seq<Column>, name: string, cells: seq<Value>): seq<Column> {
    seq(|cols|, i requires 0 <= i < |cols| => if cols[i].name == name then Column(name, cells) else cols[i])
  }

  lemma ReplaceCons(cols: seq<Column>, name: string, cells: seq<Value>)
    requires cols != []
    ensures Replace(cols, name, cells) ==
      [if cols[0].name == name then Column(name, cells) else cols[0]] + Replace(cols[1..], name, cells)
  {
  }

  /** Overwriting the columns under `name` leaves as many of them, each
      holding the new cells. */
  lemma {:induction false} MatchingReplaceSame(cols: seq<Column>, name: string, cells: seq<Value>)
    ensures Matching(Replace(cols, name, cells), name) == Repeat(Column(name, cells), |Matching(cols, name)|)
  {
    if cols != [] {
      ReplaceCons(cols, name, cells);
      MatchingReplaceSame(cols[1..], name, cells);
    }
  }

  /** Overwriting the columns under `name` leaves every other name selecting
      what it selected before. */
  lemma {:induction false} MatchingReplaceOther(cols: seq<Column>, name: string, cells: seq<Value>, other: string)
    requires other != name
    ensures Matching(Replace(cols, name, cells), other) == Matching(cols, other)
  {
    if cols != [] {
      ReplaceCons(cols, name, cells);
      MatchingReplaceOther(cols[1..], name, cells, other);
    }
  }

  /** `df[name] = cells`: when some column is already labelled `name`, every
      such column is overwritten where it stands; otherwise a new column is
      appended at the right. */
  function Assign(cols: seq<Column>, name: string, cells: seq<Value>): seq<Column> {
    if name in Names(cols) then Replace(cols, name, cells) else cols + [Column(name, cells)]
  }

  /** After `df[name] = cells` the label `name` exists, every column it names
      holds `cells` (as many as before, at least one), and every other label
      selects exactly what it selected before. */
  lemma AssignMatching(cols: seq<Column>, name: string, cells: seq<Value>, other: string)
    ensures Matching(Assign(cols, name, cells), other) ==
      if other == name then Repeat(Column(name, cells), if name in Names(cols) then |Matching(cols, name)| else 1)
      else Matching(cols, other)
  {
    MatchingCount(cols, name);
    if name in Names(cols) {
      if other == name {
        MatchingReplaceSame(cols, name, cells);
      } else {
        MatchingReplaceOther(cols, name, cells, other);
      }
    } else {
      MatchingAppend(cols, Column(name, cells), other);
      assert Matching(cols, name) == [];
    }
  }

  /** Column assignment keeps the columns already there at their positions,
      changes only those labelled `name`, adds at most one column at the end,
      and keeps the table rectangular. */
  lemma AssignKeeps(cols: seq<Column>, name: string, cells: seq<Value>, rows: nat)
    ensures var r := Assign(cols, name, cells);
      && |r| == |cols| + (if name in Names(cols) then 0 else 1)
      && Names(cols) <= Names(r)
      && (forall i :: 0 <= i < |cols| && cols[i].name != name ==> r[i] == cols[i])
      && (forall i :: 0 <= i < |r| && r[i].name == name ==> r[i].cells == cells)
      && name in Names(r)
      && (Rectangular(cols, rows) && |cells| == rows ==> Rectangular(r, rows))
  {
    var r := Assign(cols, name, cells);
    if name in Names(cols) {
      assert Names(r) == Names(cols);
    } else {
      assert forall i :: 0 <= i < |cols| ==> cols[i].name == Names(cols)[i];
      assert Names(r)[|cols|] == name;
    }
    assert Names(r)[..|cols|] == Names(cols);
  }

  /** `df[keys]`: for each key in turn, every column carrying that label. */
  function Select(cols: seq<Column>, keys: seq<string>): seq<Column> {
    if keys == [] then [] else Matching(cols, keys[0]) + Select(cols, keys[1..])
  }

  /** `df[keys]` holds exactly the columns whose label is one of the keys. */
  lemma {:induction false} SelectMembers(cols: seq<Column>, keys: seq<string>)
    ensures forall c :: c in Select(cols, keys) <==> c in cols && c.name in keys
  {
    if keys != [] {
      SelectMembers(cols, keys[1..]);
    }
  }

  /** Selecting a list of keys is selecting its first part, then its second. */
  lemma {:induction false} SelectAppend(cols: seq<Column>, first: seq<string>, second: seq<string>)
    ensures Select(cols, first + second) == Select(cols, first) + Select(cols, second)
  {
    if first != [] {
      assert (first + second)[1..] == first[1..] + second;
      SelectAppend(cols, first[1..], second);
    } else {
      assert first + second == second;
    }
  }

  lemma SelectThree(cols: seq<Column>, a: string, b: string, c: string)
    ensures Select(cols, [a, b, c]) == Matching(cols, a) + Matching(cols, b) + Matching(cols, c)
  {
    assert [a, b, c][1..] == [b, c];
    assert [b, c][1..] == [c];
    assert Select(cols, [c]) == Matching(cols, c) + [];
  }

  /** The uploaded table, changed in place by the scoring path. */
  class Table {
    var columns: seq<Column>
    var rows: nat

    ghost predicate Valid()
      reads this
    {
      Rectangular(columns, rows)
    }

    constructor (columns: seq<Column>, rows: nat)
      requires Rectangular(columns, rows)
      ensures Valid()
      ensures this.columns == columns && this.rows == rows
    {
      this.columns := columns;
      this.rows := rows;
    }

    function ColumnNames(): seq<string>
      reads this
    {
      Names(columns)
    }

    /** `df.columns = df.columns.str.strip()` */
    method StripColumnNames()
      requires Valid()
      modifies this
      ensures Valid()
      ensures columns == StripNames(old(columns)) && rows == old(rows)
    {
      StripNamesSound(columns, rows);
      columns := StripNames(columns);
    }

    /** `df[name] = cells` */
    method SetColumn(name: string, cells: seq<Value>)
      requires Valid() && |cells| == rows
      modifies this
      ensures Valid()
      ensures columns == Assign(old(columns), name, cells) && rows == old(rows)
    {
      AssignKeeps(columns, name, cells, rows);
      if name in Names(columns) {
        columns := Replace(columns, name, cells);
      } else {
        columns := columns + [Column(name, cells)];
      }
    }
  }
}
