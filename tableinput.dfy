/** The one-column data table of components/TableInput.tsx: the form's
    comma-separated text is shown as rows of cells, kept at five rows at
    least, and every edit writes the non-empty cells back as "a, b, c".
    `crypto.randomUUID` is a counter of fresh ids; moving the keyboard
    focus is modelled by the id of the row that receives it. */
module DataTable {
  import opened Wrappers
  import Text
  import App

  /** `TableRowData` of types.ts. */
  datatype TableRow = TableRow(id: nat, value: string)

  const MIN_ROWS: nat := 5

  function Blank(id: nat): TableRow {
    TableRow(id, "")
  }

  /** `count` blank rows with the ids `from`, `from + 1`, ... */
  function Blanks(count: nat, from: nat): (r: seq<TableRow>)
    ensures |r| == count
    ensures forall i :: 0 <= i < count ==> r[i] == Blank(from + i)
  {
    if count == 0 then [] else Blanks(count - 1, from) + [Blank(from + count - 1)]
  }

  /** One row per token, with the ids `from`, `from + 1`, ... */
  function Labelled(tokens: seq<string>, from: nat): (r: seq<TableRow>)
    ensures |r| == |tokens|
    ensures forall i :: 0 <= i < |r| ==> r[i] == TableRow(from + i, tokens[i])
  {
    seq(|tokens|, i requires 0 <= i < |tokens| => TableRow(from + i, tokens[i]))
  }

  /** The number of blank rows that bring `count` rows up to five. */
  function Shortfall(count: nat): nat {
    if count < MIN_ROWS then MIN_ROWS - count else 0
  }

  /** `parseDataString`: a row per comma-separated token, then blank rows
      up to five; the token rows take their ids first. */
  function Parsed(dataString: string, from: nat): seq<TableRow> {
    var tokens := Text.CommaTokens(dataString);
    Labelled(tokens, from) + Blanks(Shortfall(|tokens|), from + |tokens|)
  }

  /** `rows.map(row => row.value.trim()).filter(val => val !== '')`: the
      trimmed, non-empty cells in row order, all a table writes. */
  function Cells(rows: seq<TableRow>): seq<string> {
    if rows == [] then [] else RowCells(rows[0]) + Cells(rows[1..])
  }

  /** What one row writes: its trimmed text, unless that is empty. */
  function RowCells(row: TableRow): seq<string> {
    var cell := Text.Trim(row.value);
    if cell == [] then [] else [cell]
  }

  /** `serializeRows`. */
  function Serialized(rows: seq<TableRow>): string {
    Text.Join(Cells(rows), ", ")
  }

  /** `rows.filter(row => row.id !== idToRemove)`. */
  function Without(rows: seq<TableRow>, id: nat): (r: seq<TableRow>)
    ensures |r| <= |rows|
    ensures forall e :: e in r <==> e in rows && e.id != id
  {
    if rows == [] then []
    else
      assert rows == [rows[0]] + rows[1..];
      (if rows[0].id == id then [] else [rows[0]]) + Without(rows[1..], id)
  }

  /** The rows, then blank rows with fresh ids up to five. */
  function Padded(rows: seq<TableRow>, nextId: nat): seq<TableRow> {
    rows + Blanks(Shortfall(|rows|), nextId)
  }

  /** `handleCellValueChange`'s map: the rows with that id take the new text. */
  function Edited(rows: seq<TableRow>, id: nat, value: string): (r: seq<TableRow>)
    ensures |r| == |rows|
  {
    seq(|rows|, i requires 0 <= i < |rows| => if rows[i].id == id then rows[i].(value := value) else rows[i])
  }

  /** `rows.findIndex(r => r.id === id)`: the first position holding the
      id, or -1 when none does. */
  function IndexOf(rows: seq<TableRow>, id: nat): (r: int)
    ensures -1 <= r < |rows|
    ensures r == -1 <==> forall i :: 0 <= i < |rows| ==> rows[i].id != id
    ensures 0 <= r ==> rows[r].id == id && forall i :: 0 <= i < r ==> rows[i].id != id
  {
    if rows == [] then -1
    else if rows[0].id == id then 0
    else
      var k := IndexOf(rows[1..], id);
      if k == -1 then -1 else k + 1
  }

  /** The ids below `bound`: those a counter starting there never hands out. */
  predicate IdsBelow(rows: seq<TableRow>, bound: nat) {
    forall i :: 0 <= i < |rows| ==> rows[i].id < bound
  }

  /** No two rows share an id, so each id names one row. */
  predicate UniqueIds(rows: seq<TableRow>) {
    forall i, j :: 0 <= i < j < |rows| ==> rows[i].id != rows[j].id
  }

  /** `parseDataString`: the text is cut into tokens, then the rows are laid out. */
  method ParseDataString(dataString: string, nextId: nat) returns (rows: seq<TableRow>, next: nat)
    ensures rows == Parsed(dataString, nextId)
    ensures next == nextId + |rows|
    ensures |rows| >= MIN_ROWS && UniqueIds(rows) && IdsBelow(rows, next)
  {
    var tokens := Text.CommaTokens(dataString);
    rows, next := LayOut(tokens, nextId);
    ParsedIsPadded(dataString, nextId);
    assert rows == Parsed(dataString, nextId);
    ParsedValid(dataString, nextId);
  }

  /** The push loop of `parseDataString`: a row per token, then blank rows
      up to five; the token rows take their ids first. */
  method LayOut(tokens: seq<string>, nextId: nat) returns (rows: seq<TableRow>, next: nat)
    ensures rows == Labelled(tokens, nextId) + Blanks(Shortfall(|tokens|), nextId + |tokens|)
    ensures next == nextId + |rows|
  {
    var actual := Labelled(tokens, nextId);
    var numRows := if MIN_ROWS < |actual| then |actual| else MIN_ROWS;
    ghost var all := actual + Blanks(Shortfall(|tokens|), nextId + |tokens|);
    rows := [];
    next := nextId + |tokens|;
    var i := 0;
    while i < numRows
      invariant 0 <= i <= numRows
      invariant rows == all[..i]
      invariant next == nextId + (if i < |actual| then |actual| else i)
    {
      if i < |actual| {
        rows := rows + [actual[i]];
      } else {
        assert all[i] == Blank(next);
        rows := rows + [Blank(next)];
        next := next + 1;
      }
      i := i + 1;
    }
    assert all[..numRows] == all;
  }

  /** The padding loop of `handleRemoveRow`: blank rows with fresh ids
      are pushed until there are five rows. */
  method PadRows(kept: seq<TableRow>, nextId: nat) returns (newRows: seq<TableRow>, next: nat)
    ensures newRows == Padded(kept, nextId)
    ensures next == nextId + Shortfall(|kept|)
  {
    newRows := kept;
    next := nextId;
    if |newRows| < MIN_ROWS {
      var diff := MIN_ROWS - |newRows|;
      var i := 0;
      while i < diff
        invariant 0 <= i <= diff
        invariant newRows == kept + Blanks(i, nextId)
        invariant next == nextId + i
      {
        assert Blanks(i + 1, nextId) == Blanks(i, nextId) + [Blank(next)];
        newRows := newRows + [Blank(next)];
        next := next + 1;
        i := i + 1;
      }
    } else {
      assert Blanks(0, nextId) == [];
    }
  }

  // ----- the table -----

  class Table {
    /** `internalRows`. */
    var rows: seq<TableRow>
    /** The next id the fresh-id supply hands out. */
    var nextId: nat

    /** At least five rows, each with its own id, all ids already handed out. */
    predicate Valid()
      reads this
    {
      |rows| >= MIN_ROWS && UniqueIds(rows) && IdsBelow(rows, nextId)
    }

    /** `useState(() => parseDataString(value))`. */
    constructor(value: string, firstId: nat)
      ensures rows == Parsed(value, firstId)
      ensures nextId == firstId + |rows|
      ensures Valid()
    {
      var parsed, next := ParseDataString(value, firstId);
      rows := parsed;
      nextId := next;
    }

    /** The effect on a new `value`: the rows are rebuilt from it unless it
        is already what they write. */
    method ValueChanged(value: string)
      requires Valid()
      modifies this
      ensures Serialized(old(rows)) == value ==> rows == old(rows) && nextId == old(nextId)
      ensures Serialized(old(rows)) != value ==> rows == Parsed(value, old(nextId)) && nextId == old(nextId) + |rows|
      ensures Valid()
    {
      if value != Serialized(rows) {
        rows, nextId := ParseDataString(value, nextId);
      }
    }

    /** `handleAddRow`: a blank row with a fresh id at the end; the text
        handed to `onChange` is unchanged by it. */
    method AddRow() returns (emitted: string)
      requires Valid()
      modifies this
      ensures rows == old(rows) + [Blank(old(nextId))]
      ensures nextId == old(nextId) + 1
      ensures emitted == Serialized(rows) && emitted == Serialized(old(rows))
      ensures Valid()
    {
      assert Blanks(1, nextId) == [Blank(nextId)];
      BlanksWriteNothing(rows, 1, nextId);
      AppendBlanksKeepsIds(rows, 1, nextId);
      rows := rows + [Blank(nextId)];
      nextId := nextId + 1;
      emitted := Serialized(rows);
    }

    /** `handleRemoveRow`: the rows with that id leave, then the table is
        padded back to five rows with blank rows. */
    method RemoveRow(id: nat) returns (emitted: string)
      requires Valid()
      modifies this
      ensures rows == Padded(Without(old(rows), id), old(nextId))
      ensures nextId == old(nextId) + Shortfall(|Without(old(rows), id)|)
      ensures id < old(nextId) ==> forall i :: 0 <= i < |rows| ==> rows[i].id != id
      ensures emitted == Serialized(rows) && emitted == Serialized(Without(old(rows), id))
      ensures Valid()
    {
      var kept := Without(rows, id);
      WithoutKeepsIds(rows, id);
      RemovedIdIsGone(rows, id, nextId);
      BlanksWriteNothing(kept, Shortfall(|kept|), nextId);
      AppendBlanksKeepsIds(kept, Shortfall(|kept|), nextId);
      rows, nextId := PadRows(kept, nextId);
      emitted := Serialized(rows);
    }

    /** `handleCellValueChange`. */
    method CellValueChange(id: nat, newValue: string) returns (emitted: string)
      requires Valid()
      modifies this
      ensures rows == Edited(old(rows), id, newValue)
      ensures nextId == old(nextId)
      ensures emitted == Serialized(rows)
      ensures Valid()
    {
      EditedKeepsIds(rows, id, newValue);
      rows := Edited(rows, id, newValue);
      emitted := Serialized(rows);
    }

    /** `handleInputKeyDown`: Enter moves the focus to the next row, or on
        the last row adds a blank row and focuses it; any other key and an
        unknown row change nothing.  `emitted` is what `onChange` receives,
        `focus` the id of the row that receives the focus. */
    method InputKeyDown(key: string, currentRowId: nat) returns (emitted: Option<string>, focus: Option<nat>)
      requires Valid()
      modifies this
      ensures key != "Enter" || IndexOf(old(rows), currentRowId) == -1 ==>
        rows == old(rows) && nextId == old(nextId) && emitted == None && focus == None
      ensures key == "Enter" && 0 <= IndexOf(old(rows), currentRowId) < |old(rows)| - 1 ==>
        && rows == old(rows) && nextId == old(nextId) && emitted == None
        && focus == Some(old(rows)[IndexOf(old(rows), currentRowId) + 1].id)
      ensures key == "Enter" && IndexOf(old(rows), currentRowId) == |old(rows)| - 1 ==>
        && rows == old(rows) + [Blank(old(nextId))] && nextId == old(nextId) + 1
        && emitted == Some(Serialized(rows)) && focus == Some(old(nextId))
      ensures Valid()
    {
      emitted, focus := None, None;
      if key == "Enter" {
        var currentRowIndex := IndexOf(rows, currentRowId);
        if currentRowIndex == -1 {
          return;
        }
        if currentRowIndex < |rows| - 1 {
          focus := Some(rows[currentRowIndex + 1].id);
        } else {
          var newRowId := nextId;
          assert Blanks(1, nextId) == [Blank(nextId)];
          AppendBlanksKeepsIds(rows, 1, nextId);
          rows := rows + [Blank(newRowId)];
          nextId := nextId + 1;
          emitted := Some(Serialized(rows));
          focus := Some(newRowId);
        }
      }
    }
  }

  // ----- properties -----

  /** A parsed table holds the tokens in order, then blank rows up to five,
      with the consecutive ids `from`, `from + 1`, ... */
  lemma {:induction false} ParsedShape(dataString: string, from: nat)
    ensures var r := Parsed(dataString, from); var tokens := Text.CommaTokens(dataString);
      && |r| == (if |tokens| < MIN_ROWS then MIN_ROWS else |tokens|)
      && (forall i :: 0 <= i < |tokens| ==> r[i].value == tokens[i])
      && (forall i :: |tokens| <= i < |r| ==> r[i].value == "")
      && (forall i :: 0 <= i < |r| ==> r[i].id == from + i)
      && UniqueIds(r) && IdsBelow(r, from + |r|)
  {
    var r := Parsed(dataString, from);
    var tokens := Text.CommaTokens(dataString);
    forall i | 0 <= i < |r|
      ensures r[i].id == from + i
    {
      if i >= |tokens| {
        assert r[i] == Blanks(Shortfall(|tokens|), from + |tokens|)[i - |tokens|];
      }
    }
  }

  /** What `Valid` asks of a freshly parsed table. */
  lemma ParsedValid(dataString: string, from: nat)
    ensures var r := Parsed(dataString, from);
      |r| >= MIN_ROWS && UniqueIds(r) && IdsBelow(r, from + |r|)
  {
    ParsedShape(dataString, from);
  }

  /** The cells of two tables one after the other. */
  lemma {:induction false} CellsAppend(a: seq<TableRow>, b: seq<TableRow>)
    ensures Cells(a + b) == Cells(a) + Cells(b)
  {
    if a == [] {
      assert a + b == b;
    } else {
      AppendSplits(a, b);
      CellsAppend(a[1..], b);
      calc {
        Cells(a + b);
        RowCells(a[0]) + Cells(a[1..] + b);
        RowCells(a[0]) + (Cells(a[1..]) + Cells(b));
        { Regrouped(RowCells(a[0]), Cells(a[1..]), Cells(b)); }
        (RowCells(a[0]) + Cells(a[1..])) + Cells(b);
      }
    }
  }

  lemma AppendSplits(a: seq<TableRow>, b: seq<TableRow>)
    requires a != []
    ensures (a + b)[0] == a[0] && (a + b)[1..] == a[1..] + b
  {
  }

  lemma Regrouped(x: seq<string>, y: seq<string>, z: seq<string>)
    ensures x + (y + z) == (x + y) + z
  {
  }

  /** Rows with empty texts write nothing. */
  lemma {:induction false} EmptyRowsHaveNoCells(rows: seq<TableRow>)
    requires forall i :: 0 <= i < |rows| ==> rows[i].value == []
    ensures Cells(rows) == []
  {
    if rows != [] {
      assert Text.Trim(rows[0].value) == [];
      EmptyRowsHaveNoCells(rows[1..]);
    }
  }

  /** Blank rows write nothing: adding them leaves the text unchanged. */
  lemma {:induction false} BlanksWriteNothing(rows: seq<TableRow>, count: nat, from: nat)
    ensures Cells(rows + Blanks(count, from)) == Cells(rows)
    ensures Serialized(rows + Blanks(count, from)) == Serialized(rows)
  {
    CellsAppend(rows, Blanks(count, from));
    EmptyRowsHaveNoCells(Blanks(count, from));
    assert Cells(rows) + [] == Cells(rows);
  }

  /** Blank rows with ids from the counter keep the ids apart and below it. */
  lemma {:induction false} AppendBlanksKeepsIds(rows: seq<TableRow>, count: nat, from: nat)
    requires UniqueIds(rows) && IdsBelow(rows, from)
    ensures UniqueIds(rows + Blanks(count, from)) && IdsBelow(rows + Blanks(count, from), from + count)
  {
    var r := rows + Blanks(count, from);
    forall i | |rows| <= i < |r|
      ensures r[i].id == from + (i - |rows|)
    {
      assert r[i] == Blanks(count, from)[i - |rows|];
    }
  }

  /** Removing rows keeps the other ids apart and below the counter. */
  lemma {:induction false} WithoutKeepsIds(rows: seq<TableRow>, id: nat)
    requires UniqueIds(rows)
    ensures UniqueIds(Without(rows, id))
    ensures forall bound: nat :: IdsBelow(rows, bound) ==> IdsBelow(Without(rows, id), bound)
  {
    var r := Without(rows, id);
    forall bound: nat | IdsBelow(rows, bound)
      ensures IdsBelow(r, bound)
    {
      forall i | 0 <= i < |r|
        ensures r[i].id < bound
      {
        assert r[i] in rows;
      }
    }
    if rows != [] {
      var tail := Without(rows[1..], id);
      assert UniqueIds(rows[1..]) by {
        forall i, j | 0 <= i < j < |rows[1..]|
          ensures rows[1..][i].id != rows[1..][j].id
        {
          assert rows[1..][i] == rows[i + 1] && rows[1..][j] == rows[j + 1];
        }
      }
      WithoutKeepsIds(rows[1..], id);
      if rows[0].id != id {
        assert r == [rows[0]] + tail;
        forall j | 0 <= j < |tail|
          ensures rows[0].id != tail[j].id
        {
          assert tail[j] in rows[1..];
          var k :| 0 <= k < |rows[1..]| && rows[1..][k] == tail[j];
          assert rows[k + 1] == tail[j];
        }
      } else {
        assert r == tail;
      }
    }
  }

  /** After a removal no row holds the removed id: the kept rows never
      did, and the padding rows take ids the counter had not handed out. */
  lemma {:induction false} RemovedIdIsGone(rows: seq<TableRow>, id: nat, nextId: nat)
    ensures var r := Padded(Without(rows, id), nextId);
      id < nextId ==> forall i :: 0 <= i < |r| ==> r[i].id != id
  {
    var kept := Without(rows, id);
    var r := Padded(kept, nextId);
    forall i | 0 <= i < |r|
      ensures id < nextId ==> r[i].id != id
    {
      if i < |kept| {
        assert r[i] == kept[i] && kept[i] in kept;
      } else {
        assert r[i] == Blanks(Shortfall(|kept|), nextId)[i - |kept|];
      }
    }
  }

  /** An id no row holds removes nothing. */
  lemma {:induction false} WithoutAbsent(rows: seq<TableRow>, id: nat)
    requires forall i :: 0 <= i < |rows| ==> rows[i].id != id
    ensures Without(rows, id) == rows
  {
    if rows != [] {
      WithoutAbsent(rows[1..], id);
      assert rows == [rows[0]] + rows[1..];
    }
  }

  /** Removing a row nobody holds from a valid table leaves it as it was,
      and so does the padding. */
  lemma {:induction false} RemoveAbsentChangesNothing(rows: seq<TableRow>, id: nat, nextId: nat)
    requires |rows| >= MIN_ROWS
    requires forall i :: 0 <= i < |rows| ==> rows[i].id != id
    ensures Padded(Without(rows, id), nextId) == rows
  {
    WithoutAbsent(rows, id);
    assert Blanks(0, nextId) == [];
  }

  /** An edit changes only the text of the rows with that id: the ids,
      their order and every other row stay. */
  lemma {:induction false} EditedKeepsIds(rows: seq<TableRow>, id: nat, value: string)
    ensures var r := Edited(rows, id, value);
      && (forall i :: 0 <= i < |rows| ==> r[i].id == rows[i].id)
      && (forall i :: 0 <= i < |rows| ==> r[i].value == if rows[i].id == id then value else rows[i].value)
      && (UniqueIds(rows) ==> UniqueIds(r))
      && (forall bound: nat :: IdsBelow(rows, bound) ==> IdsBelow(r, bound))
  {
  }

  /** With ids apart, the row found for an id is the one that holds it. */
  lemma {:induction false} IndexOfHolder(rows: seq<TableRow>, k: nat)
    requires UniqueIds(rows) && k < |rows|
    ensures IndexOf(rows, rows[k].id) == k
  {
  }

  lemma {:induction false} CellTokens(rows: seq<TableRow>)
    requires forall i :: 0 <= i < |rows| ==> ',' !in rows[i].value
    ensures forall t :: t in Cells(rows) ==> Text.IsToken(t)
  {
    if rows != [] {
      var cell := Text.Trim(rows[0].value);
      assert ',' !in cell;
      CellTokens(rows[1..]);
    }
  }

  /** Every cell written is a token: non-empty, trimmed, without a comma,
      when no cell holds a comma. */
  lemma {:induction false} CellsAreTokens(rows: seq<TableRow>)
    requires forall i :: 0 <= i < |rows| ==> ',' !in rows[i].value
    ensures forall i :: 0 <= i < |Cells(rows)| ==> Text.IsToken(Cells(rows)[i])
  {
    CellTokens(rows);
  }

  /** Rows made from tokens write exactly those tokens. */
  lemma {:induction false} LabelledCells(tokens: seq<string>, from: nat)
    requires forall i :: 0 <= i < |tokens| ==> Text.IsToken(tokens[i])
    ensures Cells(Labelled(tokens, from)) == tokens
  {
    if tokens != [] {
      var rows := Labelled(tokens, from);
      assert rows[0].value == tokens[0];
      Text.TrimOfTrimmed(tokens[0]);
      assert rows[1..] == Labelled(tokens[1..], from + 1);
      LabelledCells(tokens[1..], from + 1);
      assert tokens == [tokens[0]] + tokens[1..];
    }
  }

  /** Token rows padded with blank rows write exactly the tokens. */
  lemma {:induction false} PaddedTokenCells(tokens: seq<string>, from: nat)
    requires forall i :: 0 <= i < |tokens| ==> Text.IsToken(tokens[i])
    ensures Cells(Labelled(tokens, from) + Blanks(Shortfall(|tokens|), from + |tokens|)) == tokens
  {
    LabelledCells(tokens, from);
    BlanksWriteNothing(Labelled(tokens, from), Shortfall(|tokens|), from + |tokens|);
  }

  /** The cells of a parsed table are the tokens of its text. */
  lemma {:induction false} ParsedCells(dataString: string, from: nat)
    ensures Cells(Parsed(dataString, from)) == Text.CommaTokens(dataString)
  {
    ParsedIsPadded(dataString, from);
    Text.CommaTokensAreTokens(dataString);
    PaddedTokenCells(Text.CommaTokens(dataString), from);
  }

  lemma ParsedIsPadded(dataString: string, from: nat)
    ensures var tokens := Text.CommaTokens(dataString);
      Parsed(dataString, from) == Labelled(tokens, from) + Blanks(Shortfall(|tokens|), from + |tokens|)
  {
  }

  /** Parsing then writing normalises the text to its tokens joined by ", ". */
  lemma {:induction false} SerializedParsed(dataString: string, from: nat)
    ensures Serialized(Parsed(dataString, from)) == Text.Join(Text.CommaTokens(dataString), ", ")
  {
    ParsedCells(dataString, from);
  }

  /** The text a table writes reads back as its cells, when no cell holds a comma. */
  lemma {:induction false} SerializedTokens(rows: seq<TableRow>)
    requires forall i :: 0 <= i < |rows| ==> ',' !in rows[i].value
    ensures Text.CommaTokens(Serialized(rows)) == Cells(rows)
  {
    CellsAreTokens(rows);
    Text.CommaTokensOfJoin(Cells(rows));
  }

  /** Round trip: the table rebuilt from the text a table writes shows the
      same cells, so it writes the same text again and the effect on the
      new `value` keeps the rows. */
  lemma {:induction false} RebuiltTableWritesSameText(rows: seq<TableRow>, from: nat)
    requires forall i :: 0 <= i < |rows| ==> ',' !in rows[i].value
    ensures Cells(Parsed(Serialized(rows), from)) == Cells(rows)
    ensures Serialized(Parsed(Serialized(rows), from)) == Serialized(rows)
  {
    SerializedTokens(rows);
    ParsedCells(Serialized(rows), from);
  }

  /** The data modes read a table's text as the numbers of its cells, in
      row order, when every cell reads as a number. */
  lemma {:induction false} SerializedNumbers(rows: seq<TableRow>, parseFloat: string -> Option<real>)
    requires forall i :: 0 <= i < |rows| ==> ',' !in rows[i].value
    requires forall i :: 0 <= i < |Cells(rows)| ==> parseFloat(Cells(rows)[i]).Some?
    ensures var numbers := App.ParseNumbers(Serialized(rows), parseFloat);
      |numbers| == |Cells(rows)| &&
      forall i :: 0 <= i < |numbers| ==> numbers[i] == parseFloat(Cells(rows)[i]).value
  {
    var cells := Cells(rows);
    if cells == [] {
      assert Serialized(rows) == [];
    } else {
      CellsAreTokens(rows);
      App.ParseJoinedNumbers(cells, parseFloat);
    }
  }

  /** The set mode reads a table's text as its cells, when no cell holds a comma. */
  lemma {:induction false} SerializedSetElements(rows: seq<TableRow>)
    requires forall i :: 0 <= i < |rows| ==> ',' !in rows[i].value
    ensures App.ParseSetElements(Serialized(rows)) == Cells(rows)
  {
    var cells := Cells(rows);
    SerializedTokens(rows);
    if cells != [] {
      App.JoinStartsWithHead(cells, ", ");
      assert cells[0] != [];
    }
  }
}
