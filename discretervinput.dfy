/** The editable table of components/DiscreteRVInput.tsx: rows of a value
    x and its probability p, kept at three rows at least.  `crypto.randomUUID`
    is a counter of fresh ids; `parseFloat` is a parameter. */
module RandomVariableTable {
  import opened Wrappers
  import opened Numerics

  /** `DiscreteRVEntry` of types.ts. */
  datatype DiscreteRVEntry = DiscreteRVEntry(id: nat, x: string, p: string)

  datatype Field = X | P

  const MIN_ROWS_DRV: nat := 3

  /** What the indicator accepts as a sum of 1. */
  const SUM_TOLERANCE: real := 0.000000001

  function Blank(id: nat): DiscreteRVEntry {
    DiscreteRVEntry(id, "", "")
  }

  /** `count` blank rows with the ids `from`, `from + 1`, ... */
  function Blanks(count: nat, from: nat): (r: seq<DiscreteRVEntry>)
    ensures |r| == count
    ensures forall i :: 0 <= i < count ==> r[i] == Blank(from + i)
  {
    if count == 0 then [] else Blanks(count - 1, from) + [Blank(from + count - 1)]
  }

  /** `ensureMinRows`: the rows, then blank rows with fresh ids up to three. */
  function Padded(current: seq<DiscreteRVEntry>, nextId: nat): seq<DiscreteRVEntry> {
    current + Blanks(if |current| < MIN_ROWS_DRV then MIN_ROWS_DRV - |current| else 0, nextId)
  }

  /** The ids below `bound`: those a counter starting there never hands out. */
  predicate IdsBelow(rows: seq<DiscreteRVEntry>, bound: nat) {
    forall i :: 0 <= i < |rows| ==> rows[i].id < bound
  }

  /** `ensureMinRows`, the push loop of the source. */
  method EnsureMinRows(current: seq<DiscreteRVEntry>, nextId: nat) returns (newRows: seq<DiscreteRVEntry>, next: nat)
    ensures newRows == Padded(current, nextId)
    ensures next == nextId + (|newRows| - |current|)
  {
    newRows := current;
    next := nextId;
    while |newRows| < MIN_ROWS_DRV
      invariant |current| <= |newRows|
      invariant |current| < MIN_ROWS_DRV ==> |newRows| <= MIN_ROWS_DRV
      invariant |current| >= MIN_ROWS_DRV ==> newRows == current
      invariant newRows == current + Blanks(|newRows| - |current|, nextId)
      invariant next == nextId + (|newRows| - |current|)
      decreases MIN_ROWS_DRV - |newRows|
    {
      assert Blanks(|newRows| + 1 - |current|, nextId) == Blanks(|newRows| - |current|, nextId) + [Blank(next)];
      newRows := newRows + [Blank(next)];
      next := next + 1;
    }
    assert Blanks(0, nextId) == [];
  }

  /** The padded rows keep the given rows as a prefix, reach at least three
      rows, and add only blank rows whose ids are at or above `nextId`. */
  lemma PaddedShape(current: seq<DiscreteRVEntry>, nextId: nat)
    ensures var r := Padded(current, nextId);
      && |r| == Max(MIN_ROWS_DRV as real, |current| as real) as int
      && r[..|current|] == current
      && (forall i :: |current| <= i < |r| ==> r[i].x == "" && r[i].p == "" && nextId <= r[i].id)
      && (|current| >= MIN_ROWS_DRV ==> r == current)
  {
  }

  /** `row.id !== idToRemove`, order kept. */
  function Without(rows: seq<DiscreteRVEntry>, id: nat): (r: seq<DiscreteRVEntry>)
    ensures |r| <= |rows|
    ensures forall e :: e in r <==> e in rows && e.id != id
  {
    if rows == [] then []
    else
      assert rows == [rows[0]] + rows[1..];
      (if rows[0].id == id then [] else [rows[0]]) + Without(rows[1..], id)
  }

  /** `handleInputChange`: the named field of the rows with that id. */
  function Edited(rows: seq<DiscreteRVEntry>, id: nat, field: Field, value: string): (r: seq<DiscreteRVEntry>)
    ensures |r| == |rows|
  {
    seq(|rows|, i requires 0 <= i < |rows| =>
      if rows[i].id != id then rows[i]
      else if field == X then rows[i].(x := value)
      else rows[i].(p := value))
  }

  /** What a row adds to the sum: its p when it reads as a non-negative
      number, else 0. */
  function Contribution(row: DiscreteRVEntry, parse: string -> Option<real>): real {
    var prob := parse(row.p);
    if prob.None? || prob.value < 0.0 then 0.0 else prob.value
  }

  /** `sumOfProbabilities`, a left-to-right reduce. */
  function ProbabilitySum(rows: seq<DiscreteRVEntry>, parse: string -> Option<real>): real {
    if rows == [] then 0.0
    else ProbabilitySum(rows[..|rows| - 1], parse) + Contribution(rows[|rows| - 1], parse)
  }

  /** `probabilitiesSumValid`: the sum is 1 within 1e-9, or exactly 0. */
  predicate SumValid(sum: real) {
    Abs(sum - 1.0) < SUM_TOLERANCE || sum == 0.0
  }

  /** Whether the "(debe ser 1)" warning is shown. */
  predicate ShowsWarning(sum: real) {
    !SumValid(sum) && sum != 0.0
  }

  class Table {
    /** `internalRows`. */
    var rows: seq<DiscreteRVEntry>
    /** The next id the fresh-id supply hands out. */
    var nextId: nat

    /** At least three rows, all with ids the supply has already passed. */
    predicate Valid()
      reads this
    {
      |rows| >= MIN_ROWS_DRV && IdsBelow(rows, nextId)
    }

    /** `useState(() => ensureMinRows(rows))`; `firstId` is an id above
        every id of `initial`. */
    constructor(initial: seq<DiscreteRVEntry>, firstId: nat)
      requires IdsBelow(initial, firstId)
      ensures rows == Padded(initial, firstId)
      ensures Valid()
    {
      var padded, next := EnsureMinRows(initial, firstId);
      rows := padded;
      nextId := next;
    }

    /** The effect that re-synchronises with the rows of the application
        state. */
    method Sync(incoming: seq<DiscreteRVEntry>)
      requires IdsBelow(incoming, nextId)
      modifies this
      ensures rows == Padded(incoming, old(nextId))
      ensures Valid()
    {
      rows, nextId := EnsureMinRows(incoming, nextId);
    }

    /** `handleAddRow`: one blank row with a fresh id at the end; the new
        rows are also what `onChange` receives. */
    method AddRow() returns (changed: seq<DiscreteRVEntry>)
      requires Valid()
      modifies this
      ensures rows == old(rows) + [Blank(old(nextId))]
      ensures forall i :: 0 <= i < |old(rows)| ==> old(rows)[i].id != old(nextId)
      ensures changed == rows && Valid()
    {
      rows := rows + [Blank(nextId)];
      nextId := nextId + 1;
      changed := rows;
    }

    /** `handleRemoveRow`: the rows with that id leave, then the table is
        padded back to three rows. */
    method RemoveRow(id: nat) returns (changed: seq<DiscreteRVEntry>)
      requires Valid()
      modifies this
      ensures rows == Padded(Without(old(rows), id), old(nextId))
      ensures id < old(nextId) ==> forall i :: 0 <= i < |rows| ==> rows[i].id != id
      ensures changed == rows && Valid()
    {
      var kept := Without(rows, id);
      var n := nextId;
      rows, nextId := EnsureMinRows(kept, nextId);
      assert forall i :: 0 <= i < |kept| ==> kept[i] in old(rows) && kept[i].id != id;
      assert forall i :: |kept| <= i < |rows| ==> rows[i].id >= n;
      changed := rows;
    }

    /** `handleInputChange`. */
    method InputChange(id: nat, field: Field, value: string) returns (changed: seq<DiscreteRVEntry>)
      requires Valid()
      modifies this
      ensures rows == Edited(old(rows), id, field, value)
      ensures nextId == old(nextId)
      ensures changed == rows && Valid()
    {
      rows := Edited(rows, id, field, value);
      changed := rows;
    }

    function SumOfProbabilities(parse: string -> Option<real>): real
      reads this
    {
      ProbabilitySum(rows, parse)
    }

    predicate ProbabilitiesSumValid(parse: string -> Option<real>)
      reads this
    {
      SumValid(SumOfProbabilities(parse))
    }
  }

  /** An edit changes only the named field of the rows with that id: the
      ids, their order, the other field and every other row stay. */
  lemma EditedChangesOneField(rows: seq<DiscreteRVEntry>, id: nat, field: Field, value: string)
    ensures var r := Edited(rows, id, field, value);
      forall i :: 0 <= i < |rows| ==>
        && r[i].id == rows[i].id
        && (rows[i].id != id ==> r[i] == rows[i])
        && (rows[i].id == id && field == X ==> r[i].x == value && r[i].p == rows[i].p)
        && (rows[i].id == id && field == P ==> r[i].p == value && r[i].x == rows[i].x)
  {
  }

  lemma {:induction false} ProbabilitySumNonNegative(rows: seq<DiscreteRVEntry>, parse: string -> Option<real>)
    ensures 0.0 <= ProbabilitySum(rows, parse)
  {
    if rows != [] {
      ProbabilitySumNonNegative(rows[..|rows| - 1], parse);
    }
  }

  /** A table with no readable probability sums to 0 and is accepted. */
  lemma {:induction false} BlankTableIsValid(rows: seq<DiscreteRVEntry>, parse: string -> Option<real>)
    requires forall i :: 0 <= i < |rows| ==> parse(rows[i].p).None?
    ensures ProbabilitySum(rows, parse) == 0.0 && SumValid(ProbabilitySum(rows, parse))
  {
    if rows != [] {
      BlankTableIsValid(rows[..|rows| - 1], parse);
    }
  }

  /** The warning appears exactly for a positive sum further than 1e-9
      from 1. */
  lemma WarningMeaning(rows: seq<DiscreteRVEntry>, parse: string -> Option<real>)
    ensures ShowsWarning(ProbabilitySum(rows, parse)) <==>
      0.0 < ProbabilitySum(rows, parse) && SUM_TOLERANCE <= Abs(ProbabilitySum(rows, parse) - 1.0)
  {
    ProbabilitySumNonNegative(rows, parse);
  }
}
