/** The editable rows of the calculator page (app/page.tsx): the SAFE note rows and the
    new-round investor rows, with the handlers that add, remove and change them. */
module Rows {

  /** One SAFE note as the page stores it: the text of each input box, and the pre/post flag. */
  datatype SafeRow = SafeRow(name: string, amount: string, discount: string,
                             valuationCap: string, isPostMoney: bool)

  /** One new-round investor as the page stores it. */
  datatype NewRoundRow = NewRoundRow(name: string, amount: string)

  const BlankSafeRow: SafeRow := SafeRow("", "", "", "", false)
  const BlankNewRoundRow: NewRoundRow := NewRoundRow("", "")

  /** The `field` argument of handleSafeRowChange, and the value it is given. */
  datatype SafeField = Name | Amount | Discount | ValuationCap | IsPostMoney
  datatype FieldValue = Text(text: string) | Flag(flag: bool)

  /** `row[field]`. */
  function SafeFieldValue(row: SafeRow, field: SafeField): (v: FieldValue) {
    match field
    case Name => Text(row.name)
    case Amount => Text(row.amount)
    case Discount => Text(row.discount)
    case ValuationCap => Text(row.valuationCap)
    case IsPostMoney => Flag(row.isPostMoney)
  }

  /** The page passes a boolean for the pre/post select and a string for every text box. */
  predicate Fits(field: SafeField, value: FieldValue) {
    (field == IsPostMoney) == value.Flag?
  }

  /** `row[field] = value`: the named field takes the value and every other field keeps its own. */
  function SetSafeField(row: SafeRow, field: SafeField, value: FieldValue): (r: SafeRow)
    requires Fits(field, value)
    ensures SafeFieldValue(r, field) == value
    ensures forall other :: other != field ==> SafeFieldValue(r, other) == SafeFieldValue(row, other)
  {
    match field
    case Name => row.(name := value.text)
    case Amount => row.(amount := value.text)
    case Discount => row.(discount := value.text)
    case ValuationCap => row.(valuationCap := value.text)
    case IsPostMoney => row.(isPostMoney := value.flag)
  }

  /** The `field` argument of handleNewRoundRowChange; both fields hold text. */
  datatype NewRoundField = InvestorName | InvestorAmount

  function NewRoundFieldValue(row: NewRoundRow, field: NewRoundField): (v: string) {
    match field
    case InvestorName => row.name
    case InvestorAmount => row.amount
  }

  function SetNewRoundField(row: NewRoundRow, field: NewRoundField, value: string): (r: NewRoundRow)
    ensures NewRoundFieldValue(r, field) == value
    ensures forall other :: other != field ==> NewRoundFieldValue(r, other) == NewRoundFieldValue(row, other)
  {
    match field
    case InvestorName => row.(name := value)
    case InvestorAmount => row.(amount := value)
  }

  /** `rows.filter((_, i) => i !== index)`: every row whose position is not `index`. */
  function DropIndex<T>(rows: seq<T>, index: int): (r: seq<T>)
    decreases |rows|
  {
    if rows == [] then []
    else (if index == 0 then [] else [rows[0]]) + DropIndex(rows[1..], index - 1)
  }

  /** The filter drops exactly the row at a valid index, keeping the order of the others,
      and drops nothing for an index outside the list. */
  lemma {:induction false} DropIndexSpec<T>(rows: seq<T>, index: int)
    ensures 0 <= index < |rows| ==> DropIndex(rows, index) == rows[..index] + rows[index + 1..]
    ensures !(0 <= index < |rows|) ==> DropIndex(rows, index) == rows
    decreases |rows|
  {
    if rows != [] {
      var rest := rows[1..];
      DropIndexSpec(rest, index - 1);
      if index == 0 {
        assert DropIndex(rows, index) == DropIndex(rest, -1);
        assert rows[..0] + rows[1..] == rest;
      } else {
        assert DropIndex(rows, index) == [rows[0]] + DropIndex(rest, index - 1);
        if 0 < index < |rows| {
          assert rows[..index] == [rows[0]] + rest[..index - 1];
          assert rows[index + 1..] == rest[index..];
        } else {
          assert rows == [rows[0]] + rest;
        }
      }
    }
  }

  /** removeSafeRow / removeNewRoundRow: filter only when more than one row is left. */
  function RemoveRow<T>(rows: seq<T>, index: int): (r: seq<T>) {
    if |rows| > 1 then DropIndex(rows, index) else rows
  }

  /** Removing never empties a non-empty list; it shortens it by one exactly when the list has
      more than one row and the index is valid, and otherwise leaves it as it was. */
  lemma RemoveRowSpec<T>(rows: seq<T>, index: int)
    requires |rows| >= 1
    ensures |RemoveRow(rows, index)| >= 1
    ensures |rows| > 1 && 0 <= index < |rows| ==>
      RemoveRow(rows, index) == rows[..index] + rows[index + 1..]
    ensures !(|rows| > 1 && 0 <= index < |rows|) ==> RemoveRow(rows, index) == rows
  {
    DropIndexSpec(rows, index);
  }

  /** The page's row state. Each handler copies the array it edits and replaces the state. */
  class Page {
    var safeRows: seq<SafeRow>
    var newRoundRows: seq<NewRoundRow>

    /** Neither list is ever empty. */
    ghost predicate Valid()
      reads this
    {
      |safeRows| >= 1 && |newRoundRows| >= 1
    }

    /** The initial state: one blank row in each list. */
    constructor ()
      ensures Valid()
      ensures safeRows == [BlankSafeRow] && newRoundRows == [BlankNewRoundRow]
    {
      safeRows := [BlankSafeRow];
      newRoundRows := [BlankNewRoundRow];
    }

    /** handleSafeRowChange: `updatedRows[index][field] = value`. */
    method HandleSafeRowChange(index: nat, field: SafeField, value: FieldValue)
      requires Valid() && index < |safeRows| && Fits(field, value)
      modifies this
      ensures Valid()
      ensures safeRows == old(safeRows)[index := SetSafeField(old(safeRows)[index], field, value)]
      ensures newRoundRows == old(newRoundRows)
    {
      var updatedRows := safeRows;
      updatedRows := updatedRows[index := SetSafeField(updatedRows[index], field, value)];
      safeRows := updatedRows;
    }

    /** addSafeRow: one blank row at the end. */
    method AddSafeRow()
      requires Valid()
      modifies this
      ensures Valid()
      ensures safeRows == old(safeRows) + [BlankSafeRow]
      ensures newRoundRows == old(newRoundRows)
    {
      safeRows := safeRows + [BlankSafeRow];
    }

    /** removeSafeRow: guarded by `safeRows.length > 1`. */
    method RemoveSafeRow(index: int)
      requires Valid()
      modifies this
      ensures Valid()
      ensures safeRows == RemoveRow(old(safeRows), index)
      ensures newRoundRows == old(newRoundRows)
    {
      RemoveRowSpec(safeRows, index);
      if |safeRows| > 1 {
        var updatedRows := DropIndex(safeRows, index);
        safeRows := updatedRows;
      }
    }

    /** handleNewRoundRowChange: `updatedRows[index][field] = value`. */
    method HandleNewRoundRowChange(index: nat, field: NewRoundField, value: string)
      requires Valid() && index < |newRoundRows|
      modifies this
      ensures Valid()
      ensures newRoundRows == old(newRoundRows)[index := SetNewRoundField(old(newRoundRows)[index], field, value)]
      ensures safeRows == old(safeRows)
    {
      var updatedRows := newRoundRows;
      updatedRows := updatedRows[index := SetNewRoundField(updatedRows[index], field, value)];
      newRoundRows := updatedRows;
    }

    /** addNewRoundRow: one blank row at the end. */
    method AddNewRoundRow()
      requires Valid()
      modifies this
      ensures Valid()
      ensures newRoundRows == old(newRoundRows) + [BlankNewRoundRow]
      ensures safeRows == old(safeRows)
    {
      newRoundRows := newRoundRows + [BlankNewRoundRow];
    }

    /** removeNewRoundRow: guarded by `newRoundRows.length > 1`. */
    method RemoveNewRoundRow(index: int)
      requires Valid()
      modifies this
      ensures Valid()
      ensures newRoundRows == RemoveRow(old(newRoundRows), index)
      ensures safeRows == old(safeRows)
    {
      RemoveRowSpec(newRoundRows, index);
      if |newRoundRows| > 1 {
        var updatedRows := DropIndex(newRoundRows, index);
        newRoundRows := updatedRows;
      }
    }
  }
}
