/**
 * `OmirableFetching`: the load-side container of the `OmirableKey`
 * iteration. Reads report a key with no column as an error naming the key.
 */
module OmirableFetching {
  import opened Wrappers
  import opened SQLiteType
  import opened Columns

  datatype OmirosError = NoColumnForKey(key: string)

  class Fetching {
    /** The current row of the statement. */
    const row: seq<Column>
    /** Whether the weakly held statement is still there. */
    var statementAvailable: bool
    var columnIndexByName: map<string, nat>

    ghost predicate Valid()
      reads this
    {
      columnIndexByName == Positions(Names(row))
    }

    /** `init(_ statement:)`: each column index 0 to columnCount - 1 stored under its name, a later index overwriting. */
    constructor (statement: seq<Column>)
      ensures row == statement && statementAvailable
      ensures Valid()
    {
      row := statement;
      statementAvailable := true;
      columnIndexByName := map[];
      new;
      var columnIndex := 0;
      while columnIndex < |row|
        invariant 0 <= columnIndex <= |row|
        invariant columnIndexByName == Positions(Names(row)[..columnIndex])
        invariant statementAvailable
      {
        columnIndexByName := columnIndexByName[row[columnIndex].name := columnIndex];
        assert Names(row)[..columnIndex + 1][..columnIndex] == Names(row)[..columnIndex];
        columnIndex := columnIndex + 1;
      }
      assert Names(row)[..columnIndex] == Names(row);
    }

    /** The statement is released by its owner. */
    method Release()
      modifies this
      ensures !statementAvailable && columnIndexByName == old(columnIndexByName)
    {
      statementAvailable := false;
    }

    /**
     * `get(_:for:)`: fails with the key exactly when no column has that
     * name; otherwise reads the cell at the name's last position. Reading a
     * column after the statement is gone traps, so that is excluded.
     */
    function Get(kind: Kind, key: string): (r: Result<Value, OmirosError>)
      requires Carried(kind) && Valid()
      requires key in Names(row) ==> statementAvailable
      reads this
      ensures r == Err(NoColumnForKey(key)) <==> key !in Names(row)
      ensures r.Ok? ==> KindOf(r.value) == kind && ReadsLast(row, key, kind, r.value)
    {
      PositionsAreLast(Names(row));
      if key !in columnIndexByName then Err(NoColumnForKey(key))
      else Ok(Decode(kind, row[columnIndexByName[key]].cell))
    }
  }
}
