/**
 * `OmirosContainers.swift`: the save-side `OmirosInput` of this iteration
 * (setters only) and an `OmirosOutput` whose reads throw instead of falling
 * back to defaults.
 */
module OmirosContainers {
  import opened Wrappers
  import opened SQLiteType
  import opened Columns

  datatype Relation = Relation(key: string, typeName: string)

  /** A value of an `Omirable` type, with its type's `omirosName` and the rows it would save. */
  datatype Enclosable = Enclosable(omirosName: string, rows: seq<map<string, Value>>)

  datatype OmirosError = UnavailableSQLiteStatement | MissingColumnIndex

  class Input {
    var primaryKeys: set<string>
    var content: map<string, Value>
    var relations: map<string, Relation>
    var enclosed: map<string, Enclosable>

    constructor ()
      ensures primaryKeys == {} && content == map[] && relations == map[] && enclosed == map[]
    {
      primaryKeys := {};
      content := map[];
      relations := map[];
      enclosed := map[];
    }

    /** `setPrimaryKey`: a set insert; nothing else changes. */
    method SetPrimaryKey(key: string)
      modifies this
      ensures primaryKeys == old(primaryKeys) + {key}
      ensures content == old(content) && relations == old(relations) && enclosed == old(enclosed)
    {
      primaryKeys := primaryKeys + {key};
    }

    /** `set(_:for:)`: overwrites this one content key; nothing else changes. */
    method Set(value: Value, key: string)
      modifies this
      ensures content == old(content)[key := value]
      ensures primaryKeys == old(primaryKeys) && relations == old(relations) && enclosed == old(enclosed)
    {
      content := content[key := value];
    }

    /** `set(_ value:)` for an entity value: keyed by its type's name, replacing any earlier one of that type. */
    method SetEnclosed(value: Enclosable)
      modifies this
      ensures enclosed == old(enclosed)[value.omirosName := value]
      ensures primaryKeys == old(primaryKeys) && content == old(content) && relations == old(relations)
    {
      enclosed := enclosed[value.omirosName := value];
    }

    /** `set(_:for:as:)`: the value and the relation, under the same key. */
    method SetRelated(value: Value, key: string, relation: Relation)
      modifies this
      ensures content == old(content)[key := value]
      ensures relations == old(relations)[key := relation]
      ensures primaryKeys == old(primaryKeys) && enclosed == old(enclosed)
    {
      content := content[key := value];
      relations := relations[key := relation];
    }
  }

  class Output {
    /** The current row of the statement; empty when there is no statement. */
    const row: seq<Column>
    /** Whether the weakly held statement is still there. */
    var statementAvailable: bool
    var indexForColumnName: map<string, nat>

    ghost predicate Valid()
      reads this
    {
      indexForColumnName == Positions(Names(row))
    }

    /** `init(_ statement:)`: positions 0 to columnCount - 1 by name; nothing without a statement. */
    constructor (statement: Option<seq<Column>>)
      ensures statementAvailable <==> statement.Some?
      ensures row == (if statement.Some? then statement.value else [])
      ensures Valid()
    {
      row := if statement.Some? then statement.value else [];
      statementAvailable := statement.Some?;
      indexForColumnName := map[];
      new;
      if statement.None? {
        return;
      }
      var columns := Names(row);
      var index := 0;
      while index < |columns|
        invariant 0 <= index <= |columns|
        invariant indexForColumnName == Positions(columns[..index])
        invariant statementAvailable
      {
        indexForColumnName := indexForColumnName[columns[index] := index];
        assert columns[..index + 1][..index] == columns[..index];
        index := index + 1;
      }
      assert columns[..index] == columns;
    }

    /** The statement is released by its owner. */
    method Release()
      modifies this
      ensures !statementAvailable && indexForColumnName == old(indexForColumnName)
    {
      statementAvailable := false;
    }

    /**
     * `get(_:for:)`: a gone statement is reported first, then a key with no
     * column; otherwise the cell at the key's (last) position, decoded.
     */
    function Get(kind: Kind, key: string): (r: Result<Value, OmirosError>)
      requires Carried(kind) && Valid()
      reads this
      ensures !statementAvailable ==> r == Err(UnavailableSQLiteStatement)
      ensures statementAvailable && key !in Names(row) ==> r == Err(MissingColumnIndex)
      ensures statementAvailable && key in Names(row) ==> r.Ok? && KindOf(r.value) == kind
      ensures r.Ok? ==> ReadsLast(row, key, kind, r.value)
    {
      PositionsAreLast(Names(row));
      if !statementAvailable then Err(UnavailableSQLiteStatement)
      else if key !in indexForColumnName then Err(MissingColumnIndex)
      else Ok(Decode(kind, row[indexForColumnName[key]].cell))
    }

    /** `get(_:with:)` for an optional entity: the fetch's outcome, once the statement is known to be there. */
    function GetEntity<X>(fetched: Result<Option<X>, OmirosError>): (r: Result<Option<X>, OmirosError>)
      reads this
      ensures !statementAvailable ==> r == Err(UnavailableSQLiteStatement)
      ensures statementAvailable ==> r == fetched
    {
      if !statementAvailable then Err(UnavailableSQLiteStatement) else fetched
    }

    /** `get(_:with:)` for a list: a fetch that finds no table gives the empty list. */
    function GetList<X>(fetched: Result<Option<seq<X>>, OmirosError>): (r: Result<seq<X>, OmirosError>)
      reads this
      ensures !statementAvailable ==> r == Err(UnavailableSQLiteStatement)
      ensures statementAvailable && fetched.Err? ==> r == Err(fetched.error)
      ensures statementAvailable && fetched.Ok? ==> r == Ok(if fetched.value.Some? then fetched.value.value else [])
    {
      if !statementAvailable then Err(UnavailableSQLiteStatement)
      else if fetched.Err? then Err(fetched.error)
      else Ok(if fetched.value.Some? then fetched.value.value else [])
    }
  }
}
