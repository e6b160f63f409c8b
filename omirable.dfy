/**
 * `Omirable.swift`: persistence of entities over a store. An entity is
 * saved through the container its `fill(container:)` produces; saving a
 * list reconciles the table's schema with the first container, inserts one
 * row per entity, and saves each entity's enclosed lists after its row.
 *
 * The store is modelled by its schema (each table's columns in
 * `table_info` order and its index names in `index_list` order) and by the
 * log of the statements it received. Row contents and the engine's
 * evaluation of SQL are not modelled: counts and fetched rows are given as
 * parameters, and every statement is taken to succeed.
 */
module Omirable {
  import opened Wrappers
  import Text
  import opened SQLiteType
  import QueryOptions
  import Columns

  // ----- the container an entity fills -----

  datatype Relation = Relation(typeName: string, key: string)
  datatype Index = Index(name: string, keys: seq<string>)

  /**
   * A filled container. The dictionaries' and the set's iteration orders are
   * fixed by the key sequences.
   */
  datatype Input = Input(
    primaryKeys: seq<string>,
    columnKeys: seq<string>,
    columns: map<string, Value>,
    relationKeys: seq<string>,
    relations: map<string, Relation>,
    indices: seq<Index>,
    enclosed: seq<Group>)

  /** One value of the `enclosed` dictionary: a list of entities with their delete options. */
  datatype Group = Group(entries: seq<Entry>)

  /**
   * An enclosed entity with its type's `omirosName`. A single entity, an
   * optional one and a list all save as a list of containers (zero, one or
   * more).
   */
  datatype Entry = Entry(typeName: string, records: seq<Input>, deleteOptions: Option<QueryOptions.Options>)

  /** The key sequences list each dictionary's keys (and the set's members) once. */
  ghost predicate Keyed(x: Input)
  {
    (forall k :: k in x.columns <==> k in x.columnKeys)
    && (forall k :: k in x.relations <==> k in x.relationKeys)
    && (forall i, j :: 0 <= i < j < |x.columnKeys| ==> x.columnKeys[i] != x.columnKeys[j])
    && (forall i, j :: 0 <= i < j < |x.relationKeys| ==> x.relationKeys[i] != x.relationKeys[j])
    && (forall i, j :: 0 <= i < j < |x.primaryKeys| ==> x.primaryKeys[i] != x.primaryKeys[j])
  }

  /**
   * What saving demands: every container is keyed, and in every list each
   * container has a value for each column of the first container (the
   * binding loop force-unwraps them).
   */
  ghost predicate Saveable(records: seq<Input>)
    decreases records, 2
  {
    (forall i :: 0 <= i < |records| ==> Keyed(records[i]))
    && (|records| > 0 ==> forall i, k :: 0 <= i < |records| && k in records[0].columnKeys ==> k in records[i].columns)
    && GroupsSaveable(records)
  }

  ghost predicate GroupsSaveable(records: seq<Input>)
    decreases records, 1
  {
    forall i :: 0 <= i < |records| ==> GroupListSaveable(records[i].enclosed)
  }

  ghost predicate GroupListSaveable(groups: seq<Group>)
    decreases groups, 1
  {
    forall i :: 0 <= i < |groups| ==> EntriesSaveable(groups[i].entries)
  }

  ghost predicate EntriesSaveable(entries: seq<Entry>)
    decreases entries, 1
  {
    forall i :: 0 <= i < |entries| ==> Saveable(entries[i].records)
  }

  // ----- statements and the store -----

  /** The ON CONFLICT clause of an insert. */
  datatype Conflict = NoConflict | DoNothing(keys: seq<string>) | DoUpdate(keys: seq<string>, updated: seq<string>)

  datatype ColumnDef = ColumnDef(key: string, sqlType: string)
  datatype ForeignKey = ForeignKey(key: string, relation: Relation)

  datatype Stmt =
    | FindTable(table: string)
    | CountRows(table: string, suffix: string)
    | DeleteRows(table: string, suffix: string)
    | SelectRows(table: string, suffix: string)
    | TableInfo(table: string)
    | IndexList(table: string)
    | AddColumn(table: string, column: string, sqlType: string)
    | AddForeignKey(table: string, column: string, relation: Relation)
    | CreateIndex(table: string, name: string, keys: seq<string>)
    | DropIndex(table: string, name: string)
    | CreateTable(table: string, defs: seq<ColumnDef>, foreignKeys: seq<ForeignKey>, primaryKeys: seq<string>)
    | Insert(table: string, columnKeys: seq<string>, conflict: Conflict, binds: seq<(nat, Value)>)

  datatype Table = Table(columns: seq<string>, indices: seq<string>)

  /** `s` without the occurrences of `x`. */
  function Without(s: seq<string>, x: string): (r: seq<string>)
  {
    if |s| == 0 then [] else (if s[0] == x then [] else [s[0]]) + Without(s[1..], x)
  }

  /** What a statement does to the schema. */
  function Effect(tables: map<string, Table>, s: Stmt): map<string, Table>
  {
    if s.CreateTable? then tables[s.table := Table(seq(|s.defs|, i requires 0 <= i < |s.defs| => s.defs[i].key), [])]
    else if s.table !in tables then tables
    else if s.AddColumn? then tables[s.table := tables[s.table].(columns := tables[s.table].columns + [s.column])]
    else if s.CreateIndex? then tables[s.table := tables[s.table].(indices := tables[s.table].indices + [s.name])]
    else if s.DropIndex? then tables[s.table := tables[s.table].(indices := Without(tables[s.table].indices, s.name))]
    else tables
  }

  function Run(tables: map<string, Table>, stmts: seq<Stmt>): map<string, Table>
    decreases stmts
  {
    if |stmts| == 0 then tables else Run(Effect(tables, stmts[0]), stmts[1..])
  }

  lemma {:induction false} RunAppend(tables: map<string, Table>, a: seq<Stmt>, b: seq<Stmt>)
    ensures Run(tables, a + b) == Run(Run(tables, a), b)
    decreases a
  {
    if |a| > 0 {
      assert (a + b)[0] == a[0] && (a + b)[1..] == a[1..] + b;
      RunAppend(Effect(tables, a[0]), a[1..], b);
    } else {
      assert a + b == b;
    }
  }


  lemma RunSnoc(tables: map<string, Table>, done: seq<Stmt>, s: Stmt)
    ensures Run(tables, done + [s]) == Effect(Run(tables, done), s)
  {
    RunAppend(tables, done, [s]);
    assert [s][1..] == [];
  }

  lemma Concat(a: seq<Stmt>, b: seq<Stmt>, c: seq<Stmt>)
    ensures a + (b + c) == a + b + c
  {
  }

  /**
   * The store. Its schema is always what its log did to the schema it
   * started from (`start`, a proof-only record).
   */
  class Store {
    var tables: map<string, Table>
    var log: seq<Stmt>
    ghost var start: map<string, Table>

    ghost predicate Valid()
      reads this
    {
      tables == Run(start, log)
    }

    constructor (tables: map<string, Table>)
      ensures Valid() && this.tables == tables && log == []
    {
      this.tables := tables;
      log := [];
      start := tables;
    }

    /** Send one statement; it is logged and takes effect. */
    method Execute(s: Stmt)
      requires Valid()
      modifies this
      ensures Valid() && start == old(start)
      ensures log == old(log) + [s]
      ensures tables == Effect(old(tables), s)
    {
      RunSnoc(start, log, s);
      log := log + [s];
      tables := Effect(tables, s);
    }
  }

  /** Whatever a store was sent, its schema is the effect of that on the schema before. */
  lemma Sent(db: Store, before: seq<Stmt>, plan: seq<Stmt>, tables: map<string, Table>)
    requires db.Valid() && db.log == before + plan && tables == Run(db.start, before)
    ensures db.tables == Run(tables, plan)
  {
    RunAppend(db.start, before, plan);
  }

  // ----- the SQL text of each statement -----

  function ConflictText(c: Conflict): string
  {
    match c
    case NoConflict => ""
    case DoNothing(keys) => " ON CONFLICT(" + Text.Join(keys, ",") + ") DO NOTHING"
    case DoUpdate(keys, updated) =>
      " ON CONFLICT(" + Text.Join(keys, ",") + ") DO UPDATE SET "
      + Text.Join(seq(|updated|, i requires 0 <= i < |updated| => updated[i] + "=excluded." + updated[i]), ",")
  }

  /** The members of the CREATE TABLE list: column definitions, then foreign keys, then the primary key when there is one. */
  function Components(defs: seq<ColumnDef>, foreignKeys: seq<ForeignKey>, primaryKeys: seq<string>): seq<string>
  {
    seq(|defs|, i requires 0 <= i < |defs| => defs[i].key + " " + defs[i].sqlType)
    + seq(|foreignKeys|, i requires 0 <= i < |foreignKeys| =>
        "FOREIGN KEY(" + foreignKeys[i].key + ") REFERENCES " + foreignKeys[i].relation.typeName
        + "(" + foreignKeys[i].relation.key + ") ON DELETE CASCADE")
    + (if |primaryKeys| > 0 then ["PRIMARY KEY (" + Text.Join(primaryKeys, ",") + ")"] else [])
  }

  function Placeholders(n: nat): (r: seq<string>)
    ensures |r| == n && forall i :: 0 <= i < n ==> r[i] == "?"
  {
    seq(n, _ => "?")
  }

  function StmtText(s: Stmt): string
  {
    match s
    case FindTable(t) => "SELECT name FROM sqlite_master WHERE type='table' AND name='" + t + "';"
    case CountRows(t, suffix) => "SELECT COUNT(*) FROM " + t + suffix + ";"
    case DeleteRows(t, suffix) => "DELETE FROM " + t + suffix + ";"
    case SelectRows(t, suffix) => "SELECT * FROM " + t + suffix + ";"
    case TableInfo(t) => "PRAGMA table_info(" + t + ")"
    case IndexList(t) => "PRAGMA index_list(" + t + ");"
    case AddColumn(t, c, ty) => "ALTER TABLE " + t + " ADD " + c + " " + ty + ";"
    case AddForeignKey(t, c, r) =>
      "ALTER TABLE " + t + " ADD FOREIGN KEY(" + c + ") REFERENCES " + r.typeName + "(" + r.key + ") ON DELETE CASCADE;"
    case CreateIndex(t, n, keys) => "CREATE INDEX " + n + " ON " + t + "(" + Text.Join(keys, ",") + ");"
    case DropIndex(_, n) => "DROP INDEX " + n + ";"
    case CreateTable(t, defs, fks, pks) => "CREATE TABLE " + t + "(" + Text.Join(Components(defs, fks, pks), ",") + ");"
    case Insert(t, keys, conflict, _) =>
      "INSERT INTO " + t + "(" + Text.Join(keys, ",") + ") VALUES(" + Text.Join(Placeholders(|keys|), ",") + ")"
      + ConflictText(conflict) + ";"
  }

  // ----- what each operation sends -----

  /** `isSetup`, `count` and `delete` look the table up first. */
  function DeletePlan(tables: map<string, Table>, table: string, options: QueryOptions.Options): seq<Stmt>
  {
    [FindTable(table)] + (if table in tables then [DeleteRows(table, QueryOptions.Suffix(options))] else [])
  }

  /** The columns that are not primary keys, in column order. */
  function NonKeys(columnKeys: seq<string>, primaryKeys: seq<string>): (r: seq<string>)
    ensures forall k :: k in r <==> k in columnKeys && k !in primaryKeys
  {
    if |columnKeys| == 0 then []
    else (if columnKeys[0] in primaryKeys then [] else [columnKeys[0]]) + NonKeys(columnKeys[1..], primaryKeys)
  }

  /** The upsert clause the first container asks for. */
  function ConflictOf(x: Input): Conflict
  {
    if |x.primaryKeys| == 0 then NoConflict
    else if |NonKeys(x.columnKeys, x.primaryKeys)| == 0 then DoNothing(x.primaryKeys)
    else DoUpdate(x.primaryKeys, NonKeys(x.columnKeys, x.primaryKeys))
  }

  /** The insert of one container, with the columns and upsert clause of the first. */
  function InsertOf(table: string, first: Input, x: Input): Stmt
    requires forall k :: k in first.columnKeys ==> k in x.columns
  {
    var keys := first.columnKeys;
    Insert(table, keys, ConflictOf(first), seq(|keys|, i requires 0 <= i < |keys| => (i + 1, x.columns[keys[i]])))
  }

  function Defs(x: Input): seq<ColumnDef>
    requires Keyed(x)
  {
    seq(|x.columnKeys|, i requires 0 <= i < |x.columnKeys| => ColumnDef(x.columnKeys[i], SqlName(KindOf(x.columns[x.columnKeys[i]]))))
  }

  function ForeignKeys(x: Input): seq<ForeignKey>
    requires Keyed(x)
  {
    seq(|x.relationKeys|, i requires 0 <= i < |x.relationKeys| => ForeignKey(x.relationKeys[i], x.relations[x.relationKeys[i]]))
  }

  function CreateIndices(table: string, indices: seq<Index>): seq<Stmt>
  {
    seq(|indices|, i requires 0 <= i < |indices| => CreateIndex(table, indices[i].name, indices[i].keys))
  }

  /** Setup of an absent table: CREATE TABLE, then one CREATE INDEX per declared index. */
  function AbsentSetup(table: string, x: Input): seq<Stmt>
    requires Keyed(x)
  {
    [CreateTable(table, Defs(x), ForeignKeys(x), x.primaryKeys)] + CreateIndices(table, x.indices)
  }

  /** The ALTER statements for the columns in `keys` that are not yet `existing`. */
  function Alters(table: string, x: Input, existing: set<string>, keys: seq<string>): seq<Stmt>
    requires forall k :: k in keys ==> k in x.columns
    decreases keys
  {
    if |keys| == 0 then []
    else if keys[0] in existing then Alters(table, x, existing, keys[1..])
    else ColumnAlters(table, x, keys[0]) + Alters(table, x, existing + {keys[0]}, keys[1..])
  }

  /** Adding one column: the column, then its foreign key when it has a relation. */
  function ColumnAlters(table: string, x: Input, column: string): seq<Stmt>
    requires column in x.columns
  {
    [AddColumn(table, column, SqlName(KindOf(x.columns[column])))]
    + (if column in x.relations then [AddForeignKey(table, column, x.relations[column])] else [])
  }

  predicate HasPrefix(s: string, prefix: string)
  {
    |prefix| <= |s| && s[..|prefix|] == prefix
  }

  const IndexPrefix: string := "omiros_"

  /** The index names carrying the library's prefix, in order. */
  function Prefixed(names: seq<string>): (r: seq<string>)
  {
    if |names| == 0 then []
    else Prefixed(names[..|names| - 1]) + (if HasPrefix(names[|names| - 1], IndexPrefix) then [names[|names| - 1]] else [])
  }

  function Drops(table: string, names: seq<string>): seq<Stmt>
  {
    seq(|names|, i requires 0 <= i < |names| => DropIndex(table, names[i]))
  }

  /** The present indices no declared index claims: what the diff drops. */
  function Leftover(existing: seq<string>, declared: seq<Index>): (r: seq<string>)
    decreases declared
  {
    if |declared| == 0 then existing
    else if declared[0].name in existing then Leftover(Without(existing, declared[0].name), declared[1..])
    else Leftover(existing, declared[1..])
  }

  /** The declared indices not present, created in declaration order. */
  function Creates(table: string, existing: seq<string>, declared: seq<Index>): seq<Stmt>
    decreases declared
  {
    if |declared| == 0 then []
    else if declared[0].name in existing then Creates(table, Without(existing, declared[0].name), declared[1..])
    else [CreateIndex(table, declared[0].name, declared[0].keys)] + Creates(table, existing, declared[1..])
  }

  /** The index diff: a declared index already present is kept, an absent one created; the present ones left over are dropped. */
  function IndexPlan(table: string, existing: seq<string>, declared: seq<Index>): seq<Stmt>
  {
    Creates(table, existing, declared) + Drops(table, Leftover(existing, declared))
  }

  /** Setup of a present table: read its columns, add the missing ones, read its indices, reconcile them. */
  function PresentSetup(table: string, current: Table, x: Input): seq<Stmt>
    requires Keyed(x)
  {
    [TableInfo(table)] + Alters(table, x, (set c | c in current.columns), x.columnKeys)
    + [IndexList(table)] + IndexPlan(table, Prefixed(current.indices), x.indices)
  }

  function SetupPlan(tables: map<string, Table>, table: string, x: Input): seq<Stmt>
    requires Keyed(x)
  {
    [FindTable(table)] + (if table in tables then PresentSetup(table, tables[table], x) else AbsentSetup(table, x))
  }

  /** Saving a list: nothing when empty; otherwise setup from the first container, then the records in order. */
  function SavePlan(tables: map<string, Table>, table: string, records: seq<Input>): seq<Stmt>
    requires Saveable(records)
    decreases records, 2
  {
    if |records| == 0 then []
    else
      var setup := SetupPlan(tables, table, records[0]);
      setup + RecordsPlan(Run(tables, setup), table, records[0], records, 0)
  }

  /** The records from index `from` on, in turn. */
  function RecordsPlan(tables: map<string, Table>, table: string, first: Input, rs: seq<Input>, from: nat): seq<Stmt>
    requires from <= |rs|
    requires forall i, k :: 0 <= i < |rs| && k in first.columnKeys ==> k in rs[i].columns
    requires GroupsSaveable(rs)
    decreases rs, 1, |rs| - from
  {
    if from == |rs| then []
    else
      var head := RecordPlan(tables, table, first, rs[from]);
      head + RecordsPlan(Run(tables, head), table, first, rs, from + 1)
  }

  /** One record: its insert, then its enclosed lists. */
  function RecordPlan(tables: map<string, Table>, table: string, first: Input, x: Input): seq<Stmt>
    requires forall k :: k in first.columnKeys ==> k in x.columns
    requires GroupListSaveable(x.enclosed)
    decreases x, 1
  {
    var insert := [InsertOf(table, first, x)];
    insert + GroupsPlan(Run(tables, insert), x.enclosed)
  }

  function GroupsPlan(tables: map<string, Table>, groups: seq<Group>): seq<Stmt>
    requires GroupListSaveable(groups)
    decreases groups, 1
  {
    if |groups| == 0 then []
    else
      var first := EntriesPlan(tables, groups[0].entries);
      first + GroupsPlan(Run(tables, first), groups[1..])
  }

  /** Each enclosed entry in turn. */
  function EntriesPlan(tables: map<string, Table>, entries: seq<Entry>): seq<Stmt>
    requires EntriesSaveable(entries)
    decreases entries, 1
  {
    if |entries| == 0 then []
    else
      var first := EntryPlan(tables, entries[0]);
      first + EntriesPlan(Run(tables, first), entries[1..])
  }

  /** One enclosed entry: the delete by its options when it has them, then its save. */
  function EntryPlan(tables: map<string, Table>, e: Entry): seq<Stmt>
    requires Saveable(e.records)
    decreases e, 0
  {
    var delete := if e.deleteOptions.Some? then DeletePlan(tables, e.typeName, e.deleteOptions.value) else [];
    delete + SavePlan(Run(tables, delete), e.typeName, e.records)
  }

  // ----- the operations -----

  /** `isSetup`: asks the catalogue for the table; there is a row exactly when the table exists. */
  method IsSetup(db: Store, table: string) returns (r: bool)
    requires db.Valid()
    modifies db
    ensures r <==> table in old(db.tables)
    ensures db.Valid() && db.start == old(db.start)
    ensures db.log == old(db.log) + [FindTable(table)] && db.tables == old(db.tables)
  {
    db.Execute(FindTable(table));
    r := table in db.tables;
  }

  /** `count`: 0 without a table; otherwise the engine's count (`counted`) for the options' suffix. */
  method Count(db: Store, table: string, options: QueryOptions.Options, counted: int) returns (n: int)
    requires db.Valid()
    modifies db
    ensures table !in old(db.tables) ==> n == 0 && db.log == old(db.log) + [FindTable(table)]
    ensures table in old(db.tables) ==>
      n == counted && db.log == old(db.log) + [FindTable(table), CountRows(table, QueryOptions.Suffix(options))]
    ensures db.Valid() && db.start == old(db.start) && db.tables == old(db.tables)
  {
    var present := IsSetup(db, table);
    if !present {
      return 0;
    }
    db.Execute(CountRows(table, QueryOptions.Suffix(options)));
    n := counted;
  }

  /** `delete`: nothing without a table; otherwise one DELETE with the options' suffix. */
  method Delete(db: Store, table: string, options: QueryOptions.Options)
    requires db.Valid()
    modifies db
    ensures db.log == old(db.log) + DeletePlan(old(db.tables), table, options)
    ensures db.Valid() && db.start == old(db.start) && db.tables == old(db.tables)
  {
    var present := IsSetup(db, table);
    if !present {
      return;
    }
    db.Execute(DeleteRows(table, QueryOptions.Suffix(options)));
  }

  /** The options with the limit forced to one row. */
  function FirstOnly(options: QueryOptions.Options): (r: QueryOptions.Options)
    ensures r.limit == 1 && r.conditions == options.conditions && r.order == options.order && r.offset == options.offset
  {
    options.(limit := 1)
  }

  /**
   * `init?(in:options:)`: nil without a table; otherwise a SELECT limited to
   * one row, and the first row when the engine returns one. `rows` are the
   * rows the engine returns for the query.
   */
  method FetchFirst(db: Store, table: string, options: QueryOptions.Options, rows: seq<seq<Columns.Column>>)
    returns (r: Option<seq<Columns.Column>>)
    requires db.Valid()
    modifies db
    ensures table !in old(db.tables) ==> r == None && db.log == old(db.log) + [FindTable(table)]
    ensures table in old(db.tables) ==>
      r == (if |rows| > 0 then Some(rows[0]) else None)
      && db.log == old(db.log) + [FindTable(table), SelectRows(table, QueryOptions.Suffix(FirstOnly(options)))]
    ensures db.Valid() && db.start == old(db.start) && db.tables == old(db.tables)
  {
    var present := IsSetup(db, table);
    if !present {
      return None;
    }
    var limited := options.(limit := 1);
    db.Execute(SelectRows(table, QueryOptions.Suffix(limited)));
    var hasMoreRows := |rows| > 0;
    if hasMoreRows {
      return Some(rows[0]);
    }
    return None;
  }

  /**
   * Array `init?(in:options:)`: nil without a table; otherwise one entity
   * per row, in step order, until the engine has no more rows.
   */
  method FetchAll(db: Store, table: string, options: QueryOptions.Options, rows: seq<seq<Columns.Column>>)
    returns (r: Option<seq<seq<Columns.Column>>>)
    requires db.Valid()
    modifies db
    ensures table !in old(db.tables) ==> r == None && db.log == old(db.log) + [FindTable(table)]
    ensures table in old(db.tables) ==>
      r == Some(rows) && db.log == old(db.log) + [FindTable(table), SelectRows(table, QueryOptions.Suffix(options))]
    ensures db.Valid() && db.start == old(db.start) && db.tables == old(db.tables)
  {
    var present := IsSetup(db, table);
    if !present {
      return None;
    }
    db.Execute(SelectRows(table, QueryOptions.Suffix(options)));
    var next := 0;
    var hasMoreRows := next < |rows|;
    var entities: seq<seq<Columns.Column>> := [];
    while hasMoreRows
      invariant 0 <= next <= |rows| && hasMoreRows == (next < |rows|)
      invariant entities == rows[..next]
      decreases |rows| - next
    {
      entities := entities + [rows[next]];
      next := next + 1;
      hasMoreRows := next < |rows|;
    }
    assert rows[..next] == rows;
    return Some(entities);
  }

  /** The `table_info` loop: the set of the table's column names. */
  method ReadColumns(info: seq<string>) returns (existing: set<string>)
    ensures forall c :: c in existing <==> c in info
  {
    existing := {};
    var row := 0;
    while row < |info|
      invariant 0 <= row <= |info|
      invariant forall c :: c in existing <==> c in info[..row]
    {
      assert info[..row + 1] == info[..row] + [info[row]];
      existing := existing + {info[row]};
      row := row + 1;
    }
    assert info[..row] == info;
  }

  /** One iteration of the ALTER loop of `setup`, for a column not yet present. */
  method AddColumnTo(db: Store, table: string, x: Input, column: string)
    requires db.Valid() && column in x.columns && table in db.tables
    modifies db
    ensures db.Valid() && db.start == old(db.start)
    ensures db.log == old(db.log) + ColumnAlters(table, x, column)
    ensures table in db.tables && db.tables[table].indices == old(db.tables[table].indices)
  {
    db.Execute(AddColumn(table, column, SqlName(KindOf(x.columns[column]))));
    if column in x.relations {
      db.Execute(AddForeignKey(table, column, x.relations[column]));
    }
  }

  /** The ALTER loop of `setup`: each column not yet present is added, with its foreign key when it has a relation. */
  method AddMissingColumns(db: Store, table: string, x: Input, existing: set<string>)
    requires db.Valid() && (forall k :: k in x.columnKeys ==> k in x.columns) && table in db.tables
    modifies db
    ensures db.Valid() && db.start == old(db.start)
    ensures db.log == old(db.log) + Alters(table, x, existing, x.columnKeys)
    ensures table in db.tables && db.tables[table].indices == old(db.tables[table].indices)
  {
    var existingColumns := existing;
    var i := 0;
    while i < |x.columnKeys|
      invariant 0 <= i <= |x.columnKeys|
      invariant db.Valid() && db.start == old(db.start)
      invariant table in db.tables && db.tables[table].indices == old(db.tables[table].indices)
      invariant db.log + Alters(table, x, existingColumns, x.columnKeys[i..])
        == old(db.log) + Alters(table, x, existing, x.columnKeys)
    {
      var column := x.columnKeys[i];
      assert x.columnKeys[i..][0] == column && x.columnKeys[i..][1..] == x.columnKeys[i + 1..];
      if column !in existingColumns {
        ghost var before := db.log;
        existingColumns := existingColumns + {column};
        AddColumnTo(db, table, x, column);
        Concat(before, ColumnAlters(table, x, column), Alters(table, x, existingColumns, x.columnKeys[i + 1..]));
      }
      i := i + 1;
    }
    assert x.columnKeys[i..] == [];
    assert db.log + [] == db.log;
  }

  /** The `index_list` loop: the index names carrying the library's prefix. */
  method ReadIndices(names: seq<string>) returns (existing: seq<string>)
    ensures existing == Prefixed(names)
  {
    existing := [];
    var row := 0;
    while row < |names|
      invariant 0 <= row <= |names|
      invariant existing == Prefixed(names[..row])
    {
      assert names[..row + 1][..row] == names[..row];
      if HasPrefix(names[row], IndexPrefix) {
        existing := existing + [names[row]];
      }
      row := row + 1;
    }
    assert names[..row] == names;
  }

  /** The CREATE INDEX loop of `setup`: returns the present indices no declared one claimed. */
  method CreateMissingIndices(db: Store, table: string, existing: seq<string>, declared: seq<Index>)
    returns (leftover: seq<string>)
    requires db.Valid()
    modifies db
    ensures leftover == Leftover(existing, declared)
    ensures db.Valid() && db.start == old(db.start)
    ensures db.log == old(db.log) + Creates(table, existing, declared)
  {
    leftover := existing;
    var i := 0;
    while i < |declared|
      invariant 0 <= i <= |declared|
      invariant db.log + Creates(table, leftover, declared[i..]) == old(db.log) + Creates(table, existing, declared)
      invariant Leftover(leftover, declared[i..]) == Leftover(existing, declared)
      invariant db.Valid() && db.start == old(db.start)
    {
      var index := declared[i];
      assert declared[i..][0] == index && declared[i..][1..] == declared[i + 1..];
      if index.name in leftover {
        leftover := Without(leftover, index.name);
      } else {
        var create := CreateIndex(table, index.name, index.keys);
        ghost var before := db.log;
        db.Execute(create);
        Concat(before, [create], Creates(table, leftover, declared[i + 1..]));
      }
      i := i + 1;
    }
    assert declared[i..] == [];
    assert db.log + [] == db.log;
  }

  /** The DROP INDEX loop of `setup`. */
  method DropIndices(db: Store, table: string, names: seq<string>)
    requires db.Valid()
    modifies db
    ensures db.Valid() && db.start == old(db.start)
    ensures db.log == old(db.log) + Drops(table, names)
  {
    var j := 0;
    while j < |names|
      invariant 0 <= j <= |names|
      invariant db.Valid() && db.start == old(db.start) && db.log == old(db.log) + Drops(table, names)[..j]
    {
      assert Drops(table, names)[..j + 1] == Drops(table, names)[..j] + [DropIndex(table, names[j])];
      db.Execute(DropIndex(table, names[j]));
      j := j + 1;
    }
    assert Drops(table, names)[..j] == Drops(table, names);
  }

  /** The index loops of `setup`: create the declared indices not present, then drop the present ones not declared. */
  method ReconcileIndices(db: Store, table: string, existing: seq<string>, declared: seq<Index>)
    requires db.Valid()
    modifies db
    ensures db.Valid() && db.start == old(db.start)
    ensures db.log == old(db.log) + IndexPlan(table, existing, declared)
  {
    var leftover := CreateMissingIndices(db, table, existing, declared);
    DropIndices(db, table, leftover);
  }

  /** The `else` branch of `setup`: CREATE TABLE from the container, then its indices. */
  method CreateAbsentTable(db: Store, table: string, x: Input)
    requires db.Valid() && Keyed(x)
    modifies db
    ensures db.Valid() && db.start == old(db.start)
    ensures db.log == old(db.log) + AbsentSetup(table, x)
  {
    var defs: seq<ColumnDef> := [];
    var i := 0;
    while i < |x.columnKeys|
      invariant 0 <= i <= |x.columnKeys| && defs == Defs(x)[..i]
    {
      var key := x.columnKeys[i];
      defs := defs + [ColumnDef(key, SqlName(KindOf(x.columns[key])))];
      i := i + 1;
    }
    var foreignKeys: seq<ForeignKey> := [];
    i := 0;
    while i < |x.relationKeys|
      invariant 0 <= i <= |x.relationKeys| && foreignKeys == ForeignKeys(x)[..i]
    {
      var key := x.relationKeys[i];
      foreignKeys := foreignKeys + [ForeignKey(key, x.relations[key])];
      i := i + 1;
    }
    assert defs == Defs(x)[..|x.columnKeys|] && foreignKeys == ForeignKeys(x)[..|x.relationKeys|];
    var create := CreateTable(table, defs, foreignKeys, x.primaryKeys);
    db.Execute(create);
    ghost var indices := CreateIndices(table, x.indices);
    i := 0;
    while i < |x.indices|
      invariant 0 <= i <= |x.indices|
      invariant db.Valid() && db.start == old(db.start) && db.log == old(db.log) + [create] + indices[..i]
    {
      assert indices[..i + 1] == indices[..i] + [indices[i]];
      db.Execute(CreateIndex(table, x.indices[i].name, x.indices[i].keys));
      i := i + 1;
    }
    assert indices[..i] == indices;
    assert defs == Defs(x) && foreignKeys == ForeignKeys(x);
  }

  /** The `if` branch of `setup`: the table exists. */
  method ReconcileTable(db: Store, table: string, x: Input)
    requires db.Valid() && Keyed(x) && table in db.tables
    modifies db
    ensures db.Valid() && db.start == old(db.start)
    ensures db.log == old(db.log) + PresentSetup(table, old(db.tables)[table], x)
  {
    ghost var current := db.tables[table];
    db.Execute(TableInfo(table));
    var existingColumns := ReadColumns(db.tables[table].columns);
    assert existingColumns == set c | c in current.columns;
    ghost var L1 := db.log;
    AddMissingColumns(db, table, x, existingColumns);
    ghost var L2 := db.log;
    db.Execute(IndexList(table));
    var existingIndices := ReadIndices(db.tables[table].indices);
    ghost var L3 := db.log;
    ReconcileIndices(db, table, existingIndices, x.indices);
    ghost var alters := Alters(table, x, existingColumns, x.columnKeys);
    ghost var indexPlan := IndexPlan(table, existingIndices, x.indices);
    assert PresentSetup(table, current, x) == [TableInfo(table)] + alters + [IndexList(table)] + indexPlan;
    calc {
      db.log;
      L3 + indexPlan;
      L2 + [IndexList(table)] + indexPlan;
      L1 + alters + [IndexList(table)] + indexPlan;
      old(db.log) + [TableInfo(table)] + alters + [IndexList(table)] + indexPlan;
      { Concat(old(db.log), [TableInfo(table)], alters);
        Concat(old(db.log), [TableInfo(table)] + alters, [IndexList(table)]);
        Concat(old(db.log), [TableInfo(table)] + alters + [IndexList(table)], indexPlan); }
      old(db.log) + PresentSetup(table, current, x);
    }
  }

  /**
   * `setup(in:with:)`: an absent table is created from the container; a
   * present one gets the missing columns and its `omiros_` indices
   * reconciled with the declared ones.
   */
  method Setup(db: Store, table: string, x: Input)
    requires db.Valid() && Keyed(x)
    modifies db
    ensures db.Valid() && db.start == old(db.start)
    ensures db.log == old(db.log) + SetupPlan(old(db.tables), table, x)
  {
    var present := IsSetup(db, table);
    if present {
      ReconcileTable(db, table, x);
    } else {
      CreateAbsentTable(db, table, x);
    }
  }

  /**
   * Array `save(in:)`: nothing for an empty list; otherwise the setup from
   * the first container, then each container's row and enclosed lists.
   */
  method SaveAll(db: Store, table: string, records: seq<Input>)
    requires db.Valid() && Saveable(records)
    modifies db
    ensures db.Valid() && db.start == old(db.start)
    ensures db.log == old(db.log) + SavePlan(old(db.tables), table, records)
    decreases records, 3
  {
    if |records| == 0 {
      return;
    }
    var index := 0;
    var container := records[index];
    var first := container;
    var conflict := ConflictOf(container);
    Setup(db, table, container);
    ghost var setup := SetupPlan(old(db.tables), table, first);
    Sent(db, old(db.log), setup, old(db.tables));
    ghost var L0, T0 := db.log, db.tables;
    while true
      invariant 0 <= index < |records| && container == records[index]
      invariant db.Valid() && db.start == old(db.start)
      invariant db.log + RecordsPlan(db.tables, table, first, records, index) == L0 + RecordsPlan(T0, table, first, records, 0)
      decreases |records| - index
    {
      ghost var L, T := db.log, db.tables;
      assert container in records;
      SaveRecord(db, table, first, conflict, container);
      ghost var head := RecordPlan(T, table, first, container);
      Sent(db, L, head, T);
      Concat(L, head, RecordsPlan(db.tables, table, first, records, index + 1));
      index := index + 1;
      if index >= |records| {
        break;
      }
      container := records[index];
    }
    assert db.log + [] == db.log;
    Concat(old(db.log), setup, RecordsPlan(T0, table, first, records, 0));
  }

  /** One pass of `save`'s loop: the row of `container` (the columns and upsert clause of `first`), then its enclosed lists. */
  method SaveRecord(db: Store, table: string, first: Input, conflict: Conflict, container: Input)
    requires db.Valid() && conflict == ConflictOf(first)
    requires (forall k :: k in first.columnKeys ==> k in container.columns) && GroupListSaveable(container.enclosed)
    modifies db
    ensures db.Valid() && db.start == old(db.start)
    ensures db.log == old(db.log) + RecordPlan(old(db.tables), table, first, container)
    decreases container, 3
  {
    var columnKeys := first.columnKeys;
    var binds: seq<(nat, Value)> := [];
    for i := 0 to |columnKeys|
      invariant binds == seq(i, j requires 0 <= j < i => (j + 1, container.columns[columnKeys[j]]))
    {
      binds := binds + [(i + 1, container.columns[columnKeys[i]])];
    }
    var insert := Insert(table, columnKeys, conflict, binds);
    assert insert == InsertOf(table, first, container);
    db.Execute(insert);
    assert Run(old(db.tables), [insert]) == old(db.tables) by {
      assert [insert][1..] == [];
    }
    SaveGroups(db, container.enclosed);
    Concat(old(db.log), [insert], GroupsPlan(old(db.tables), container.enclosed));
  }

  /** The `for (_, enclosedEntities) in container.enclosed` loop of `save`. */
  method SaveGroups(db: Store, groups: seq<Group>)
    requires db.Valid() && GroupListSaveable(groups)
    modifies db
    ensures db.Valid() && db.start == old(db.start)
    ensures db.log == old(db.log) + GroupsPlan(old(db.tables), groups)
    decreases groups, 2
  {
    var g := 0;
    while g < |groups|
      invariant 0 <= g <= |groups|
      invariant GroupListSaveable(groups[g..])
      invariant db.Valid() && db.start == old(db.start)
      invariant db.log + GroupsPlan(db.tables, groups[g..]) == old(db.log) + GroupsPlan(old(db.tables), groups)
    {
      assert groups[g..][0] == groups[g] && groups[g..][1..] == groups[g + 1..];
      ghost var L, T := db.log, db.tables;
      assert groups[g] in groups;
      SaveEntries(db, groups[g].entries);
      ghost var first := EntriesPlan(T, groups[g].entries);
      Sent(db, L, first, T);
      Concat(L, first, GroupsPlan(db.tables, groups[g + 1..]));
      g := g + 1;
    }
    assert groups[g..] == [];
    assert db.log + [] == db.log;
  }

  /** The `for (enclosedEntity, deleteOptions) in enclosedEntities` loop of `save`. */
  method SaveEntries(db: Store, entries: seq<Entry>)
    requires db.Valid() && EntriesSaveable(entries)
    modifies db
    ensures db.Valid() && db.start == old(db.start)
    ensures db.log == old(db.log) + EntriesPlan(old(db.tables), entries)
    decreases entries, 1
  {
    var e := 0;
    while e < |entries|
      invariant 0 <= e <= |entries|
      invariant EntriesSaveable(entries[e..])
      invariant db.Valid() && db.start == old(db.start)
      invariant db.log + EntriesPlan(db.tables, entries[e..]) == old(db.log) + EntriesPlan(old(db.tables), entries)
    {
      assert entries[e..][0] == entries[e] && entries[e..][1..] == entries[e + 1..];
      ghost var L, T := db.log, db.tables;
      assert entries[e] in entries;
      SaveEntry(db, entries[e]);
      ghost var first := EntryPlan(T, entries[e]);
      Sent(db, L, first, T);
      Concat(L, first, EntriesPlan(db.tables, entries[e + 1..]));
      e := e + 1;
    }
    assert entries[e..] == [];
    assert db.log + [] == db.log;
  }

  /** The body of that loop: delete by the entry's options when it has them, then save its list. */
  method SaveEntry(db: Store, entry: Entry)
    requires db.Valid() && Saveable(entry.records)
    modifies db
    ensures db.Valid() && db.start == old(db.start)
    ensures db.log == old(db.log) + EntryPlan(old(db.tables), entry)
    decreases entry, 0
  {
    if entry.deleteOptions.Some? {
      Delete(db, entry.typeName, entry.deleteOptions.value);
    }
    ghost var delete := if entry.deleteOptions.Some? then DeletePlan(old(db.tables), entry.typeName, entry.deleteOptions.value) else [];
    Sent(db, old(db.log), delete, old(db.tables));
    SaveAll(db, entry.typeName, entry.records);
    Concat(old(db.log), delete, SavePlan(Run(old(db.tables), delete), entry.typeName, entry.records));
  }

  // ----- properties of the plans -----

  predicate Distinct(names: seq<string>)
  {
    forall i, j :: 0 <= i < j < |names| ==> names[i] != names[j]
  }

  function Names(declared: seq<Index>): seq<string>
  {
    seq(|declared|, i requires 0 <= i < |declared| => declared[i].name)
  }

  lemma {:induction false} WithoutRemoves(s: seq<string>, x: string)
    ensures forall y :: y in Without(s, x) <==> y in s && y != x
  {
    if |s| > 0 {
      WithoutRemoves(s[1..], x);
      assert forall y :: y in s <==> y == s[0] || y in s[1..];
    }
  }

  lemma {:induction false} PrefixedMembers(names: seq<string>)
    ensures forall n :: n in Prefixed(names) <==> n in names && HasPrefix(n, IndexPrefix)
  {
    if |names| > 0 {
      var init := names[..|names| - 1];
      PrefixedMembers(init);
      assert names == init + [names[|names| - 1]];
    }
  }

  /** The present indices left over are those no declared index names. */
  lemma {:induction false} LeftoverMembers(existing: seq<string>, declared: seq<Index>)
    ensures forall n :: n in Leftover(existing, declared) <==> n in existing && n !in Names(declared)
    decreases declared
  {
    if |declared| > 0 {
      var d := declared[0].name;
      assert Names(declared) == [d] + Names(declared[1..]);
      if d in existing {
        WithoutRemoves(existing, d);
        LeftoverMembers(Without(existing, d), declared[1..]);
      } else {
        LeftoverMembers(existing, declared[1..]);
      }
    }
  }

  /** Exactly the declared indices that are not present are created. */
  lemma {:induction false} CreatesMembers(table: string, existing: seq<string>, declared: seq<Index>)
    requires Distinct(Names(declared))
    ensures forall s :: s in Creates(table, existing, declared) ==>
      s.CreateIndex? && s.table == table && s.name in Names(declared) && s.name !in existing
    ensures forall i :: 0 <= i < |declared| && declared[i].name !in existing ==>
      CreateIndex(table, declared[i].name, declared[i].keys) in Creates(table, existing, declared)
    decreases declared
  {
    if |declared| > 0 {
      var d := declared[0].name;
      var rest := declared[1..];
      assert Names(declared) == [d] + Names(rest);
      assert Distinct(Names(rest)) by {
        assert Names(rest) == Names(declared)[1..];
      }
      forall j | 0 <= j < |rest|
        ensures Names(rest)[j] != d
      {
        assert Names(rest)[j] == Names(declared)[j + 1] && Names(declared)[0] == d;
      }
      assert forall i :: 1 <= i < |declared| ==> declared[i] == rest[i - 1];
      if d in existing {
        WithoutRemoves(existing, d);
        CreatesMembers(table, Without(existing, d), rest);
      } else {
        CreatesMembers(table, existing, rest);
      }
    }
  }

  lemma DropsMembers(table: string, names: seq<string>)
    ensures forall s :: s in Drops(table, names) ==> s.DropIndex? && s.table == table && s.name in names
    ensures forall n :: DropIndex(table, n) in Drops(table, names) <==> n in names
  {
    forall n | n in names
      ensures DropIndex(table, n) in Drops(table, names)
    {
      var i :| 0 <= i < |names| && names[i] == n;
      assert Drops(table, names)[i] == DropIndex(table, n);
    }
  }

  /**
   * The index diff of `setup` over the indices present in the table: a
   * declared index present under the library's prefix is kept, any other
   * declared index is created, a prefixed index nobody declares is dropped,
   * and an index without the prefix is never dropped.
   */
  lemma IndexDiff(table: string, present: seq<string>, declared: seq<Index>)
    requires Distinct(Names(declared))
    ensures var plan := IndexPlan(table, Prefixed(present), declared);
      (forall s :: s in plan ==> s.table == table && (s.CreateIndex? || s.DropIndex?))
      && (forall i :: 0 <= i < |declared| ==>
           (CreateIndex(table, declared[i].name, declared[i].keys) in plan
            <==> !(declared[i].name in present && HasPrefix(declared[i].name, IndexPrefix))))
      && (forall n :: DropIndex(table, n) in plan <==> n in present && HasPrefix(n, IndexPrefix) && n !in Names(declared))
      && (forall s :: s in plan && s.DropIndex? ==> HasPrefix(s.name, IndexPrefix))
  {
    var existing := Prefixed(present);
    PrefixedMembers(present);
    CreatesMembers(table, existing, declared);
    LeftoverMembers(existing, declared);
    DropsMembers(table, Leftover(existing, declared));
    var creates := Creates(table, existing, declared);
    var drops := Drops(table, Leftover(existing, declared));
    assert forall s :: s in IndexPlan(table, existing, declared) <==> s in creates || s in drops;
    forall i | 0 <= i < |declared|
      ensures CreateIndex(table, declared[i].name, declared[i].keys) in creates
        ==> declared[i].name !in existing
    {
      assert Names(declared)[i] == declared[i].name;
    }
  }

  /** A declared index whose name lacks the prefix is created again even when it is present. */
  lemma UnprefixedIndexIsCreatedAgain(table: string, present: seq<string>, declared: seq<Index>, i: nat)
    requires Distinct(Names(declared)) && i < |declared|
    requires declared[i].name in present && !HasPrefix(declared[i].name, IndexPrefix)
    ensures CreateIndex(table, declared[i].name, declared[i].keys) in IndexPlan(table, Prefixed(present), declared)
  {
    IndexDiff(table, present, declared);
  }

  /** Every statement of the index diff creates or drops an index of the table. */
  lemma {:induction false} CreatesShape(table: string, existing: seq<string>, declared: seq<Index>)
    ensures forall s :: s in Creates(table, existing, declared) ==> s.CreateIndex? && s.table == table
    decreases declared
  {
    if |declared| > 0 {
      var d := declared[0].name;
      if d in existing {
        CreatesShape(table, Without(existing, d), declared[1..]);
      } else {
        CreatesShape(table, existing, declared[1..]);
      }
    }
  }

  /** Adding one column appends it to the table's columns and changes nothing else. */
  lemma ColumnAltersEffect(tables: map<string, Table>, table: string, x: Input, column: string)
    requires table in tables && column in x.columns
    ensures Run(tables, ColumnAlters(table, x, column))
      == tables[table := tables[table].(columns := tables[table].columns + [column])]
  {
    var add := AddColumn(table, column, SqlName(KindOf(x.columns[column])));
    var added := Effect(tables, add);
    assert Run(tables, [add]) == added by {
      assert [add][1..] == [];
    }
    if column in x.relations {
      var fk := AddForeignKey(table, column, x.relations[column]);
      RunAppend(tables, [add], [fk]);
      assert Run(added, [fk]) == Effect(added, fk) by {
        assert [fk][1..] == [];
      }
    }
  }

  /** CREATE INDEX and DROP INDEX statements on one table leave table presence, that table's columns and every other table alone. */
  lemma {:induction false} IndexStmtsKeepColumns(tables: map<string, Table>, table: string, stmts: seq<Stmt>)
    requires forall s :: s in stmts ==> (s.CreateIndex? || s.DropIndex?) && s.table == table
    ensures Run(tables, stmts).Keys == tables.Keys
    ensures table in tables ==> Run(tables, stmts)[table].columns == tables[table].columns
    ensures forall t :: t in tables && t != table ==> Run(tables, stmts)[t] == tables[t]
    decreases stmts
  {
    if |stmts| > 0 {
      assert stmts[0] in stmts;
      assert forall s :: s in stmts[1..] ==> s in stmts;
      IndexStmtsKeepColumns(Effect(tables, stmts[0]), table, stmts[1..]);
    }
  }

  /**
   * The ALTER statements add exactly the missing columns after the existing
   * ones, which stay as they are; the table's indices and every other table
   * are untouched.
   */
  lemma {:induction false} AltersAddColumns(tables: map<string, Table>, table: string, x: Input, existing: set<string>, keys: seq<string>)
    requires table in tables && (forall c :: c in existing <==> c in tables[table].columns)
    requires forall k :: k in keys ==> k in x.columns
    ensures var after := Run(tables, Alters(table, x, existing, keys));
      after.Keys == tables.Keys
      && (forall t :: t in tables && t != table ==> after[t] == tables[t])
      && after[table].indices == tables[table].indices
      && |tables[table].columns| <= |after[table].columns|
      && after[table].columns[..|tables[table].columns|] == tables[table].columns
      && (forall k :: k in after[table].columns <==> k in tables[table].columns || k in keys)
    decreases keys, 1
  {
    var before := tables[table];
    if |keys| == 0 {
      assert before.columns[..|before.columns|] == before.columns;
    } else if keys[0] in existing {
      assert forall j :: j in keys <==> j == keys[0] || j in keys[1..];
      AltersAddColumns(tables, table, x, existing, keys[1..]);
    } else {
      AltersAddNewColumn(tables, table, x, existing, keys);
    }
  }

  /** The step of the above for a first key that is missing: it is added, then the rest. */
  lemma {:induction false} AltersAddNewColumn(tables: map<string, Table>, table: string, x: Input, existing: set<string>, keys: seq<string>)
    requires table in tables && (forall c :: c in existing <==> c in tables[table].columns)
    requires forall k :: k in keys ==> k in x.columns
    requires |keys| > 0 && keys[0] !in existing
    ensures var after := Run(tables, Alters(table, x, existing, keys));
      after.Keys == tables.Keys
      && (forall t :: t in tables && t != table ==> after[t] == tables[t])
      && after[table].indices == tables[table].indices
      && |tables[table].columns| <= |after[table].columns|
      && after[table].columns[..|tables[table].columns|] == tables[table].columns
      && (forall k :: k in after[table].columns <==> k in tables[table].columns || k in keys)
    decreases keys, 0
  {
    var before := tables[table];
    var k := keys[0];
    var rest := keys[1..];
    var mid := tables[table := before.(columns := before.columns + [k])];
    var after := Run(mid, Alters(table, x, existing + {k}, rest));
    assert Run(tables, Alters(table, x, existing, keys)) == after by {
      ColumnAltersEffect(tables, table, x, k);
      RunAppend(tables, ColumnAlters(table, x, k), Alters(table, x, existing + {k}, rest));
    }
    assert forall j :: j in rest ==> j in keys;
    AltersAddColumns(mid, table, x, existing + {k}, rest);
    assert after[table].columns[..|before.columns|] == (after[table].columns[..|before.columns| + 1])[..|before.columns|];
    assert forall j :: j in keys <==> j == k || j in rest;
    assert forall j :: j in before.columns + [k] <==> j in before.columns || j == k;
  }

  /**
   * After `setup` the table exists and has a column for every column the
   * container fills. A table that was there keeps its columns, in order, in
   * front of the added ones; no other table changes.
   */
  lemma SetupCoversColumns(tables: map<string, Table>, table: string, x: Input)
    requires Keyed(x)
    ensures var after := Run(tables, SetupPlan(tables, table, x));
      table in after
      && (forall k :: k in x.columnKeys ==> k in after[table].columns)
      && (table in tables ==>
            |tables[table].columns| <= |after[table].columns|
            && after[table].columns[..|tables[table].columns|] == tables[table].columns)
      && (forall t :: t in tables && t != table ==> t in after && after[t] == tables[t])
  {
    var plan := SetupPlan(tables, table, x);
    assert Run(tables, plan) == Run(tables, plan[1..]);
    if table in tables {
      assert plan[1..] == PresentSetup(table, tables[table], x);
      PresentSetupCovers(tables, table, x);
    } else {
      assert plan[1..] == AbsentSetup(table, x);
      AbsentSetupCovers(tables, table, x);
    }
  }

  lemma PresentSetupCovers(tables: map<string, Table>, table: string, x: Input)
    requires Keyed(x) && table in tables
    ensures var after := Run(tables, PresentSetup(table, tables[table], x));
      table in after
      && (forall k :: k in x.columnKeys ==> k in after[table].columns)
      && |tables[table].columns| <= |after[table].columns|
      && after[table].columns[..|tables[table].columns|] == tables[table].columns
      && (forall t :: t in tables && t != table ==> t in after && after[t] == tables[t])
  {
    var current := tables[table];
    var existing := set c | c in current.columns;
    var alters := Alters(table, x, existing, x.columnKeys);
    var diff := IndexPlan(table, Prefixed(current.indices), x.indices);
    var head := [TableInfo(table)] + alters;
    RunAppend(tables, head + [IndexList(table)], diff);
    RunAppend(tables, head, [IndexList(table)]);
    RunAppend(tables, [TableInfo(table)], alters);
    assert Run(tables, [TableInfo(table)]) == tables by {
      assert [TableInfo(table)][1..] == [];
    }
    AltersAddColumns(tables, table, x, existing, x.columnKeys);
    var altered := Run(tables, alters);
    assert Run(altered, [IndexList(table)]) == altered by {
      assert [IndexList(table)][1..] == [];
    }
    CreatesShape(table, Prefixed(current.indices), x.indices);
    DropsMembers(table, Leftover(Prefixed(current.indices), x.indices));
    IndexStmtsKeepColumns(altered, table, diff);
  }

  lemma AbsentSetupCovers(tables: map<string, Table>, table: string, x: Input)
    requires Keyed(x)
    ensures var after := Run(tables, AbsentSetup(table, x));
      table in after
      && after[table].columns == x.columnKeys
      && (forall t :: t in tables && t != table ==> t in after && after[t] == tables[t])
  {
    var create := CreateTable(table, Defs(x), ForeignKeys(x), x.primaryKeys);
    var indices := CreateIndices(table, x.indices);
    RunAppend(tables, [create], indices);
    var created := Run(tables, [create]);
    assert created == Effect(tables, create) by {
      assert [create][1..] == [];
    }
    assert created[table].columns == x.columnKeys;
    IndexStmtsKeepColumns(created, table, indices);
  }

  /**
   * Saving an empty list sends nothing. Otherwise the setup from the first
   * container comes first and the first container's insert follows it at
   * once: its columns, one placeholder per column, and the value of the
   * i-th column bound at position i + 1.
   */
  lemma SaveBeginsWithSetup(tables: map<string, Table>, table: string, records: seq<Input>)
    requires Saveable(records)
    ensures |records| == 0 <==> SavePlan(tables, table, records) == []
    ensures |records| > 0 ==>
      var setup := SetupPlan(tables, table, records[0]);
      var plan := SavePlan(tables, table, records);
      |plan| > |setup| && plan[..|setup|] == setup && plan[|setup|].Insert?
      && plan[|setup|] == InsertOf(table, records[0], records[0])
      && plan[|setup|].columnKeys == records[0].columnKeys
      && |plan[|setup|].binds| == |Placeholders(|records[0].columnKeys|)| == |records[0].columnKeys|
      && forall i :: 0 <= i < |records[0].columnKeys| ==>
           plan[|setup|].binds[i] == (i + 1, records[0].columns[records[0].columnKeys[i]])
  {
    if |records| > 0 {
      var setup := SetupPlan(tables, table, records[0]);
      var rest := RecordsPlan(Run(tables, setup), table, records[0], records, 0);
      var plan := SavePlan(tables, table, records);
      SavePlanSplits(tables, table, records);
      RecordsPlanSplits(Run(tables, setup), table, records[0], records, 0);
      assert plan == setup + rest;
      assert plan[..|setup|] == setup;
      assert plan[|setup|] == rest[0] == InsertOf(table, records[0], records[0]);
      InsertBinds(table, records[0], records[0]);
    }
  }

  /** An insert lists the first container's columns and binds the i-th one's value at i + 1. */
  lemma InsertBinds(table: string, first: Input, x: Input)
    requires forall k :: k in first.columnKeys ==> k in x.columns
    ensures var s := InsertOf(table, first, x);
      s.Insert? && s.columnKeys == first.columnKeys
      && |s.binds| == |Placeholders(|first.columnKeys|)| == |first.columnKeys|
      && forall i :: 0 <= i < |first.columnKeys| ==> s.binds[i] == (i + 1, x.columns[first.columnKeys[i]])
  {
  }

  /**
   * The CREATE TABLE list: every column with its type's name, then one
   * cascading foreign key per relation, then the primary key only when
   * there is one.
   */
  lemma CreateTableLists(x: Input)
    requires Keyed(x)
    ensures var c := Components(Defs(x), ForeignKeys(x), x.primaryKeys);
      var n := |x.columnKeys|;
      var m := |x.relationKeys|;
      |c| == n + m + (if |x.primaryKeys| > 0 then 1 else 0)
      && (forall i :: 0 <= i < n ==> c[i] == x.columnKeys[i] + " " + SqlName(KindOf(x.columns[x.columnKeys[i]])))
      && (forall i :: 0 <= i < m ==>
            c[n + i] == "FOREIGN KEY(" + x.relationKeys[i] + ") REFERENCES " + x.relations[x.relationKeys[i]].typeName
                        + "(" + x.relations[x.relationKeys[i]].key + ") ON DELETE CASCADE")
      && (|x.primaryKeys| > 0 ==> c[n + m] == "PRIMARY KEY (" + Text.Join(x.primaryKeys, ",") + ")")
  {
  }

  /** The concatenation of a list of lists. */
  function Flatten<T>(segs: seq<seq<T>>): (r: seq<T>)
  {
    if |segs| == 0 then [] else segs[0] + Flatten(segs[1..])
  }

  /** Where each list of `segs` starts in their concatenation. */
  function Starts<T>(segs: seq<seq<T>>): (r: seq<nat>)
    ensures |r| == |segs|
  {
    if |segs| == 0 then []
    else
      var rest := Starts(segs[1..]);
      [0] + seq(|rest|, k requires 0 <= k < |rest| => |segs[0]| + rest[k])
  }

  /**
   * Positions of `xs[1..]` in `tail`, moved past `head`, with 0 in front
   * for `xs[0] == head[0]`, are positions of `xs` in `head + tail`.
   */
  lemma ShiftPositions<T>(head: seq<T>, tail: seq<T>, rest: seq<nat>, r: seq<nat>, xs: seq<T>)
    requires |head| > 0 && |xs| == |r| == |rest| + 1 && head[0] == xs[0]
    requires r[0] == 0 && forall k :: 0 <= k < |rest| ==> r[k + 1] == |head| + rest[k]
    requires forall k :: 0 <= k < |rest| ==> rest[k] < |tail| && tail[rest[k]] == xs[k + 1]
    requires forall k, l :: 0 <= k < l < |rest| ==> rest[k] < rest[l]
    ensures forall k :: 0 <= k < |r| ==> r[k] < |head + tail| && (head + tail)[r[k]] == xs[k]
    ensures forall k, l :: 0 <= k < l < |r| ==> r[k] < r[l]
  {
    forall k | 0 <= k < |r|
      ensures r[k] < |head + tail| && (head + tail)[r[k]] == xs[k]
    {
      if k > 0 {
        assert r[k] == |head| + rest[k - 1];
        assert (head + tail)[|head| + rest[k - 1]] == tail[rest[k - 1]];
      } else {
        assert (head + tail)[0] == head[0];
      }
    }
    forall k, l | 0 <= k < l < |r|
      ensures r[k] < r[l]
    {
      assert r[l] == |head| + rest[l - 1];
      if k > 0 {
        assert r[k] == |head| + rest[k - 1];
      }
    }
  }

  /**
   * In a concatenation of non-empty lists each list's first element sits
   * at that list's start, and the starts increase.
   */
  lemma {:induction false} FirstsAtStarts<T>(segs: seq<seq<T>>)
    requires forall k :: 0 <= k < |segs| ==> |segs[k]| > 0
    ensures forall k :: 0 <= k < |segs| ==> Starts(segs)[k] < |Flatten(segs)| && Flatten(segs)[Starts(segs)[k]] == segs[k][0]
    ensures forall k, l :: 0 <= k < l < |segs| ==> Starts(segs)[k] < Starts(segs)[l]
  {
    if |segs| > 0 {
      var tail := segs[1..];
      FirstsAtStarts(tail);
      var rest := Starts(tail);
      var xs := seq(|segs|, k requires 0 <= k < |segs| => segs[k][0]);
      forall k | 0 <= k < |rest|
        ensures rest[k] < |Flatten(tail)| && Flatten(tail)[rest[k]] == xs[k + 1]
      {
        assert tail[k] == segs[k + 1];
      }
      ShiftPositions(segs[0], Flatten(tail), rest, Starts(segs), xs);
    }
  }

  /** Each record's own plan, from `from` on, each on the store the ones before it leave. */
  ghost function Segments(tables: map<string, Table>, table: string, first: Input, rs: seq<Input>, from: nat): (r: seq<seq<Stmt>>)
    requires from <= |rs|
    requires forall i, k :: 0 <= i < |rs| && k in first.columnKeys ==> k in rs[i].columns
    requires GroupsSaveable(rs)
    ensures |r| == |rs| - from
    decreases |rs| - from
  {
    if from == |rs| then []
    else
      var head := RecordPlan(tables, table, first, rs[from]);
      [head] + Segments(Run(tables, head), table, first, rs, from + 1)
  }

  /**
   * The records' plan is their own plans one after the other, and each
   * record's plan starts with that record's insert.
   */
  lemma RecordsAreSegments(tables: map<string, Table>, table: string, first: Input, rs: seq<Input>, from: nat)
    requires from <= |rs|
    requires forall i, k :: 0 <= i < |rs| && k in first.columnKeys ==> k in rs[i].columns
    requires GroupsSaveable(rs)
    ensures RecordsPlan(tables, table, first, rs, from) == Flatten(Segments(tables, table, first, rs, from))
    ensures forall k :: 0 <= k < |rs| - from ==>
      |Segments(tables, table, first, rs, from)[k]| > 0 && Segments(tables, table, first, rs, from)[k][0] == InsertOf(table, first, rs[from + k])
  {
    RecordsPlanIsFlatten(tables, table, first, rs, from);
    SegmentsStartWithInserts(tables, table, first, rs, from);
  }

  /** The records' plan is the concatenation of their own plans. */
  lemma {:induction false} RecordsPlanIsFlatten(tables: map<string, Table>, table: string, first: Input, rs: seq<Input>, from: nat)
    requires from <= |rs|
    requires forall i, k :: 0 <= i < |rs| && k in first.columnKeys ==> k in rs[i].columns
    requires GroupsSaveable(rs)
    ensures RecordsPlan(tables, table, first, rs, from) == Flatten(Segments(tables, table, first, rs, from))
    decreases |rs| - from
  {
    if from < |rs| {
      var head := RecordPlan(tables, table, first, rs[from]);
      var after := Run(tables, head);
      var segs := Segments(tables, table, first, rs, from);
      var later := Segments(after, table, first, rs, from + 1);
      RecordsPlanSplits(tables, table, first, rs, from);
      RecordsPlanIsFlatten(after, table, first, rs, from + 1);
      assert segs == [head] + later;
      assert segs[1..] == later;
    }
  }

  /** Each record's own plan starts with that record's insert. */
  lemma {:induction false} SegmentsStartWithInserts(tables: map<string, Table>, table: string, first: Input, rs: seq<Input>, from: nat)
    requires from <= |rs|
    requires forall i, k :: 0 <= i < |rs| && k in first.columnKeys ==> k in rs[i].columns
    requires GroupsSaveable(rs)
    ensures forall k :: 0 <= k < |rs| - from ==>
      |Segments(tables, table, first, rs, from)[k]| > 0 && Segments(tables, table, first, rs, from)[k][0] == InsertOf(table, first, rs[from + k])
    decreases |rs| - from
  {
    if from < |rs| {
      var head := RecordPlan(tables, table, first, rs[from]);
      var after := Run(tables, head);
      var segs := Segments(tables, table, first, rs, from);
      var later := Segments(after, table, first, rs, from + 1);
      InsertBeforeEnclosed(tables, table, first, rs[from]);
      SegmentsStartWithInserts(after, table, first, rs, from + 1);
      assert segs == [head] + later;
      forall k | 0 <= k < |rs| - from
        ensures |segs[k]| > 0 && segs[k][0] == InsertOf(table, first, rs[from + k])
      {
        if k > 0 {
          assert segs[k] == later[k - 1];
        }
      }
    }
  }

  /** The records' plan from `from` on is the record's own plan, starting with its insert, then the rest's. */
  lemma RecordsPlanSplits(tables: map<string, Table>, table: string, first: Input, rs: seq<Input>, from: nat)
    requires from < |rs|
    requires forall i, k :: 0 <= i < |rs| && k in first.columnKeys ==> k in rs[i].columns
    requires GroupsSaveable(rs)
    ensures var head := RecordPlan(tables, table, first, rs[from]);
      |head| > 0 && head[0] == InsertOf(table, first, rs[from])
      && RecordsPlan(tables, table, first, rs, from) == head + RecordsPlan(Run(tables, head), table, first, rs, from + 1)
  {
  }

  /** A non-empty save is the setup, then the records' plans on the store the setup leaves. */
  lemma SavePlanSplits(tables: map<string, Table>, table: string, records: seq<Input>)
    requires Saveable(records) && |records| > 0
    ensures SavePlan(tables, table, records)
      == SetupPlan(tables, table, records[0]) + RecordsPlan(Run(tables, SetupPlan(tables, table, records[0])), table, records[0], records, 0)
  {
  }

  /**
   * Saving a list sends every container's insert after the setup and in
   * the list's order: each container's plan starts with its insert, and
   * the k-th insert carries the k-th container's values.
   */
  lemma SaveInsertsInListOrder(tables: map<string, Table>, table: string, records: seq<Input>)
    requires Saveable(records) && |records| > 0
    ensures var setup := SetupPlan(tables, table, records[0]);
      var plan := SavePlan(tables, table, records);
      var pos := Starts(Segments(Run(tables, setup), table, records[0], records, 0));
      |pos| == |records|
      && (forall k :: 0 <= k < |pos| ==> |setup| + pos[k] < |plan| && plan[|setup| + pos[k]] == InsertOf(table, records[0], records[k]))
      && (forall k, l :: 0 <= k < l < |pos| ==> pos[k] < pos[l])
  {
    var setup := SetupPlan(tables, table, records[0]);
    var after := Run(tables, setup);
    var segs := Segments(after, table, records[0], records, 0);
    assert SavePlan(tables, table, records) == setup + Flatten(segs) by {
      SavePlanSplits(tables, table, records);
      RecordsPlanIsFlatten(after, table, records[0], records, 0);
    }
    SegmentsStartWithInserts(after, table, records[0], records, 0);
    FirstsAfterPrefix(setup, segs);
  }

  /**
   * After a prefix, a concatenation of non-empty lists holds each list's
   * first element at that list's start past the prefix, in order.
   */
  lemma FirstsAfterPrefix<T>(pre: seq<T>, segs: seq<seq<T>>)
    requires forall k :: 0 <= k < |segs| ==> |segs[k]| > 0
    ensures forall k :: 0 <= k < |segs| ==>
      |pre| + Starts(segs)[k] < |pre + Flatten(segs)| && (pre + Flatten(segs))[|pre| + Starts(segs)[k]] == segs[k][0]
    ensures forall k, l :: 0 <= k < l < |segs| ==> Starts(segs)[k] < Starts(segs)[l]
  {
    FirstsAtStarts(segs);
    forall k | 0 <= k < |segs|
      ensures |pre| + Starts(segs)[k] < |pre + Flatten(segs)| && (pre + Flatten(segs))[|pre| + Starts(segs)[k]] == segs[k][0]
    {
      assert (pre + Flatten(segs))[|pre| + Starts(segs)[k]] == Flatten(segs)[Starts(segs)[k]];
    }
  }


  /** A container's own insert is sent before anything of its enclosed lists. */
  lemma InsertBeforeEnclosed(tables: map<string, Table>, table: string, first: Input, x: Input)
    requires forall k :: k in first.columnKeys ==> k in x.columns
    requires GroupListSaveable(x.enclosed)
    ensures var plan := RecordPlan(tables, table, first, x);
      var insert := InsertOf(table, first, x);
      plan[0] == insert && plan[1..] == GroupsPlan(Run(tables, [insert]), x.enclosed)
  {
  }

  /**
   * An enclosed list with delete options is first cleared by them: the
   * table lookup, then the DELETE when the table exists, and the save
   * only after; without options it is saved at once.
   */
  lemma DeleteBeforeEnclosedSave(tables: map<string, Table>, e: Entry)
    requires Saveable(e.records)
    ensures e.deleteOptions.Some? ==>
      var plan := EntryPlan(tables, e);
      var delete := DeletePlan(tables, e.typeName, e.deleteOptions.value);
      |plan| >= |delete| && plan[..|delete|] == delete && plan[0] == FindTable(e.typeName)
      && (e.typeName in tables ==> plan[1] == DeleteRows(e.typeName, QueryOptions.Suffix(e.deleteOptions.value)))
      && plan[|delete|..] == SavePlan(Run(tables, delete), e.typeName, e.records)
    ensures e.deleteOptions.None? ==> EntryPlan(tables, e) == SavePlan(tables, e.typeName, e.records)
  {
  }

  /**
   * The upsert clause: none without primary keys, DO NOTHING when every
   * column is a primary key, otherwise DO UPDATE of exactly the other
   * columns, in column order.
   */
  lemma ConflictCases(x: Input)
    ensures ConflictOf(x) == NoConflict <==> |x.primaryKeys| == 0
    ensures ConflictOf(x).DoNothing? <==> |x.primaryKeys| > 0 && forall k :: k in x.columnKeys ==> k in x.primaryKeys
    ensures ConflictOf(x).DoNothing? ==> ConflictOf(x).keys == x.primaryKeys
    ensures ConflictOf(x).DoUpdate? ==>
      ConflictOf(x).keys == x.primaryKeys
      && (forall k :: k in ConflictOf(x).updated <==> k in x.columnKeys && k !in x.primaryKeys)
  {
    var rest := NonKeys(x.columnKeys, x.primaryKeys);
    if |rest| > 0 {
      assert rest[0] in rest;
    }
  }

  /**
   * The ALTER plan only adds: a column for each key not yet present, with
   * its type's name, and a foreign key right after it exactly when the
   * column has a relation.
   */
  lemma {:induction false} AltersOnlyAdd(table: string, x: Input, existing: set<string>, keys: seq<string>)
    requires forall k :: k in keys ==> k in x.columns
    ensures forall s :: s in Alters(table, x, existing, keys) ==>
      s.table == table && (s.AddColumn? || s.AddForeignKey?) && s.column in keys && s.column !in existing
      && (s.AddColumn? ==> s.sqlType == SqlName(KindOf(x.columns[s.column])))
      && (s.AddForeignKey? ==> s.column in x.relations && s.relation == x.relations[s.column])
    ensures forall k :: k in keys && k !in existing ==>
      AddColumn(table, k, SqlName(KindOf(x.columns[k]))) in Alters(table, x, existing, keys)
      && (k in x.relations ==> AddForeignKey(table, k, x.relations[k]) in Alters(table, x, existing, keys))
    decreases keys
  {
    if |keys| > 0 {
      var k := keys[0];
      assert forall j :: j in keys <==> j == k || j in keys[1..];
      if k in existing {
        AltersOnlyAdd(table, x, existing, keys[1..]);
      } else {
        AltersOnlyAdd(table, x, existing + {k}, keys[1..]);
        var column := ColumnAlters(table, x, k);
        assert column[0] == AddColumn(table, k, SqlName(KindOf(x.columns[k])));
        assert k in x.relations ==> column[1] == AddForeignKey(table, k, x.relations[k]);
      }
    }
  }
}
