/**
 * `OmirableSaving`: the save-side container of the `OmirableKey` iteration.
 * An entity fills a fresh container with its primary keys, indices, column
 * values, relations and enclosed entity lists; `EnclosedOmirableList.save`
 * then deletes by query and saves.
 *
 * An entity is given by its fill: the sequence of setter calls its
 * `fill(container:)` makes.
 */
module OmirableSaving {
  import opened Wrappers
  import Text
  import opened SQLiteType
  import Query

  datatype Index = Index(name: string, keys: seq<string>)
  datatype Relation = Relation(typeString: string, key: string)

  /** An entity: its type's `omirableName` and the setter calls of its `fill(container:)`. */
  datatype Entity = Entity(typeName: string, fill: seq<Fill>)

  datatype Fill =
    | SetPrimaryKey(key: string)
    | SetIndex(keys: seq<string>)
    | SetColumn(key: string, value: Value)
    | SetRelatedColumn(key: string, value: Value, relatedType: string, relatedKey: string)
    | SetEntity(entity: Entity, query: Option<Query.Query>)
    | SetEntities(typeName: string, entities: seq<Entity>, query: Option<Query.Query>)

  /** `EnclosedOmirableList`: entities of one type, and the query whose rows are deleted before they are saved. */
  datatype EnclosedList = EnclosedList(typeName: string, entities: seq<Entity>, query: Option<Query.Query>)

  /** The five fields of a container. */
  datatype Contents = Contents(
    primaryKeys: set<string>,
    indices: seq<Index>,
    columns: map<string, Value>,
    relations: map<string, Relation>,
    enclosed: seq<EnclosedList>)

  const Empty: Contents := Contents({}, [], map[], map[], [])

  /** The index name: the entity name and the keys, joined by underscores. */
  function IndexName(entityName: string, keys: seq<string>): string
  {
    entityName + "_" + Text.Join(keys, "_")
  }

  /** What one setter call does to the contents of a container for `entityName`. */
  function Apply(entityName: string, c: Contents, f: Fill): Contents
  {
    match f
    case SetPrimaryKey(k) => c.(primaryKeys := c.primaryKeys + {k})
    case SetIndex(keys) => c.(indices := c.indices + [Index(IndexName(entityName, keys), keys)])
    case SetColumn(k, v) => c.(columns := c.columns[k := v])
    case SetRelatedColumn(k, v, t, rk) => c.(columns := c.columns[k := v], relations := c.relations[k := Relation(t, rk)])
    case SetEntity(e, q) => c.(enclosed := c.enclosed + [EnclosedList(e.typeName, [e], q)])
    case SetEntities(t, es, q) => c.(enclosed := c.enclosed + [EnclosedList(t, es, q)])
  }

  /** The contents after the setter calls `fills`, in order. */
  function Replay(entityName: string, c: Contents, fills: seq<Fill>): Contents
  {
    if |fills| == 0 then c else Apply(entityName, Replay(entityName, c, fills[..|fills| - 1]), fills[|fills| - 1])
  }

  class Container {
    const entityName: string
    var primaryKeys: set<string>
    var indices: seq<Index>
    var columns: map<string, Value>
    var relations: map<string, Relation>
    var enclosed: seq<EnclosedList>

    function Snapshot(): Contents
      reads this
    {
      Contents(primaryKeys, indices, columns, relations, enclosed)
    }

    /** `init(_ entity:)`: a fresh container that the entity fills, once. */
    constructor (entity: Entity)
      ensures entityName == entity.typeName
      ensures Snapshot() == Replay(entity.typeName, Empty, entity.fill)
    {
      entityName := entity.typeName;
      primaryKeys := {};
      indices := [];
      columns := map[];
      relations := map[];
      enclosed := [];
      new;
      var i := 0;
      while i < |entity.fill|
        invariant 0 <= i <= |entity.fill|
        invariant Snapshot() == Replay(entityName, Empty, entity.fill[..i])
      {
        Perform(entity.fill[i]);
        assert entity.fill[..i + 1][..i] == entity.fill[..i];
        i := i + 1;
      }
      assert entity.fill[..i] == entity.fill;
    }

    /** One setter call of a fill, dispatched to the setter it names. */
    method Perform(f: Fill)
      modifies this
      ensures Snapshot() == Apply(entityName, old(Snapshot()), f)
    {
      match f
      case SetPrimaryKey(k) => SetPrimaryKey(k);
      case SetIndex(keys) => SetIndex(keys);
      case SetColumn(k, v) => SetColumn(v, k);
      case SetRelatedColumn(k, v, t, rk) => SetRelatedColumn(v, k, t, rk);
      case SetEntity(e, q) => SetEntity(e, q);
      case SetEntities(t, es, q) => SetEntities(t, es, q);
    }

    /** `setPrimaryKey`: a set insert; nothing else changes. */
    method SetPrimaryKey(key: string)
      modifies this
      ensures primaryKeys == old(primaryKeys) + {key}
      ensures indices == old(indices) && columns == old(columns) && relations == old(relations) && enclosed == old(enclosed)
    {
      primaryKeys := primaryKeys + {key};
    }

    /** `setIndex`: appends the keys under the derived name; nothing else changes. */
    method SetIndex(keys: seq<string>)
      modifies this
      ensures indices == old(indices) + [Index(IndexName(entityName, keys), keys)]
      ensures primaryKeys == old(primaryKeys) && columns == old(columns) && relations == old(relations) && enclosed == old(enclosed)
    {
      var name := entityName + "_" + Text.Join(keys, "_");
      indices := indices + [Index(name, keys)];
    }

    /** `set(_:for:)`: overwrites this one column; nothing else changes. */
    method SetColumn(value: Value, key: string)
      modifies this
      ensures columns == old(columns)[key := value]
      ensures primaryKeys == old(primaryKeys) && indices == old(indices) && relations == old(relations) && enclosed == old(enclosed)
    {
      columns := columns[key := value];
    }

    /** `set(_:for:relatedTo:key:)`: the column and its relation, under the same key. */
    method SetRelatedColumn(value: Value, key: string, relatedType: string, relatedKey: string)
      modifies this
      ensures columns == old(columns)[key := value]
      ensures relations == old(relations)[key := Relation(relatedType, relatedKey)]
      ensures primaryKeys == old(primaryKeys) && indices == old(indices) && enclosed == old(enclosed)
    {
      columns := columns[key := value];
      relations := relations[key := Relation(relatedType, relatedKey)];
    }

    /** `set(_ entity:with:)`: the same as setting a one-element list. */
    method SetEntity(entity: Entity, query: Option<Query.Query>)
      modifies this
      ensures enclosed == old(enclosed) + [EnclosedList(entity.typeName, [entity], query)]
      ensures primaryKeys == old(primaryKeys) && indices == old(indices) && columns == old(columns) && relations == old(relations)
    {
      SetEntities(entity.typeName, [entity], query);
    }

    /** `set(_ entities:with:)`: appends the list; earlier lists stay, in call order. */
    method SetEntities(typeName: string, entities: seq<Entity>, query: Option<Query.Query>)
      modifies this
      ensures enclosed == old(enclosed) + [EnclosedList(typeName, entities, query)]
      ensures primaryKeys == old(primaryKeys) && indices == old(indices) && columns == old(columns) && relations == old(relations)
    {
      enclosed := enclosed + [EnclosedList(typeName, entities, query)];
    }
  }

  // ----- saving an enclosed list -----

  /** What saving an enclosed list asks of the database. */
  datatype Action = Delete(typeName: string, query: Query.Query) | Save(typeName: string, entities: seq<Entity>)

  class Store {
    var actions: seq<Action>

    constructor ()
      ensures actions == []
    {
      actions := [];
    }
  }

  /** The actions of `EnclosedOmirableList.save`, given whether the delete fails. */
  function SaveActions(list: EnclosedList, deleteFails: bool): (r: seq<Action>)
    ensures list.query.None? ==> r == [Save(list.typeName, list.entities)]
    ensures list.query.Some? ==> |r| >= 1 && r[0] == Delete(list.typeName, list.query.value)
    ensures list.query.Some? ==> (|r| == 2 <==> !deleteFails)
    ensures Save(list.typeName, list.entities) in r <==> list.query.None? || !deleteFails
  {
    if list.query.Some? then
      [Delete(list.typeName, list.query.value)] + (if deleteFails then [] else [Save(list.typeName, list.entities)])
    else [Save(list.typeName, list.entities)]
  }

  /**
   * `EnclosedOmirableList.save`: with a query, the delete by query comes
   * first and a failing delete stops the save; the delete's and the save's
   * outcomes are parameters.
   */
  method SaveEnclosed(list: EnclosedList, store: Store, deleteError: Option<string>, saveError: Option<string>) returns (r: Option<string>)
    modifies store
    ensures store.actions == old(store.actions) + SaveActions(list, deleteError.Some?)
    ensures r == (if list.query.Some? && deleteError.Some? then deleteError else saveError)
  {
    if list.query.Some? {
      store.actions := store.actions + [Delete(list.typeName, list.query.value)];
      if deleteError.Some? {
        return deleteError;
      }
    }
    store.actions := store.actions + [Save(list.typeName, list.entities)];
    return saveError;
  }

  // ----- properties -----

  /** Setting a primary key twice is setting it once. */
  lemma PrimaryKeyIdempotent(entityName: string, c: Contents, key: string)
    ensures Apply(entityName, Apply(entityName, c, SetPrimaryKey(key)), SetPrimaryKey(key)) == Apply(entityName, c, SetPrimaryKey(key))
    ensures key in Apply(entityName, c, SetPrimaryKey(key)).primaryKeys
  {
  }

  /** Setting a column changes that column only. */
  lemma SetColumnOverwritesOnly(entityName: string, c: Contents, key: string, value: Value, other: string)
    requires other != key
    ensures Apply(entityName, c, SetColumn(key, value)).columns[key] == value
    ensures other in c.columns <==> other in Apply(entityName, c, SetColumn(key, value)).columns
    ensures other in c.columns ==> Apply(entityName, c, SetColumn(key, value)).columns[other] == c.columns[other]
    ensures Apply(entityName, c, SetColumn(key, value)).relations == c.relations
  {
  }

  /** A single entity is enclosed exactly as the one-element list. */
  lemma SingleEntityIsOneElementList(entityName: string, c: Contents, e: Entity, q: Option<Query.Query>)
    ensures Apply(entityName, c, SetEntity(e, q)) == Apply(entityName, c, SetEntities(e.typeName, [e], q))
  {
  }

  /** Every relation key is a column key. */
  ghost predicate RelationsHaveColumns(c: Contents)
  {
    forall k :: k in c.relations ==> k in c.columns
  }

  lemma ApplyKeepsRelationsWithColumns(entityName: string, c: Contents, f: Fill)
    requires RelationsHaveColumns(c)
    ensures RelationsHaveColumns(Apply(entityName, c, f))
  {
  }

  /** Any fill of an empty container keeps relation keys among the column keys. */
  lemma {:induction false} ReplayKeepsRelationsWithColumns(entityName: string, fills: seq<Fill>)
    ensures RelationsHaveColumns(Replay(entityName, Empty, fills))
  {
    if |fills| > 0 {
      ReplayKeepsRelationsWithColumns(entityName, fills[..|fills| - 1]);
      ApplyKeepsRelationsWithColumns(entityName, Replay(entityName, Empty, fills[..|fills| - 1]), fills[|fills| - 1]);
    }
  }

  /** The enclosed list a setter call appends, if it is one of the two enclosing setters. */
  function EnclosedBy(f: Fill): seq<EnclosedList>
  {
    match f
    case SetEntity(e, q) => [EnclosedList(e.typeName, [e], q)]
    case SetEntities(t, es, q) => [EnclosedList(t, es, q)]
    case _ => []
  }

  function EnclosedByAll(fills: seq<Fill>): seq<EnclosedList>
  {
    if |fills| == 0 then [] else EnclosedByAll(fills[..|fills| - 1]) + EnclosedBy(fills[|fills| - 1])
  }

  /** Enclosed lists end up in call order, after those already there. */
  lemma {:induction false} EnclosedInCallOrder(entityName: string, c: Contents, fills: seq<Fill>)
    ensures Replay(entityName, c, fills).enclosed == c.enclosed + EnclosedByAll(fills)
  {
    if |fills| > 0 {
      EnclosedInCallOrder(entityName, c, fills[..|fills| - 1]);
    }
  }

  /** The index name reads back as the entity name and the keys when none of them contains an underscore. */
  lemma IndexNameReadsBack(entityName: string, keys: seq<string>)
    requires |keys| > 0
    requires '_' !in entityName
    requires forall i :: 0 <= i < |keys| ==> '_' !in keys[i]
    ensures Text.Split(IndexName(entityName, keys), '_') == [entityName] + keys
  {
    var parts := [entityName] + keys;
    assert parts[1..] == keys;
    assert Text.Join(parts, "_") == entityName + "_" + Text.Join(keys, "_");
    Text.SplitJoin(parts, '_');
  }
}
