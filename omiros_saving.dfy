/**
 * `OmirosSaving`: the save-side container of the iteration whose queries are
 * `OmirosQueryOptions`. It starts empty and is filled by setter calls; an
 * enclosed list is deleted by its options before it is saved.
 *
 * An entity is given by its fill: the sequence of setter calls that fill its
 * container.
 */
module OmirosSaving {
  import opened Wrappers
  import Text
  import opened SQLiteType
  import QueryOptions

  datatype Index = Index(name: string, keys: seq<string>)
  datatype Relation = Relation(typeString: string, key: string)

  /** An entity: its type's `omirableName` and the setter calls of its `fill(container:)`. */
  datatype Entity = Entity(typeName: string, fill: seq<Fill>)

  datatype Fill =
    | SetPrimaryKey(key: string)
    | SetIndex(keys: seq<string>)
    | SetColumn(key: string, value: Value)
    | SetRelatedColumn(key: string, value: Value, relatedType: string, relatedKey: string)
    | SetEntity(entity: Entity, options: Option<QueryOptions.Options>)
    | SetEntities(typeName: string, entities: seq<Entity>, options: Option<QueryOptions.Options>)

  /** `EnclosedOmirableList`: entities of one type, and the options whose rows are deleted before they are saved. */
  datatype EnclosedList = EnclosedList(typeName: string, entities: seq<Entity>, options: Option<QueryOptions.Options>)

  /** The five fields of a container. */
  datatype Contents = Contents(
    primaryKeys: set<string>,
    indices: seq<Index>,
    columns: map<string, Value>,
    relations: map<string, Relation>,
    enclosed: seq<EnclosedList>)

  const Empty: Contents := Contents({}, [], map[], map[], [])

  /** The index name: the entity name and the keys, joined by underscores. */
  function IndexName(entityName: string, keys: seq<string>): string
  {
    entityName + "_" + Text.Join(keys, "_")
  }

  /** What one setter call does to the contents of a container for `entityName`. */
  function Apply(entityName: string, c: Contents, f: Fill): Contents
  {
    match f
    case SetPrimaryKey(k) => c.(primaryKeys := c.primaryKeys + {k})
    case SetIndex(keys) => c.(indices := c.indices + [Index(IndexName(entityName, keys), keys)])
    case SetColumn(k, v) => c.(columns := c.columns[k := v])
    case SetRelatedColumn(k, v, t, rk) => c.(columns := c.columns[k := v], relations := c.relations[k := Relation(t, rk)])
    case SetEntity(e, o) => c.(enclosed := c.enclosed + [EnclosedList(e.typeName, [e], o)])
    case SetEntities(t, es, o) => c.(enclosed := c.enclosed + [EnclosedList(t, es, o)])
  }

  /** The contents after the setter calls `fills`, in order. */
  function Replay(entityName: string, c: Contents, fills: seq<Fill>): Contents
  {
    if |fills| == 0 then c else Apply(entityName, Replay(entityName, c, fills[..|fills| - 1]), fills[|fills| - 1])
  }

  class Container {
    const entityName: string
    var primaryKeys: set<string>
    var indices: seq<Index>
    var columns: map<string, Value>
    var relations: map<string, Relation>
    var enclosed: seq<EnclosedList>

    function Snapshot(): Contents
      reads this
    {
      Contents(primaryKeys, indices, columns, relations, enclosed)
    }

    /** A container with nothing set. */
    constructor (entityName: string)
      ensures this.entityName == entityName
      ensures Snapshot() == Empty
    {
      this.entityName := entityName;
      primaryKeys := {};
      indices := [];
      columns := map[];
      relations := map[];
      enclosed := [];
    }

    /** A run of setter calls, in order. */
    method PerformAll(fills: seq<Fill>)
      modifies this
      ensures Snapshot() == Replay(entityName, old(Snapshot()), fills)
    {
      var i := 0;
      while i < |fills|
        invariant 0 <= i <= |fills|
        invariant Snapshot() == Replay(entityName, old(Snapshot()), fills[..i])
      {
        Perform(fills[i]);
        assert fills[..i + 1][..i] == fills[..i];
        i := i + 1;
      }
      assert fills[..i] == fills;
    }

    /** One setter call of a fill, dispatched to the setter it names. */
    method Perform(f: Fill)
      modifies this
      ensures Snapshot() == Apply(entityName, old(Snapshot()), f)
    {
      match f
      case SetPrimaryKey(k) => SetPrimaryKey(k);
      case SetIndex(keys) => SetIndex(keys);
      case SetColumn(k, v) => SetColumn(v, k);
      case SetRelatedColumn(k, v, t, rk) => SetRelatedColumn(v, k, t, rk);
      case SetEntity(e, o) => SetEntity(e, o);
      case SetEntities(t, es, o) => SetEntities(t, es, o);
    }

    /** `setPrimaryKey`: a set insert; nothing else changes. */
    method SetPrimaryKey(key: string)
      modifies this
      ensures primaryKeys == old(primaryKeys) + {key}
      ensures indices == old(indices) && columns == old(columns) && relations == old(relations) && enclosed == old(enclosed)
    {
      primaryKeys := primaryKeys + {key};
    }

    /** `setIndex`: appends the keys under the derived name; nothing else changes. */
    method SetIndex(keys: seq<string>)
      modifies this
      ensures indices == old(indices) + [Index(IndexName(entityName, keys), keys)]
      ensures primaryKeys == old(primaryKeys) && columns == old(columns) && relations == old(relations) && enclosed == old(enclosed)
    {
      var name := entityName + "_" + Text.Join(keys, "_");
      indices := indices + [Index(name, keys)];
    }

    /** `set(_:for:)`: overwrites this one column; nothing else changes. */
    method SetColumn(value: Value, key: string)
      modifies this
      ensures columns == old(columns)[key := value]
      ensures primaryKeys == old(primaryKeys) && indices == old(indices) && relations == old(relations) && enclosed == old(enclosed)
    {
      columns := columns[key := value];
    }

    /** `set(_:for:relatedTo:key:)`: the column and its relation, under the same key. */
    method SetRelatedColumn(value: Value, key: string, relatedType: string, relatedKey: string)
      modifies this
      ensures columns == old(columns)[key := value]
      ensures relations == old(relations)[key := Relation(relatedType, relatedKey)]
      ensures primaryKeys == old(primaryKeys) && indices == old(indices) && enclosed == old(enclosed)
    {
      columns := columns[key := value];
      relations := relations[key := Relation(relatedType, relatedKey)];
    }

    /** `set(_ entity:with:)` (options): the same as setting a one-element list. */
    method SetEntity(entity: Entity, options: Option<QueryOptions.Options>)
      modifies this
      ensures enclosed == old(enclosed) + [EnclosedList(entity.typeName, [entity], options)]
      ensures primaryKeys == old(primaryKeys) && indices == old(indices) && columns == old(columns) && relations == old(relations)
    {
      SetEntities(entity.typeName, [entity], options);
    }

    /** `set(_ entities:with:)` (options): appends the list; earlier lists stay, in call order. */
    method SetEntities(typeName: string, entities: seq<Entity>, options: Option<QueryOptions.Options>)
      modifies this
      ensures enclosed == old(enclosed) + [EnclosedList(typeName, entities, options)]
      ensures primaryKeys == old(primaryKeys) && indices == old(indices) && columns == old(columns) && relations == old(relations)
    {
      enclosed := enclosed + [EnclosedList(typeName, entities, options)];
    }
  }

  // ----- saving an enclosed list -----

  /** What saving an enclosed list asks of the database. */
  datatype Action = Delete(typeName: string, options: QueryOptions.Options) | Save(typeName: string, entities: seq<Entity>)

  class Store {
    var actions: seq<Action>

    constructor ()
      ensures actions == []
    {
      actions := [];
    }
  }

  /** The actions of `EnclosedOmirableList.save`, given whether the delete fails. */
  function SaveActions(list: EnclosedList, deleteFails: bool): (r: seq<Action>)
    ensures list.options.None? ==> r == [Save(list.typeName, list.entities)]
    ensures list.options.Some? ==> |r| >= 1 && r[0] == Delete(list.typeName, list.options.value)
    ensures list.options.Some? ==> (|r| == 2 <==> !deleteFails)
    ensures Save(list.typeName, list.entities) in r <==> list.options.None? || !deleteFails
  {
    if list.options.Some? then
      [Delete(list.typeName, list.options.value)] + (if deleteFails then [] else [Save(list.typeName, list.entities)])
    else [Save(list.typeName, list.entities)]
  }

  /**
   * `EnclosedOmirableList.save`: with options, the delete by options comes
   * first and a failing delete stops the save; the delete's and the save's
   * outcomes are parameters.
   */
  method SaveEnclosed(list: EnclosedList, store: Store, deleteError: Option<string>, saveError: Option<string>) returns (r: Option<string>)
    modifies store
    ensures store.actions == old(store.actions) + SaveActions(list, deleteError.Some?)
    ensures r == (if list.options.Some? && deleteError.Some? then deleteError else saveError)
  {
    if list.options.Some? {
      store.actions := store.actions + [Delete(list.typeName, list.options.value)];
      if deleteError.Some? {
        return deleteError;
      }
    }
    store.actions := store.actions + [Save(list.typeName, list.entities)];
    return saveError;
  }

  // ----- properties -----

  /** Setting a primary key twice is setting it once. */
  lemma PrimaryKeyIdempotent(entityName: string, c: Contents, key: string)
    ensures Apply(entityName, Apply(entityName, c, SetPrimaryKey(key)), SetPrimaryKey(key)) == Apply(entityName, c, SetPrimaryKey(key))
    ensures key in Apply(entityName, c, SetPrimaryKey(key)).primaryKeys
  {
  }

  /** Setting a column changes that column only. */
  lemma SetColumnOverwritesOnly(entityName: string, c: Contents, key: string, value: Value, other: string)
    requires other != key
    ensures Apply(entityName, c, SetColumn(key, value)).columns[key] == value
    ensures other in c.columns <==> other in Apply(entityName, c, SetColumn(key, value)).columns
    ensures other in c.columns ==> Apply(entityName, c, SetColumn(key, value)).columns[other] == c.columns[other]
    ensures Apply(entityName, c, SetColumn(key, value)).relations == c.relations
  {
  }

  /** A single entity is enclosed exactly as the one-element list. */
  lemma SingleEntityIsOneElementList(entityName: string, c: Contents, e: Entity, o: Option<QueryOptions.Options>)
    ensures Apply(entityName, c, SetEntity(e, o)) == Apply(entityName, c, SetEntities(e.typeName, [e], o))
  {
  }

  /** Every relation key is a column key. */
  ghost predicate RelationsHaveColumns(c: Contents)
  {
    forall k :: k in c.relations ==> k in c.columns
  }

  lemma ApplyKeepsRelationsWithColumns(entityName: string, c: Contents, f: Fill)
    requires RelationsHaveColumns(c)
    ensures RelationsHaveColumns(Apply(entityName, c, f))
  {
  }

  /** Any fill of an empty container keeps relation keys among the column keys. */
  lemma {:induction false} ReplayKeepsRelationsWithColumns(entityName: string, fills: seq<Fill>)
    ensures RelationsHaveColumns(Replay(entityName, Empty, fills))
  {
    if |fills| > 0 {
      ReplayKeepsRelationsWithColumns(entityName, fills[..|fills| - 1]);
      ApplyKeepsRelationsWithColumns(entityName, Replay(entityName, Empty, fills[..|fills| - 1]), fills[|fills| - 1]);
    }
  }

  /** The enclosed list a setter call appends, if it is one of the two enclosing setters. */
  function EnclosedBy(f: Fill): seq<EnclosedList>
  {
    match f
    case SetEntity(e, o) => [EnclosedList(e.typeName, [e], o)]
    case SetEntities(t, es, o) => [EnclosedList(t, es, o)]
    case _ => []
  }

  function EnclosedByAll(fills: seq<Fill>): seq<EnclosedList>
  {
    if |fills| == 0 then [] else EnclosedByAll(fills[..|fills| - 1]) + EnclosedBy(fills[|fills| - 1])
  }

  /** Enclosed lists end up in call order, after those already there. */
  lemma {:induction false} EnclosedInCallOrder(entityName: string, c: Contents, fills: seq<Fill>)
    ensures Replay(entityName, c, fills).enclosed == c.enclosed + EnclosedByAll(fills)
  {
    if |fills| > 0 {
      EnclosedInCallOrder(entityName, c, fills[..|fills| - 1]);
    }
  }

  /** The index name reads back as the entity name and the keys when none of them contains an underscore. */
  lemma IndexNameReadsBack(entityName: string, keys: seq<string>)
    requires |keys| > 0
    requires '_' !in entityName
    requires forall i :: 0 <= i < |keys| ==> '_' !in keys[i]
    ensures Text.Split(IndexName(entityName, keys), '_') == [entityName] + keys
  {
    var parts := [entityName] + keys;
    assert parts[1..] == keys;
    assert Text.Join(parts, "_") == entityName + "_" + Text.Join(keys, "_");
    Text.SplitJoin(parts, '_');
  }
}
