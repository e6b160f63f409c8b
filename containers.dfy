/**
 * `Containers.swift`: `OmirosInput`, the save-side container whose content
 * an entity writes through setters, a subscript and its fields; and
 * `OmirosOutput`, the load side, which maps column names to positions and
 * reads values from the current row, falling back to defaults.
 */
module Containers {
  import opened Wrappers
  import opened SQLiteType
  import opened Columns

  /** `OmirosRelation`: the related type's name and the key there. */
  datatype Relation = Relation(key: string, typeName: string)

  /** A value of an `Omirable` type (an entity, an optional one or a list), with its type's `omirosName` and the rows it would save. */
  datatype Enclosable = Enclosable(omirosName: string, rows: seq<map<string, Value>>)

  /** The innermost value under any number of `.some` wrappers. */
  function Payload(v: Value): (r: Value)
    ensures !r.SomeValue?
  {
    if v.SomeValue? then Payload(v.inner) else v
  }

  /**
   * Swift's runtime `as? T` on a stored value. A value of exactly the asked
   * kind passes unchanged. Otherwise a `.some` is looked through, a nil
   * becomes nil of any Optional kind, and a plain value is wrapped into an
   * Optional kind when it casts to the wrapped kind.
   */
  function Cast(v: Value, kind: Kind): (r: Option<Value>)
    ensures r.Some? ==> KindOf(r.value) == kind
    decreases v, kind
  {
    if KindOf(v) == kind then Some(v)
    else match v
      case SomeValue(x) => Cast(x, kind)
      case NoneValue(_) => if kind.OptionalKind? then Some(NoneValue(kind.wrapped)) else None
      case _ =>
        if kind.OptionalKind? then
          var c := Cast(v, kind.wrapped);
          if c.Some? then Some(SomeValue(c.value)) else None
        else None
  }

  /** `nil as? T`, for a key with nothing stored: it succeeds, as nil, exactly for an Optional `T`. */
  function CastNil(kind: Kind): (r: Option<Value>)
    ensures r.Some? <==> kind.OptionalKind?
    ensures r.Some? ==> r.value.NoneValue? && KindOf(r.value) == kind
  {
    if kind.OptionalKind? then Some(NoneValue(kind.wrapped)) else None
  }

  /**
   * Read as a plain (non-Optional) kind, a stored value is found exactly
   * when the value under its `.some` wrappers is a non-nil value of that
   * kind, and that inner value is what is read.
   */
  lemma {:induction false} CastToPlainKind(v: Value, kind: Kind)
    requires !kind.OptionalKind?
    ensures Cast(v, kind).Some? <==> !Payload(v).NoneValue? && KindOf(Payload(v)) == kind
    ensures Cast(v, kind).Some? ==> Cast(v, kind).value == Payload(v)
  {
    if v.SomeValue? {
      CastToPlainKind(v.inner, kind);
    }
  }

  /**
   * The three Optional cases of the cast: `.some(x)` read as `x`'s kind
   * gives `x`; a plain value read as its Optional kind is wrapped; nil read
   * as any Optional kind gives that kind's nil.
   */
  lemma OptionalCasts(v: Value, w: Kind)
    ensures Cast(SomeValue(v), KindOf(v)) == Some(v)
    ensures v.IntValue? || v.StringValue? ==> Cast(v, OptionalKind(KindOf(v))) == Some(SomeValue(v))
    ensures v.NoneValue? ==> Cast(v, OptionalKind(w)) == Some(NoneValue(w))
  {
    assert KindOf(SomeValue(v)) != KindOf(v);
  }

  class Input {
    var primaryKeys: set<string>
    var content: map<string, Value>
    var relations: map<string, Relation>
    var enclosed: map<string, Enclosable>

    constructor ()
      ensures primaryKeys == {} && content == map[] && relations == map[] && enclosed == map[]
    {
      primaryKeys := {};
      content := map[];
      relations := map[];
      enclosed := map[];
    }

    /** `setPrimaryKey`: a set insert; nothing else changes. */
    method SetPrimaryKey(key: string)
      modifies this
      ensures primaryKeys == old(primaryKeys) + {key}
      ensures content == old(content) && relations == old(relations) && enclosed == old(enclosed)
    {
      primaryKeys := primaryKeys + {key};
    }

    /**
     * The subscript's getter, `content[key] as? T`: what the cast makes of
     * the stored value, or of nil when nothing is stored.
     */
    function Get(key: string, kind: Kind): (r: Option<Value>)
      reads this
      ensures key in content && KindOf(content[key]) == kind ==> r == Some(content[key])
      ensures r.Some? ==> KindOf(r.value) == kind
      ensures key !in content ==> (r.Some? <==> kind.OptionalKind?) && (r.Some? ==> r.value.NoneValue?)
    {
      if key in content then Cast(content[key], kind) else CastNil(kind)
    }

    /** The subscript's setter: a value is stored; nil removes the key. */
    method Put(key: string, newValue: Option<Value>)
      modifies this
      ensures newValue.Some? ==> content == old(content)[key := newValue.value]
      ensures newValue.None? ==> content == old(content) - {key}
      ensures newValue.Some? ==> Get(key, KindOf(newValue.value)) == newValue
      ensures forall kind :: Get(key, kind) == (if newValue.Some? then Cast(newValue.value, kind) else CastNil(kind))
      ensures forall k :: k != key ==> (k in content <==> k in old(content)) && (k in content ==> content[k] == old(content)[k])
      ensures primaryKeys == old(primaryKeys) && relations == old(relations) && enclosed == old(enclosed)
    {
      if newValue.Some? {
        content := content[key := newValue.value];
      } else {
        content := content - {key};
      }
    }

    /** `fill(from:)` and `set(_:for:)`: store one column value; nothing else changes. */
    method Set(value: Value, key: string)
      modifies this
      ensures content == old(content)[key := value]
      ensures primaryKeys == old(primaryKeys) && relations == old(relations) && enclosed == old(enclosed)
    {
      content := content[key := value];
    }

    /** `fill(from:)` for a field: stores the field's current value under its key. */
    method FillFrom(field: Field)
      modifies this
      ensures content == old(content)[field.key := field.wrappedValue]
      ensures primaryKeys == old(primaryKeys) && relations == old(relations) && enclosed == old(enclosed)
    {
      Set(field.wrappedValue, field.key);
    }

    /** `set(_ value:)` for an entity value: keyed by its type's name, replacing any earlier one of that type. */
    method SetEnclosed(value: Enclosable)
      modifies this
      ensures enclosed == old(enclosed)[value.omirosName := value]
      ensures primaryKeys == old(primaryKeys) && content == old(content) && relations == old(relations)
    {
      enclosed := enclosed[value.omirosName := value];
    }

    /** `set(_:for:as:)` and `fill(from:as:)`: the value and the relation, under the same key. */
    method SetRelated(value: Value, key: string, relation: Relation)
      modifies this
      ensures content == old(content)[key := value]
      ensures relations == old(relations)[key := relation]
      ensures primaryKeys == old(primaryKeys) && enclosed == old(enclosed)
    {
      content := content[key := value];
      relations := relations[key := relation];
    }

    /** `fill(from:as:)` for a field. */
    method FillRelatedFrom(field: Field, relation: Relation)
      modifies this
      ensures content == old(content)[field.key := field.wrappedValue]
      ensures relations == old(relations)[field.key := relation]
      ensures primaryKeys == old(primaryKeys) && enclosed == old(enclosed)
    {
      SetRelated(field.wrappedValue, field.key, relation);
    }
  }

  class Output {
    /** The current row of the statement; empty when there is no statement. */
    const row: seq<Column>
    /** Whether the weakly held statement is still there. */
    var statementAvailable: bool
    var indexPerColumnName: map<string, nat>

    ghost predicate Valid()
      reads this
    {
      indexPerColumnName == Positions(Names(row))
    }

    /** `init(_ statement:)`: each column name sent to its position, the later one winning; nothing without a statement. */
    constructor (statement: Option<seq<Column>>)
      ensures statementAvailable <==> statement.Some?
      ensures row == (if statement.Some? then statement.value else [])
      ensures Valid()
    {
      row := if statement.Some? then statement.value else [];
      statementAvailable := statement.Some?;
      indexPerColumnName := map[];
      new;
      if statement.None? {
        return;
      }
      var columns := Names(row);
      var index := 0;
      while index < |columns|
        invariant 0 <= index <= |columns|
        invariant indexPerColumnName == Positions(columns[..index])
        invariant statementAvailable
      {
        indexPerColumnName := indexPerColumnName[columns[index] := index];
        assert columns[..index + 1][..index] == columns[..index];
        index := index + 1;
      }
      assert columns[..index] == columns;
    }

    /** The statement is released by its owner. */
    method Release()
      modifies this
      ensures !statementAvailable && indexPerColumnName == old(indexPerColumnName)
    {
      statementAvailable := false;
    }

    /** `get(_:)` and the subscript: the default when the column is missing or the statement is gone, else the decoded cell. */
    function Get(key: string, kind: Kind): (v: Value)
      requires Carried(kind) && Valid()
      reads this
      ensures KindOf(v) == kind
      ensures key !in Names(row) || !statementAvailable ==> v == Default(kind)
      ensures key in Names(row) && statementAvailable ==> ReadsLast(row, key, kind, v)
    {
      PositionsAreLast(Names(row));
      if key in indexPerColumnName && statementAvailable then
        Decode(kind, row[indexPerColumnName[key]].cell)
      else Default(kind)
    }

    /** `get(with:)` for an entity, an optional entity or a list: any failure, or a gone statement, gives `fallback`. */
    function GetRelated<X>(fetched: Result<X, string>, fallback: X): (r: X)
      reads this
      ensures !statementAvailable || fetched.Err? ==> r == fallback
      ensures statementAvailable && fetched.Ok? ==> r == fetched.value
    {
      if statementAvailable && fetched.Ok? then fetched.value else fallback
    }
  }

  /** `_OmirosField`: a key and the value it wraps. */
  class Field {
    const key: string
    var wrappedValue: Value

    constructor (key: string, initialValue: Value)
      ensures this.key == key && wrappedValue == initialValue
    {
      this.key := key;
      wrappedValue := initialValue;
    }

    /** `fill(from:)`: the value the output container gives for this key, of the field's kind. */
    method FillFrom(container: Output)
      requires Carried(KindOf(wrappedValue)) && container.Valid()
      modifies this
      ensures wrappedValue == container.Get(key, KindOf(old(wrappedValue)))
    {
      wrappedValue := container.Get(key, KindOf(wrappedValue));
    }
  }
}
