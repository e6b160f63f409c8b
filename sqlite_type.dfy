/**
 * The scalar contract of `SQLiteType`: for every conforming Swift type a DDL
 * type name, a default value, an inline literal, a bind call and a column
 * decode. Int, String and Optional values are carried; Double and Date take
 * part only through their DDL names (their values are floating point and
 * wall-clock time).
 */
module SQLiteType {
  import opened Wrappers
  import Text

  /** The Swift types that conform to `SQLiteType`. */
  datatype Kind = IntKind | DoubleKind | StringKind | DateKind | OptionalKind(wrapped: Kind)

  /** A value of a conforming type: an `Int`, a `String`, or an `Optional` that is nil or wraps a value. */
  datatype Value =
    | IntValue(i: int)
    | StringValue(s: string)
    | NoneValue(wrapped: Kind)
    | SomeValue(inner: Value)

  function KindOf(v: Value): Kind
  {
    match v
    case IntValue(_) => IntKind
    case StringValue(_) => StringKind
    case NoneValue(w) => OptionalKind(w)
    case SomeValue(x) => OptionalKind(KindOf(x))
  }

  /** Kinds whose values the model carries: everything built from Int and String. */
  predicate Carried(k: Kind)
  {
    match k
    case IntKind => true
    case StringKind => true
    case OptionalKind(w) => Carried(w)
    case _ => false
  }

  /** `sqLiteName`: the column type used in CREATE TABLE and ALTER TABLE. */
  function SqlName(k: Kind): (name: string)
    ensures k.OptionalKind? ==> name == "NULL"
    ensures k == IntKind ==> name == "INTEGER"
    ensures k == StringKind ==> name == "TEXT"
    ensures k == DoubleKind || k == DateKind ==> name == "REAL"
  {
    match k
    case IntKind => "INTEGER"
    case DoubleKind => "REAL"
    case StringKind => "TEXT"
    case DateKind => "REAL"
    case OptionalKind(_) => "NULL"
  }

  /** `default()`: nil for an Optional, 0 for an Int, the empty string for a String. */
  function Default(k: Kind): (v: Value)
    requires Carried(k)
    ensures KindOf(v) == k
    ensures k.OptionalKind? ==> v.NoneValue?
    ensures k == IntKind ==> v == IntValue(0)
    ensures k == StringKind ==> v == StringValue("")
  {
    match k
    case IntKind => IntValue(0)
    case StringKind => StringValue("")
    case OptionalKind(w) => NoneValue(w)
  }

  /** `sqLiteString()`: the text a value takes when embedded in a query. */
  function Literal(v: Value): string
  {
    match v
    case IntValue(i) => Text.IntText(i)
    case StringValue(s) => "'" + s + "'"
    case NoneValue(_) => "NULL"
    case SomeValue(_) => "NULL"
  }

  /** An Optional renders as NULL whether or not it holds a value. */
  lemma OptionalLiteralIsNull(v: Value)
    requires KindOf(v).OptionalKind?
    ensures Literal(v) == "NULL"
  {
  }

  /** A String literal is the text between two quotes, embedded quotes left as they are. */
  lemma StringLiteralUnescaped(s: string)
    ensures |Literal(StringValue(s))| == |s| + 2
    ensures Literal(StringValue(s))[0] == '\'' && Literal(StringValue(s))[|s| + 1] == '\''
    ensures Literal(StringValue(s))[1..|s| + 1] == s
  {
  }

  /** An Int literal is its decimal text: reading it back gives the number. */
  lemma IntLiteralIsDecimal(i: int)
    ensures Text.ParseInt(Literal(IntValue(i))) == Some(i)
  {
    Text.IntTextRoundTrip(i);
  }

  // ----- binding and decoding against the native statement -----

  /**
   * The text a C string carries: everything before the first NUL. Binding
   * with length -1 and reading with `String(cString:)` both stop there.
   */
  function CString(s: string): (r: string)
    ensures |r| <= |s| && r == s[..|r|]
    ensures '\0' !in r
    ensures |r| < |s| ==> s[|r|] == '\0'
  {
    if |s| == 0 || s[0] == '\0' then ""
    else [s[0]] + CString(s[1..])
  }

  /** The native bind call a value makes (`sqlite3_bind_int64`, `_text`, `_null`). */
  datatype Binding = BindInt64(i: int) | BindText(s: string) | BindNull

  /** `bind(at:statement:)`: which native bind call the value issues. */
  function Bind(v: Value): Binding
  {
    match v
    case IntValue(i) => BindInt64(i)
    case StringValue(s) => BindText(CString(s))
    case NoneValue(_) => BindNull
    case SomeValue(x) => Bind(x)
  }

  /** The native type tag of a result column (`sqlite3_column_type`). */
  datatype TypeTag = IntegerTag | FloatTag | TextTag | BlobTag | NullTag

  /**
   * What the native accessors report for one result column: its type tag,
   * `sqlite3_column_int64` and `sqlite3_column_text` (None for a NULL pointer).
   */
  datatype NativeColumn = NativeColumn(tag: TypeTag, int64: int, text: Option<string>)

  /** `column(at:statement:)` for a carried kind. */
  function Decode(k: Kind, col: NativeColumn): (v: Value)
    requires Carried(k)
    ensures KindOf(v) == k
    ensures k.OptionalKind? ==> (v.NoneValue? <==> col.tag == NullTag)
    ensures k == StringKind && col.text.None? ==> v == StringValue("")
    ensures k == StringKind && col.text.Some? ==> v == StringValue(CString(col.text.value))
  {
    match k
    case IntKind => IntValue(col.int64)
    case StringKind => StringValue(if col.text.Some? then CString(col.text.value) else "")
    case OptionalKind(w) => if col.tag != NullTag then SomeValue(Decode(w, col)) else NoneValue(w)
  }

  /** The column holds what the binding wrote (the engine keeps the bound value and its type). */
  predicate Holds(col: NativeColumn, b: Binding)
  {
    match b
    case BindInt64(i) => col.tag == IntegerTag && col.int64 == i
    case BindText(s) => col.tag == TextTag && col.text == Some(s)
    case BindNull => col.tag == NullTag
  }

  /** No Optional directly wraps a nil (`.some(.none)`), which binds as plain NULL. */
  predicate NoWrappedNil(v: Value)
  {
    match v
    case SomeValue(x) => !x.NoneValue? && NoWrappedNil(x)
    case _ => true
  }

  /** No String inside the value holds a NUL character. */
  predicate NulFree(v: Value)
  {
    match v
    case StringValue(s) => '\0' !in s
    case SomeValue(x) => NulFree(x)
    case _ => true
  }

  /** The value with every String inside it cut at its first NUL. */
  function Truncated(v: Value): (r: Value)
    ensures KindOf(r) == KindOf(v) && NulFree(r)
  {
    match v
    case StringValue(s) => StringValue(CString(s))
    case SomeValue(x) => SomeValue(Truncated(x))
    case _ => v
  }

  /** A value without NUL characters is its own truncation. */
  lemma {:induction false} NulFreeIsUntruncated(v: Value)
    requires NulFree(v)
    ensures Truncated(v) == v
  {
    match v
    case StringValue(s) =>
      assert |CString(s)| == |s|;
    case SomeValue(x) =>
      NulFreeIsUntruncated(x);
    case _ =>
  }

  /**
   * Decoding a column that holds a value's binding gives the value back
   * with its Strings cut at their first NUL.
   */
  lemma {:induction false} BindDecodeTruncates(v: Value, col: NativeColumn)
    requires Carried(KindOf(v)) && NoWrappedNil(v)
    requires Holds(col, Bind(v))
    ensures Decode(KindOf(v), col) == Truncated(v)
  {
    match v
    case IntValue(_) =>
    case StringValue(s) =>
      CStringIdempotent(s);
    case NoneValue(_) =>
    case SomeValue(x) =>
      assert Bind(v) == Bind(x);
      assert col.tag != NullTag by {
        match x
        case IntValue(_) =>
        case StringValue(_) =>
        case SomeValue(y) =>
          BindOfNonNilIsNotNull(x);
      }
      BindDecodeTruncates(x, col);
  }

  /** Cutting at the first NUL twice is cutting once. */
  lemma CStringIdempotent(s: string)
    ensures CString(CString(s)) == CString(s)
  {
    var r := CString(s);
    assert |CString(r)| == |r|;
  }

  /** Decoding a column that holds a value's binding gives the value back, when no String in it holds a NUL. */
  lemma BindDecodeRoundTrip(v: Value, col: NativeColumn)
    requires Carried(KindOf(v)) && NoWrappedNil(v) && NulFree(v)
    requires Holds(col, Bind(v))
    ensures Decode(KindOf(v), col) == v
  {
    BindDecodeTruncates(v, col);
    NulFreeIsUntruncated(v);
  }

  /** A String with a NUL comes back cut short: `"a\0b"` reads back as `"a"`. */
  lemma NulIsTruncated(s: string, col: NativeColumn)
    requires '\0' in s && Holds(col, Bind(StringValue(s)))
    ensures Decode(StringKind, col) == StringValue(CString(s))
    ensures Decode(StringKind, col) != StringValue(s)
    ensures s == "a\0b" ==> Decode(StringKind, col) == StringValue("a")
  {
    BindDecodeTruncates(StringValue(s), col);
    if s == "a\0b" {
      assert s[0] == 'a' && s[1] == '\0';
      assert CString(s) == [s[0]] + CString(s[1..]);
    }
  }

  lemma {:induction false} BindOfNonNilIsNotNull(v: Value)
    requires NoWrappedNil(v) && !v.NoneValue?
    ensures Bind(v) != BindNull
  {
    match v
    case IntValue(_) =>
    case StringValue(_) =>
    case SomeValue(x) => BindOfNonNilIsNotNull(x);
  }

  /** A nil wrapped in a present Optional binds NULL and comes back as the outer nil. */
  lemma WrappedNilIsLost(w: Kind, col: NativeColumn)
    requires Carried(w) && Holds(col, Bind(SomeValue(NoneValue(w))))
    ensures Decode(OptionalKind(OptionalKind(w)), col) == NoneValue(OptionalKind(w))
  {
    assert Bind(SomeValue(NoneValue(w))) == BindNull;
    assert col.tag == NullTag;
  }
}
