/**
 * `OmirosQueryParameters`: the oldest, flat condition list. Top-level
 * conditions are rendered one after another separated by a single space,
 * `or` is the only combinator, and ORDER BY lists bare keys.
 */
module QueryParameters {
  import opened Wrappers
  import Text
  import Window
  import opened SQLiteType

  datatype Condition =
    | Equal(key: string, value: Option<Value>)
    | GreaterThan(key: string, operand: Value)
    | LessThan(key: string, operand: Value)
    | GreaterThanOrEqual(key: string, operand: Value)
    | LessThanOrEqual(key: string, operand: Value)
    | Like(key: string, pattern: string)
    | Or(lhs: Condition, rhs: Condition)

  datatype Parameters = Parameters(conditions: seq<Condition>, orderBy: seq<string>, offset: int, limit: int)

  // ----- specification of the renderer -----

  /** The text of one condition; an `or` is its two sides in parentheses around ` OR `. */
  function ConditionText(c: Condition): string
  {
    match c
    case Equal(k, v) => if v.Some? then k + " = " + Literal(v.value) else k + " IS NULL"
    case GreaterThan(k, v) => k + " > " + Literal(v)
    case LessThan(k, v) => k + " < " + Literal(v)
    case GreaterThanOrEqual(k, v) => k + " >= " + Literal(v)
    case LessThanOrEqual(k, v) => k + " <= " + Literal(v)
    case Like(k, p) => k + " LIKE " + Literal(StringValue(p))
    case Or(l, r) => "(" + ConditionText(l) + " OR " + ConditionText(r) + ")"
  }

  function Texts(cs: seq<Condition>): (r: seq<string>)
    ensures |r| == |cs|
  {
    seq(|cs|, i requires 0 <= i < |cs| => ConditionText(cs[i]))
  }

  /** The texts of a condition list, in input order, separated by single spaces (not by AND). */
  function Component(cs: seq<Condition>): string
  {
    Text.Join(Texts(cs), " ")
  }

  function WherePart(conditions: seq<Condition>): string
  {
    if |conditions| > 0 then " WHERE " + Component(conditions) else ""
  }

  function OrderPart(orderBy: seq<string>): string
  {
    if |orderBy| > 0 then " ORDER BY " + Text.Join(orderBy, ",") else ""
  }

  /** The whole suffix: WHERE, ORDER BY, then the window clauses. */
  function Suffix(p: Parameters): string
  {
    WherePart(p.conditions) + OrderPart(p.orderBy) + Window.Clauses(p.limit, p.offset)
  }

  // ----- the renderer as written: a loop that appends to a list -----

  function Size(c: Condition): nat
  {
    if c.Or? then 1 + Size(c.lhs) + Size(c.rhs) else 1
  }

  function Sizes(cs: seq<Condition>): nat
  {
    if |cs| == 0 then 0 else Size(cs[0]) + Sizes(cs[1..])
  }

  lemma {:induction false} SizeOfElement(cs: seq<Condition>, i: nat)
    requires i < |cs|
    ensures Size(cs[i]) <= Sizes(cs)
  {
    if i > 0 {
      SizeOfElement(cs[1..], i - 1);
    }
  }

  /** `sqlWhereClauseComponent(from:)`: one text per condition, an `or` rendering each side as a one-element list. */
  method WhereClauseComponent(conditions: seq<Condition>) returns (r: string)
    ensures r == Component(conditions)
    decreases Sizes(conditions)
  {
    var components: seq<string> := [];
    var i := 0;
    while i < |conditions|
      invariant 0 <= i <= |conditions|
      invariant components == Texts(conditions[..i])
      decreases |conditions| - i
    {
      var c: string;
      match conditions[i] {
      case Equal(key, value) =>
        if value.Some? {
          c := key + " = " + Literal(value.value);
        } else {
          c := key + " IS NULL";
        }
      case GreaterThan(key, value) =>
        c := key + " > " + Literal(value);
      case LessThan(key, value) =>
        c := key + " < " + Literal(value);
      case GreaterThanOrEqual(key, value) =>
        c := key + " >= " + Literal(value);
      case LessThanOrEqual(key, value) =>
        c := key + " <= " + Literal(value);
      case Like(key, value) =>
        c := key + " LIKE " + Literal(StringValue(value));
      case Or(lhs, rhs) =>
        SizeOfElement(conditions, i);
        assert Sizes([lhs]) == Size(lhs) && Sizes([rhs]) == Size(rhs);
        var lhsString := WhereClauseComponent([lhs]);
        var rhsString := WhereClauseComponent([rhs]);
        OneComponent(lhs);
        OneComponent(rhs);
        c := "(" + lhsString + " OR " + rhsString + ")";
      }
      assert c == ConditionText(conditions[i]);
      assert Texts(conditions[..i + 1]) == Texts(conditions[..i]) + [c];
      components := components + [c];
      i := i + 1;
    }
    assert conditions[..i] == conditions;
    r := Text.Join(components, " ");
  }

  /** `sqlWhereClause()`: conditional concatenation of the clauses that apply. */
  method WhereClause(p: Parameters) returns (subquery: string)
    ensures subquery == Suffix(p)
  {
    subquery := "";
    if |p.conditions| > 0 {
      var conditionsString := WhereClauseComponent(p.conditions);
      subquery := subquery + (" WHERE " + conditionsString);
      assert "" + (" WHERE " + conditionsString) == " WHERE " + conditionsString;
    }
    ghost var where := subquery;
    assert where == WherePart(p.conditions);
    if |p.orderBy| > 0 {
      subquery := subquery + (" ORDER BY " + Text.Join(p.orderBy, ","));
    } else {
      assert subquery == where + "";
    }
    ghost var head := subquery;
    assert head == where + OrderPart(p.orderBy);
    ghost var limitPart := if p.limit > 0 then " LIMIT " + Text.IntText(p.limit) else "";
    ghost var unbounded := if p.limit > 0 then "" else " LIMIT -1";
    ghost var offsetPart := if p.offset > 0 then unbounded + " OFFSET " + Text.IntText(p.offset) else "";
    if p.limit > 0 {
      subquery := subquery + (" LIMIT " + Text.IntText(p.limit));
    } else {
      assert subquery == head + limitPart;
    }
    ghost var limited := subquery;
    if p.offset > 0 {
      ghost var offsetText := " OFFSET " + Text.IntText(p.offset);
      Text.Append(unbounded, " OFFSET ", Text.IntText(p.offset));
      if !(p.limit > 0) {
        subquery := subquery + " LIMIT -1";
        Text.Append(limited, " LIMIT -1", offsetText);
      }
      subquery := subquery + (" OFFSET " + Text.IntText(p.offset));
    } else {
      assert subquery == limited + offsetPart;
    }
    assert subquery == head + limitPart + offsetPart;
    Text.Append(head, limitPart, offsetPart);
  }

  // ----- properties -----

  /** A one-element list renders as its only condition. */
  lemma OneComponent(c: Condition)
    ensures Component([c]) == ConditionText(c)
  {
    assert Texts([c]) == [ConditionText(c)];
  }

  /** `or(l, r)` is the one-element renderings of its sides around ` OR `, in parentheses. */
  lemma OrRendering(l: Condition, r: Condition)
    ensures Component([Or(l, r)]) == "(" + Component([l]) + " OR " + Component([r]) + ")"
  {
    OneComponent(Or(l, r));
    OneComponent(l);
    OneComponent(r);
  }

  /** Lists render piecewise: the rendering of `a + b` is that of `a`, a space, and that of `b`. */
  lemma ComponentConcat(a: seq<Condition>, b: seq<Condition>)
    requires |a| > 0 && |b| > 0
    ensures Component(a + b) == Component(a) + " " + Component(b)
  {
    assert Texts(a + b) == Texts(a) + Texts(b);
    Text.JoinConcat(Texts(a), Texts(b), " ");
  }

  /** Equality with nil is a null test; with a value it is `=` and the value's literal. */
  lemma NilUsesIsNull(k: string, v: Value)
    ensures ConditionText(Equal(k, None)) == k + " IS NULL"
    ensures ConditionText(Equal(k, Some(v))) == k + " = " + Literal(v)
  {
  }

  /** An optional operand is embedded as its literal, which is always NULL: `equal(k, .some(.some(x)))` is `k = NULL`. */
  lemma OptionalOperandIsNull(k: string, x: Value)
    ensures ConditionText(Equal(k, Some(SomeValue(x)))) == k + " = NULL"
    ensures ConditionText(GreaterThan(k, SomeValue(x))) == k + " > NULL"
  {
  }

  lemma ClauseInitials(p: Parameters)
    ensures OrderPart(p.orderBy) != "" ==> |OrderPart(p.orderBy)| > 1 && OrderPart(p.orderBy)[1] == 'O'
    ensures Window.Clauses(p.limit, p.offset) != "" ==> |Window.Clauses(p.limit, p.offset)| > 1 && Window.Clauses(p.limit, p.offset)[1] == 'L'
  {
  }

  /** ` WHERE` starts the suffix exactly when there is at least one condition. */
  lemma WhereOnlyWithConditions(p: Parameters)
    ensures |p.conditions| > 0 <==> (|Suffix(p)| >= 7 && Suffix(p)[..7] == " WHERE ")
  {
    ClauseInitials(p);
    var where := WherePart(p.conditions);
    assert where == "" || where == " WHERE " + where[7..];
    Window.WhereLeads(|p.conditions| > 0, where, OrderPart(p.orderBy), Window.Clauses(p.limit, p.offset));
  }

  /** The ORDER BY keys carry no direction and read back by splitting at commas, when no key contains one. */
  lemma OrderKeysReadBack(orderBy: seq<string>)
    requires |orderBy| > 0
    requires forall i :: 0 <= i < |orderBy| ==> ',' !in orderBy[i]
    ensures |OrderPart(orderBy)| >= 10 && OrderPart(orderBy)[..10] == " ORDER BY "
    ensures Text.Split(OrderPart(orderBy)[10..], ',') == orderBy
  {
    assert OrderPart(orderBy)[10..] == Text.Join(orderBy, [',']);
    Text.SplitJoin(orderBy, ',');
  }

  /** After WHERE and ORDER BY, the suffix reads back as exactly the window of `limit` and `offset`. */
  lemma SuffixEncodesWindow(p: Parameters)
    ensures var head := |WherePart(p.conditions) + OrderPart(p.orderBy)|;
      head <= |Suffix(p)| && Window.Parse(Suffix(p)[head..]) == Some(Window.Effective(p.limit, p.offset))
  {
    var head := WherePart(p.conditions) + OrderPart(p.orderBy);
    assert Suffix(p)[|head|..] == Window.Clauses(p.limit, p.offset);
    Window.ParseClauses(p.limit, p.offset);
  }
}
