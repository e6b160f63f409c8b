/**
 * `OmirosQuery`: the condition algebra whose renderer returns an optional
 * text, so that groups with nothing in them disappear, and whose ordering
 * carries a direction per key. The suffix is built as a list of components
 * joined by single spaces.
 */
module Query {
  import opened Wrappers
  import Text
  import Window
  import opened SQLiteType

  datatype Condition =
    | Equal(key: string, value: Option<Value>)
    | GreaterThan(key: string, operand: Value)
    | LessThan(key: string, operand: Value)
    | GreaterThanOrEqual(key: string, operand: Value)
    | LessThanOrEqual(key: string, operand: Value)
    | Like(key: string, pattern: string)
    | All(conditions: seq<Condition>)
    | Any(conditions: seq<Condition>)
    | Not(negated: Condition)

  /** One ordering entry: a key with its own direction. */
  datatype Order = Asc(key: string) | Desc(key: string)

  datatype Query = Query(condition: Option<Condition>, order: seq<Order>, offset: int, limit: int)

  // ----- termination measure -----

  function Weight(c: Condition): (w: nat)
    ensures w >= 1
  {
    match c
    case All(cs) => 1 + Weights(cs)
    case Any(cs) => 1 + Weights(cs)
    case Not(x) => Weight(x)
    case _ => 1
  }

  function Weights(cs: seq<Condition>): nat
  {
    if |cs| == 0 then 0 else Weight(cs[0]) + Weights(cs[1..])
  }

  function NotDepth(c: Condition): nat
  {
    if c.Not? then 1 + NotDepth(c.negated) else 0
  }

  /** `conditions.map(Condition.not)`. */
  function MapNot(cs: seq<Condition>): (r: seq<Condition>)
    ensures |r| == |cs|
    ensures forall i :: 0 <= i < |cs| ==> r[i] == Not(cs[i])
    ensures Weights(r) == Weights(cs)
  {
    if |cs| == 0 then []
    else
      var r := [Not(cs[0])] + MapNot(cs[1..]);
      assert r[1..] == MapNot(cs[1..]);
      r
  }

  // ----- the renderer -----

  /** A group: the present member texts joined by `sep` in parentheses, or nothing when none is present. */
  function GroupText(parts: seq<string>, sep: string): Option<string>
  {
    if |parts| == 0 then None else Some("(" + Text.Join(parts, sep) + ")")
  }

  /** `sqlWhereConditions(from:)`. */
  function Where(c: Condition): Option<string>
    decreases Weight(c), 2 * NotDepth(c)
  {
    match c
    case Equal(k, v) => if v.Some? then Some(k + " = " + Literal(v.value)) else Some(k + " IS NULL")
    case GreaterThan(k, v) => Some(k + " > " + Literal(v))
    case LessThan(k, v) => Some(k + " < " + Literal(v))
    case GreaterThanOrEqual(k, v) => Some(k + " >= " + Literal(v))
    case LessThanOrEqual(k, v) => Some(k + " <= " + Literal(v))
    case Like(k, p) => Some(k + " LIKE " + Literal(StringValue(p)))
    case All(cs) => GroupText(WhereEach(cs), " AND ")
    case Any(cs) => GroupText(WhereEach(cs), " OR ")
    case Not(x) => ReversedWhere(x)
  }

  /** `conditions.compactMap(sqlWhereConditions)`: the texts of the members that render, in order. */
  function WhereEach(cs: seq<Condition>): seq<string>
    decreases Weights(cs), if |cs| == 0 then 0 else 2 * NotDepth(cs[0]) + 1
  {
    if |cs| == 0 then []
    else (match Where(cs[0]) case Some(x) => [x] case None => []) + WhereEach(cs[1..])
  }

  /** `reversedSQLWhereConditions(from:)`. */
  function ReversedWhere(c: Condition): Option<string>
    decreases Weight(c), 2 * NotDepth(c) + 1
  {
    match c
    case Equal(k, v) => if v.Some? then Some(k + " != " + Literal(v.value)) else Some(k + " IS NOT NULL")
    case GreaterThan(k, v) => Where(LessThanOrEqual(k, v))
    case LessThan(k, v) => Where(GreaterThanOrEqual(k, v))
    case GreaterThanOrEqual(k, v) => Where(LessThan(k, v))
    case LessThanOrEqual(k, v) => Where(GreaterThan(k, v))
    case Like(k, p) => Some(k + " NOT LIKE " + Literal(StringValue(p)))
    case All(cs) => Where(Any(MapNot(cs)))
    case Any(cs) => Where(All(MapNot(cs)))
    case Not(x) => ReversedWhere(x)
  }

  function OrderText(o: Order): string
  {
    match o
    case Asc(k) => k + " ASC"
    case Desc(k) => k + " DESC"
  }

  /** The LIMIT and OFFSET components, `LIMIT -1` first when only an offset is set. */
  function WindowComponents(limit: int, offset: int): seq<string>
  {
    (if limit > 0 then ["LIMIT " + Text.IntText(limit)] else [])
    + (if offset > 0 then (if limit > 0 then [] else ["LIMIT -1"]) + ["OFFSET " + Text.IntText(offset)] else [])
  }

  function WhereComponents(condition: Option<Condition>): seq<string>
  {
    if condition.Some? && Where(condition.value).Some? then ["WHERE " + Where(condition.value).value] else []
  }

  function OrderComponents(order: seq<Order>): seq<string>
  {
    if |order| > 0 then ["ORDER BY " + Text.Join(seq(|order|, i requires 0 <= i < |order| => OrderText(order[i])), ", ")] else []
  }

  /** `sqlSubquery()`: the components that apply, joined by single spaces. */
  function Subquery(q: Query): string
  {
    Text.Join(WhereComponents(q.condition) + OrderComponents(q.order) + WindowComponents(q.limit, q.offset), " ")
  }

  // ----- groups that render to nothing -----

  /** A condition made only of (possibly negated) groups with nothing in them. */
  predicate Vacuous(c: Condition)
  {
    match c
    case All(cs) => forall i :: 0 <= i < |cs| ==> Vacuous(cs[i])
    case Any(cs) => forall i :: 0 <= i < |cs| ==> Vacuous(cs[i])
    case Not(x) => Vacuous(x)
    case _ => false
  }

  lemma {:induction false} WeightOfElement(cs: seq<Condition>, i: nat)
    requires i < |cs|
    ensures Weight(cs[i]) <= Weights(cs)
  {
    if i > 0 {
      WeightOfElement(cs[1..], i - 1);
    }
  }

  /** The compacted member list is empty exactly when every member renders to nothing. */
  lemma {:induction false} WhereEachEmpty(cs: seq<Condition>)
    ensures WhereEach(cs) == [] <==> forall i :: 0 <= i < |cs| ==> Where(cs[i]).None?
  {
    if |cs| > 0 {
      WhereEachEmpty(cs[1..]);
      assert forall i :: 1 <= i < |cs| ==> cs[i] == cs[1..][i - 1];
    }
  }

  /** A condition renders to nothing exactly when it is vacuous. */
  lemma {:induction false} NothingIffVacuous(c: Condition)
    ensures Where(c).None? <==> Vacuous(c)
    decreases Weight(c), 2 * NotDepth(c), 0
  {
    match c
    case All(cs) =>
      WhereEachEmpty(cs);
      forall i | 0 <= i < |cs| ensures Where(cs[i]).None? <==> Vacuous(cs[i]) {
        WeightOfElement(cs, i);
        NothingIffVacuous(cs[i]);
      }
    case Any(cs) =>
      WhereEachEmpty(cs);
      forall i | 0 <= i < |cs| ensures Where(cs[i]).None? <==> Vacuous(cs[i]) {
        WeightOfElement(cs, i);
        NothingIffVacuous(cs[i]);
      }
    case Not(x) =>
      ReversedNothingIffVacuous(x);
    case _ =>
  }

  lemma {:induction false} ReversedNothingIffVacuous(c: Condition)
    ensures ReversedWhere(c).None? <==> Vacuous(c)
    decreases Weight(c), 2 * NotDepth(c) + 1, 0
  {
    match c
    case All(cs) =>
      WhereEachEmpty(MapNot(cs));
      forall i | 0 <= i < |cs| ensures Where(MapNot(cs)[i]).None? <==> Vacuous(cs[i]) {
        WeightOfElement(cs, i);
        ReversedNothingIffVacuous(cs[i]);
      }
    case Any(cs) =>
      WhereEachEmpty(MapNot(cs));
      forall i | 0 <= i < |cs| ensures Where(MapNot(cs)[i]).None? <==> Vacuous(cs[i]) {
        WeightOfElement(cs, i);
        ReversedNothingIffVacuous(cs[i]);
      }
    case Not(x) =>
      ReversedNothingIffVacuous(x);
    case _ =>
  }

  /** The members of a list that are not vacuous, in order. */
  function Substantial(cs: seq<Condition>): (r: seq<Condition>)
    ensures forall i :: 0 <= i < |r| ==> !Vacuous(r[i])
  {
    if |cs| == 0 then []
    else (if Vacuous(cs[0]) then [] else [cs[0]]) + Substantial(cs[1..])
  }

  /** Vacuous members are dropped: a group renders like the group of its substantial members. */
  lemma {:induction false} VacuousMembersDropped(cs: seq<Condition>)
    ensures WhereEach(cs) == WhereEach(Substantial(cs))
    ensures |WhereEach(cs)| == |Substantial(cs)|
  {
    if |cs| > 0 {
      VacuousMembersDropped(cs[1..]);
      NothingIffVacuous(cs[0]);
      var s := Substantial(cs);
      if Vacuous(cs[0]) {
        assert s == Substantial(cs[1..]);
        assert WhereEach(cs) == WhereEach(cs[1..]);
      } else {
        assert s == [cs[0]] + Substantial(cs[1..]);
        assert s[0] == cs[0] && s[1..] == Substantial(cs[1..]);
        assert WhereEach(cs) == [Where(cs[0]).value] + WhereEach(cs[1..]);
        assert WhereEach(s) == [Where(cs[0]).value] + WhereEach(s[1..]);
      }
    }
  }

  /** Hence `all([all([]), x])` renders like `all([x])`. */
  lemma EmptyGroupIsDropped(x: Condition)
    ensures Where(All([All([]), x])) == Where(All([x]))
  {
    var cs := [All([]), x];
    assert Vacuous(All([]));
    assert cs[1..] == [x];
    assert WhereEach(cs) == WhereEach([x]);
  }

  // ----- negation -----

  lemma NegatedComparisonsFlip(k: string, v: Value)
    ensures Where(Not(GreaterThan(k, v))) == Where(LessThanOrEqual(k, v))
    ensures Where(Not(LessThan(k, v))) == Where(GreaterThanOrEqual(k, v))
    ensures Where(Not(GreaterThanOrEqual(k, v))) == Where(LessThan(k, v))
    ensures Where(Not(LessThanOrEqual(k, v))) == Where(GreaterThan(k, v))
  {
  }

  lemma DeMorgan(cs: seq<Condition>)
    ensures Where(Not(All(cs))) == Where(Any(MapNot(cs)))
    ensures Where(Not(Any(cs))) == Where(All(MapNot(cs)))
  {
  }

  lemma DoubleNegationKeepsNegation(c: Condition)
    ensures Where(Not(Not(c))) == Where(Not(c))
  {
  }

  // ----- the subquery -----

  /** The components are joined with single spaces: no leading space, and nothing at all when no component applies. */
  lemma SubqueryHasNoLeadingSpace(q: Query)
    ensures Subquery(q) == "" <==> (WhereComponents(q.condition) + OrderComponents(q.order) + WindowComponents(q.limit, q.offset)) == []
    ensures Subquery(q) != "" ==> Subquery(q)[0] != ' '
  {
    var parts := WhereComponents(q.condition) + OrderComponents(q.order) + WindowComponents(q.limit, q.offset);
    if |parts| > 0 {
      Text.JoinLength(parts, " ");
      assert |parts[0]| > 0 && parts[0][0] != ' ';
      JoinStartsWithFirst(parts, " ");
    }
  }

  lemma {:induction false} JoinStartsWithFirst(parts: seq<string>, sep: string)
    requires |parts| > 0
    ensures |Text.Join(parts, sep)| >= |parts[0]| && Text.Join(parts, sep)[..|parts[0]|] == parts[0]
  {
  }

  /** WHERE is present exactly when there is a condition that renders to something. */
  lemma WhereOnlyWhenRendered(q: Query)
    ensures WhereComponents(q.condition) != [] <==> q.condition.Some? && !Vacuous(q.condition.value)
  {
    if q.condition.Some? {
      NothingIffVacuous(q.condition.value);
    }
  }

  /** Each order entry carries its own direction; entries are joined by ", " in list order. */
  lemma OrderEntriesKeepTheirDirection(order: seq<Order>, i: nat)
    requires i < |order|
    ensures var texts := seq(|order|, j requires 0 <= j < |order| => OrderText(order[j]));
      OrderComponents(order) == ["ORDER BY " + Text.Join(texts, ", ")]
      && texts[i] == order[i].key + (if order[i].Asc? then " ASC" else " DESC")
  {
  }

  /** The LIMIT/OFFSET components, spaced out, are the window clauses of the other renderer. */
  lemma WindowComponentsAreClauses(limit: int, offset: int)
    ensures var w := WindowComponents(limit, offset);
      (if w == [] then "" else " " + Text.Join(w, " ")) == Window.Clauses(limit, offset)
  {
    WindowTexts(limit > 0, offset > 0, Text.IntText(limit), Text.IntText(offset));
  }

  /** The same, with the two numbers already written out. */
  lemma WindowTexts(hasLimit: bool, hasOffset: bool, limit: string, offset: string)
    ensures var w := (if hasLimit then ["LIMIT " + limit] else [])
        + (if hasOffset then (if hasLimit then [] else ["LIMIT -1"]) + ["OFFSET " + offset] else []);
      (if w == [] then "" else " " + Text.Join(w, " "))
      == (if hasLimit then " LIMIT " + limit else "")
        + (if hasOffset then (if hasLimit then "" else " LIMIT -1") + " OFFSET " + offset else "")
  {
    SpacedWords();
    if hasOffset {
      var head := if hasLimit then "LIMIT " + limit else "LIMIT -1";
      assert (if hasLimit then " LIMIT " + limit else "") + (if hasLimit then "" else " LIMIT -1") == " " + head;
      Text.JoinTwo(head, "OFFSET " + offset, " ");
      SpacedPair(head, "OFFSET ", offset);
    } else if hasLimit {
      assert " " + ("LIMIT " + limit) == " " + "LIMIT " + limit;
    }
  }

  lemma SpacedWords()
    ensures " " + "LIMIT " == " LIMIT "
    ensures " " + "LIMIT -1" == " LIMIT -1"
    ensures " " + "OFFSET " == " OFFSET "
  {
  }

  lemma SpacedPair(head: string, word: string, operand: string)
    ensures " " + (head + " " + (word + operand)) == " " + head + (" " + word + operand)
  {
  }

  /** ... and so read back as exactly the query's window. */
  lemma WindowComponentsEncodeWindow(limit: int, offset: int)
    ensures var w := WindowComponents(limit, offset);
      Window.Parse(if w == [] then "" else " " + Text.Join(w, " ")) == Some(Window.Effective(limit, offset))
  {
    WindowComponentsAreClauses(limit, offset);
    Window.ParseClauses(limit, offset);
  }
}
