/**
 * `OmirosQueryOptions`: the current condition algebra and its rendering to a
 * WHERE / ORDER BY / LIMIT / OFFSET suffix. Negation is pushed inward: a
 * negated comparison flips to its complement and a negated group applies
 * De Morgan. A double negation does not cancel: `Not(Not(c))` renders like
 * `Not(c)`.
 */
module QueryOptions {
  import opened Wrappers
  import Text
  import Window
  import opened SQLiteType

  datatype Condition =
    | Equal(key: string, value: Option<Value>)
    | GreaterThan(key: string, operand: Value)
    | LessThan(key: string, operand: Value)
    | GreaterThanOrEqual(key: string, operand: Value)
    | LessThanOrEqual(key: string, operand: Value)
    | Like(key: string, pattern: string)
    | And(lhs: Condition, rhs: Condition)
    | Or(lhs: Condition, rhs: Condition)
    | All(conditions: seq<Condition>)
    | Any(conditions: seq<Condition>)
    | Not(negated: Condition)

  /** One direction for the whole list of ordering keys. */
  datatype Order = Ascending(keys: seq<string>) | Descending(keys: seq<string>)

  datatype Options = Options(conditions: seq<Condition>, order: Order, offset: int, limit: int)

  /** The options a caller gets by default: no condition, ascending by nothing, no offset, no limit. */
  function DefaultOptions(conditions: seq<Condition>): Options
  {
    Options(conditions, Ascending([]), 0, 0)
  }

  // ----- termination measure for the mutually recursive renderers -----

  /** Size that ignores `Not` and counts `And`/`Or` above the group they expand to. */
  function Weight(c: Condition): (w: nat)
    ensures w >= 1
  {
    match c
    case And(l, r) => Weight(l) + Weight(r) + 2
    case Or(l, r) => Weight(l) + Weight(r) + 2
    case All(cs) => 1 + Weights(cs)
    case Any(cs) => 1 + Weights(cs)
    case Not(x) => Weight(x)
    case _ => 1
  }

  function Weights(cs: seq<Condition>): nat
  {
    if |cs| == 0 then 0 else Weight(cs[0]) + Weights(cs[1..])
  }

  lemma WeightsPair(l: Condition, r: Condition)
    ensures Weights([l, r]) == Weight(l) + Weight(r)
  {
    assert [l, r][1..] == [r];
    assert [r][1..] == [];
    assert Weights([r]) == Weight(r) + Weights([]);
    assert Weights([l, r]) == Weight(l) + Weights([r]);
  }

  /** A negated two-member group weighs less than the `and`/`or` it stands for. */
  lemma PairWeights(l: Condition, r: Condition)
    ensures Weight(Not(All([l, r]))) == Weight(l) + Weight(r) + 1
    ensures Weight(Not(Any([l, r]))) == Weight(l) + Weight(r) + 1
  {
    WeightsPair(l, r);
  }

  /** Number of `Not`s stacked on top of a condition. */
  function NotDepth(c: Condition): nat
  {
    if c.Not? then 1 + NotDepth(c.negated) else 0
  }

  /** `conditions.map(Condition.not)`. */
  function MapNot(cs: seq<Condition>): (r: seq<Condition>)
    ensures |r| == |cs|
    ensures forall i :: 0 <= i < |cs| ==> r[i] == Not(cs[i])
    ensures Weights(r) == Weights(cs)
  {
    if |cs| == 0 then []
    else
      var r := [Not(cs[0])] + MapNot(cs[1..]);
      assert r[1..] == MapNot(cs[1..]);
      r
  }

  // ----- the renderer -----

  /** The private `sqlWhereClause(from:)` for one condition. */
  function Render(c: Condition): string
    decreases Weight(c), 2 * NotDepth(c)
  {
    match c
    case Equal(k, v) => if v.Some? then k + " = " + Literal(v.value) else k + " IS NULL"
    case GreaterThan(k, v) => k + " > " + Literal(v)
    case LessThan(k, v) => k + " < " + Literal(v)
    case GreaterThanOrEqual(k, v) => k + " >= " + Literal(v)
    case LessThanOrEqual(k, v) => k + " <= " + Literal(v)
    case Like(k, p) => k + " LIKE " + Literal(StringValue(p))
    case And(l, r) => WeightsPair(l, r); Render(All([l, r]))
    case Or(l, r) => WeightsPair(l, r); Render(Any([l, r]))
    case All(cs) => "(" + Text.Join(RenderEach(cs), " AND ") + ")"
    case Any(cs) => "(" + Text.Join(RenderEach(cs), " OR ") + ")"
    case Not(x) => RenderNegated(x)
  }

  /** `conditions.map(sqlWhereClause)`. */
  function RenderEach(cs: seq<Condition>): (r: seq<string>)
    ensures |r| == |cs|
    decreases Weights(cs), if |cs| == 0 then 0 else 2 * NotDepth(cs[0]) + 1
  {
    if |cs| == 0 then [] else [Render(cs[0])] + RenderEach(cs[1..])
  }

  /** `reversedSQLWhereClause(from:)`: the text of the negation of a condition. */
  function RenderNegated(c: Condition): string
    decreases Weight(c), 2 * NotDepth(c) + 1
  {
    match c
    case Equal(k, v) => if v.Some? then k + " != " + Literal(v.value) else k + " IS NOT NULL"
    case GreaterThan(k, v) => Render(LessThanOrEqual(k, v))
    case LessThan(k, v) => Render(GreaterThanOrEqual(k, v))
    case GreaterThanOrEqual(k, v) => Render(LessThan(k, v))
    case LessThanOrEqual(k, v) => Render(GreaterThan(k, v))
    case Like(k, p) => k + " NOT LIKE " + Literal(StringValue(p))
    case And(l, r) =>
      PairWeights(l, r);
      Render(Not(All([l, r])))
    case Or(l, r) =>
      PairWeights(l, r);
      Render(Not(Any([l, r])))
    case All(cs) => Render(Any(MapNot(cs)))
    case Any(cs) => Render(All(MapNot(cs)))
    case Not(x) => RenderNegated(x)
  }

  /** The ORDER BY clause: the keys joined by commas and one direction after the whole list. */
  function OrderClause(order: Order): string
  {
    var direction := if order.Ascending? then "ASC" else "DESC";
    if |order.keys| > 0 then " ORDER BY " + Text.Join(order.keys, ",") + " " + direction else ""
  }

  /** The WHERE clause: the condition list rendered as one `All` group, only when the list is non-empty. */
  function WhereClause(conditions: seq<Condition>): string
  {
    if |conditions| > 0 then " WHERE " + Render(All(conditions)) else ""
  }

  /** `sqlWhereClause()`: WHERE, then ORDER BY, then LIMIT, then OFFSET. */
  function Suffix(o: Options): string
  {
    WhereClause(o.conditions) + OrderClause(o.order) + Window.Clauses(o.limit, o.offset)
  }

  // ----- reference: lowering to a predicate tree without negation -----

  datatype Comparison = Eq | Ne | Gt | Lt | Ge | Le

  /** A predicate in which negation has been pushed into the leaves; there is no `Not` node. */
  datatype Predicate =
    | Compare(key: string, op: Comparison, operand: string)
    | NullTest(key: string, isNull: bool)
    | Pattern(key: string, matches: bool, pattern: string)
    | Group(conjunction: bool, parts: seq<Predicate>)

  /** The comparison that holds exactly when the given one fails. */
  function Complement(op: Comparison): Comparison
  {
    match op
    case Eq => Ne
    case Ne => Eq
    case Gt => Le
    case Le => Gt
    case Lt => Ge
    case Ge => Lt
  }

  function Flip(op: Comparison, negated: bool): Comparison
  {
    if negated then Complement(op) else op
  }

  /**
   * The predicate a condition denotes, negated or not. A `Not` switches to the
   * negated reading without switching back, which is what the renderer does.
   */
  function Lower(c: Condition, negated: bool): Predicate
  {
    match c
    case Equal(k, v) => if v.Some? then Compare(k, Flip(Eq, negated), Literal(v.value)) else NullTest(k, !negated)
    case GreaterThan(k, v) => Compare(k, Flip(Gt, negated), Literal(v))
    case LessThan(k, v) => Compare(k, Flip(Lt, negated), Literal(v))
    case GreaterThanOrEqual(k, v) => Compare(k, Flip(Ge, negated), Literal(v))
    case LessThanOrEqual(k, v) => Compare(k, Flip(Le, negated), Literal(v))
    case Like(k, p) => Pattern(k, !negated, Literal(StringValue(p)))
    case And(l, r) => Group(!negated, [Lower(l, negated), Lower(r, negated)])
    case Or(l, r) => Group(negated, [Lower(l, negated), Lower(r, negated)])
    case All(cs) => Group(!negated, seq(|cs|, i requires 0 <= i < |cs| => Lower(cs[i], negated)))
    case Any(cs) => Group(negated, seq(|cs|, i requires 0 <= i < |cs| => Lower(cs[i], negated)))
    case Not(x) => Lower(x, true)
  }

  function OpText(op: Comparison): string
  {
    match op
    case Eq => "="
    case Ne => "!="
    case Gt => ">"
    case Lt => "<"
    case Ge => ">="
    case Le => "<="
  }

  /** The SQL text of a predicate; every group is parenthesised. */
  function Print(p: Predicate): string
  {
    match p
    case Compare(k, op, x) => k + " " + OpText(op) + " " + x
    case NullTest(k, isNull) => k + (if isNull then " IS NULL" else " IS NOT NULL")
    case Pattern(k, m, x) => k + (if m then " LIKE " else " NOT LIKE ") + x
    case Group(conj, ps) =>
      "(" + Text.Join(seq(|ps|, i requires 0 <= i < |ps| => Print(ps[i])), if conj then " AND " else " OR ") + ")"
  }

  lemma {:induction false} WeightOfElement(cs: seq<Condition>, i: nat)
    requires i < |cs|
    ensures Weight(cs[i]) <= Weights(cs)
  {
    if i > 0 {
      WeightOfElement(cs[1..], i - 1);
    }
  }

  lemma {:induction false} RenderEachAt(cs: seq<Condition>, i: nat)
    requires i < |cs|
    ensures RenderEach(cs)[i] == Render(cs[i])
  {
    if i > 0 {
      RenderEachAt(cs[1..], i - 1);
    }
  }

  /** A group whose members render as their lowerings renders as the lowered group. */
  lemma GroupIsLowered(cs: seq<Condition>, parts: seq<Condition>, negated: bool, conjunction: bool)
    requires |parts| == |cs|
    requires forall i :: 0 <= i < |cs| ==> Render(parts[i]) == Print(Lower(cs[i], negated))
    ensures "(" + Text.Join(RenderEach(parts), if conjunction then " AND " else " OR ") + ")"
         == Print(Group(conjunction, seq(|cs|, i requires 0 <= i < |cs| => Lower(cs[i], negated))))
  {
    var ps := seq(|cs|, i requires 0 <= i < |cs| => Lower(cs[i], negated));
    forall i | 0 <= i < |cs|
      ensures RenderEach(parts)[i] == Print(ps[i])
    {
      RenderEachAt(parts, i);
    }
    assert RenderEach(parts) == seq(|ps|, i requires 0 <= i < |ps| => Print(ps[i]));
  }

  /** The renderer prints the negation-free predicate of the condition. */
  lemma {:induction false} RenderIsLowered(c: Condition)
    ensures Render(c) == Print(Lower(c, false))
    decreases Weight(c), 2 * NotDepth(c), 2
  {
    if IsLeaf(c) {
      LeafIsLowered(c);
    } else if c.Not? {
      RenderNegatedIsLowered(c.negated);
    } else if c.And? || c.Or? {
      PairIsLowered(c);
    } else {
      ListIsLowered(c);
    }
  }

  /** A comparison, nil test or LIKE renders as its own predicate. */
  lemma LeafIsLowered(c: Condition)
    requires IsLeaf(c)
    ensures Render(c) == Print(Lower(c, false))
  {
    if c.Equal? && c.value.Some? {
      CompareIsPrinted(c.key, Eq, Literal(c.value.value));
    } else if c.GreaterThan? {
      CompareIsPrinted(c.key, Gt, Literal(c.operand));
    } else if c.LessThan? {
      CompareIsPrinted(c.key, Lt, Literal(c.operand));
    } else if c.GreaterThanOrEqual? {
      CompareIsPrinted(c.key, Ge, Literal(c.operand));
    } else if c.LessThanOrEqual? {
      CompareIsPrinted(c.key, Le, Literal(c.operand));
    }
  }

  /** A comparison prints as key, operator and operand separated by single spaces. */
  lemma CompareIsPrinted(k: string, op: Comparison, x: string)
    ensures Print(Compare(k, op, x)) == k + (" " + OpText(op) + " ") + x
    ensures op == Eq ==> " " + OpText(op) + " " == " = "
    ensures op == Ne ==> " " + OpText(op) + " " == " != "
    ensures op == Gt ==> " " + OpText(op) + " " == " > "
    ensures op == Lt ==> " " + OpText(op) + " " == " < "
    ensures op == Ge ==> " " + OpText(op) + " " == " >= "
    ensures op == Le ==> " " + OpText(op) + " " == " <= "
  {
  }

  /** `and`/`or` render as the two-member `all`/`any`. */
  lemma {:induction false} PairIsLowered(c: Condition)
    requires c.And? || c.Or?
    ensures Render(c) == Print(Lower(c, false))
    decreases Weight(c), 2 * NotDepth(c), 1
  {
    WeightsPair(c.lhs, c.rhs);
    LowerPair(c.lhs, c.rhs, false);
    if c.And? {
      RenderIsLowered(All([c.lhs, c.rhs]));
    } else {
      RenderIsLowered(Any([c.lhs, c.rhs]));
    }
  }

  /** A group renders as the group of its members' renderings. */
  lemma {:induction false} ListIsLowered(c: Condition)
    requires c.All? || c.Any?
    ensures Render(c) == Print(Lower(c, false))
    decreases Weight(c), 2 * NotDepth(c), 1
  {
    MembersAreLowered(c.conditions);
    GroupIsLowered(c.conditions, c.conditions, false, c.All?);
  }

  lemma {:induction false} MembersAreLowered(cs: seq<Condition>)
    ensures forall i :: 0 <= i < |cs| ==> Render(cs[i]) == Print(Lower(cs[i], false))
    decreases 1 + Weights(cs), 0, 0
  {
    forall i | 0 <= i < |cs| ensures Render(cs[i]) == Print(Lower(cs[i], false)) {
      WeightOfElement(cs, i);
      RenderIsLowered(cs[i]);
    }
  }

  predicate IsLeaf(c: Condition)
  {
    c.Equal? || c.GreaterThan? || c.LessThan? || c.GreaterThanOrEqual? || c.LessThanOrEqual? || c.Like?
  }

  /** A negated comparison renders as its complement, a negated LIKE as NOT LIKE, a negated nil test as IS NOT NULL. */
  lemma NegatedLeafIsLowered(c: Condition)
    requires IsLeaf(c)
    ensures RenderNegated(c) == Print(Lower(c, true))
  {
    if c.Equal? && c.value.Some? {
      CompareIsPrinted(c.key, Ne, Literal(c.value.value));
    } else if c.GreaterThan? {
      CompareIsPrinted(c.key, Le, Literal(c.operand));
    } else if c.LessThan? {
      CompareIsPrinted(c.key, Ge, Literal(c.operand));
    } else if c.GreaterThanOrEqual? {
      CompareIsPrinted(c.key, Lt, Literal(c.operand));
    } else if c.LessThanOrEqual? {
      CompareIsPrinted(c.key, Gt, Literal(c.operand));
    }
  }

  /** The negated renderer prints the negated reading of the condition. */
  lemma {:induction false} RenderNegatedIsLowered(c: Condition)
    ensures RenderNegated(c) == Print(Lower(c, true))
    decreases Weight(c), 2 * NotDepth(c) + 1, 1
  {
    if IsLeaf(c) {
      NegatedLeafIsLowered(c);
    } else if c.Not? {
      RenderNegatedIsLowered(c.negated);
    } else if c.And? || c.Or? {
      NegatedPairIsLowered(c);
    } else {
      NegatedListIsLowered(c);
    }
  }

  /** Negated `and`/`or` are the negations of the two-member `all`/`any`. */
  lemma {:induction false} NegatedPairIsLowered(c: Condition)
    requires c.And? || c.Or?
    ensures RenderNegated(c) == Print(Lower(c, true))
    decreases Weight(c), 2 * NotDepth(c) + 1, 0
  {
    PairWeights(c.lhs, c.rhs);
    LowerPair(c.lhs, c.rhs, true);
    if c.And? {
      RenderNegatedIsLowered(All([c.lhs, c.rhs]));
    } else {
      RenderNegatedIsLowered(Any([c.lhs, c.rhs]));
    }
  }

  /** `and`/`or` lower like the two-member `all`/`any`. */
  lemma LowerPair(l: Condition, r: Condition, negated: bool)
    ensures Lower(And(l, r), negated) == Lower(All([l, r]), negated)
    ensures Lower(Or(l, r), negated) == Lower(Any([l, r]), negated)
  {
    var parts := [Lower(l, negated), Lower(r, negated)];
    assert Lower(All([l, r]), negated).parts == parts;
    assert Lower(Any([l, r]), negated).parts == parts;
  }

  /** De Morgan: a negated group renders as the dual group of negated members. */
  lemma {:induction false} NegatedListIsLowered(c: Condition)
    requires c.All? || c.Any?
    ensures RenderNegated(c) == Print(Lower(c, true))
    decreases Weight(c), 2 * NotDepth(c) + 1, 0
  {
    NegatedMembersAreLowered(c.conditions);
    GroupIsLowered(c.conditions, MapNot(c.conditions), true, c.Any?);
  }

  lemma {:induction false} NegatedMembersAreLowered(cs: seq<Condition>)
    ensures forall i :: 0 <= i < |cs| ==> Render(MapNot(cs)[i]) == Print(Lower(cs[i], true))
    decreases 1 + Weights(cs), 0, 0
  {
    forall i | 0 <= i < |cs| ensures Render(MapNot(cs)[i]) == Print(Lower(cs[i], true)) {
      WeightOfElement(cs, i);
      RenderNegatedIsLowered(cs[i]);
    }
  }

  // ----- negation at the level of predicates -----

  /** The predicate that holds exactly when `p` fails: complemented comparisons, flipped tests, AND and OR swapped. */
  function Dual(p: Predicate): Predicate
  {
    match p
    case Compare(k, op, x) => Compare(k, Complement(op), x)
    case NullTest(k, isNull) => NullTest(k, !isNull)
    case Pattern(k, m, x) => Pattern(k, !m, x)
    case Group(conj, ps) => Group(!conj, seq(|ps|, i requires 0 <= i < |ps| => Dual(ps[i])))
  }

  /** Taking the dual twice gives the predicate back. */
  lemma {:induction false} DualInvolutive(p: Predicate)
    ensures Dual(Dual(p)) == p
  {
    match p
    case Compare(_, op, _) =>
      assert Complement(Complement(op)) == op;
    case NullTest(_, _) =>
    case Pattern(_, _, _) =>
    case Group(conj, ps) =>
      forall i | 0 <= i < |ps| ensures Dual(Dual(ps[i])) == ps[i] {
        DualInvolutive(ps[i]);
      }
      assert Dual(Dual(p)).parts == ps;
  }

  /** A condition with no `Not` anywhere in it. */
  predicate NotFree(c: Condition)
  {
    match c
    case Not(_) => false
    case And(l, r) => NotFree(l) && NotFree(r)
    case Or(l, r) => NotFree(l) && NotFree(r)
    case All(cs) => forall i :: 0 <= i < |cs| ==> NotFree(cs[i])
    case Any(cs) => forall i :: 0 <= i < |cs| ==> NotFree(cs[i])
    case _ => true
  }

  /** Negating a condition without `Not` gives exactly the dual of its plain reading (De Morgan and complements). */
  lemma {:induction false} NegationIsDual(c: Condition)
    requires NotFree(c)
    ensures Lower(c, true) == Dual(Lower(c, false))
  {
    match c
    case Equal(_, v) =>
    case GreaterThan(_, _) =>
    case LessThan(_, _) =>
    case GreaterThanOrEqual(_, _) =>
    case LessThanOrEqual(_, _) =>
    case Like(_, _) =>
    case And(l, r) =>
      NegationIsDual(l);
      NegationIsDual(r);
      assert Dual(Lower(c, false)).parts == [Dual(Lower(l, false)), Dual(Lower(r, false))];
    case Or(l, r) =>
      NegationIsDual(l);
      NegationIsDual(r);
      assert Dual(Lower(c, false)).parts == [Dual(Lower(l, false)), Dual(Lower(r, false))];
    case All(cs) =>
      forall i | 0 <= i < |cs| ensures Lower(cs[i], true) == Dual(Lower(cs[i], false)) {
        NegationIsDual(cs[i]);
      }
      assert Lower(c, true).parts == Dual(Lower(c, false)).parts;
    case Any(cs) =>
      forall i | 0 <= i < |cs| ensures Lower(cs[i], true) == Dual(Lower(cs[i], false)) {
        NegationIsDual(cs[i]);
      }
      assert Lower(c, true).parts == Dual(Lower(c, false)).parts;
  }

  /** `not(c)` renders as the dual of what `c` renders, for a condition without `Not`. */
  lemma RenderNotIsDual(c: Condition)
    requires NotFree(c)
    ensures Render(Not(c)) == Print(Dual(Lower(c, false)))
  {
    RenderIsLowered(Not(c));
    NegationIsDual(c);
  }

  /** However many `Not`s are stacked on a condition, it renders like a single `Not`. */
  function Nots(n: nat, c: Condition): Condition
  {
    if n == 0 then c else Not(Nots(n - 1, c))
  }

  lemma {:induction false} StackedNotsRenderOnce(n: nat, c: Condition)
    requires n >= 1
    ensures Render(Nots(n, c)) == Render(Not(c))
    ensures Lower(Nots(n, c), false) == Lower(c, true)
  {
    if n > 1 {
      StackedNotsRenderOnce(n - 1, c);
      assert Render(Nots(n, c)) == RenderNegated(Nots(n - 1, c));
      assert Nots(n - 1, c) == Not(Nots(n - 2, c));
      assert RenderNegated(Nots(n - 1, c)) == RenderNegated(Nots(n - 2, c));
      if n - 2 >= 1 {
        StackedNotsRenderOnce(n - 2, c);
      }
    }
  }

  // ----- properties of the renderer -----

  /** Negated comparisons flip to the complementary comparison. */
  lemma NegatedComparisonsFlip(k: string, v: Value)
    ensures Render(Not(GreaterThan(k, v))) == Render(LessThanOrEqual(k, v))
    ensures Render(Not(LessThan(k, v))) == Render(GreaterThanOrEqual(k, v))
    ensures Render(Not(GreaterThanOrEqual(k, v))) == Render(LessThan(k, v))
    ensures Render(Not(LessThanOrEqual(k, v))) == Render(GreaterThan(k, v))
  {
  }

  /** De Morgan on groups. */
  lemma DeMorgan(cs: seq<Condition>)
    ensures Render(Not(All(cs))) == Render(Any(MapNot(cs)))
    ensures Render(Not(Any(cs))) == Render(All(MapNot(cs)))
  {
  }

  /** A nil value is tested with IS NULL / IS NOT NULL, never compared with `= NULL`. */
  lemma NilUsesIsNull(k: string, c: Condition)
    requires c == Equal(k, None)
    ensures Render(c) == k + " IS NULL"
    ensures Render(Not(c)) == k + " IS NOT NULL"
  {
  }

  /** `and` and `or` are two-member `all` and `any`, also under negation. */
  lemma AndOrAreGroups(l: Condition, r: Condition)
    ensures Render(And(l, r)) == Render(All([l, r]))
    ensures Render(Or(l, r)) == Render(Any([l, r]))
    ensures Render(Not(And(l, r))) == Render(Not(All([l, r])))
    ensures Render(Not(Or(l, r))) == Render(Not(Any([l, r])))
  {
  }

  /** Double negation does not cancel: `not(not c)` renders like `not c`, and that can differ from `c`. */
  lemma DoubleNegationKeepsNegation(c: Condition, k: string, v: Value)
    ensures Render(Not(Not(c))) == Render(Not(c))
    ensures Render(Not(Not(GreaterThan(k, v)))) != Render(GreaterThan(k, v))
  {
    var twice := Render(Not(Not(GreaterThan(k, v))));
    assert twice == RenderNegated(Not(GreaterThan(k, v)));
    assert twice == RenderNegated(GreaterThan(k, v));
    assert twice == Render(LessThanOrEqual(k, v));
    assert twice == k + " <= " + Literal(v);
    assert twice[|k| + 1] == '<';
    assert Render(GreaterThan(k, v))[|k| + 1] == '>';
  }

  /** Every group is parenthesised, so an empty group renders as `()`. */
  lemma EmptyGroupsAreParentheses()
    ensures Render(All([])) == "()" && Render(Any([])) == "()"
  {
  }

  lemma ClauseInitials(o: Options)
    ensures OrderClause(o.order) != "" ==> |OrderClause(o.order)| > 1 && OrderClause(o.order)[1] == 'O'
    ensures Window.Clauses(o.limit, o.offset) != "" ==> |Window.Clauses(o.limit, o.offset)| > 1 && Window.Clauses(o.limit, o.offset)[1] == 'L'
  {
  }

  /** ` WHERE` starts the suffix exactly when there is at least one condition. */
  lemma WhereOnlyWithConditions(o: Options)
    ensures |o.conditions| > 0 <==> (|Suffix(o)| >= 7 && Suffix(o)[..7] == " WHERE ")
  {
    ClauseInitials(o);
    var where := WhereClause(o.conditions);
    assert where == "" || where == " WHERE " + where[7..];
    Window.WhereLeads(|o.conditions| > 0, where, OrderClause(o.order), Window.Clauses(o.limit, o.offset));
  }

  /** The condition list is rendered as one `all` group. */
  lemma WhereIsAllGroup(o: Options)
    requires |o.conditions| > 0
    ensures Suffix(o)[..7 + |Render(All(o.conditions))|] == " WHERE " + Print(Lower(All(o.conditions), false))
  {
    RenderIsLowered(All(o.conditions));
  }

  /** ORDER BY appears only with keys, the keys joined by commas and a single direction after them. */
  lemma OrderByShape(order: Order)
    ensures |order.keys| == 0 ==> OrderClause(order) == ""
    ensures |order.keys| > 0 && order.Ascending? ==> OrderClause(order) == " ORDER BY " + Text.Join(order.keys, ",") + " ASC"
    ensures |order.keys| > 0 && order.Descending? ==> OrderClause(order) == " ORDER BY " + Text.Join(order.keys, ",") + " DESC"
  {
  }

  /** After WHERE and ORDER BY, the suffix reads back as exactly the window of `limit` and `offset`. */
  lemma SuffixEncodesWindow(o: Options)
    ensures var head := |WhereClause(o.conditions) + OrderClause(o.order)|;
      head <= |Suffix(o)| && Window.Parse(Suffix(o)[head..]) == Some(Window.Effective(o.limit, o.offset))
  {
    var head := WhereClause(o.conditions) + OrderClause(o.order);
    assert Suffix(o) == head + Window.Clauses(o.limit, o.offset);
    assert Suffix(o)[|head|..] == Window.Clauses(o.limit, o.offset);
    Window.ParseClauses(o.limit, o.offset);
  }
}
