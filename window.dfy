/**
 * The LIMIT/OFFSET window that the query renderers emit, and a reader for
 * that text, so that each renderer can be shown to encode exactly the
 * window it was given.
 */
module Window {
  import opened Wrappers
  import Text

  /** The rows a query keeps: at most `limit` of them (None = unbounded), after skipping `offset`. */
  datatype Window = Window(limit: Option<nat>, offset: nat)

  /** What the query's `limit` and `offset` fields mean: only positive values restrict anything. */
  function Effective(limit: int, offset: int): Window
  {
    Window(if limit > 0 then Some(limit) else None, if offset > 0 then offset else 0)
  }

  /** Index of the first space in `s`, or |s|. */
  function FirstSpace(s: string): (k: nat)
    ensures k <= |s|
    ensures forall i :: 0 <= i < k ==> s[i] != ' '
    ensures k < |s| ==> s[k] == ' '
  {
    if |s| == 0 || s[0] == ' ' then 0 else 1 + FirstSpace(s[1..])
  }

  /** Reads the LIMIT operand: `-1` means unbounded, otherwise a positive decimal. */
  function ParseLimit(number: string): Option<Option<nat>>
  {
    if number == "-1" then Some(None)
    else match Text.ParseDigits(number)
      case Some(n) => if n > 0 then Some(Some(n)) else None
      case None => None
  }

  /** Reads what follows the LIMIT operand: nothing, or ` OFFSET ` and a positive decimal. */
  function ParseOffset(tail: string): Option<nat>
  {
    if tail == "" then Some(0)
    else if |tail| < 8 || tail[..8] != " OFFSET " then None
    else match Text.ParseDigits(tail[8..])
      case Some(m) => if m > 0 then Some(m) else None
      case None => None
  }

  /** Reads `[" LIMIT " n | " LIMIT -1"] [" OFFSET " m]`; OFFSET is only accepted after a LIMIT. */
  function Parse(s: string): Option<Window>
  {
    if s == "" then Some(Window(None, 0))
    else if |s| < 7 || s[..7] != " LIMIT " then None
    else
      var rest := s[7..];
      var k := FirstSpace(rest);
      var limit := ParseLimit(rest[..k]);
      var offset := ParseOffset(rest[k..]);
      if limit.Some? && offset.Some? && (limit.value.None? ==> offset.value > 0)
      then Some(Window(limit.value, offset.value))
      else None
  }

  lemma {:induction false} FirstSpaceOfWord(word: string, tail: string)
    requires forall i :: 0 <= i < |word| ==> word[i] != ' '
    requires tail == "" || tail[0] == ' '
    ensures FirstSpace(word + tail) == |word|
  {
    if |word| > 0 {
      assert (word + tail)[1..] == word[1..] + tail;
      FirstSpaceOfWord(word[1..], tail);
    }
  }

  /** The text of the window's LIMIT operand. */
  function LimitOperand(limit: int): string
  {
    if limit > 0 then Text.IntText(limit) else "-1"
  }

  lemma ParseLimitOperand(limit: int)
    ensures ParseLimit(LimitOperand(limit)) == Some(if limit > 0 then Some(limit) else None)
    ensures forall i :: 0 <= i < |LimitOperand(limit)| ==> LimitOperand(limit)[i] != ' '
  {
    if limit > 0 {
      Text.NatTextRoundTrip(limit);
      assert LimitOperand(limit)[0] != '-';
    }
  }

  lemma ParseOffsetText(offset: int)
    requires offset > 0
    ensures ParseOffset(" OFFSET " + Text.IntText(offset)) == Some(offset)
  {
    var tail := " OFFSET " + Text.IntText(offset);
    assert tail[..8] == " OFFSET ";
    assert tail[8..] == Text.IntText(offset);
    Text.NatTextRoundTrip(offset);
  }

  /** Reading ` LIMIT <operand><tail>` reads the operand and the tail separately. */
  lemma ParseLimitForm(number: string, tail: string)
    requires forall i :: 0 <= i < |number| ==> number[i] != ' '
    requires tail == "" || tail[0] == ' '
    ensures var l := ParseLimit(number); var o := ParseOffset(tail);
      Parse(" LIMIT " + number + tail) ==
        if l.Some? && o.Some? && (l.value.None? ==> o.value > 0) then Some(Window(l.value, o.value)) else None
  {
    var text := " LIMIT " + number + tail;
    assert text[..7] == " LIMIT ";
    var rest := text[7..];
    assert rest == number + tail;
    FirstSpaceOfWord(number, tail);
    assert rest[..|number|] == number;
    assert rest[|number|..] == tail;
  }

  /** The window text every renderer appends: LIMIT when positive, then OFFSET when positive, behind `LIMIT -1` if needed. */
  function Clauses(limit: int, offset: int): string
  {
    (if limit > 0 then " LIMIT " + Text.IntText(limit) else "")
    + (if offset > 0 then (if limit > 0 then "" else " LIMIT -1") + " OFFSET " + Text.IntText(offset) else "")
  }

  /** A window emitted as text is read back as the same window. */
  lemma ParseClauses(limit: int, offset: int)
    ensures Parse(Clauses(limit, offset)) == Some(Effective(limit, offset))
  {
    var number := LimitOperand(limit);
    ParseLimitOperand(limit);
    if offset > 0 {
      var tail := " OFFSET " + Text.IntText(offset);
      assert Clauses(limit, offset) == " LIMIT " + number + tail;
      ParseOffsetText(offset);
      ParseLimitForm(number, tail);
    } else if limit > 0 {
      assert Clauses(limit, offset) == " LIMIT " + number + "";
      ParseLimitForm(number, "");
    }
  }

  /** OFFSET never appears without a LIMIT before it. */
  lemma OffsetFollowsLimit(limit: int, offset: int)
    requires offset > 0
    ensures |Clauses(limit, offset)| > 7 && Clauses(limit, offset)[..7] == " LIMIT "
  {
  }

  /**
   * Both suffix renderers write an optional WHERE clause, an optional ORDER BY
   * clause and then these window clauses. Only the WHERE clause has `W` as its
   * second character, so the suffix starts with ` WHERE ` exactly when a WHERE
   * clause is present.
   */
  lemma WhereLeads(has: bool, where: string, order: string, window: string)
    requires has ==> |where| >= 7 && where == " WHERE " + where[7..]
    requires !has ==> where == ""
    requires order != "" ==> |order| > 1 && order[1] == 'O'
    requires window != "" ==> |window| > 1 && window[1] == 'L'
    ensures has <==> (|where + order + window| >= 7 && (where + order + window)[..7] == " WHERE ")
  {
    var s := where + order + window;
    if has {
      assert s == " WHERE " + (where[7..] + order + window);
    } else if |s| >= 7 {
      if order != "" {
        assert s[1] == order[1];
      } else {
        assert s == window;
      }
      assert s[..7][1] == s[1];
    }
  }
}
