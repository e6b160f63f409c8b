/**
 * The current row of a statement as the native layer reports it, and the
 * column-name to position map that the load-side containers build from it.
 */
module Columns {
  import opened SQLiteType

  /** One column of the current row: its name and its native cell. */
  datatype Column = Column(name: string, cell: NativeColumn)

  function Names(row: seq<Column>): (r: seq<string>)
    ensures |r| == |row|
    ensures forall i :: 0 <= i < |row| ==> r[i] == row[i].name
  {
    seq(|row|, i requires 0 <= i < |row| => row[i].name)
  }

  /** `v` is the cell of the last column named `key`, decoded as `kind`. */
  ghost predicate ReadsLast(row: seq<Column>, key: string, kind: Kind, v: Value)
    requires Carried(kind)
  {
    exists i :: 0 <= i < |row| && row[i].name == key && v == Decode(kind, row[i].cell)
      && (forall j :: i < j < |row| ==> row[j].name != key)
  }

  /** Each name's position, the later one where a name repeats. */
  function Positions(names: seq<string>): map<string, nat>
  {
    if |names| == 0 then map[]
    else Positions(names[..|names| - 1])[names[|names| - 1] := |names| - 1]
  }

  /** The map holds exactly the names; each is sent to a position holding it, and no later position does. */
  lemma {:induction false} PositionsAreLast(names: seq<string>)
    ensures forall n :: n in Positions(names) <==> n in names
    ensures forall n :: n in Positions(names) ==> Positions(names)[n] < |names| && names[Positions(names)[n]] == n
    ensures forall n, j :: n in Positions(names) && Positions(names)[n] < j < |names| ==> names[j] != n
  {
    if |names| > 0 {
      var init := names[..|names| - 1];
      PositionsAreLast(init);
      forall n | n in names ensures n in Positions(names) {
        if n != names[|names| - 1] {
          var i :| 0 <= i < |names| && names[i] == n;
          assert init[i] == n;
        }
      }
    }
  }

  /** Where a name occurs at `i` and `j > i`, the earlier position is overwritten. */
  lemma LaterPositionWins(names: seq<string>, i: nat, j: nat)
    requires i < j < |names| && names[i] == names[j]
    ensures names[i] in Positions(names) && Positions(names)[names[i]] >= j
  {
    PositionsAreLast(names);
  }
}
