/**
 The row-emitting loop of build_meta_table.py: scan rows in order and append
 an output row for every input row that yields one (`continue` otherwise).
 */
module RowScan {
  import opened Options

  /** The output list after scanning `rows` in order, starting from an empty list. */
  function Emit<A, B>(rows: seq<A>, out: A -> Option<B>): seq<B>
  {
    if rows == [] then []
    else
      var emitted := Emit(rows[..|rows| - 1], out);
      match out(rows[|rows| - 1])
      case None => emitted
      case Some(b) => emitted + [b]
  }

  /** The positions of the rows that yield an output row, in increasing order. */
  ghost function Emitting<A, B>(rows: seq<A>, out: A -> Option<B>): (ps: seq<nat>)
    ensures forall k | 0 <= k < |ps| :: ps[k] < |rows| && out(rows[ps[k]]).Some?
    ensures forall k, l | 0 <= k < l < |ps| :: ps[k] < ps[l]
    ensures forall i | 0 <= i < |rows| && out(rows[i]).Some? :: i in ps
  {
    if rows == [] then []
    else
      var ps := Emitting(rows[..|rows| - 1], out);
      if out(rows[|rows| - 1]).Some? then ps + [|rows| - 1] else ps
  }

  /** The output holds exactly the emitting rows' outputs, one each, in input order. */
  lemma {:induction false} EmitIsSelection<A, B>(rows: seq<A>, out: A -> Option<B>)
    ensures var ps := Emitting(rows, out);
      && |Emit(rows, out)| == |ps|
      && forall k | 0 <= k < |ps| :: Emit(rows, out)[k] == out(rows[ps[k]]).value
  {
    if rows != [] {
      var init := rows[..|rows| - 1];
      EmitIsSelection(init, out);
      var ps := Emitting(init, out);
      assert forall k | 0 <= k < |ps| :: rows[ps[k]] == init[ps[k]];
    }
  }

  /** Appending rows that yield nothing leaves the output unchanged. */
  lemma {:induction false} EmitSkips<A, B>(rows: seq<A>, extra: seq<A>, out: A -> Option<B>)
    requires forall x | x in extra :: out(x).None?
    ensures Emit(rows + extra, out) == Emit(rows, out)
    decreases |extra|
  {
    if extra == [] {
      assert rows + extra == rows;
    } else {
      var shorter := extra[..|extra| - 1];
      var all := rows + extra;
      assert all[..|all| - 1] == rows + shorter;
      assert all[|all| - 1] == extra[|extra| - 1] && extra[|extra| - 1] in extra;
      EmitSkips(rows, shorter, out);
    }
  }
}
