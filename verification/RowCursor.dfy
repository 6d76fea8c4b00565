/**
The cursor over a ready-made vector of rows. The pushdown iterators of the grep, blocks
and instructions tables are this cursor over differently built vectors.
*/
module RowCursor {
  import opened Sequences

  class RowIterator<T> {
    var rows: seq<T>
    var i: nat
    var started: bool

    ghost predicate Valid()
      reads this
    {
      !started ==> i == 0
    }

    /** The rows a caller has yet to see. */
    ghost function Unread(): seq<T>
      reads this
    {
      if !started then rows else if i < |rows| then rows[i + 1..] else []
    }

    constructor (rows: seq<T>)
      ensures Valid() && Unread() == rows && !started
    {
      this.rows, i, started := rows, 0, false;
    }

    method Next() returns (more: bool)
      requires Valid()
      modifies this`i, this`started
      ensures Valid() && started && (more <==> old(Unread()) != []) && (more <==> !AtEnd())
      ensures more ==> Row() == old(Unread())[0] && Unread() == old(Unread())[1..]
      ensures !more ==> Unread() == []
    {
      if !started {
        started := true;
      } else {
        i := i + 1;
      }
      more := i < |rows|;
    }

    predicate AtEnd()
      reads this
    {
      started && i >= |rows|
    }

    function Row(): T
      requires i < |rows|
      reads this
    {
      rows[i]
    }
  }

  /** Reads a cursor to its end. */
  method Drain<T>(it: RowIterator<T>) returns (out: seq<T>)
    requires it.Valid()
    modifies it
    ensures out == old(it.Unread())
  {
    out := [];
    ghost var all, left := it.Unread(), it.Unread();
    var more := it.Next();
    while more
      invariant it.Valid() && it.started && (more <==> !it.AtEnd()) && (more <==> left != [])
      invariant more ==> it.Row() == left[0] && it.Unread() == left[1..]
      invariant all == out + left
      decreases |left|
    {
      ReadOne(all, out, left);
      out := out + [it.Row()];
      left := it.Unread();
      more := it.Next();
    }
  }
}
