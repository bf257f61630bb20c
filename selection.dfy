/** The cross-page selection accumulator (`onRowSelect`). The rows reported
    by the grid are walked in order; each one whose id is not yet in the
    running selection is appended, and nothing is ever removed, reordered
    or overwritten. */
module Selection {
  import opened Artworks

  /** One iteration of the loop: append `x` unless its id is already there. */
  function AddIfAbsent(sel: seq<Artwork>, x: Artwork): (r: seq<Artwork>)
  {
    if HasId(sel, x.id) then sel else sel + [x]
  }

  /** One loop step keeps the selection as a prefix, leaves the row's id
      present, keeps ids distinct and adds nothing but that row. */
  lemma AddIfAbsentStep(sel: seq<Artwork>, x: Artwork)
    ensures sel <= AddIfAbsent(sel, x)
    ensures HasId(AddIfAbsent(sel, x), x.id)
    ensures DistinctIds(sel) ==> DistinctIds(AddIfAbsent(sel, x))
    ensures forall y :: y in AddIfAbsent(sel, x) ==> y in sel || y == x
  {
    HasIdAppend(sel, [x], x.id);
    if !HasId(sel, x.id) {
      assert forall i :: 0 <= i < |sel| ==> sel[i].id != x.id;
    }
  }

  /** The selection after merging `rows` into `sel`, row by row from the left. */
  function Merge(sel: seq<Artwork>, rows: seq<Artwork>): (r: seq<Artwork>)
    decreases |rows|
  {
    if rows == [] then sel else Merge(AddIfAbsent(sel, rows[0]), rows[1..])
  }

  /** The merge loop: copy the selection, then push every row whose id no
      entry of the copy has yet; each push is seen by later checks. */
  method MergeSelection(selected: seq<Artwork>, rows: seq<Artwork>) returns (updated: seq<Artwork>)
    ensures updated == Merge(selected, rows)
  {
    updated := selected;
    var i := 0;
    while i < |rows|
      invariant 0 <= i <= |rows|
      invariant Merge(updated, rows[i..]) == Merge(selected, rows)
    {
      var item := rows[i];
      assert rows[i..][1..] == rows[i + 1..];
      if !HasId(updated, item.id) {
        updated := updated + [item];
      }
      i := i + 1;
    }
    assert rows[i..] == [];
  }

  /** Merging never removes or reorders entries: the old selection is a prefix. */
  lemma {:induction false} MergeKeepsPrefix(sel: seq<Artwork>, rows: seq<Artwork>)
    ensures sel <= Merge(sel, rows)
    decreases |rows|
  {
    if rows != [] {
      var next := AddIfAbsent(sel, rows[0]);
      MergeKeepsPrefix(next, rows[1..]);
      assert sel <= next;
    }
  }

  /** An id is in the merged selection exactly when it was in the old
      selection or among the reported rows. */
  lemma {:induction false} MergeIds(sel: seq<Artwork>, rows: seq<Artwork>, id: int)
    ensures HasId(Merge(sel, rows), id) <==> HasId(sel, id) || HasId(rows, id)
    decreases |rows|
  {
    if rows != [] {
      var next := AddIfAbsent(sel, rows[0]);
      MergeIds(next, rows[1..], id);
      HasIdAppend(sel, [rows[0]], id);
    }
  }

  /** Every entry of the merged selection was in the old selection or among
      the reported rows: nothing else is added. */
  lemma {:induction false} MergeFrom(sel: seq<Artwork>, rows: seq<Artwork>, x: Artwork)
    requires x in Merge(sel, rows)
    ensures x in sel || x in rows
    decreases |rows|
  {
    if rows != [] {
      var next := AddIfAbsent(sel, rows[0]);
      MergeFrom(next, rows[1..], x);
      assert x in rows[1..] ==> x in rows;
    }
  }

  /** Distinct ids are preserved, even when `rows` repeats an id. */
  lemma {:induction false} MergeDistinct(sel: seq<Artwork>, rows: seq<Artwork>)
    requires DistinctIds(sel)
    ensures DistinctIds(Merge(sel, rows))
    decreases |rows|
  {
    if rows != [] {
      var next := AddIfAbsent(sel, rows[0]);
      if !HasId(sel, rows[0].id) {
        assert forall i :: 0 <= i < |sel| ==> next[i].id != rows[0].id;
      }
      MergeDistinct(next, rows[1..]);
    }
  }

  /** First stored record wins: the record kept for any id is the first one
      with that id in the old selection followed by the reported rows. */
  lemma {:induction false} MergeFirstWins(sel: seq<Artwork>, rows: seq<Artwork>, id: int)
    ensures Lookup(Merge(sel, rows), id) == Lookup(sel + rows, id)
    decreases |rows|
  {
    if rows != [] {
      var x := rows[0];
      var next := AddIfAbsent(sel, x);
      MergeFirstWins(next, rows[1..], id);
      if HasId(sel, x.id) {
        assert next == sel;
        LookupAppend(sel, rows[1..], id);
        LookupAppend(sel, rows, id);
        if !HasId(sel, id) {
          assert x.id != id;
          assert Lookup(rows, id) == Lookup(rows[1..], id);
        }
      } else {
        assert next + rows[1..] == sel + rows;
      }
    } else {
      assert sel + rows == sel;
    }
  }

  /** A record already in the selection is never replaced by a later row
      with the same id. */
  lemma KeepsStoredRecord(sel: seq<Artwork>, rows: seq<Artwork>, id: int)
    requires HasId(sel, id)
    ensures Lookup(Merge(sel, rows), id) == Lookup(sel, id)
  {
    MergeFirstWins(sel, rows, id);
    LookupAppend(sel, rows, id);
  }

  /** Rows whose ids are all present already change nothing. */
  lemma {:induction false} MergePresent(sel: seq<Artwork>, rows: seq<Artwork>)
    requires forall k :: 0 <= k < |rows| ==> HasId(sel, rows[k].id)
    ensures Merge(sel, rows) == sel
    decreases |rows|
  {
    if rows != [] {
      MergePresent(sel, rows[1..]);
    }
  }

  /** Merging the same event twice in succession is the same as merging it once. */
  lemma MergeIdempotent(sel: seq<Artwork>, rows: seq<Artwork>)
    ensures Merge(Merge(sel, rows), rows) == Merge(sel, rows)
  {
    forall k | 0 <= k < |rows| ensures HasId(Merge(sel, rows), rows[k].id) {
      MergeIds(sel, rows, rows[k].id);
    }
    MergePresent(Merge(sel, rows), rows);
  }

  /** Two merges in succession are one merge of the concatenated events. */
  lemma {:induction false} MergeConcat(sel: seq<Artwork>, a: seq<Artwork>, b: seq<Artwork>)
    ensures Merge(Merge(sel, a), b) == Merge(sel, a + b)
    decreases |a|
  {
    if a == [] {
      assert a + b == b;
    } else {
      assert (a + b)[0] == a[0];
      assert (a + b)[1..] == a[1..] + b;
      MergeConcat(AddIfAbsent(sel, a[0]), a[1..], b);
    }
  }

  /** Over a whole session that starts from an empty selection and merges the
      rows `history` (all events, concatenated): ids are distinct, exactly
      the reported ids are present, and each keeps its first reported record. */
  lemma SessionSelection(history: seq<Artwork>, id: int)
    ensures DistinctIds(Merge([], history))
    ensures HasId(Merge([], history), id) <==> HasId(history, id)
    ensures Lookup(Merge([], history), id) == Lookup(history, id)
  {
    MergeDistinct([], history);
    MergeIds([], history, id);
    MergeFirstWins([], history, id);
    assert [] + history == history;
  }

  /** Rows 1 and 2 are checked on one page, row 3 on another, then row 2
      is unchecked so that the grid reports only row 1: the unchecked row
      stays selected, because the merge only ever adds. */
  lemma UncheckKeepsRow(a1: Artwork, a2: Artwork, a3: Artwork)
    requires a1.id == 1 && a2.id == 2 && a3.id == 3
    ensures Merge(Merge([], [a1, a2]), [a3]) == [a1, a2, a3]
    ensures Merge([a1, a2, a3], [a1]) == [a1, a2, a3]
  {
    assert AddIfAbsent([], a1) == [a1];
    assert !HasId([a1], a2.id);
    assert [a1, a2][1..] == [a2];
    assert Merge([a1], [a2]) == [a1, a2];
    assert Merge([], [a1, a2]) == [a1, a2];
    assert !HasId([a1, a2], a3.id);
    assert HasId([a1, a2, a3], a1.id);
  }
}
