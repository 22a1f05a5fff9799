/** Rows of a tab-separated file, already split into fields, and the two ways the
    readers treat a list of rows: keep the rows a predicate accepts (`Filter`), and
    turn each row into at most one record while stopping at the first row whose
    conversion throws (`Collect`). */
module Rows {
  import opened Wrappers

  type Row = seq<string>

  /** The runtime exceptions a reader lets escape: `NumberFormatException` from
      `Long.parseLong` and `ArrayIndexOutOfBoundsException` from a missing field. */
  datatype Fault = NumberFormat(input: string) | IndexOutOfBounds(index: nat)

  /** The elements of `xs` that `keep` accepts, in their original order. */
  function Filter<X>(xs: seq<X>, keep: X -> bool): (r: seq<X>)
    ensures |r| <= |xs|
    decreases |xs|
  {
    if xs == [] then []
    else Filter(xs[..|xs| - 1], keep) + if keep(xs[|xs| - 1]) then [xs[|xs| - 1]] else []
  }

  /** Filtering keeps every accepted element as often as it occurs, and nothing else. */
  lemma {:induction false} FilterCount<X(!new)>(xs: seq<X>, keep: X -> bool, x: X)
    ensures multiset(Filter(xs, keep))[x] == if keep(x) then multiset(xs)[x] else 0
    ensures x in Filter(xs, keep) <==> x in xs && keep(x)
    decreases |xs|
  {
    if xs != [] {
      var init, last := xs[..|xs| - 1], xs[|xs| - 1];
      assert xs == init + [last];
      FilterCount(init, keep, x);
    }
  }

  /** Filtering a concatenation filters each part: the kept elements keep their order. */
  lemma {:induction false} FilterAppend<X>(xs: seq<X>, ys: seq<X>, keep: X -> bool)
    ensures Filter(xs + ys, keep) == Filter(xs, keep) + Filter(ys, keep)
    decreases |ys|
  {
    if ys != [] {
      var init := ys[..|ys| - 1];
      var last := ys[|ys| - 1];
      var tail := if keep(last) then [last] else [];
      assert (xs + ys)[..|xs + ys| - 1] == xs + init;
      assert (xs + ys)[|xs + ys| - 1] == last;
      FilterAppend(xs, init, keep);
      calc {
        Filter(xs + ys, keep);
        Filter(xs + init, keep) + tail;
        Filter(xs, keep) + Filter(init, keep) + tail;
        Filter(xs, keep) + (Filter(init, keep) + tail);
        { assert Filter(ys, keep) == Filter(init, keep) + tail; }
        Filter(xs, keep) + Filter(ys, keep);
      }
    } else {
      assert xs + ys == xs;
    }
  }

  /** Run `step` over the rows in order; a failing step aborts with its fault, an
      `Ok(Some(x))` appends `x`, an `Ok(None)` skips the row. */
  function Collect<T>(rows: seq<Row>, step: Row -> Result<Option<T>, Fault>): Result<seq<T>, Fault>
    decreases |rows|
  {
    if rows == [] then Ok([])
    else
      var acc :- Collect(rows[..|rows| - 1], step);
      var kept :- step(rows[|rows| - 1]);
      Ok(if kept.Some? then acc + [kept.value] else acc)
  }

  /** The fold succeeds exactly when every row's step does; otherwise its fault is
      the one of the first failing row. */
  lemma {:induction false} CollectFails<T>(rows: seq<Row>, step: Row -> Result<Option<T>, Fault>)
    ensures Collect(rows, step).Ok? <==> forall i | 0 <= i < |rows| :: step(rows[i]).Ok?
    ensures Collect(rows, step).Fail? ==>
      exists i | 0 <= i < |rows| ::
        && step(rows[i]) == Fail(Collect(rows, step).error)
        && forall j | 0 <= j < i :: step(rows[j]).Ok?
    decreases |rows|
  {
    if rows != [] {
      var init := rows[..|rows| - 1];
      CollectFails(init, step);
      assert forall i | 0 <= i < |init| :: init[i] == rows[i];
      if Collect(init, step).Fail? {
        var i :| 0 <= i < |init| && step(init[i]) == Fail(Collect(init, step).error)
          && forall j | 0 <= j < i :: step(init[j]).Ok?;
        assert step(rows[i]) == step(init[i]);
      } else if step(rows[|rows| - 1]).Fail? {
        assert step(rows[|rows| - 1]) == Fail(Collect(rows, step).error);
      }
    }
  }

  /** Once a prefix of the rows has failed, the rows after it are never looked at. */
  lemma {:induction false} CollectPrefixFail<T>(rows: seq<Row>, n: nat, step: Row -> Result<Option<T>, Fault>)
    requires n <= |rows|
    requires Collect(rows[..n], step).Fail?
    ensures Collect(rows, step) == Collect(rows[..n], step)
    decreases |rows| - n
  {
    if n < |rows| {
      var init := rows[..|rows| - 1];
      assert init[..n] == rows[..n];
      CollectPrefixFail(init, n, step);
    } else {
      assert rows[..n] == rows;
    }
  }

  /** When every row succeeds and `keep` says which rows yield a record, the result
      holds one record per kept row, the k-th built from the k-th kept row. */
  lemma {:induction false} CollectKeeps<T>(rows: seq<Row>, step: Row -> Result<Option<T>, Fault>, keep: Row -> bool)
    requires forall row | row in rows :: keep(row) <==> step(row).Ok? && step(row).value.Some?
    requires Collect(rows, step).Ok?
    ensures var out, kept := Collect(rows, step).value, Filter(rows, keep);
      && |out| == |kept|
      && forall k | 0 <= k < |kept| :: step(kept[k]) == Ok(Some(out[k]))
    decreases |rows|
  {
    if rows != [] {
      var init, last := rows[..|rows| - 1], rows[|rows| - 1];
      assert rows == init + [last];
      CollectKeeps(init, step, keep);
    }
  }

  /** On success, the records are exactly those some row's step yields. */
  lemma {:induction false} CollectMember<T>(rows: seq<Row>, step: Row -> Result<Option<T>, Fault>, x: T)
    requires Collect(rows, step).Ok?
    ensures x in Collect(rows, step).value <==> exists row | row in rows :: step(row) == Ok(Some(x))
    decreases |rows|
  {
    if rows != [] {
      var init, last := rows[..|rows| - 1], rows[|rows| - 1];
      assert rows == init + [last];
      CollectMember(init, step, x);
    }
  }

  /** On success, the record of every row that yields one is in the result: the
      "if" half of `CollectMember`, in the form the reader lemmas call it. */
  lemma CollectYields<T>(rows: seq<Row>, step: Row -> Result<Option<T>, Fault>, i: nat)
    requires Collect(rows, step).Ok? && i < |rows|
    requires step(rows[i]).Ok? && step(rows[i]).value.Some?
    ensures step(rows[i]).value.value in Collect(rows, step).value
  {
    CollectMember(rows, step, step(rows[i]).value.value);
  }

  /** Unfolding helper: one more row, the fold's defining step for rows built by appending. */
  lemma CollectSnoc<T>(rows: seq<Row>, row: Row, step: Row -> Result<Option<T>, Fault>)
    ensures Collect(rows + [row], step)
         == match Collect(rows, step)
            case Fail(f) => Fail(f)
            case Ok(acc) =>
              match step(row)
              case Fail(f) => Fail(f)
              case Ok(kept) => Ok(if kept.Some? then acc + [kept.value] else acc)
  {
    assert (rows + [row])[..|rows|] == rows;
  }
}
