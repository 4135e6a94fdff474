/**
 * The slice of pandas the report scripts use: a frame built from a list of
 * records, a constant column, the priority ordering of columns, column
 * selection, the upsert merge of a new frame into a sheet's existing records,
 * and the grid of cells written to a sheet, with missing cells as "".
 */
module Frames {
  import opened Wrappers
  import opened SeqUtil
  import opened PyText
  import opened PyDict

  /** A frame: its columns in order and its rows; a row without a column holds NaN there. */
  datatype Frame = Frame(cols: seq<string>, rows: seq<Dict>)

  /** The keys of all rows, row after row. */
  function AllKeys(rows: seq<Dict>): seq<string> {
    if rows == [] then [] else AllKeys(rows[..|rows| - 1]) + Keys(rows[|rows| - 1])
  }

  /** `pd.DataFrame(records)`: one column per key, in order of first appearance. */
  function FromRecords(rows: seq<Dict>): Frame {
    Frame(Dedup(AllKeys(rows)), rows)
  }

  lemma {:induction false} AllKeysMembers(rows: seq<Dict>, c: string)
    ensures c in AllKeys(rows) <==> exists i :: 0 <= i < |rows| && HasKey(rows[i], c)
    decreases |rows|
  {
    if rows != [] {
      var n := |rows| - 1;
      var init := rows[..n];
      AllKeysMembers(init, c);
      assert AllKeys(rows) == AllKeys(init) + Keys(rows[n]);
      assert c in AllKeys(rows) <==> c in AllKeys(init) || HasKey(rows[n], c);
      assert forall i :: 0 <= i < n ==> init[i] == rows[i];
      if c in AllKeys(rows) {
        if c in AllKeys(init) {
          var i :| 0 <= i < n && HasKey(init[i], c);
          assert HasKey(rows[i], c);
        } else {
          assert HasKey(rows[n], c);
        }
      } else {
        forall i | 0 <= i < |rows| ensures !HasKey(rows[i], c) {
          if i < n {
            assert init[i] == rows[i];
          }
        }
      }
    }
  }

  /** A frame built from records has each key of each record as a column, once. */
  lemma FromRecordsColumns(rows: seq<Dict>, c: string)
    ensures NoDups(FromRecords(rows).cols)
    ensures c in FromRecords(rows).cols <==> exists i :: 0 <= i < |rows| && HasKey(rows[i], c)
  {
    AllKeysMembers(rows, c);
    assert c in Dedup(AllKeys(rows)) <==> c in ElemSet(Dedup(AllKeys(rows)));
    assert c in AllKeys(rows) <==> c in ElemSet(AllKeys(rows));
  }

  /** `df[c] = v` for a single value: every row gets it, and a new column goes last. */
  function WithColumn(f: Frame, c: string, v: Value): Frame {
    Frame(if c in f.cols then f.cols else f.cols + [c],
          seq(|f.rows|, i requires 0 <= i < |f.rows| => Set(f.rows[i], c, v)))
  }

  /** `df[cols]`: the same rows seen through the columns `cols`. */
  function Select(f: Frame, cols: seq<string>): Frame {
    Frame(cols, f.rows)
  }

  // ---------------------------------------------------------------- column lists

  /** `[x for x in xs if x in ys]` */
  function Within(xs: seq<string>, ys: seq<string>): seq<string> {
    if xs == [] then [] else (if xs[0] in ys then [xs[0]] else []) + Within(xs[1..], ys)
  }

  /** `[x for x in xs if x not in ys]` */
  function Outside(xs: seq<string>, ys: seq<string>): seq<string> {
    if xs == [] then [] else (if xs[0] in ys then [] else [xs[0]]) + Outside(xs[1..], ys)
  }

  /**
   * `[c for c in priority if c in cols] + [c for c in cols if c not in priority]`:
   * the priority columns that are present, in priority order, then the others
   * in their own order.
   */
  function PriorityOrder(cols: seq<string>, priority: seq<string>): seq<string> {
    Within(priority, cols) + Outside(cols, priority)
  }

  lemma {:induction false} WithinMembers(xs: seq<string>, ys: seq<string>)
    ensures forall x :: x in Within(xs, ys) <==> x in xs && x in ys
    ensures NoDups(xs) ==> NoDups(Within(xs, ys))
    decreases |xs|
  {
    if xs != [] {
      WithinMembers(xs[1..], ys);
      assert forall x :: x in xs <==> x == xs[0] || x in xs[1..];
      if NoDups(xs) {
        NoDupsTail(xs);
        ConsNoDups(if xs[0] in ys then [xs[0]] else [], Within(xs[1..], ys));
      }
    }
  }

  lemma {:induction false} OutsideMembers(xs: seq<string>, ys: seq<string>)
    ensures forall x :: x in Outside(xs, ys) <==> x in xs && x !in ys
    ensures NoDups(xs) ==> NoDups(Outside(xs, ys))
    decreases |xs|
  {
    if xs != [] {
      OutsideMembers(xs[1..], ys);
      assert forall x :: x in xs <==> x == xs[0] || x in xs[1..];
      if NoDups(xs) {
        NoDupsTail(xs);
        ConsNoDups(if xs[0] in ys then [] else [xs[0]], Outside(xs[1..], ys));
      }
    }
  }

  lemma NoDupsTail(xs: seq<string>)
    requires xs != [] && NoDups(xs)
    ensures NoDups(xs[1..]) && xs[0] !in xs[1..]
  {
    forall k | 0 <= k < |xs[1..]| ensures xs[1..][k] != xs[0] {
      assert xs[1..][k] == xs[k + 1];
    }
  }

  lemma ConsNoDups(h: seq<string>, t: seq<string>)
    requires |h| <= 1 && NoDups(t) && forall x :: x in h ==> x !in t
    ensures NoDups(h + t)
  {
    if h != [] {
      forall i, j | 0 <= i < j < |h + t| ensures (h + t)[i] != (h + t)[j] {
        if i == 0 {
          assert (h + t)[0] == h[0] && (h + t)[j] == t[j - 1] && t[j - 1] in t;
        } else {
          assert (h + t)[i] == t[i - 1] && (h + t)[j] == t[j - 1];
        }
      }
    } else {
      assert h + t == t;
    }
  }

  /** Splitting a list by a membership test keeps every element once. */
  lemma {:induction false} SplitMultiset(xs: seq<string>, ys: seq<string>)
    ensures multiset(Within(xs, ys)) + multiset(Outside(xs, ys)) == multiset(xs)
    decreases |xs|
  {
    if xs != [] {
      SplitMultiset(xs[1..], ys);
      assert xs == [xs[0]] + xs[1..];
    }
  }

  /** A list without repeats holds each of its elements once. */
  lemma {:induction false} NoDupsMultiset(xs: seq<string>)
    requires NoDups(xs)
    ensures multiset(xs) == multiset(ElemSet(xs))
    decreases |xs|
  {
    if xs != [] {
      NoDupsTail(xs);
      NoDupsMultiset(xs[1..]);
      assert xs == [xs[0]] + xs[1..];
      assert ElemSet(xs) == {xs[0]} + ElemSet(xs[1..]);
    }
  }

  /** Given columns and a priority list without repeats, the ordering moves columns and loses or adds none. */
  lemma PriorityOrderPermutes(cols: seq<string>, priority: seq<string>)
    requires NoDups(cols) && NoDups(priority)
    ensures multiset(PriorityOrder(cols, priority)) == multiset(cols)
  {
    WithinMembers(priority, cols);
    WithinMembers(cols, priority);
    SplitMultiset(cols, priority);
    NoDupsMultiset(Within(priority, cols));
    NoDupsMultiset(Within(cols, priority));
    assert ElemSet(Within(priority, cols)) == ElemSet(Within(cols, priority));
  }

  lemma {:induction false} WithinSame(xs: seq<string>, ys: seq<string>, zs: seq<string>)
    requires forall x :: x in xs ==> (x in ys <==> x in zs)
    ensures Within(xs, ys) == Within(xs, zs)
    decreases |xs|
  {
    if xs != [] {
      WithinSame(xs[1..], ys, zs);
    }
  }

  lemma {:induction false} OutsideAppend(a: seq<string>, b: seq<string>, ys: seq<string>)
    ensures Outside(a + b, ys) == Outside(a, ys) + Outside(b, ys)
    decreases |a|
  {
    if a == [] {
      assert a + b == b;
    } else {
      assert (a + b)[0] == a[0] && (a + b)[1..] == a[1..] + b;
      OutsideAppend(a[1..], b, ys);
    }
  }

  lemma {:induction false} OutsideNone(xs: seq<string>, ys: seq<string>)
    requires forall x :: x in xs ==> x !in ys
    ensures Outside(xs, ys) == xs
    decreases |xs|
  {
    if xs != [] {
      OutsideNone(xs[1..], ys);
    }
  }

  lemma {:induction false} OutsideAll(xs: seq<string>, ys: seq<string>)
    requires forall x :: x in xs ==> x in ys
    ensures Outside(xs, ys) == []
    decreases |xs|
  {
    if xs != [] {
      OutsideAll(xs[1..], ys);
    }
  }

  /** Ordering columns that are already ordered changes nothing. */
  lemma PriorityOrderIdempotent(cols: seq<string>, priority: seq<string>)
    ensures PriorityOrder(PriorityOrder(cols, priority), priority) == PriorityOrder(cols, priority)
  {
    var w, o := Within(priority, cols), Outside(cols, priority);
    var ordered := w + o;
    WithinMembers(priority, cols);
    OutsideMembers(cols, priority);
    WithinSame(priority, ordered, cols);
    OutsideAppend(w, o, priority);
    OutsideAll(w, priority);
    OutsideNone(o, priority);
    assert [] + o == o;
  }

  // ---------------------------------------------------------------- upsert

  /** `astype(str)` of an id cell. */
  function IdText(v: Value): string {
    match v
    case Int(i) => PyStr(i)
    case Text(s) => s
    case Real(x) => PyStr(x.Floor) + ".0"
  }

  /** The string id of a row; a row without an id holds NaN, which reads "nan". */
  function IdOf(row: Dict): string {
    match Get(row, "id")
    case Some(v) => IdText(v)
    case None => "nan"
  }

  function IdSet(rows: seq<Dict>): set<string> {
    set i | 0 <= i < |rows| :: IdOf(rows[i])
  }

  /** The row with its id as a string. */
  function WithIdText(row: Dict): Dict {
    Set(row, "id", Value.Text(IdOf(row)))
  }

  function Normalized(rows: seq<Dict>): seq<Dict> {
    seq(|rows|, i requires 0 <= i < |rows| => WithIdText(rows[i]))
  }

  /** `df_old[~df_old.index.isin(ids)]`: the rows whose id is not among `ids`, in order. */
  function Unclaimed(rows: seq<Dict>, ids: set<string>): seq<Dict> {
    if rows == [] then []
    else (if IdOf(rows[0]) in ids then [] else [rows[0]]) + Unclaimed(rows[1..], ids)
  }

  /** `pd.concat([df, df_old[~df_old.index.isin(df.index)]])` on rows. */
  function Merge(incoming: seq<Dict>, existing: seq<Dict>): seq<Dict> {
    Normalized(incoming) + Normalized(Unclaimed(existing, IdSet(incoming)))
  }

  /**
   * The upsert of `upload_to_sheets`: with no existing records the new frame as
   * it is; otherwise both sides need an `id` column (setting the index raises
   * otherwise), the merged rows carry string ids, and the columns are `id`, the
   * new frame's others, then the existing records' columns the new frame lacks.
   */
  function Upsert(f: Frame, existing: seq<Dict>): Option<Frame> {
    if existing == [] then Some(f)
    else
      var prior := FromRecords(existing);
      if "id" !in f.cols || "id" !in prior.cols then None
      else Some(Frame(["id"] + Outside(f.cols, ["id"]) + Outside(Outside(prior.cols, f.cols), ["id"]),
                      Merge(f.rows, existing)))
  }

  lemma IdOfWithIdText(row: Dict)
    ensures IdOf(WithIdText(row)) == IdOf(row)
  {
    GetSetSame(row, "id", Value.Text(IdOf(row)));
  }

  lemma NormalizedIds(rows: seq<Dict>)
    ensures IdSet(Normalized(rows)) == IdSet(rows)
  {
    forall i | 0 <= i < |rows| ensures IdOf(Normalized(rows)[i]) == IdOf(rows[i]) {
      IdOfWithIdText(rows[i]);
    }
    assert forall x :: x in IdSet(Normalized(rows)) ==> x in IdSet(rows);
    forall x | x in IdSet(rows) ensures x in IdSet(Normalized(rows)) {
      var i :| 0 <= i < |rows| && IdOf(rows[i]) == x;
      assert IdOf(Normalized(rows)[i]) == x;
    }
  }

  /** An existing row survives the merge exactly when its id is not among `ids`. */
  lemma {:induction false} UnclaimedMembers(rows: seq<Dict>, ids: set<string>)
    ensures forall r :: r in Unclaimed(rows, ids) <==> r in rows && IdOf(r) !in ids
    decreases |rows|
  {
    if rows != [] {
      UnclaimedMembers(rows[1..], ids);
      assert forall r :: r in rows <==> r == rows[0] || r in rows[1..];
    }
  }

  lemma IdSetAppend(a: seq<Dict>, b: seq<Dict>)
    ensures IdSet(a + b) == IdSet(a) + IdSet(b)
  {
    forall x | x in IdSet(a + b) ensures x in IdSet(a) + IdSet(b) {
      var i :| 0 <= i < |a + b| && IdOf((a + b)[i]) == x;
      if i >= |a| {
        assert (a + b)[i] == b[i - |a|];
      }
    }
    forall x | x in IdSet(a) + IdSet(b) ensures x in IdSet(a + b) {
      if x in IdSet(a) {
        var i :| 0 <= i < |a| && IdOf(a[i]) == x;
        assert (a + b)[i] == a[i];
      } else {
        var i :| 0 <= i < |b| && IdOf(b[i]) == x;
        assert (a + b)[|a| + i] == b[i];
      }
    }
  }

  lemma UnclaimedIds(rows: seq<Dict>, ids: set<string>)
    ensures IdSet(Unclaimed(rows, ids)) == IdSet(rows) - ids
  {
    UnclaimedMembers(rows, ids);
    var u := Unclaimed(rows, ids);
    forall x | x in IdSet(u) ensures x in IdSet(rows) - ids {
      var i :| 0 <= i < |u| && IdOf(u[i]) == x;
      assert u[i] in u;
      var k :| 0 <= k < |rows| && rows[k] == u[i];
    }
    forall x | x in IdSet(rows) - ids ensures x in IdSet(u) {
      var k :| 0 <= k < |rows| && IdOf(rows[k]) == x;
      assert rows[k] in rows;
      var i :| 0 <= i < |u| && u[i] == rows[k];
    }
  }

  /**
   * The merge: the new rows first, in order, then the existing rows whose id
   * the new rows do not have, in order; its ids are those of both sides.
   */
  lemma MergeSpec(incoming: seq<Dict>, existing: seq<Dict>)
    ensures |Merge(incoming, existing)| >= |incoming|
    ensures forall i :: 0 <= i < |incoming| ==> Merge(incoming, existing)[i] == WithIdText(incoming[i])
    ensures forall r :: r in existing ==> (WithIdText(r) in Merge(incoming, existing)[|incoming|..] <== IdOf(r) !in IdSet(incoming))
    ensures IdSet(Merge(incoming, existing)) == IdSet(incoming) + IdSet(existing)
  {
    var kept := Unclaimed(existing, IdSet(incoming));
    var m := Merge(incoming, existing);
    assert m[|incoming|..] == Normalized(kept);
    UnclaimedMembers(existing, IdSet(incoming));
    forall r | r in existing && IdOf(r) !in IdSet(incoming) ensures WithIdText(r) in m[|incoming|..] {
      var i :| 0 <= i < |kept| && kept[i] == r;
      assert Normalized(kept)[i] == WithIdText(r);
    }
    IdSetAppend(Normalized(incoming), Normalized(kept));
    NormalizedIds(incoming);
    NormalizedIds(kept);
    UnclaimedIds(existing, IdSet(incoming));
  }

  /** Every merged row past the new ones is an existing row whose id the new rows lack. */
  lemma MergeTail(incoming: seq<Dict>, existing: seq<Dict>, r: Dict)
    requires r in Merge(incoming, existing)[|incoming|..]
    ensures exists o :: o in existing && IdOf(o) !in IdSet(incoming) && r == WithIdText(o)
  {
    var kept := Unclaimed(existing, IdSet(incoming));
    assert Merge(incoming, existing)[|incoming|..] == Normalized(kept);
    UnclaimedMembers(existing, IdSet(incoming));
    var i :| 0 <= i < |kept| && Normalized(kept)[i] == r;
    assert kept[i] in kept;
  }

  /** Every merged row holds its id as a string, and the new rows keep their ids. */
  lemma MergeIds(incoming: seq<Dict>, existing: seq<Dict>)
    ensures forall i :: 0 <= i < |Merge(incoming, existing)| ==>
              Get(Merge(incoming, existing)[i], "id") == Some(Value.Text(IdOf(Merge(incoming, existing)[i])))
    ensures forall i :: 0 <= i < |incoming| ==> IdOf(Merge(incoming, existing)[i]) == IdOf(incoming[i])
  {
    var m := Merge(incoming, existing);
    var kept := Unclaimed(existing, IdSet(incoming));
    forall i | 0 <= i < |m| ensures Get(m[i], "id") == Some(Value.Text(IdOf(m[i]))) {
      var o := if i < |incoming| then incoming[i] else kept[i - |incoming|];
      assert m[i] == WithIdText(o);
      GetSetSame(o, "id", Value.Text(IdOf(o)));
      IdOfWithIdText(o);
    }
    forall i | 0 <= i < |incoming| ensures IdOf(m[i]) == IdOf(incoming[i]) {
      assert m[i] == WithIdText(incoming[i]);
      IdOfWithIdText(incoming[i]);
    }
  }

  /** With no existing records the upload is the new frame; otherwise the merge, when both sides have ids. */
  lemma UpsertSpec(f: Frame, existing: seq<Dict>)
    ensures existing == [] ==> Upsert(f, existing) == Some(f)
    ensures existing != [] ==>
              (Upsert(f, existing).Some? <==> "id" in f.cols && exists i :: 0 <= i < |existing| && HasKey(existing[i], "id"))
    ensures Upsert(f, existing).Some? && existing != [] ==>
              Upsert(f, existing).value.rows == Merge(f.rows, existing) && Upsert(f, existing).value.cols[0] == "id"
  {
    FromRecordsColumns(existing, "id");
  }

  // ---------------------------------------------------------------- the sheet

  /** The rows written to a sheet: the header, then every row's cells, a missing one as "". */
  datatype Sheet = Sheet(header: seq<string>, body: seq<seq<Value>>)

  /** A cell after `fillna("")`. */
  function CellOf(row: Dict, c: string): Value {
    match Get(row, c)
    case Some(v) => v
    case None => Value.Text("")
  }

  /** `[df.columns.tolist()] + df.fillna("").values.tolist()` */
  function Render(f: Frame): (s: Sheet)
    ensures s.header == f.cols && |s.body| == |f.rows|
    ensures forall i :: 0 <= i < |f.rows| ==> |s.body[i]| == |f.cols|
  {
    Sheet(f.cols, seq(|f.rows|, i requires 0 <= i < |f.rows| =>
                        seq(|f.cols|, j requires 0 <= j < |f.cols| => CellOf(f.rows[i], f.cols[j]))))
  }

  /** A frame whose first column is `id`, held as a string by every row, is written with those ids down the grid's first column. */
  lemma RenderIdColumn(f: Frame)
    requires |f.cols| > 0 && f.cols[0] == "id"
    requires forall i :: 0 <= i < |f.rows| ==> Get(f.rows[i], "id") == Some(Value.Text(IdOf(f.rows[i])))
    ensures forall i :: 0 <= i < |f.rows| ==> Render(f).body[i][0] == Value.Text(IdOf(f.rows[i]))
    ensures (set i | 0 <= i < |f.rows| :: Render(f).body[i][0]) == (set x | x in IdSet(f.rows) :: Value.Text(x))
  {
    var s := Render(f);
    var want := set x | x in IdSet(f.rows) :: Value.Text(x);
    assert forall i :: 0 <= i < |f.rows| ==> s.body[i][0] == CellOf(f.rows[i], "id");
    forall v | v in (set i | 0 <= i < |f.rows| :: s.body[i][0]) ensures v in want {
      var i :| 0 <= i < |f.rows| && s.body[i][0] == v;
      assert IdOf(f.rows[i]) in IdSet(f.rows);
    }
    forall v | v in want ensures v in (set i | 0 <= i < |f.rows| :: s.body[i][0]) {
      var x :| x in IdSet(f.rows) && v == Value.Text(x);
      var i :| 0 <= i < |f.rows| && IdOf(f.rows[i]) == x;
      assert s.body[i][0] == v;
    }
  }
}
