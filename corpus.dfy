/**
 * The two SQLite tables of a channel's database, as GPTHandler.py uses them:
 * `messages(message TEXT)` with SQLite's implicit rowid, and
 * `models(iteration INTEGER PRIMARY KEY, date, message_count, model)`.
 * A table is the sequence of its rows in rowid order, which is the order a
 * plain `select` returns them in.
 */
module Corpus {
  import opened Wrappers

  datatype Row = Row(rowid: int, text: string)

  datatype ModelRow = ModelRow(iteration: int, date: int, messageCount: int, model: string)

  /** The largest key, or 0 for no keys (SQLite's max(rowid) with an empty table counting as 0). */
  function MaxOf(keys: seq<int>): (m: int)
    ensures forall i | 0 <= i < |keys| :: keys[i] <= m
    ensures keys == [] ==> m == 0
    ensures keys != [] && (forall i | 0 <= i < |keys| :: keys[i] > 0) ==> m in keys
  {
    if keys == [] then 0
    else
      var m := MaxOf(keys[..|keys| - 1]);
      if keys[|keys| - 1] > m then keys[|keys| - 1] else m
  }

  function Rowids(rows: seq<Row>): seq<int> {
    seq(|rows|, i requires 0 <= i < |rows| => rows[i].rowid)
  }

  function Iterations(models: seq<ModelRow>): seq<int> {
    seq(|models|, i requires 0 <= i < |models| => models[i].iteration)
  }

  /** The rowid SQLite gives the next inserted row: one more than the largest in use, 1 for an empty table. */
  function NextRowid(rows: seq<Row>): (id: int)
    ensures rows == [] ==> id == 1
    ensures forall i | 0 <= i < |rows| :: rows[i].rowid < id
    ensures rows != [] && (forall i | 0 <= i < |rows| :: rows[i].rowid > 0) ==>
      exists i | 0 <= i < |rows| :: rows[i].rowid == id - 1
  {
    var ids := Rowids(rows);
    assert forall i | 0 <= i < |rows| :: rows[i].rowid == ids[i];
    MaxOf(ids) + 1
  }

  /** In a table in key order the next rowid is one more than the last row's. */
  lemma NextRowidAfterLast(rows: seq<Row>)
    requires Ordered(rows) && rows != []
    ensures NextRowid(rows) == rows[|rows| - 1].rowid + 1
  {
  }

  /** The iteration an `INTEGER PRIMARY KEY` column receives for a NULL insert: the same rule as a rowid. */
  function NextIteration(models: seq<ModelRow>): (it: int)
    ensures models == [] ==> it == 1
    ensures forall i | 0 <= i < |models| :: models[i].iteration < it
    ensures models != [] && (forall i | 0 <= i < |models| :: models[i].iteration > 0) ==>
      exists i | 0 <= i < |models| :: models[i].iteration == it - 1
  {
    var its := Iterations(models);
    assert forall i | 0 <= i < |models| :: models[i].iteration == its[i];
    MaxOf(its) + 1
  }

  /** In a models table in key order the next iteration is one more than the last row's. */
  lemma NextIterationAfterLast(models: seq<ModelRow>)
    requires ModelsOrdered(models) && models != []
    ensures NextIteration(models) == models[|models| - 1].iteration + 1
  {
  }

  /** Rowids are positive and strictly increase along the table. */
  ghost predicate Ordered(rows: seq<Row>) {
    && (forall i | 0 <= i < |rows| :: rows[i].rowid > 0)
    && (forall i, j | 0 <= i < j < |rows| :: rows[i].rowid < rows[j].rowid)
  }

  ghost predicate ModelsOrdered(models: seq<ModelRow>) {
    && (forall i | 0 <= i < |models| :: models[i].iteration > 0)
    && (forall i, j | 0 <= i < j < |models| :: models[i].iteration < models[j].iteration)
  }

  function Texts(rows: seq<Row>): seq<string> {
    seq(|rows|, i requires 0 <= i < |rows| => rows[i].text)
  }

  /** `insert into messages values (?)` with one text. */
  function Append(rows: seq<Row>, text: string): (r: seq<Row>)
    ensures Ordered(rows) ==> Ordered(r)
    ensures |r| == |rows| + 1 && r[..|rows|] == rows
    ensures r[|rows|] == Row(NextRowid(rows), text)
  {
    rows + [Row(NextRowid(rows), text)]
  }

  /** `insert into models values (?, ?, ?, ?)` with a NULL iteration. */
  function AppendModel(models: seq<ModelRow>, date: int, messageCount: int, model: string): (r: seq<ModelRow>)
    ensures ModelsOrdered(models) ==> ModelsOrdered(r)
    ensures |r| == |models| + 1 && r[..|models|] == models
    ensures r[|models|] == ModelRow(NextIteration(models), date, messageCount, model)
  {
    models + [ModelRow(NextIteration(models), date, messageCount, model)]
  }

  /** `delete from messages where rowid <= cutoff` */
  function Prune(rows: seq<Row>, cutoff: int): (r: seq<Row>)
    ensures |r| <= |rows|
    ensures forall i | 0 <= i < |r| :: r[i] in rows && r[i].rowid > cutoff
    ensures forall i | 0 <= i < |rows| && rows[i].rowid > cutoff :: rows[i] in r
  {
    if rows == [] then []
    else
      var rest := Prune(rows[1..], cutoff);
      PruneStep(rows, cutoff, rest);
      if rows[0].rowid <= cutoff then rest else [rows[0]] + rest
  }

  lemma PruneStep(rows: seq<Row>, cutoff: int, rest: seq<Row>)
    requires rows != []
    requires forall i | 0 <= i < |rest| :: rest[i] in rows[1..] && rest[i].rowid > cutoff
    requires forall i | 0 <= i < |rows| - 1 && rows[1..][i].rowid > cutoff :: rows[1..][i] in rest
    ensures forall i | 0 <= i < |rest| :: rest[i] in rows
    ensures forall i | 0 < i < |rows| && rows[i].rowid > cutoff :: rows[i] in rest
  {
    forall i | 0 < i < |rows| && rows[i].rowid > cutoff ensures rows[i] in rest {
      assert rows[i] == rows[1..][i - 1];
    }
  }

  /** Applying `insert` once per text, in order. */
  function AppendAll(rows: seq<Row>, texts: seq<string>): seq<Row>
    decreases |texts|
  {
    if texts == [] then rows else AppendAll(Append(rows, texts[0]), texts[1..])
  }

  // ---------------------------------------------------------------------------
  // Properties of the store

  /** Appending N accepted texts adds exactly N rows, holding those texts in order, after the old ones. */
  lemma {:induction false} AppendAllExtends(rows: seq<Row>, texts: seq<string>)
    requires Ordered(rows)
    ensures Ordered(AppendAll(rows, texts))
    ensures |AppendAll(rows, texts)| == |rows| + |texts|
    ensures AppendAll(rows, texts)[..|rows|] == rows
    ensures Texts(AppendAll(rows, texts)[|rows|..]) == texts
    decreases |texts|
  {
    if texts != [] {
      var next := Append(rows, texts[0]);
      AppendAllExtends(next, texts[1..]);
      AppendAllStep(rows, texts, AppendAll(next, texts[1..]));
    }
  }

  /** One insert followed by the rest extends the table as the whole list of texts does. */
  lemma AppendAllStep(rows: seq<Row>, texts: seq<string>, all: seq<Row>)
    requires texts != []
    requires var next := Append(rows, texts[0]);
      && |all| == |next| + |texts| - 1 && all[..|next|] == next && Texts(all[|next|..]) == texts[1..]
    ensures all[..|rows|] == rows
    ensures Texts(all[|rows|..]) == texts
  {
    var next := Append(rows, texts[0]);
    assert all[..|rows|] == all[..|next|][..|rows|];
    var later := Texts(all[|rows|..]);
    assert later[0] == next[|rows|].text == texts[0];
    assert later[1..] == Texts(all[|next|..]);
    assert later == [texts[0]] + texts[1..];
  }

  /** How many leading rows have a rowid at or below the cutoff. */
  function PrunedCount(rows: seq<Row>, cutoff: int): (k: nat)
    ensures k <= |rows|
    ensures forall i | 0 <= i < k :: rows[i].rowid <= cutoff
  {
    if rows == [] || rows[0].rowid > cutoff then 0
    else
      var k := PrunedCount(rows[1..], cutoff);
      assert forall i | 0 < i < k + 1 :: rows[i] == rows[1..][i - 1];
      1 + k
  }

  lemma OrderedSlice(rows: seq<Row>, a: nat, b: nat)
    requires Ordered(rows) && a <= b <= |rows|
    ensures Ordered(rows[a..b])
  {
  }

  /** The rows deleted by a prune of an ordered table are a prefix of it: the survivors keep their order. */
  lemma {:induction false} PruneSuffix(rows: seq<Row>, cutoff: int)
    requires Ordered(rows)
    ensures Prune(rows, cutoff) == rows[PrunedCount(rows, cutoff)..]
    ensures forall i | PrunedCount(rows, cutoff) <= i < |rows| :: rows[i].rowid > cutoff
  {
    if rows != [] {
      if rows[0].rowid <= cutoff {
        var tail := rows[1..];
        OrderedSlice(rows, 1, |rows|);
        assert rows[1..|rows|] == tail;
        PruneSuffix(tail, cutoff);
        PruneDropsHead(rows, cutoff);
      } else {
        OrderedAbove(rows, cutoff);
        PruneNothing(rows, cutoff);
      }
    }
  }

  /** A head at or below the cutoff is deleted, and the rest is pruned as the tail alone would be. */
  lemma PruneDropsHead(rows: seq<Row>, cutoff: int)
    requires rows != [] && rows[0].rowid <= cutoff
    requires Prune(rows[1..], cutoff) == rows[1..][PrunedCount(rows[1..], cutoff)..]
    requires forall i | PrunedCount(rows[1..], cutoff) <= i < |rows| - 1 :: rows[1..][i].rowid > cutoff
    ensures Prune(rows, cutoff) == rows[PrunedCount(rows, cutoff)..]
    ensures forall i | PrunedCount(rows, cutoff) <= i < |rows| :: rows[i].rowid > cutoff
  {
    var k := PrunedCount(rows[1..], cutoff);
    assert PrunedCount(rows, cutoff) == k + 1;
    assert rows[1..][k..] == rows[k + 1..];
    forall i | k + 1 <= i < |rows| ensures rows[i].rowid > cutoff {
      assert rows[i] == rows[1..][i - 1];
    }
  }

  /** In key order, a head above the cutoff puts every row above it. */
  lemma OrderedAbove(rows: seq<Row>, cutoff: int)
    requires Ordered(rows) && rows != [] && rows[0].rowid > cutoff
    ensures forall i | 0 <= i < |rows| :: rows[i].rowid > cutoff
    ensures PrunedCount(rows, cutoff) == 0
  {
    forall i | 0 < i < |rows| ensures rows[i].rowid > cutoff {
      assert rows[0].rowid < rows[i].rowid;
    }
  }

  lemma {:induction false} PruneNothing(rows: seq<Row>, cutoff: int)
    requires forall i | 0 <= i < |rows| :: rows[i].rowid > cutoff
    ensures Prune(rows, cutoff) == rows
  {
    if rows != [] {
      PruneNothing(rows[1..], cutoff);
    }
  }

  /** What a prune leaves of an ordered table: a suffix, still ordered, entirely above the cutoff. */
  lemma PruneOrdered(rows: seq<Row>, cutoff: int)
    requires Ordered(rows)
    ensures Prune(rows, cutoff) == rows[PrunedCount(rows, cutoff)..]
    ensures Ordered(Prune(rows, cutoff))
    ensures forall i | 0 <= i < |Prune(rows, cutoff)| :: Prune(rows, cutoff)[i].rowid > cutoff
    ensures Prune(Prune(rows, cutoff), cutoff) == Prune(rows, cutoff)
  {
    PruneSuffix(rows, cutoff);
    PruneKeepsOrder(rows, cutoff);
    PruneIdempotent(rows, cutoff, cutoff);
  }

  /** The rows a prune leaves are still in key order. */
  lemma PruneKeepsOrder(rows: seq<Row>, cutoff: int)
    requires Ordered(rows)
    ensures Ordered(Prune(rows, cutoff))
  {
    var k := PrunedCount(rows, cutoff);
    PruneSuffix(rows, cutoff);
    OrderedSuffix(rows, k);
  }

  lemma OrderedSuffix(rows: seq<Row>, k: nat)
    requires Ordered(rows) && k <= |rows|
    ensures Ordered(rows[k..])
  {
  }

  /** Pruning again with the same or an older (smaller) cutoff deletes nothing more. */
  lemma {:induction false} PruneIdempotent(rows: seq<Row>, cutoff: int, older: int)
    requires older <= cutoff
    ensures Prune(Prune(rows, cutoff), older) == Prune(rows, cutoff)
  {
    var once := Prune(rows, cutoff);
    forall i | 0 <= i < |once| ensures once[i].rowid > older {
      assert once[i] in once;
    }
    PruneNothing(once, older);
  }

  /**
   * Rows added after the snapshot that fixed the cutoff all survive the prune,
   * and nothing else does: the cutoff is the snapshot's last rowid.
   */
  lemma PruneKeepsLaterRows(snapshot: seq<Row>, later: seq<Row>)
    requires snapshot != [] && Ordered(snapshot + later)
    ensures Prune(snapshot + later, snapshot[|snapshot| - 1].rowid) == later
  {
    var rows := snapshot + later;
    var cutoff := snapshot[|snapshot| - 1].rowid;
    PruneSuffix(rows, cutoff);
    var k := PrunedCount(rows, cutoff);
    assert rows[|snapshot| - 1].rowid == cutoff;
    assert |snapshot| - 1 < k;
    if |later| > 0 {
      assert rows[|snapshot| - 1].rowid < rows[|snapshot|].rowid;
      assert |snapshot| >= k;
    }
    assert rows[k..] == later;
  }

  /** Rows written after the snapshot, with no wipe in between, survive the prune that follows a promotion. */
  lemma WritesDuringTrainingSurvive(snapshot: seq<Row>, texts: seq<string>)
    requires snapshot != [] && Ordered(snapshot)
    ensures Texts(Prune(AppendAll(snapshot, texts), snapshot[|snapshot| - 1].rowid)) == texts
  {
    AppendAllExtends(snapshot, texts);
    var all := AppendAll(snapshot, texts);
    assert all == snapshot + all[|snapshot|..];
    PruneKeepsLaterRows(snapshot, all[|snapshot|..]);
  }

  /** A wipe restarts rowid allocation at 1, so a row written after it is deleted by the prune. */
  lemma WipeThenWriteIsPruned(text: string, cutoff: int)
    requires cutoff >= 1
    ensures Append([], text) == [Row(1, text)]
    ensures Prune(Append([], text), cutoff) == []
  {
    assert Prune([Row(1, text)][1..], cutoff) == [];
  }

  /**
   * The insert as written at GPTHandler.py:104 passes the bare string as the
   * parameter sequence, so each character is one binding: it succeeds only for
   * a one-character text; otherwise sqlite3 raises (None here).
   */
  function InsertAsWritten(rows: seq<Row>, bindings: string): (r: Option<seq<Row>>)
    ensures r.Some? <==> |bindings| == 1
  {
    if |bindings| == 1 then Some(Append(rows, [bindings[0]])) else None
  }

  /** A two-character message is not stored by the insert as written, while Append stores it. */
  lemma InsertAsWrittenRejectsLongText(rows: seq<Row>)
    ensures InsertAsWritten(rows, "hi") == None
    ensures Append(rows, "hi")[|rows|].text == "hi"
  {
  }
}
