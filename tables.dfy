/**
 * What the statements of orbit_cheby/sql.py do to the three tables, as
 * functions on the tables' contents: object_desig (designation → object_id),
 * object_coefficients (designation → one nullable blob per sector column) and
 * objects_by_jdhp (a sequence of (jd, hp, object_id) rows in rowid order).
 */
module Tables {
  import opened Wrappers
  import opened SectorFields

  // ---------------------------------------------------------------------
  // object_desig
  // ---------------------------------------------------------------------

  /**
   * The object_desig table: each designation's object_id, and the largest
   * object_id present (0 when the table is empty). SQLite gives a new row of an
   * `integer PRIMARY KEY` table one more than the largest key present.
   */
  datatype DesigTable = DesigTable(ids: map<string, int>, maxId: int)

  ghost predicate DesigTableValid(t: DesigTable) {
    && (t.maxId == 0 || t.maxId in t.ids.Values)
    && (forall d :: d in t.ids ==> 1 <= t.ids[d] <= t.maxId)
    && (forall d, e :: d in t.ids && e in t.ids && d != e ==> t.ids[d] != t.ids[e])
  }

  const EmptyDesigTable: DesigTable := DesigTable(map[], 0)

  /**
   * `INSERT INTO object_desig (designation) VALUES (...) ON CONFLICT DO NOTHING`:
   * a designation already present keeps its row; a new one gets the next id.
   */
  function InsertIgnore(t: DesigTable, desig: string): (r: DesigTable)
    ensures desig in r.ids
    ensures r.ids.Keys == t.ids.Keys + {desig}
    ensures forall d :: d in t.ids ==> r.ids[d] == t.ids[d]
    ensures DesigTableValid(t) ==> DesigTableValid(r)
  {
    if desig in t.ids then t
    else DesigTable(t.ids[desig := t.maxId + 1], t.maxId + 1)
  }

  /** Inserting a designation twice is inserting it once. */
  lemma InsertIgnoreIdempotent(t: DesigTable, desig: string)
    ensures InsertIgnore(InsertIgnore(t, desig), desig) == InsertIgnore(t, desig)
  {
  }

  /** Distinct designations receive distinct ids, whatever the order of insertion. */
  lemma InsertIgnoreDistinctIds(t: DesigTable, a: string, b: string)
    requires DesigTableValid(t) && a != b
    ensures var r := InsertIgnore(InsertIgnore(t, a), b); r.ids[a] != r.ids[b]
  {
  }

  /**
   * `SELECT object_id FROM object_desig WHERE designation=?` then
   * `fetchall()[0][0]`: fails when the designation has no row.
   */
  function LookupId(t: DesigTable, desig: string): (r: Result<int>)
    ensures r.Ok? <==> desig in t.ids
    ensures r.Err? ==> r.error == NoRow
    ensures r.Ok? ==> r.value == t.ids[desig]
    ensures r.Ok? && DesigTableValid(t) ==>
      1 <= r.value <= t.maxId && forall d :: d in t.ids && t.ids[d] == r.value ==> d == desig
  {
    if desig in t.ids then Ok(t.ids[desig]) else Err(NoRow)
  }

  // ---------------------------------------------------------------------
  // object_coefficients
  // ---------------------------------------------------------------------

  /** One row of object_coefficients: each sector column's blob, or NULL. */
  type Row = map<string, Option<Blob>>

  /** The position of the first `x` in `s`. */
  function PositionOf<T(==)>(s: seq<T>, x: T): (i: nat)
    requires x in s
    ensures i < |s| && s[i] == x
    ensures forall j :: 0 <= j < i ==> s[j] != x
  {
    if s[0] == x then 0 else 1 + PositionOf(s[1..], x)
  }

  /** The first listed field that the table has no column for. */
  function FirstMissing(fields: seq<string>, columns: seq<string>): (r: Option<string>)
    ensures r.None? <==> forall i :: 0 <= i < |fields| ==> fields[i] in columns
    ensures r.Some? ==> r.value in fields && r.value !in columns
  {
    if fields == [] then None
    else if fields[0] !in columns then Some(fields[0])
    else
      var rest := FirstMissing(fields[1..], columns);
      assert forall i :: 1 <= i < |fields| ==> fields[i] == fields[1..][i - 1];
      rest
  }

  /** The row a replace-insert writes: the listed fields hold their blobs, every other column is NULL. */
  function FreshRow(columns: seq<string>, fields: seq<string>, blobs: seq<Blob>): Row
    requires |fields| == |blobs|
  {
    map c | c in columns :: if c in fields then Some(blobs[PositionOf(fields, c)]) else None
  }

  /**
   * `INSERT OR REPLACE INTO object_coefficients (fields..., designation) VALUES (...)`.
   * A field the table has no column for fails the statement and changes nothing.
   * Otherwise REPLACE deletes the designation's old row and inserts a new one:
   * it holds exactly the given blobs and NULL in every other column, and no
   * other designation's row changes.
   */
  function InsertOrReplace(table: map<string, Row>, columns: seq<string>, desig: string,
                           fields: seq<string>, blobs: seq<Blob>): (r: Result<map<string, Row>>)
    requires |fields| == |blobs|
    ensures r.Err? <==> exists i :: 0 <= i < |fields| && fields[i] !in columns
    ensures r.Err? ==> r.error.NoSuchColumn? && r.error.column in fields && r.error.column !in columns
    ensures r.Ok? ==> r.value.Keys == table.Keys + {desig}
    ensures r.Ok? ==> forall d :: d in table && d != desig ==> r.value[d] == table[d]
    ensures r.Ok? ==> r.value[desig].Keys == (set c | c in columns)
    ensures r.Ok? && Distinct(fields) ==>
      forall i :: 0 <= i < |fields| ==> r.value[desig][fields[i]] == Some(blobs[i])
    ensures r.Ok? ==> forall c :: c in columns && c !in fields ==> r.value[desig][c] == None
  {
    match FirstMissing(fields, columns)
    case Some(c) => Err(NoSuchColumn(c))
    case None =>
      var row := FreshRow(columns, fields, blobs);
      assert Distinct(fields) ==> forall i :: 0 <= i < |fields| ==> PositionOf(fields, fields[i]) == i;
      Ok(table[desig := row])
  }

  /** Re-running an upsert with the same inputs leaves the table as one run does. */
  lemma InsertOrReplaceIdempotent(table: map<string, Row>, columns: seq<string>, desig: string,
                                  fields: seq<string>, blobs: seq<Blob>)
    requires |fields| == |blobs|
    ensures var once := InsertOrReplace(table, columns, desig, fields, blobs);
      once.Ok? ==> InsertOrReplace(once.value, columns, desig, fields, blobs) == once
  {
    var once := InsertOrReplace(table, columns, desig, fields, blobs);
    if once.Ok? {
      var twice := InsertOrReplace(once.value, columns, desig, fields, blobs);
      assert twice.value == once.value;
    }
  }

  /**
   * `SELECT names FROM object_coefficients WHERE designation=?`, `fetchall()[0]`,
   * and the dict of unpickled non-NULL values keyed by column name. An empty
   * list leaves `SELECT  FROM`, which does not parse; an unknown column fails
   * the statement; a designation with no row fails at `[0]`.
   */
  function SelectCoefficients(table: map<string, Row>, columns: seq<string>, desig: string,
                              names: seq<string>): (r: Result<map<string, Coeffs>>)
    ensures r.Ok? <==> names != [] && (forall i :: 0 <= i < |names| ==> names[i] in columns) && desig in table
    ensures names == [] ==> r == Err(SyntaxError)
    ensures r.Ok? ==> forall c :: c in r.value <==> c in names && c in table[desig] && table[desig][c].Some?
    ensures r.Ok? ==> forall c :: c in r.value ==> r.value[c] == Loads(table[desig][c].value)
  {
    if names == [] then Err(SyntaxError)
    else match FirstMissing(names, columns)
      case Some(c) => Err(NoSuchColumn(c))
      case None =>
        if desig !in table then Err(NoRow)
        else
          var row := table[desig];
          Ok(map c | c in names && c in row && row[c].Some? :: Loads(row[c].value))
  }

  /** A successful SELECT only returns columns it asked for. */
  lemma {:induction false} SelectedAmongRequested(table: map<string, Row>, columns: seq<string>, desig: string,
                                                  names: seq<string>, allowed: set<string>)
    requires (set x | x in names) == allowed
    ensures var r := SelectCoefficients(table, columns, desig, names);
      r.Ok? ==> forall c :: c in r.value ==> c in allowed
  {
    var r := SelectCoefficients(table, columns, desig, names);
    if r.Ok? {
      forall c | c in r.value ensures c in allowed {
        assert c in names;
      }
    }
  }

  /**
   * Reading back every column of an object just upserted gives exactly its
   * sector arrays, keyed by their column names: no sector is lost and no
   * earlier sector survives.
   */
  lemma UpsertThenSelect(table: map<string, Row>, columns: seq<string>, m: MSC, startJD: int -> int)
    requires DistinctKeys(m.sectorCoeffs)
    requires columns != []
    requires forall i :: 0 <= i < |m.sectorCoeffs| ==> SectorColumns(m, startJD)[i] in columns
    ensures var names := SectorColumns(m, startJD);
      var stored := InsertOrReplace(table, columns, m.designation, names, SectorBlobs(m));
      && stored.Ok?
      && var read := SelectCoefficients(stored.value, columns, m.designation, columns);
      && read.Ok?
      && read.value.Keys == (set c | c in names)
      && forall i :: 0 <= i < |names| ==> read.value[names[i]] == m.sectorCoeffs[i].1
  {
    var names := SectorColumns(m, startJD);
    FieldNamesDistinct(SectorStarts(m, startJD));
    var stored := InsertOrReplace(table, columns, m.designation, names, SectorBlobs(m));
    var read := SelectCoefficients(stored.value, columns, m.designation, columns);
    var row := stored.value[m.designation];
    forall c | c in read.value ensures c in names {
      assert c in columns && row[c].Some?;
    }
    forall i | 0 <= i < |names| ensures names[i] in read.value {
      assert row[names[i]] == Some(SectorBlobs(m)[i]);
    }
  }

  // ---------------------------------------------------------------------
  // objects_by_jdhp
  // ---------------------------------------------------------------------

  datatype JdhpRow = JdhpRow(jd: int, hp: int, objectId: int)

  /** `DELETE FROM objects_by_jdhp WHERE object_id=?`: the other rows, in their order. */
  function DeleteObject(rows: seq<JdhpRow>, id: int): (r: seq<JdhpRow>)
    ensures forall k :: 0 <= k < |r| ==> r[k].objectId != id
    ensures forall x :: x in r <==> x in rows && x.objectId != id
  {
    if rows == [] then []
    else
      var rest := DeleteObject(rows[1..], id);
      assert forall x :: x in rows <==> x == rows[0] || x in rows[1..];
      (if rows[0].objectId == id then [] else [rows[0]]) + rest
  }

  /** The records `[(jd, hp, object_id) for jd, hp in zip(JDlist, HPlist)]`. */
  function Records(jds: seq<int>, hps: seq<int>, id: int): seq<JdhpRow>
    requires |jds| == |hps|
  {
    seq(|jds|, i requires 0 <= i < |jds| => JdhpRow(jds[i], hps[i], id))
  }

  /** `zip(JDlist, HPlist)` */
  function Zip(jds: seq<int>, hps: seq<int>): seq<(int, int)>
    requires |jds| == |hps|
  {
    seq(|jds|, i requires 0 <= i < |jds| => (jds[i], hps[i]))
  }

  /** `SELECT jd,hp FROM objects_by_jdhp WHERE object_id=?`, in rowid order. */
  function Cells(rows: seq<JdhpRow>, id: int): seq<(int, int)> {
    if rows == [] then []
    else (if rows[0].objectId == id then [(rows[0].jd, rows[0].hp)] else []) + Cells(rows[1..], id)
  }

  /** The rows after upsert_HP's delete and bulk insert for object `id`. */
  function ReplaceCells(rows: seq<JdhpRow>, id: int, jds: seq<int>, hps: seq<int>): seq<JdhpRow>
    requires |jds| == |hps|
  {
    DeleteObject(rows, id) + Records(jds, hps, id)
  }

  lemma {:induction false} CellsAppend(a: seq<JdhpRow>, b: seq<JdhpRow>, id: int)
    ensures Cells(a + b, id) == Cells(a, id) + Cells(b, id)
  {
    if a == [] {
      assert a + b == b;
    } else {
      var head := if a[0].objectId == id then [(a[0].jd, a[0].hp)] else [];
      assert (a + b)[0] == a[0];
      assert (a + b)[1..] == a[1..] + b;
      assert Cells(a + b, id) == head + Cells(a[1..] + b, id);
      CellsAppend(a[1..], b, id);
      assert Cells(a, id) == head + Cells(a[1..], id);
    }
  }

  lemma {:induction false} DeleteAppend(a: seq<JdhpRow>, b: seq<JdhpRow>, id: int)
    ensures DeleteObject(a + b, id) == DeleteObject(a, id) + DeleteObject(b, id)
  {
    if a == [] {
      assert a + b == b;
    } else {
      assert (a + b)[0] == a[0];
      assert (a + b)[1..] == a[1..] + b;
      DeleteAppend(a[1..], b, id);
    }
  }

  /** Deleting an object's rows removes all its cells and keeps every other object's. */
  lemma {:induction false} CellsAfterDelete(rows: seq<JdhpRow>, id: int, other: int)
    ensures Cells(DeleteObject(rows, id), id) == []
    ensures other != id ==> Cells(DeleteObject(rows, id), other) == Cells(rows, other)
  {
    if rows != [] {
      CellsAfterDelete(rows[1..], id, other);
      var head := if rows[0].objectId == id then [] else [rows[0]];
      CellsAppend(head, DeleteObject(rows[1..], id), id);
      CellsAppend(head, DeleteObject(rows[1..], id), other);
      assert Cells(head, id) == [];
      if head != [] {
        assert Cells(head, other) == Cells([rows[0]], other);
      }
    }
  }

  /** A row set with no row of `id` loses nothing to the delete. */
  lemma {:induction false} DeleteAbsent(rows: seq<JdhpRow>, id: int)
    requires forall k :: 0 <= k < |rows| ==> rows[k].objectId != id
    ensures DeleteObject(rows, id) == rows
  {
    if rows != [] {
      DeleteAbsent(rows[1..], id);
      assert rows == [rows[0]] + rows[1..];
    }
  }

  /**
   * A designation new to a valid object_desig gets an id that no row referring
   * to a registered object carries, so deleting that id removes nothing.
   */
  lemma FreshIdHasNoRows(rows: seq<JdhpRow>, t: DesigTable, desig: string)
    requires DesigTableValid(t) && desig !in t.ids
    requires forall k :: 0 <= k < |rows| ==> rows[k].objectId in t.ids.Values
    ensures DeleteObject(rows, InsertIgnore(t, desig).ids[desig]) == rows
  {
    var id := InsertIgnore(t, desig).ids[desig];
    assert id == t.maxId + 1;
    forall k | 0 <= k < |rows| ensures rows[k].objectId != id {
      var x := rows[k].objectId;
      assert x in t.ids.Values;
      var d :| d in t.ids && t.ids[d] == x;
      assert x <= t.maxId;
    }
    DeleteAbsent(rows, id);
  }

  /** A row set of one object's rows is emptied by deleting that object. */
  lemma {:induction false} DeleteAll(rows: seq<JdhpRow>, id: int)
    requires forall k :: 0 <= k < |rows| ==> rows[k].objectId == id
    ensures DeleteObject(rows, id) == []
  {
    if rows != [] {
      DeleteAll(rows[1..], id);
    }
  }

  lemma {:induction false} CellsOfRecords(jds: seq<int>, hps: seq<int>, id: int, other: int)
    requires |jds| == |hps|
    ensures Cells(Records(jds, hps, id), id) == Zip(jds, hps)
    ensures other != id ==> Cells(Records(jds, hps, id), other) == []
  {
    if jds != [] {
      CellsOfRecords(jds[1..], hps[1..], id, other);
      assert Records(jds, hps, id)[1..] == Records(jds[1..], hps[1..], id);
      assert Zip(jds, hps) == [(jds[0], hps[0])] + Zip(jds[1..], hps[1..]);
    }
  }

  /**
   * After upsert_HP the object's cells are exactly `zip(JDlist, HPlist)`, in
   * order, whatever was stored before: replace, never accumulate.
   */
  lemma ReplaceCellsExact(rows: seq<JdhpRow>, id: int, jds: seq<int>, hps: seq<int>)
    requires |jds| == |hps|
    ensures Cells(ReplaceCells(rows, id, jds, hps), id) == Zip(jds, hps)
  {
    CellsAppend(DeleteObject(rows, id), Records(jds, hps, id), id);
    CellsAfterDelete(rows, id, id);
    CellsOfRecords(jds, hps, id, id);
  }

  /** upsert_HP leaves every other object's rows as they were, in their order. */
  lemma ReplaceCellsKeepsOthers(rows: seq<JdhpRow>, id: int, jds: seq<int>, hps: seq<int>, other: int)
    requires |jds| == |hps| && other != id
    ensures Cells(ReplaceCells(rows, id, jds, hps), other) == Cells(rows, other)
    ensures DeleteObject(ReplaceCells(rows, id, jds, hps), id) == DeleteObject(rows, id)
  {
    CellsAppend(DeleteObject(rows, id), Records(jds, hps, id), other);
    CellsAfterDelete(rows, id, other);
    CellsOfRecords(jds, hps, id, other);
    DeleteAppend(DeleteObject(rows, id), Records(jds, hps, id), id);
    DeleteAbsent(DeleteObject(rows, id), id);
    DeleteAll(Records(jds, hps, id), id);
  }

  /** Re-running upsert_HP with the same lists leaves the table as one run does. */
  lemma ReplaceCellsIdempotent(rows: seq<JdhpRow>, id: int, jds: seq<int>, hps: seq<int>)
    requires |jds| == |hps|
    ensures ReplaceCells(ReplaceCells(rows, id, jds, hps), id, jds, hps) == ReplaceCells(rows, id, jds, hps)
  {
    ReplaceCellsKeepsOthers(rows, id, jds, hps, id + 1);
  }

  lemma {:induction false} FirstOfCells(rows: seq<JdhpRow>, id: int)
    ensures Cells(rows, id) == [] <==> forall k :: 0 <= k < |rows| ==> rows[k].objectId != id
    ensures Cells(rows, id) != [] ==>
      exists k :: 0 <= k < |rows| && rows[k].objectId == id && Cells(rows, id)[0] == (rows[k].jd, rows[k].hp)
        && forall j :: 0 <= j < k ==> rows[j].objectId != id
  {
    if rows != [] && rows[0].objectId != id {
      FirstOfCells(rows[1..], id);
      if Cells(rows, id) != [] {
        var k :| 0 <= k < |rows[1..]| && rows[1..][k].objectId == id
          && Cells(rows[1..], id)[0] == (rows[1..][k].jd, rows[1..][k].hp)
          && forall j :: 0 <= j < k ==> rows[1..][j].objectId != id;
        assert rows[k + 1] == rows[1..][k];
        assert forall j :: 1 <= j < k + 1 ==> rows[j] == rows[1..][j - 1];
      }
    }
  }

  /**
   * `fetchall()[0]` of the jd,hp query: the first row of the object in rowid
   * order; no row fails.
   */
  function FirstCell(rows: seq<JdhpRow>, id: int): (r: Result<(int, int)>)
    ensures r.Err? <==> forall k :: 0 <= k < |rows| ==> rows[k].objectId != id
    ensures r.Err? ==> r.error == NoRow
    ensures r.Ok? ==>
      exists k :: 0 <= k < |rows| && rows[k].objectId == id && r.value == (rows[k].jd, rows[k].hp)
        && forall j :: 0 <= j < k ==> rows[j].objectId != id
  {
    var cells := Cells(rows, id);
    FirstOfCells(rows, id);
    if cells == [] then Err(NoRow) else Ok(cells[0])
  }
}
