/**
 * The SQLite database of orbit_cheby/sql.py as an object whose fields are its
 * three tables. Each writing function of sql.py is a method that updates the
 * tables the way its statements do; each reading function is a function of
 * the tables.
 */
module OrbitStore {
  import opened Wrappers
  import opened SectorFields
  import opened Tables

  /** insert_desig pastes the designation between single quotes into its SQL text. */
  predicate Quotable(desig: string) {
    '\'' !in desig
  }

  class Database {
    /** The sector columns of object_coefficients, fixed when the table is created. */
    const columns: seq<string>
    var objectDesig: DesigTable
    var objectCoefficients: map<string, Row>
    var objectsByJdhp: seq<JdhpRow>

    /**
     * Every coefficient row has exactly the table's columns, object ids are
     * assigned as SQLite assigns them, and every jdhp row refers to a
     * registered object.
     */
    ghost predicate Valid()
      reads this
    {
      && Distinct(columns)
      && DesigTableValid(objectDesig)
      && (forall d :: d in objectCoefficients ==> objectCoefficients[d].Keys == (set c | c in columns))
      && (forall k :: 0 <= k < |objectsByJdhp| ==> objectsByJdhp[k].objectId in objectDesig.ids.Values)
    }

    /**
     * create_object_desig_table, create_object_coefficients_table and
     * create_objects_by_jdhp_table on an empty database: three empty tables,
     * the coefficient table with one column per configured sector.
     */
    constructor (cfg: Config)
      requires DistinctKeys(cfg.requiredSectors)
      ensures Valid()
      ensures columns == FieldNames(cfg.requiredSectors)
      ensures objectDesig == EmptyDesigTable && objectCoefficients == map[] && objectsByJdhp == []
    {
      FieldNamesDistinct(cfg.requiredSectors);
      columns := FieldNames(cfg.requiredSectors);
      objectDesig := EmptyDesigTable;
      objectCoefficients := map[];
      objectsByJdhp := [];
    }

    /**
     * insert_desig: insert the designation unless present, then read back its
     * object_id. A second call with the same designation changes nothing and
     * returns the same id.
     */
    method InsertDesig(desig: string) returns (id: int)
      requires Valid() && Quotable(desig)
      modifies this
      ensures Valid()
      ensures objectDesig == InsertIgnore(old(objectDesig), desig)
      ensures id == objectDesig.ids[desig]
      ensures desig in old(objectDesig.ids) ==> objectDesig == old(objectDesig)
      ensures objectCoefficients == old(objectCoefficients) && objectsByJdhp == old(objectsByJdhp)
    {
      var before := objectDesig;
      objectDesig := InsertIgnore(objectDesig, desig);
      assert before.ids.Values <= objectDesig.ids.Values by {
        forall v | v in before.ids.Values ensures v in objectDesig.ids.Values {
          var d :| d in before.ids && before.ids[d] == v;
          assert objectDesig.ids[d] == v;
        }
      }
      var found := LookupId(objectDesig, desig);
      id := found.value;
    }

    /**
     * upsert_MSC: build the field and value lists from M, then run
     * `INSERT OR REPLACE`. The designation's row is replaced by one holding
     * exactly M's sectors; an unknown sector column fails and changes nothing.
     */
    method UpsertMSC(cfg: Config, m: MSC) returns (r: Outcome)
      requires Valid() && DistinctKeys(m.sectorCoeffs)
      modifies this
      ensures Valid()
      ensures var res := InsertOrReplace(old(objectCoefficients), columns, m.designation,
                                         SectorColumns(m, cfg.startJD), SectorBlobs(m));
        && (res.Ok? ==> r == Pass && objectCoefficients == res.value)
        && (res.Err? ==> r == Fail(res.error) && objectCoefficients == old(objectCoefficients))
      ensures objectDesig == old(objectDesig) && objectsByJdhp == old(objectsByJdhp)
    {
      var fields := UpsertFields(m, cfg.startJD);
      var values := UpsertValues(m);
      UpsertListsAligned(m, cfg.startJD);
      // sqlite3 binds values[i] to fields[i]; the last pair is the designation.
      var n := |fields| - 1;
      var sectorFields := fields[..n];
      var blobs := seq(n, i requires 0 <= i < n => values[i].blob);
      assert sectorFields == SectorColumns(m, cfg.startJD);
      assert blobs == SectorBlobs(m);
      var res := InsertOrReplace(objectCoefficients, columns, values[n].text, sectorFields, blobs);
      if res.Ok? {
        objectCoefficients := res.value;
        r := Pass;
      } else {
        r := Fail(res.error);
      }
    }

    /**
     * delete_JDHP_by_name: remove the object's jdhp rows and keep its
     * object_desig entry. An unknown designation matches no row.
     */
    method DeleteJdhpByName(desig: string)
      requires Valid()
      modifies this
      ensures Valid()
      ensures desig in objectDesig.ids ==> objectsByJdhp == DeleteObject(old(objectsByJdhp), objectDesig.ids[desig])
      ensures desig !in objectDesig.ids ==> objectsByJdhp == old(objectsByJdhp)
      ensures objectDesig == old(objectDesig) && objectCoefficients == old(objectCoefficients)
    {
      if desig in objectDesig.ids {
        objectsByJdhp := DeleteObject(objectsByJdhp, objectDesig.ids[desig]);
      }
    }

    /**
     * upsert_HP: check the lists have equal length, delete the object's old
     * rows, register the designation, then append one row per (jd, hp) pair
     * with a single `executemany`.
     */
    method UpsertHP(desig: string, jds: seq<int>, hps: seq<int>) returns (r: Outcome)
      requires Valid() && Quotable(desig)
      modifies this
      ensures Valid()
      ensures |jds| != |hps| ==>
        && r == Fail(LengthMismatch(|jds|, |hps|))
        && objectDesig == old(objectDesig) && objectsByJdhp == old(objectsByJdhp)
      ensures |jds| == |hps| ==>
        && r == Pass
        && objectDesig == InsertIgnore(old(objectDesig), desig)
        && objectsByJdhp == ReplaceCells(old(objectsByJdhp), objectDesig.ids[desig], jds, hps)
      ensures |jds| == |hps| ==> Cells(objectsByJdhp, objectDesig.ids[desig]) == Zip(jds, hps)
      ensures objectCoefficients == old(objectCoefficients)
    {
      if |jds| != |hps| {
        return Fail(LengthMismatch(|jds|, |hps|));
      }
      DeleteJdhpByName(desig);
      ghost var kept := objectsByJdhp;
      var id := InsertDesig(desig);
      // A designation new to the table gets an id no stored row carries, so the
      // delete above, which matched nothing, removed every row of this id.
      if desig !in old(objectDesig.ids) {
        FreshIdHasNoRows(old(objectsByJdhp), old(objectDesig), desig);
      }
      assert kept == DeleteObject(old(objectsByJdhp), id);
      var records := Records(jds, hps, id);
      objectsByJdhp := objectsByJdhp + records;
      ReplaceCellsExact(old(objectsByJdhp), id, jds, hps);
      r := Pass;
    }

    /**
     * query_number_by_desig: the object id registered for the designation; an
     * unknown designation fails at `fetchall()[0]`.
     */
    function QueryNumberByDesig(desig: string): (r: Result<int>)
      reads this
      ensures r.Ok? <==> desig in objectDesig.ids
      ensures r.Err? ==> r.error == NoRow
      ensures r.Ok? ==> r.value == objectDesig.ids[desig]
      ensures r.Ok? && Valid() ==>
        forall d :: d in objectDesig.ids && objectDesig.ids[d] == r.value ==> d == desig
    {
      LookupId(objectDesig, desig)
    }

    /**
     * query_JDHP_by_name: the first stored (jd, hp) of the object, in rowid
     * order. An unknown designation, or one without rows, fails.
     */
    function QueryJdhpByName(desig: string): (r: Result<(int, int)>)
      reads this
      ensures r.Err? <==>
        desig !in objectDesig.ids
        || forall k :: 0 <= k < |objectsByJdhp| ==> objectsByJdhp[k].objectId != objectDesig.ids[desig]
      ensures r.Ok? ==>
        exists k :: (0 <= k < |objectsByJdhp|
          && objectsByJdhp[k].objectId == objectDesig.ids[desig]
          && r.value == (objectsByJdhp[k].jd, objectsByJdhp[k].hp)
          && forall j :: 0 <= j < k ==> objectsByJdhp[j].objectId != objectDesig.ids[desig])
    {
      match LookupId(objectDesig, desig)
      case Err(e) => Err(e)
      case Ok(id) => FirstCell(objectsByJdhp, id)
    }

    /**
     * query_object_coefficients: the unpickled non-NULL arrays of the object's
     * row, keyed by column name, for every configured sector (no sector numbers
     * given) or for the requested ones. An object without a row, a sector
     * without a column, or an empty request fails.
     */
    function QueryObjectCoefficients(cfg: Config, desig: string, sectorNumbers: Option<seq<int>>)
      : (r: Result<map<string, Coeffs>>)
      reads this
      ensures r.Ok? <==>
        && QueryFieldNames(cfg, sectorNumbers) != []
        && (forall c :: c in QueryFieldNames(cfg, sectorNumbers) ==> c in columns)
        && desig in objectCoefficients
      ensures sectorNumbers == Some([]) ==> r == Err(SyntaxError)
      ensures r.Ok? && sectorNumbers.None? ==>
        forall c :: c in r.value ==> c in FieldNames(cfg.requiredSectors)
      ensures r.Ok? && sectorNumbers.Some? ==>
        forall c :: c in r.value ==> c in (set n | n in sectorNumbers.value :: FieldName(n, cfg.startJD(n)))
      ensures r.Ok? ==> forall c :: c in r.value <==>
        && c in QueryFieldNames(cfg, sectorNumbers)
        && c in objectCoefficients[desig]
        && objectCoefficients[desig][c].Some?
      ensures r.Ok? ==> forall c :: c in r.value ==>
        c in objectCoefficients[desig] && objectCoefficients[desig][c].Some?
        && r.value[c] == Loads(objectCoefficients[desig][c].value)
    {
      var names := QueryFieldNames(cfg, sectorNumbers);
      if sectorNumbers.Some? then
        var ns := sectorNumbers.value;
        SelectedAmongRequested(objectCoefficients, columns, desig, names,
                               set n | n in ns :: FieldName(n, cfg.startJD(n)));
        SelectCoefficients(objectCoefficients, columns, desig, names)
      else
        SelectCoefficients(objectCoefficients, columns, desig, names)
    }
  }

  /**
   * A client: the end-to-end use of the store on an empty database, with one
   * configured sector starting at JD 2440000.
   */
  method EndToEnd()
  {
    var cfg := Config([(0, 2440000)], n => 2440000 + 32 * n);
    var db := new Database(cfg);
    var first := db.InsertDesig("2020 AB");
    var second := db.InsertDesig("2020 CD");
    assert first == 1 && second == 2;
    var again := db.InsertDesig("2020 AB");
    assert again == 1;

    var hp := db.UpsertHP("2020 AB", [59000, 59001], [42, 43]);
    assert hp == Pass;
    assert db.objectDesig.ids["2020 AB"] == 1;
    assert db.QueryJdhpByName("2020 AB") == Ok((59000, 42));
    var bad := db.UpsertHP("2020 AB", [59000], []);
    assert bad.Fail?;
  }

  /** A client: storing one object's coefficients and reading them back, whatever the first sector's start JD. */
  method CoefficientsRoundTrip(firstStart: int)
  {
    var cfg := Config([(0, firstStart)], n => firstStart + 32 * n);
    var db := new Database(cfg);
    var m := MSC("2020 AB", [(0, Coeffs([1.0, 2.0, 3.0]))]);
    var name := FieldName(0, firstStart);
    assert db.columns == [name];
    assert SectorColumns(m, cfg.startJD) == [name];
    UpsertThenSelect(db.objectCoefficients, db.columns, m, cfg.startJD);
    var stored := db.UpsertMSC(cfg, m);
    assert stored == Pass;
    var read := db.QueryObjectCoefficients(cfg, "2020 AB", None);
    assert QueryFieldNames(cfg, None) == db.columns;
    assert read.Ok? && read.value.Keys == {name};
    assert read.value[name] == Coeffs([1.0, 2.0, 3.0]);
  }
}
