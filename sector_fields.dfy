/**
 * Column naming for the coefficient table and the statement texts built from it
 * (orbit_cheby/sql.py: generate_sector_field_names, the column list of
 * create_object_coefficients_table, the field/value lists of upsert_MSC and the
 * SELECT list of query_object_coefficients).
 *
 * A Python dict is modelled by its items in iteration order: a sequence of
 * (key, value) pairs whose keys are distinct.
 */
module SectorFields {
  import opened Wrappers
  import opened Decimal

  type Dict<V> = seq<(int, V)>

  predicate DistinctKeys<V>(d: Dict<V>) {
    forall i, j :: 0 <= i < j < |d| ==> d[i].0 != d[j].0
  }

  ghost function Keys<V>(d: Dict<V>): set<int> {
    set p | p in d :: p.0
  }

  predicate Distinct<T(==)>(s: seq<T>) {
    forall i, j :: 0 <= i < j < |s| ==> s[i] != s[j]
  }

  /**
   * What the orbit-model configuration supplies: the full sector-number to
   * start-JD dict (`get_required_sector_dict()`), and the start JD of any one
   * sector (`map_sector_number_to_sector_start_JD(n, standard_MJDmin)`).
   */
  datatype Config = Config(requiredSectors: Dict<int>, startJD: int -> int)

  // ---------------------------------------------------------------------
  // Sector column names
  // ---------------------------------------------------------------------

  const SectorPrefix: string := "sector_"

  /** `'sector_%d_%d' % (n, jd)` */
  function FieldName(sector: int, startJD: int): string {
    SectorPrefix + FormatInt(sector) + "_" + FormatInt(startJD)
  }

  /** The position of the first `c` in `s`. */
  function IndexOf(s: string, c: char): (r: Option<nat>)
    ensures r.Some? ==> r.value < |s| && s[r.value] == c && c !in s[..r.value]
    ensures r.None? ==> c !in s
  {
    if s == [] then None
    else if s[0] == c then Some(0)
    else match IndexOf(s[1..], c)
      case None => None
      case Some(k) =>
        assert s[..k + 1] == [s[0]] + s[1..][..k];
        Some(k + 1)
  }

  lemma {:induction false} IndexOfFirst(a: string, c: char, b: string)
    requires c !in a
    ensures IndexOf(a + [c] + b, c) == Some(|a|)
  {
    if a != [] {
      assert (a + [c] + b)[1..] == a[1..] + [c] + b;
      IndexOfFirst(a[1..], c, b);
    }
  }

  /** Reads a sector column name back into its sector number and start JD. */
  function ParseFieldName(name: string): Option<(int, int)> {
    if |name| < |SectorPrefix| || name[..|SectorPrefix|] != SectorPrefix then None
    else
      var rest := name[|SectorPrefix|..];
      match IndexOf(rest, '_')
      case None => None
      case Some(k) =>
        match ParseInt(rest[..k])
        case None => None
        case Some(sector) =>
          match ParseInt(rest[k + 1..])
          case None => None
          case Some(jd) => Some((sector, jd))
  }

  lemma FieldNameRoundTrip(sector: int, startJD: int)
    ensures ParseFieldName(FieldName(sector, startJD)) == Some((sector, startJD))
  {
    var a, b := FormatInt(sector), FormatInt(startJD);
    var name := FieldName(sector, startJD);
    assert name[..|SectorPrefix|] == SectorPrefix;
    var rest := name[|SectorPrefix|..];
    assert rest == a + "_" + b;
    assert '_' !in a by {
      assert forall k :: 0 <= k < |a| ==> a[k] != '_';
    }
    IndexOfFirst(a, '_', b);
    assert rest[..|a|] == a;
    assert rest[|a| + 1..] == b;
    FormatIntRoundTrip(sector);
    FormatIntRoundTrip(startJD);
  }

  /** generate_sector_field_names: one column name per dict item, in iteration order. */
  function FieldNames(d: Dict<int>): seq<string> {
    seq(|d|, i requires 0 <= i < |d| => FieldName(d[i].0, d[i].1))
  }

  /** Each generated name is `sector_<n>_<jd>` for the item at the same position. */
  lemma FieldNamesDescribeSectors(d: Dict<int>)
    ensures |FieldNames(d)| == |d|
    ensures forall i :: 0 <= i < |d| ==> ParseFieldName(FieldNames(d)[i]) == Some(d[i])
  {
    forall i | 0 <= i < |d|
      ensures ParseFieldName(FieldNames(d)[i]) == Some(d[i])
    {
      FieldNameRoundTrip(d[i].0, d[i].1);
    }
  }

  /** Distinct sector numbers give distinct column names. */
  lemma FieldNamesDistinct(d: Dict<int>)
    requires DistinctKeys(d)
    ensures Distinct(FieldNames(d))
  {
    FieldNamesDescribeSectors(d);
    var names := FieldNames(d);
    forall i, j | 0 <= i < j < |d|
      ensures names[i] != names[j]
    {
      assert ParseFieldName(names[i]) == Some(d[i]);
      assert ParseFieldName(names[j]) == Some(d[j]);
      assert d[i] != d[j];
    }
  }

  // ---------------------------------------------------------------------
  // Joined statement text
  // ---------------------------------------------------------------------

  /** Python's `sep.join(items)`. */
  function Join(sep: string, items: seq<string>): string {
    if |items| == 0 then ""
    else if |items| == 1 then items[0]
    else items[0] + sep + Join(sep, items[1..])
  }

  lemma {:induction false} JoinAvoids(sep: string, items: seq<string>, c: char)
    requires c !in sep
    requires forall i :: 0 <= i < |items| ==> c !in items[i]
    ensures c !in Join(sep, items)
  {
    if |items| >= 2 {
      JoinAvoids(sep, items[1..], c);
    }
  }

  /** The number of occurrences of `c` in `s`. */
  function Count(s: string, c: char): nat {
    if s == [] then 0 else (if s[0] == c then 1 else 0) + Count(s[1..], c)
  }

  lemma {:induction false} CountAppend(a: string, b: string, c: char)
    ensures Count(a + b, c) == Count(a, c) + Count(b, c)
  {
    if a == [] {
      assert a + b == b;
    } else {
      assert (a + b)[0] == a[0];
      assert (a + b)[1..] == a[1..] + b;
      CountAppend(a[1..], b, c);
    }
  }

  lemma {:induction false} CountAbsent(s: string, c: char)
    requires c !in s
    ensures Count(s, c) == 0
  {
    if s != [] {
      CountAbsent(s[1..], c);
    }
  }

  /** `" blob, ".join(names) + " blob"`: the sector part of the CREATE TABLE column list. */
  function ColumnSpec(names: seq<string>): string {
    Join(" blob, ", names) + " blob"
  }

  /** The column definition of each sector column. */
  function BlobColumns(names: seq<string>): seq<string> {
    seq(|names|, i requires 0 <= i < |names| => names[i] + " blob")
  }

  /**
   * The column spec is every name followed by ` blob`, separated by `, `;
   * with no names it is a lone ` blob`.
   */
  lemma {:induction false} ColumnSpecLayout(names: seq<string>)
    ensures ColumnSpec(names) == if names == [] then " blob" else Join(", ", BlobColumns(names))
  {
    if |names| >= 2 {
      ColumnSpecLayout(names[1..]);
      var cols := BlobColumns(names);
      assert cols[1..] == BlobColumns(names[1..]);
      calc {
        ColumnSpec(names);
        names[0] + " blob, " + Join(" blob, ", names[1..]) + " blob";
        { assert " blob, " == " blob" + ", "; }
        (names[0] + " blob") + ", " + (Join(" blob, ", names[1..]) + " blob");
        cols[0] + ", " + Join(", ", cols[1..]);
        Join(", ", cols);
      }
    }
  }

  const CoefficientsTableHead: string :=
    "\n        CREATE TABLE IF NOT EXISTS object_coefficients (\n        id integer PRIMARY KEY,\n        primary_unpacked_provisional_designation TEXT UNIQUE, "

  /** The CREATE TABLE statement of create_object_coefficients_table. */
  function CreateCoefficientsTableSql(names: seq<string>): string {
    CoefficientsTableHead + ColumnSpec(names) + "); "
  }

  /**
   * The coefficient table's columns: `id` and the designation (the head), then
   * one `<name> blob` column per sector name, in order, separated by `, `.
   */
  lemma CoefficientsTableColumns(names: seq<string>)
    ensures names != [] ==>
      CreateCoefficientsTableSql(names) == CoefficientsTableHead + Join(", ", BlobColumns(names)) + "); "
    ensures names == [] ==> CreateCoefficientsTableSql(names) == CoefficientsTableHead + " blob); "
    ensures |BlobColumns(names)| == |names|
    ensures forall i :: 0 <= i < |names| ==> BlobColumns(names)[i] == names[i] + " blob"
  {
    ColumnSpecLayout(names);
  }

  // ---------------------------------------------------------------------
  // The upsert_MSC statement
  // ---------------------------------------------------------------------

  const DesigColumn: string := "primary_unpacked_provisional_designation"

  /** A numpy array of Chebyshev coefficients; the store never looks inside. */
  datatype Coeffs = Coeffs(values: seq<real>)

  /** A pickled coefficient array, as stored in a blob column. */
  datatype Blob = Pickled(coeffs: Coeffs)

  /** `pickle.dumps(coeffs, pickle.HIGHEST_PROTOCOL)` */
  function Dumps(c: Coeffs): Blob {
    Pickled(c)
  }

  /** `pickle.loads(blob)` */
  function Loads(b: Blob): Coeffs {
    b.coeffs
  }

  /** A multi-sector Chebyshev object: its designation and its sector_coeffs dict. */
  datatype MSC = MSC(designation: string, sectorCoeffs: Dict<Coeffs>)

  /** A parameter bound to a `?` placeholder. */
  datatype SqlValue = BlobValue(blob: Blob) | TextValue(text: string)

  /** A statement and the parameters bound to its placeholders, in order. */
  datatype Statement = Statement(sql: string, params: seq<SqlValue>)

  /** The sector → start-JD dict upsert_MSC builds from the keys of M.sector_coeffs. */
  function SectorStarts(m: MSC, startJD: int -> int): Dict<int> {
    seq(|m.sectorCoeffs|, i requires 0 <= i < |m.sectorCoeffs| =>
      (m.sectorCoeffs[i].0, startJD(m.sectorCoeffs[i].0)))
  }

  /** The sector columns of M, in the order of M.sector_coeffs. */
  function SectorColumns(m: MSC, startJD: int -> int): seq<string> {
    FieldNames(SectorStarts(m, startJD))
  }

  /** The pickled arrays of M, in the order of M.sector_coeffs. */
  function SectorBlobs(m: MSC): seq<Blob> {
    seq(|m.sectorCoeffs|, i requires 0 <= i < |m.sectorCoeffs| => Dumps(m.sectorCoeffs[i].1))
  }

  /** The field-name list of upsert_MSC: the sector names, then the designation column. */
  function UpsertFields(m: MSC, startJD: int -> int): seq<string> {
    SectorColumns(m, startJD) + [DesigColumn]
  }

  /** The value list of upsert_MSC: the pickled arrays, then the designation. */
  function UpsertValues(m: MSC): seq<SqlValue> {
    var blobs := SectorBlobs(m);
    seq(|blobs|, i requires 0 <= i < |blobs| => BlobValue(blobs[i])) + [TextValue(m.designation)]
  }

  function Placeholders(n: nat): seq<string> {
    seq(n, _ => "?")
  }

  const UpsertHead: string := " INSERT OR REPLACE INTO object_coefficients ("
  const UpsertMid: string := ") VALUES ("
  const UpsertTail: string := ");"

  function UpsertSql(fields: seq<string>, values: seq<SqlValue>): string {
    UpsertHead + Join(",", fields) + UpsertMid + Join(",", Placeholders(|values|)) + UpsertTail
  }

  function UpsertStatement(m: MSC, startJD: int -> int): Statement {
    var fields := UpsertFields(m, startJD);
    var values := UpsertValues(m);
    Statement(UpsertSql(fields, values), values)
  }

  /**
   * The field and value lists line up: same length, the designation last in
   * both, and the i-th value is the pickled array of the sector the i-th field
   * names. No field is named twice.
   */
  lemma UpsertListsAligned(m: MSC, startJD: int -> int)
    requires DistinctKeys(m.sectorCoeffs)
    ensures var fields, values := UpsertFields(m, startJD), UpsertValues(m);
      && |fields| == |values| == |m.sectorCoeffs| + 1
      && fields[|fields| - 1] == DesigColumn
      && values[|values| - 1] == TextValue(m.designation)
      && (forall i :: 0 <= i < |m.sectorCoeffs| ==>
            && ParseFieldName(fields[i]) == Some((m.sectorCoeffs[i].0, startJD(m.sectorCoeffs[i].0)))
            && values[i] == BlobValue(Dumps(m.sectorCoeffs[i].1)))
      && Distinct(fields)
  {
    var d := SectorStarts(m, startJD);
    var fields := UpsertFields(m, startJD);
    FieldNamesDescribeSectors(d);
    FieldNamesDistinct(d);
    assert ParseFieldName(DesigColumn) == None by {
      assert DesigColumn[..|SectorPrefix|] != SectorPrefix by {
        assert DesigColumn[0] != SectorPrefix[0];
      }
    }
    forall i, j | 0 <= i < j < |fields|
      ensures fields[i] != fields[j]
    {
      if j == |fields| - 1 {
        assert ParseFieldName(fields[i]).Some?;
      }
    }
  }

  lemma {:induction false} PlaceholderCount(n: nat)
    ensures Count(Join(",", Placeholders(n)), '?') == n
  {
    if n >= 2 {
      PlaceholderCount(n - 1);
      assert Placeholders(n)[1..] == Placeholders(n - 1);
      CountAppend("?" + ",", Join(",", Placeholders(n - 1)), '?');
    }
  }

  lemma FieldNameHasNoPlaceholder(sector: int, startJD: int)
    ensures '?' !in FieldName(sector, startJD)
  {
    var a, b := FormatInt(sector), FormatInt(startJD);
    assert forall k :: 0 <= k < |a| ==> a[k] != '?';
    assert forall k :: 0 <= k < |b| ==> b[k] != '?';
    assert FieldName(sector, startJD) == SectorPrefix + a + "_" + b;
  }

  lemma UpsertKeywordsHaveNoPlaceholder()
    ensures '?' !in UpsertHead && '?' !in UpsertMid && '?' !in UpsertTail && '?' !in DesigColumn
  {
    HeadHasNoPlaceholder();
    DesigColumnHasNoPlaceholder();
  }

  lemma HeadHasNoPlaceholder()
    ensures '?' !in UpsertHead
  {
    assert UpsertHead == " INSERT OR " + "REPLACE INTO " + "object_coef" + "ficients (";
  }

  lemma DesigColumnHasNoPlaceholder()
    ensures '?' !in DesigColumn
  {
    assert DesigColumn == "primary_" + "unpacked_" + "provisional_" + "designation";
  }

  lemma UpsertSqlPlaceholders(fields: seq<string>, values: seq<SqlValue>)
    requires forall i :: 0 <= i < |fields| ==> '?' !in fields[i]
    ensures Count(UpsertSql(fields, values), '?') == |values|
  {
    UpsertKeywordsHaveNoPlaceholder();
    JoinAvoids(",", fields, '?');
    var names := Join(",", fields);
    var marks := Join(",", Placeholders(|values|));
    CountAbsent(UpsertHead, '?');
    CountAbsent(names, '?');
    CountAbsent(UpsertMid, '?');
    CountAbsent(UpsertTail, '?');
    PlaceholderCount(|values|);
    CountAppend(UpsertHead, names, '?');
    CountAppend(UpsertHead + names, UpsertMid, '?');
    CountAppend(UpsertHead + names + UpsertMid, marks, '?');
    CountAppend(UpsertHead + names + UpsertMid + marks, UpsertTail, '?');
  }

  /**
   * The upsert statement carries exactly one `?` per bound parameter, so every
   * value is bound and no placeholder is left over.
   */
  lemma UpsertPlaceholdersMatchParams(m: MSC, startJD: int -> int)
    ensures Count(UpsertStatement(m, startJD).sql, '?') == |UpsertStatement(m, startJD).params|
  {
    var d := SectorStarts(m, startJD);
    var fields := UpsertFields(m, startJD);
    UpsertKeywordsHaveNoPlaceholder();
    forall i | 0 <= i < |fields| ensures '?' !in fields[i] {
      if i < |d| {
        FieldNameHasNoPlaceholder(d[i].0, d[i].1);
      }
    }
    UpsertSqlPlaceholders(fields, UpsertValues(m));
  }

  // ---------------------------------------------------------------------
  // The query_object_coefficients statement
  // ---------------------------------------------------------------------

  lemma KeysAppend<V>(a: Dict<V>, b: Dict<V>)
    ensures Keys(a + b) == Keys(a) + Keys(b)
  {
    forall x | x in Keys(a + b) ensures x in Keys(a) + Keys(b) {
      var p :| p in a + b && p.0 == x;
    }
  }

  /** Python's dict assignment `d[k] = v`: an existing key keeps its place. */
  function DictSet<V>(d: Dict<V>, k: int, v: V): Dict<V> {
    if d == [] then [(k, v)]
    else if d[0].0 == k then [(k, v)] + d[1..]
    else [d[0]] + DictSet(d[1..], k, v)
  }

  lemma DistinctKeysCons<V>(x: (int, V), t: Dict<V>)
    requires DistinctKeys(t) && x.0 !in Keys(t)
    ensures DistinctKeys([x] + t)
  {
    forall j | 0 <= j < |t| ensures t[j].0 != x.0 {
      assert t[j] in t;
    }
  }

  lemma {:induction false} DictSetKeys<V>(d: Dict<V>, k: int, v: V)
    ensures Keys(DictSet(d, k, v)) == Keys(d) + {k}
  {
    if d == [] {
      assert Keys([(k, v)]) == {k};
    } else {
      var rest := d[1..];
      assert d == [d[0]] + rest;
      KeysAppend([d[0]], rest);
      assert Keys([d[0]]) == {d[0].0};
      if d[0].0 == k {
        KeysAppend([(k, v)], rest);
        assert Keys([(k, v)]) == {k};
      } else {
        DictSetKeys(rest, k, v);
        KeysAppend([d[0]], DictSet(rest, k, v));
      }
    }
  }

  lemma KeysOfTail<V>(d: Dict<V>)
    requires DistinctKeys(d) && d != []
    ensures d[0].0 !in Keys(d[1..])
  {
    forall p | p in d[1..] ensures p.0 != d[0].0 {
      var j :| 0 <= j < |d[1..]| && d[1..][j] == p;
      assert d[j + 1] == p;
    }
  }

  lemma {:induction false} DictSetDistinct<V>(d: Dict<V>, k: int, v: V)
    requires DistinctKeys(d)
    ensures DistinctKeys(DictSet(d, k, v))
  {
    if d != [] {
      KeysOfTail(d);
      if d[0].0 == k {
        DistinctKeysCons((k, v), d[1..]);
      } else {
        DictSetDistinct(d[1..], k, v);
        DictSetKeys(d[1..], k, v);
        DistinctKeysCons(d[0], DictSet(d[1..], k, v));
      }
    }
  }

  lemma {:induction false} DictSetNewKey<V>(d: Dict<V>, k: int, v: V)
    requires k !in Keys(d)
    ensures DictSet(d, k, v) == d + [(k, v)]
  {
    if d != [] {
      assert d[0] in d;
      assert Keys(d[1..]) <= Keys(d) by {
        forall p | p in d[1..] ensures p in d { }
      }
      DictSetNewKey(d[1..], k, v);
      assert d == [d[0]] + d[1..];
    }
  }

  lemma {:induction false} DictSetItems<V>(d: Dict<V>, k: int, v: V)
    ensures forall p :: p in DictSet(d, k, v) ==> p == (k, v) || p in d
  {
    if d != [] && d[0].0 != k {
      DictSetItems(d[1..], k, v);
      assert DictSet(d, k, v) == [d[0]] + DictSet(d[1..], k, v);
      forall p | p in d[1..] ensures p in d { }
    }
  }

  /** `{k: v for k, v in pairs}` */
  function DictFromPairs<V>(pairs: seq<(int, V)>): Dict<V> {
    if pairs == [] then []
    else DictSet(DictFromPairs(pairs[..|pairs| - 1]), pairs[|pairs| - 1].0, pairs[|pairs| - 1].1)
  }

  /** The pairs `zip(sector_numbers, start_JDs)` of query_object_coefficients. */
  function RequestedPairs(sectorNumbers: seq<int>, startJD: int -> int): Dict<int> {
    seq(|sectorNumbers|, i requires 0 <= i < |sectorNumbers| => (sectorNumbers[i], startJD(sectorNumbers[i])))
  }

  /**
   * `{k: v for k, v in pairs}` holds each key of `pairs` once, every item is
   * one of the pairs, and it is `pairs` itself when those keys are distinct.
   */
  lemma {:induction false} DictFromPairsShape<V>(pairs: seq<(int, V)>)
    ensures var d := DictFromPairs(pairs);
      && DistinctKeys(d)
      && Keys(d) == Keys(pairs)
      && (forall p :: p in d ==> p in pairs)
      && (DistinctKeys(pairs) ==> d == pairs)
  {
    if pairs != [] {
      var n := |pairs|;
      var init, last := pairs[..n - 1], pairs[n - 1];
      assert pairs == init + [last];
      DictFromPairsShape(init);
      var d0 := DictFromPairs(init);
      DictSetKeys(d0, last.0, last.1);
      DictSetDistinct(d0, last.0, last.1);
      DictSetItems(d0, last.0, last.1);
      KeysAppend(init, [last]);
      assert Keys([last]) == {last.0};
      if DistinctKeys(pairs) {
        forall p | p in init
          ensures p.0 != last.0
        {
          var j :| 0 <= j < |init| && init[j] == p;
          assert pairs[j] == p;
        }
        assert last.0 !in Keys(d0);
        DictSetNewKey(d0, last.0, last.1);
      }
    }
  }

  /**
   * The dict query_object_coefficients builds from the requested sector numbers
   * holds each requested sector once, with its start JD, and keeps the request
   * order when the request has no repeats.
   */
  lemma RequestedDictShape(sectorNumbers: seq<int>, startJD: int -> int)
    ensures var d := DictFromPairs(RequestedPairs(sectorNumbers, startJD));
      && DistinctKeys(d)
      && Keys(d) == (set x | x in sectorNumbers)
      && (forall i :: 0 <= i < |d| ==> d[i].1 == startJD(d[i].0))
      && (Distinct(sectorNumbers) ==> d == RequestedPairs(sectorNumbers, startJD))
  {
    var pairs := RequestedPairs(sectorNumbers, startJD);
    DictFromPairsShape(pairs);
    var d := DictFromPairs(pairs);
    forall i | 0 <= i < |d| ensures d[i].1 == startJD(d[i].0) {
      assert d[i] in pairs;
      var j :| 0 <= j < |pairs| && pairs[j] == d[i];
    }
    if Distinct(sectorNumbers) {
      assert DistinctKeys(pairs);
    }
    assert Keys(pairs) == (set x | x in sectorNumbers) by {
      forall x | x in sectorNumbers ensures x in Keys(pairs) {
        var i :| 0 <= i < |sectorNumbers| && sectorNumbers[i] == x;
        assert pairs[i] in pairs;
      }
    }
  }

  /**
   * The SELECT list of query_object_coefficients: every configured sector when
   * no sector numbers are given, otherwise the requested ones.
   */
  function QueryFieldNames(cfg: Config, sectorNumbers: Option<seq<int>>): (r: seq<string>)
    ensures sectorNumbers.None? ==>
      && |r| == |cfg.requiredSectors|
      && forall i :: 0 <= i < |r| ==> ParseFieldName(r[i]) == Some(cfg.requiredSectors[i])
    ensures sectorNumbers.Some? ==>
      && Distinct(r)
      && (set x | x in r) == (set n | n in sectorNumbers.value :: FieldName(n, cfg.startJD(n)))
    ensures sectorNumbers.Some? && Distinct(sectorNumbers.value) ==>
      && |r| == |sectorNumbers.value|
      && forall i :: 0 <= i < |r| ==> r[i] == FieldName(sectorNumbers.value[i], cfg.startJD(sectorNumbers.value[i]))
  {
    match sectorNumbers
    case None =>
      FieldNamesDescribeSectors(cfg.requiredSectors);
      FieldNames(cfg.requiredSectors)
    case Some(ns) =>
      RequestedFieldNames(ns, cfg.startJD);
      FieldNames(DictFromPairs(RequestedPairs(ns, cfg.startJD)))
  }

  /**
   * The names selected for explicitly requested sectors: one per distinct
   * requested sector, named after it and its start JD, in request order when
   * nothing is requested twice.
   */
  lemma RequestedFieldNames(ns: seq<int>, startJD: int -> int)
    ensures var names := FieldNames(DictFromPairs(RequestedPairs(ns, startJD)));
      && Distinct(names)
      && (set x | x in names) == (set n | n in ns :: FieldName(n, startJD(n)))
      && (Distinct(ns) ==> |names| == |ns| && forall i :: 0 <= i < |names| ==> names[i] == FieldName(ns[i], startJD(ns[i])))
  {
    var d := DictFromPairs(RequestedPairs(ns, startJD));
    var names := FieldNames(d);
    RequestedDictShape(ns, startJD);
    FieldNamesDistinct(d);
    forall x | x in names ensures x in (set n | n in ns :: FieldName(n, startJD(n))) {
      var i :| 0 <= i < |names| && names[i] == x;
      assert d[i] in d;
      assert d[i].0 in Keys(d);
    }
    forall n | n in ns ensures FieldName(n, startJD(n)) in names {
      assert n in Keys(d);
      var p :| p in d && p.0 == n;
      var i :| 0 <= i < |d| && d[i] == p;
      assert names[i] == FieldName(n, startJD(n));
    }
  }

  const SelectFrom: string := " FROM object_coefficients WHERE "
  const SelectWhere: string := SelectFrom + DesigColumn + "=?"

  /** The SELECT statement of query_object_coefficients. */
  function SelectSql(names: seq<string>): string {
    "SELECT " + Join(", ", names) + SelectWhere
  }

  lemma SelectFromHasNoPlaceholder()
    ensures '?' !in SelectFrom
  {
    assert SelectFrom == " FROM " + "object_" + "coefficients" + " WHERE ";
  }

  lemma {:induction false} OneMarkAfter(a: string)
    requires '?' !in a
    ensures Count(a + "=?", '?') == 1
  {
    CountAbsent(a, '?');
    assert Count("=?", '?') == 1 by {
      assert "=?"[1..] == "?";
      assert "?"[1..] == [];
    }
    CountAppend(a, "=?", '?');
  }

  lemma SelectWhereHasOnePlaceholder()
    ensures Count(SelectWhere, '?') == 1
  {
    SelectFromHasNoPlaceholder();
    DesigColumnHasNoPlaceholder();
    assert '?' !in SelectFrom + DesigColumn;
    OneMarkAfter(SelectFrom + DesigColumn);
  }

  /**
   * Whatever sectors are requested, the SELECT of query_object_coefficients has
   * a single `?`, the one the designation is bound to.
   */
  lemma SelectBindsOnlyDesignation(cfg: Config, sectorNumbers: Option<seq<int>>)
    ensures Count(SelectSql(QueryFieldNames(cfg, sectorNumbers)), '?') == 1
  {
    var d := match sectorNumbers
      case None => cfg.requiredSectors
      case Some(ns) => DictFromPairs(RequestedPairs(ns, cfg.startJD));
    var names := FieldNames(d);
    assert QueryFieldNames(cfg, sectorNumbers) == names;
    forall i | 0 <= i < |names| ensures '?' !in names[i] {
      FieldNameHasNoPlaceholder(d[i].0, d[i].1);
    }
    JoinAvoids(", ", names, '?');
    CountAbsent("SELECT ", '?');
    CountAbsent(Join(", ", names), '?');
    SelectWhereHasOnePlaceholder();
    CountAppend("SELECT ", Join(", ", names), '?');
    CountAppend("SELECT " + Join(", ", names), SelectWhere, '?');
  }
}
