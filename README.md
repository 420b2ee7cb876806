# orbit_cheby SQLite store, modelled in Dafny

`orbit_cheby/sql.py` keeps, for each minor-planet designation, the pickled
Chebyshev coefficients of every time sector in which the object's motion has been
fitted (table `object_coefficients`, one blob column per sector), a table mapping
designations to integer object ids (`object_desig`), and a spatial-time index of
the (JD, HEALPix) cells each object occupies (`objects_by_jdhp`).

This project models two things:

- **Sector column naming and statement construction** (`sector_fields.dfy`,
  `decimal.dfy`). `generate_sector_field_names` is `FieldNames`. A column name is
  `sector_<n>_<jd>`, with the numbers written as Python's `%d` writes them. The
  module also builds the column spec of the coefficient table's CREATE TABLE, the
  parallel field, value and placeholder lists of `upsert_MSC`, and the SELECT list
  of `query_object_coefficients`. A Python dict passed in as input (the sector
  dict, the coefficients of an MSC) is modelled by its items in iteration order.
- **The three-table store** (`tables.dfy`, `store.dfy`). The database is the class
  `OrbitStore.Database`, whose fields are the three tables. `insert_desig`,
  `upsert_MSC`, `delete_JDHP_by_name` and `upsert_HP` are methods that update
  those fields. Each method's postcondition ties the new tables to a function in
  `Tables` that states what the SQL statement does. The queries are functions of
  the tables. SQLite's own behaviour is written out where it matters:
  - `INSERT OR REPLACE` deletes the conflicting row before inserting, so sector
    columns an upsert does not supply become NULL.
  - a new `integer PRIMARY KEY` row gets one more than the largest key present.
  - a statement naming an unknown column fails and changes nothing.
  - `SELECT  FROM` (an empty column list) does not parse.
  - `fetchall()[0]` on no rows raises.

Errors are values (`Wrappers.Error`): `SyntaxError` and `NoSuchColumn` for
sqlite3's OperationalError, `NoRow` for the IndexError of `fetchall()[0]`, and
`LengthMismatch` for the assertion in `upsert_HP`.

The orbit-model configuration is the parameter `Config`. It holds the full
sector → start-JD dict (`get_required_sector_dict()`) and the start JD of a sector
(`map_sector_number_to_sector_start_JD(n, standard_MJDmin)`).

### Where the model departs from the code as written

The code has four defects. In each case the model follows what the code evidently
intends:

- `delete_JDHP_by_name` uses a multi-table `DELETE objects_by_jdhp, object_desig
  FROM ... INNER JOIN ...` (orbit_cheby/sql.py:331-334). That statement does not parse
  in SQLite, so as written `cur.execute` (orbit_cheby/sql.py:335) raises
  `sqlite3.OperationalError` and nothing is deleted. Under the multi-table
  semantics it is written for, it would also delete the `object_desig` row. The
  model does what the comment at orbit_cheby/sql.py:329-330 says: it deletes only the
  object's `objects_by_jdhp` rows and keeps the designation.
- `upsert_HP` calls `upsert_desig` (orbit_cheby/sql.py:278), and no such function
  exists. As written, `upsert_HP` never reaches that line: the delete it calls
  first (orbit_cheby/sql.py:275) raises the OperationalError above, and no table
  changes. With the delete corrected, line 278 would raise NameError after the
  object's rows were deleted. The model calls `insert_desig`
  (`Database.InsertDesig`) there.
- `query_JDHP_by_name` passes a cursor where `query_number_by_desig` expects a
  connection (orbit_cheby/sql.py:398). As written this raises AttributeError. The model
  performs the intended id lookup.
- `query_JDHP_by_name` returns only the first matching row (orbit_cheby/sql.py:403),
  although its docstring (orbit_cheby/sql.py:392) says it returns all of them. The
  model keeps what the code does.

Two behaviours of the code are easy to miss. The model follows the code in both:

- `upsert_MSC` uses `INSERT OR REPLACE` (orbit_cheby/sql.py:252). SQLite deletes the
  existing row first, so every sector column the upsert does not supply becomes
  NULL. Earlier coefficients of other sectors are not kept.
- `upsert_MSC` never registers the designation in `object_desig`. The coefficient
  table is keyed by the designation text. Only `objects_by_jdhp` rows are required
  to refer to a registered object id (`Database.Valid`).

## Model

| member | source | states |
|---|---|---|
| Decimal.FormatIntRoundTrip | orbit_cheby/sql.py:107 | the `%d` text of any integer, sign included, reads back as that integer |
| SectorFields.FieldNameRoundTrip | orbit_cheby/sql.py:107 | the name `sector_<n>_<jd>` parses back to exactly (n, jd), so a name determines its sector and start JD |
| SectorFields.FieldNamesDescribeSectors | orbit_cheby/sql.py:105-107 | one name per dict item, in iteration order; the i-th name is `sector_<n>_<jd>` of the i-th item |
| SectorFields.FieldNamesDistinct | orbit_cheby/sql.py:105-107 | distinct sector numbers give pairwise distinct column names |
| SectorFields.ColumnSpecLayout | orbit_cheby/sql.py:156-164 | the sector column spec is every name followed by ` blob`, separated by `, `; with no names it is a lone ` blob` |
| SectorFields.UpsertListsAligned | orbit_cheby/sql.py:242-249 | field and value lists have equal length, one more than the sector count; the designation comes last in both; the i-th value is the pickled array of the sector the i-th field names; no field is named twice |
| SectorFields.PlaceholderCount | orbit_cheby/sql.py:252 | the joined placeholder list holds exactly one `?` per value |
| SectorFields.UpsertPlaceholdersMatchParams | orbit_cheby/sql.py:252-256 | the whole upsert statement has exactly as many `?` as bound parameters |
| SectorFields.DictFromPairsShape | orbit_cheby/sql.py:373-377 | a dict built from pairs has each key once and only pairs from the input; with distinct keys it keeps the pairs and their order |
| SectorFields.RequestedDictShape | orbit_cheby/sql.py:370-377 | the requested-sector dict holds each requested sector exactly once, with its start JD, in request order when there are no repeats |
| SectorFields.RequestedFieldNames | orbit_cheby/sql.py:373-377 | the names selected for requested sectors are pairwise distinct, are exactly `sector_<n>_<jd>` for the requested n with their start JDs, and follow the request order when nothing is requested twice |
| SectorFields.QueryFieldNames | orbit_cheby/sql.py:370-377 | with no sector numbers, one name per configured sector, each parsing back to that sector and its start JD; with sector numbers, the names RequestedFieldNames describes |
| SectorFields.SelectBindsOnlyDesignation | orbit_cheby/sql.py:379-382 | whatever sectors are requested, the SELECT has a single `?`, the one the designation is bound to |
| SectorFields.CoefficientsTableColumns | orbit_cheby/sql.py:156-164 | the CREATE TABLE text is the `id` and designation head, then `<name> blob` for each sector name in order, separated by `, `, then `); `; with no sectors a lone ` blob` takes their place |
| Tables.InsertIgnore | orbit_cheby/sql.py:304-306 | the designation is present afterwards; existing designations keep their ids; no other key is added; the id invariants (ids in 1..max, max attained, injective) are preserved |
| Tables.InsertIgnoreIdempotent | orbit_cheby/sql.py:304-312 | inserting the same designation again leaves object_desig unchanged |
| Tables.InsertIgnoreDistinctIds | orbit_cheby/sql.py:304-312 | two distinct designations receive distinct ids |
| Tables.LookupId | orbit_cheby/sql.py:410-413 | succeeds exactly when the designation has a row, and then returns that row's id, which no other designation has; otherwise fails with NoRow |
| Tables.FreshIdHasNoRows | orbit_cheby/sql.py:304-306 | the id a new designation receives is carried by no jdhp row that refers to a registered object, so deleting that id removes nothing |
| Tables.InsertOrReplace | orbit_cheby/sql.py:252-257 | fails with NoSuchColumn exactly when a field is not a column, changing nothing; otherwise the designation's row holds exactly the given blobs, every other column is NULL, and other designations' rows are unchanged |
| Tables.InsertOrReplaceIdempotent | orbit_cheby/sql.py:252-257 | repeating a successful upsert with the same inputs leaves the table as it was after the first |
| Tables.SelectCoefficients | orbit_cheby/sql.py:379-386 | succeeds exactly when the list is non-empty, every column exists and the designation has a row; the result's keys are exactly the requested columns holding non-NULL values, each mapped to its unpickled blob |
| Tables.UpsertThenSelect | orbit_cheby/sql.py:242-257 | after upserting M, reading every column back gives exactly M's sector arrays keyed by their column names |
| Tables.DeleteObject | orbit_cheby/sql.py:331-335 | no row of the object remains, and every row of another object remains |
| Tables.CellsAfterDelete | orbit_cheby/sql.py:329-335 | after the delete the object has no cells, and every other object's cells are unchanged and in order |
| Tables.ReplaceCellsExact | orbit_cheby/sql.py:275-289 | after the delete and bulk insert, the object's cells are exactly `zip(JDlist, HPlist)` in order, with nothing left from before |
| Tables.ReplaceCellsKeepsOthers | orbit_cheby/sql.py:275-289 | other objects' cells and rows are unchanged by the replace |
| Tables.ReplaceCellsIdempotent | orbit_cheby/sql.py:260-292 | replacing an object's cells twice with the same lists equals replacing them once |
| Tables.FirstCell | orbit_cheby/sql.py:401-403 | fails with NoRow exactly when the object has no row; otherwise it returns the (jd, hp) of the object's first row in the table's (rowid) order |
| OrbitStore.Database.constructor | orbit_cheby/sql.py:109-204 | creating the three tables on an empty database leaves them empty, with one coefficient column per configured sector |
| OrbitStore.Database.InsertDesig | orbit_cheby/sql.py:295-312 | object_desig becomes InsertIgnore of the old table; the returned id maps back to the designation; a known designation changes nothing; the other tables are unchanged |
| OrbitStore.Database.UpsertMSC | orbit_cheby/sql.py:212-257 | the coefficient table becomes InsertOrReplace of the old one, built from M's sector names and pickled arrays, or stays unchanged and the error is returned; the other tables are unchanged |
| OrbitStore.Database.DeleteJdhpByName | orbit_cheby/sql.py:322-336 | a known designation loses exactly its jdhp rows and an unknown one changes nothing; object_desig is kept |
| OrbitStore.Database.UpsertHP | orbit_cheby/sql.py:260-292 | unequal list lengths fail with LengthMismatch before any change; otherwise the designation is registered and the jdhp rows become ReplaceCells of the old rows, so the object's cells are exactly `zip(JDlist, HPlist)` |
| OrbitStore.Database.QueryNumberByDesig | orbit_cheby/sql.py:405-413 | succeeds exactly when the designation is registered, returning its id, which no other designation has; otherwise fails with NoRow |
| OrbitStore.Database.QueryObjectCoefficients | orbit_cheby/sql.py:346-386 | succeeds exactly when the selected list is non-empty, every selected column exists and the object has a row, so an empty request is a syntax error; the keys are the selected names whose column is non-NULL, which lie among the configured sectors or the requested ones; each value is the unpickled blob |
| OrbitStore.Database.QueryJdhpByName | orbit_cheby/sql.py:390-403 | fails exactly when the designation is unknown or has no rows; otherwise it returns the first stored (jd, hp) of its object |

## Left out

- `fetch_db_filepath`, `create_connection` and `create_table` (orbit_cheby/sql.py:52-102): file paths, connecting, and printing and swallowing errors are I/O. The constructor models creating the tables on an empty database only.
- Secondary indexes (orbit_cheby/sql.py:134-135, 201-204): they only affect speed and are not modelled. They lack `IF NOT EXISTS`, so calling `create_object_desig_table` or `create_objects_by_jdhp_table` a second time raises.
- `query_coefficients_by_hp` (orbit_cheby/sql.py:416-426): the source leaves it unfinished (a bare string and no return), so the cell-to-objects lookup is not modelled.
- The `id` rowid columns of `object_coefficients` and `objects_by_jdhp` are not modelled. The jdhp table is a sequence in rowid order.
- Database.QueryJdhpByName, Tables.FirstCell: the model returns the object's first row in rowid (insertion) order. The SELECT at orbit_cheby/sql.py:401 has no `ORDER BY`, so SQL does not fix which row `fetchall()[0]` returns. Rowid order is only what SQLite's scan of the `object_id` index happens to give. The model fixes that order; the source does not promise it.
- Database.constructor, Database.UpsertMSC, Database.QueryObjectCoefficients: a negative sector number or start JD gives a column name with a minus sign, such as `sector_-1_5`. SQLite cannot parse that as a column name. As a result, `create_table` prints and swallows the error and creates no coefficient table (orbit_cheby/sql.py:98-102), and the upsert and SELECT raise OperationalError. The model accepts such names as ordinary columns. Its results for negative sector numbers or start JDs, including UpsertThenSelect, describe behaviour the program does not have.
- pickle and numpy: an array is an opaque `Coeffs` value, and a blob is `Pickled(c)`, which `Loads` inverts. Floating-point values are not interpreted.
- The configuration singleton: `Config` is a parameter. Start JDs are integers, so `%d` truncating a float start JD is not modelled.
- Changing the configured sectors after the table exists: the column set is fixed at creation. An upsert naming a new sector then fails with NoSuchColumn.
- Database.InsertDesig, Database.UpsertHP: require a designation without an apostrophe. `insert_desig` pastes the designation between single quotes (orbit_cheby/sql.py:304), and `upsert_HP` reaches it, so an apostrophe breaks or alters the statement. Quoting and injection are not modelled.
- Database.QueryObjectCoefficients: takes the sector numbers as a sequence. The source zips `sector_numbers` directly, so a single integer would raise there.
- The statement texts are built and their placeholders counted, but SQL parsing is not modelled. Each statement's effect is given directly by a function in `Tables`.
- The as-written failures described above are not modelled: the SQLite parse error of the multi-table DELETE, which also stops `upsert_HP` before any change; the NameError `upsert_HP` would raise once the delete parses; and the AttributeError in `query_JDHP_by_name`.
- Database.QueryObjectCoefficients: returns a map, so the order of the result dict is lost. The code builds that dict in SELECT-list order (orbit_cheby/sql.py:385).
- SQLite integers are 64-bit, and the model's integers are unbounded. Past an id of 2^63-1 SQLite picks a random unused rowid, not one more than the largest. A `jd` or `hp` value sqlite3 cannot bind as a 64-bit integer raises OverflowError. Neither is modelled.
- Commits, concurrency, and the window between the delete and the insert of `upsert_HP`: the methods apply their changes as one step.
