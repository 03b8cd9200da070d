/**
 * The article table (`prepare_storage` and `store_record`,
 * ML_LAB5.py:38-89): rows keyed by their unique `url`, written with
 * `INSERT OR IGNORE`. The generated `guid`, the insertion timestamp and
 * whether the write raises (lock timeout, I/O error) are supplied by the
 * caller as a `WriteEnv`, since they come from `uuid4`, the clock and the
 * database file.
 */
module Store {
  import opened Wrappers
  import opened Extractor

  datatype Row = Row(
    guid: string,
    title: string,
    description: string,
    publishedAt: Option<string>,
    commentsCount: int,
    createdAtUtc: string,
    rating: int)

  datatype WriteEnv = WriteEnv(guid: string, createdAtUtc: string, fails: bool)

  function Guids(rows: map<string, Row>): set<string> {
    set u | u in rows :: rows[u].guid
  }

  /** `guid` is the table's primary key: no two rows share one. */
  ghost predicate UniqueGuids(rows: map<string, Row>) {
    forall u, v :: u in rows && v in rows && u != v ==> rows[u].guid != rows[v].guid
  }

  /** The row `store_record` writes for an extracted article. */
  function NewRow(d: Draft, guid: string, createdAtUtc: string): Row {
    Row(guid, d.title, d.description, d.publishedAt, 0, createdAtUtc, 0)
  }

  /** `INSERT OR IGNORE`: the row is added unless its `url` or its `guid`
      is already taken, in which case the table is left as it was. Rows
      already there never change, and at most one row is added. */
  function InsertOrIgnore(rows: map<string, Row>, d: Draft, guid: string, createdAtUtc: string): (r: map<string, Row>)
    ensures forall u :: u in rows ==> u in r && r[u] == rows[u]
    ensures r.Keys <= rows.Keys + {d.url}
    ensures |r| <= |rows| + 1
    ensures d.url in rows ==> r == rows
    ensures guid in Guids(rows) ==> r == rows
    ensures d.url !in rows && guid !in Guids(rows) ==>
      d.url in r && r[d.url] == NewRow(d, guid, createdAtUtc) &&
      r[d.url].guid == guid && r[d.url].title == d.title && r[d.url].description == d.description &&
      r[d.url].publishedAt == d.publishedAt && r[d.url].createdAtUtc == createdAtUtc &&
      r[d.url].commentsCount == 0 && r[d.url].rating == 0
  {
    if d.url in rows || guid in Guids(rows) then rows
    else rows[d.url := NewRow(d, guid, createdAtUtc)]
  }

  /** The table never gets a second row with a `guid` it already holds. */
  lemma InsertKeepsGuidsUnique(rows: map<string, Row>, d: Draft, guid: string, createdAtUtc: string)
    requires UniqueGuids(rows)
    ensures UniqueGuids(InsertOrIgnore(rows, d, guid, createdAtUtc))
    ensures Guids(InsertOrIgnore(rows, d, guid, createdAtUtc)) <= Guids(rows) + {guid}
  {
    var r := InsertOrIgnore(rows, d, guid, createdAtUtc);
    if r != rows {
      forall u | u in rows ensures rows[u].guid in Guids(rows) { }
    }
  }

  /** Inserting the same url twice leaves what the first insert left:
      one row, the first one written. */
  lemma InsertIdempotent(rows: map<string, Row>, d: Draft, e1: WriteEnv, e2: WriteEnv)
    requires e1.guid !in Guids(rows)
    ensures var once := InsertOrIgnore(rows, d, e1.guid, e1.createdAtUtc);
      InsertOrIgnore(once, d, e2.guid, e2.createdAtUtc) == once && d.url in once
  {
  }

  /** The stored articles. */
  class ArticleStore {
    var rows: map<string, Row>

    /** The `guid PRIMARY KEY` of the table: no two rows share a guid.
        Every operation keeps it; no contract needs it as a hypothesis,
        since the insert itself refuses a guid already in use. */
    ghost predicate Valid()
      reads this
    {
      UniqueGuids(rows)
    }

    /** `prepare_storage` on a database file that already holds `existing`
        (empty for a new file): the table is created only if missing. */
    constructor Open(existing: map<string, Row>)
      requires UniqueGuids(existing)
      ensures Valid() && rows == existing
    {
      rows := existing;
    }

    /** `SELECT COUNT(*) FROM articles`. */
    function Count(): nat
      reads this
    {
      |rows|
    }

    /** `SELECT 1 FROM articles WHERE url = ?` found a row. */
    predicate Contains(url: string)
      reads this
    {
      url in rows
    }

    /** `store_record(item)`: reports success whenever the write did not
        raise, also when the row was ignored because its url is already
        stored; on a failed write nothing is committed. */
    method StoreRecord(d: Draft, w: WriteEnv) returns (ok: bool)
      requires Valid()
      modifies this
      ensures Valid()
      ensures ok == !w.fails
      ensures rows == if w.fails then old(rows) else InsertOrIgnore(old(rows), d, w.guid, w.createdAtUtc)
    {
      if w.fails {
        return false;
      }
      InsertKeepsGuidsUnique(rows, d, w.guid, w.createdAtUtc);
      rows := InsertOrIgnore(rows, d, w.guid, w.createdAtUtc);
      ok := true;
    }
  }
}
