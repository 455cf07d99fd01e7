/** The two sqlite tables of the knowledge store: `knowledge`, whose rows are
    read back in insertion order (the source's queries have no ORDER BY; this
    is the order of SQLite's rowid scan), and the key/value table `meta`. */
module Storage {
  import opened Wrappers

  class Store<R> {
    /** The rows of the `knowledge` table, in insertion order. */
    var rows: seq<R>
    /** The `meta` table. */
    var meta: map<string, string>

    /** The tables as `init_db` leaves them on a first start. */
    constructor ()
      ensures rows == [] && meta == map[]
    {
      rows := [];
      meta := map[];
    }

    /** `DELETE FROM knowledge`. */
    method DeleteAll()
      modifies this
      ensures rows == [] && meta == old(meta)
    {
      rows := [];
    }

    /** One `INSERT INTO knowledge`. */
    method Insert(row: R)
      modifies this
      ensures rows == old(rows) + [row] && meta == old(meta)
    {
      rows := rows + [row];
    }

    /** `executemany` of one `INSERT INTO knowledge` per element. */
    method InsertMany(batch: seq<R>)
      modifies this
      ensures rows == old(rows) + batch && meta == old(meta)
    {
      rows := rows + batch;
    }

    /** `set_meta_value`: `REPLACE INTO meta`, an upsert of one key. */
    method SetMetaValue(key: string, value: string)
      modifies this
      ensures meta == old(meta)[key := value] && rows == old(rows)
    {
      meta := meta[key := value];
    }

    /** `get_meta_value`: the value stored under `key`, None when absent. */
    function MetaValue(key: string): (v: Option<string>)
      reads this
      ensures v.Some? <==> key in meta
      ensures v.Some? ==> v.value == meta[key]
    {
      if key in meta then Some(meta[key]) else None
    }
  }
}
