/**
 * The tabular result a request accumulates: the abstract stand-in for the
 * pandas DataFrame the decoders write into.
 */
module Tables {

  /** A row label: a ticker, field id or mnemonic, or a positional index. */
  datatype Key = Label(text: string) | Pos(pos: int)

  /** A cell: missing (NaN), a value, a flag, a list of override names, or a bulk sub-table. */
  datatype Cell =
    | Null
    | Val(text: string)
    | Flag(flag: bool)
    | Listing(items: seq<string>)
    | Bulk(columns: map<string, seq<string>>)

  type Row = map<string, Cell>

  datatype Table = Table(columns: set<string>, rows: map<Key, Row>)

  /** A series aligned on the frame's columns: written cells kept, others missing. */
  function Align(columns: set<string>, written: Row): (r: Row)
    ensures r.Keys == columns
  {
    map c | c in columns :: if c in written then written[c] else Null
  }

  /** A row of missing cells. */
  function Blank(columns: set<string>): (r: Row)
    ensures r.Keys == columns
  {
    map c | c in columns :: Null
  }

  /** `frame.loc[k] = series`: the row for `k` is replaced (or added) by the aligned series. */
  function SetRow(t: Table, k: Key, written: Row): (u: Table)
    ensures u.columns == t.columns && u.rows.Keys == t.rows.Keys + {k}
    ensures u.rows[k] == Align(t.columns, written)
    ensures forall j :: j in t.rows && j != k ==> u.rows[j] == t.rows[j]
  {
    t.(rows := t.rows[k := Align(t.columns, written)])
  }

  /** `frame.reindex(index=range(0, n))`: positions 0..n-1, existing rows kept, new ones blank. */
  function Reindex(t: Table, n: int): (u: Table)
    ensures u.columns == t.columns
    ensures forall k :: k in u.rows <==> k.Pos? && 0 <= k.pos < n
    ensures forall i :: 0 <= i < n && Pos(i) in t.rows ==> u.rows[Pos(i)] == t.rows[Pos(i)]
  {
    t.(rows := map i | 0 <= i < n :: Pos(i) := if Pos(i) in t.rows then t.rows[Pos(i)] else Blank(t.columns))
  }

  /**
   * `pd.concat([frame, other])`: the columns are joined, a row gets a missing
   * cell for a column its frame lacks, and a label in both keeps `other`'s row.
   */
  function Concat(t: Table, other: Table): (u: Table)
    ensures u.columns == t.columns + other.columns
    ensures u.rows.Keys == t.rows.Keys + other.rows.Keys
    ensures forall k :: k in other.rows ==> u.rows[k] == Align(u.columns, other.rows[k])
    ensures forall k :: k in t.rows && k !in other.rows ==> u.rows[k] == Align(u.columns, t.rows[k])
  {
    var columns := t.columns + other.columns;
    Table(columns, map k | k in t.rows.Keys + other.rows.Keys ::
                     if k in other.rows then Align(columns, other.rows[k]) else Align(columns, t.rows[k]))
  }

  /** A frame the decoders write into in place (`output_data`). */
  class Frame {
    var columns: set<string>
    var rows: map<Key, Row>

    /** The frame's current contents. */
    function Snapshot(): Table
      reads this
    {
      Table(columns, rows)
    }

    constructor (t: Table)
      ensures Snapshot() == t
    {
      columns := t.columns;
      rows := t.rows;
    }

    /** `frame.loc[k] = series`. */
    method WriteRow(k: Key, written: Row)
      modifies this
      ensures Snapshot() == SetRow(old(Snapshot()), k, written)
    {
      rows := rows[k := Align(columns, written)];
    }
  }
}
