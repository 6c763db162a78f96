/**
 * Properties of the message decoders: the error-first rule, which decoders
 * write the caller's frame in place, how bulk fields accumulate, the
 * exception markers, the row each ticker, field or position lands in.
 */
module DecodeProperties {
  import opened Wrappers
  import opened Messages
  import Names
  import opened Tables
  import opened DecodeSpec

  // ------------------------------------------------------ in-place writers

  /** Field ids and mnemonics of the field-info entries that can be read. */
  function Mnemonics(items: seq<Element>): set<string>
  {
    if items == [] then {}
    else (match FieldInfoEntry(items[0]) case None => {} case Some(e) => {e.mnemonic}) + Mnemonics(items[1..])
  }

  /** Field info writes in place: index entries stay, new rows are keyed by a mnemonic. */
  lemma {:induction false} FieldInfoRowsInPlace(items: seq<Element>, t: Table)
    ensures var d := FieldInfoRows(items, t);
      !d.Raised? && d.stored.columns == t.columns && t.rows.Keys <= d.stored.rows.Keys
      && (d.Decoded? ==> d.returned == d.stored)
      && (forall k :: k in d.stored.rows && k !in t.rows ==> k.Label? && k.text in Mnemonics(items))
  {
    if items != [] {
      match FieldInfoEntry(items[0])
      case None =>
      case Some(e) =>
        var next := SetRow(t, FieldInfoKey(t, e.id, e.mnemonic), e.row);
        FieldInfoRowsInPlace(items[1..], next);
    }
  }

  /** Reference data writes in place; on a failure the rows written so far stay. */
  lemma {:induction false} SecurityRowsInPlace(fieldId: Option<string>, secs: seq<Element>, t: Table)
    ensures var d := SecurityRowsKeyed(fieldId, secs, t);
      !d.Raised? && d.stored.columns == t.columns && t.rows.Keys <= d.stored.rows.Keys
      && (d.Decoded? ==> d.returned == d.stored)
  {
    if secs != [] {
      match SecurityRowKeyed(fieldId, secs[0])
      case None =>
      case Some(r) => SecurityRowsInPlace(fieldId, secs[1..], SetRow(t, Label(r.0), r.1));
    }
  }

  /** `k` is one of the positions `lo` .. `hi - 1`. */
  predicate InRange(k: Key, lo: int, hi: int)
  {
    k.Pos? && lo <= k.pos < hi
  }

  /** Cash rows go into the caller's frame. */
  lemma {:induction false} CashRowsInPlace(fieldId: Option<string>, rows: seq<Element>, next: int, t: Table)
    ensures var d := CashRowsKeyed(fieldId, rows, next, t);
      !d.Raised? && d.stored.columns == t.columns && t.rows.Keys <= d.stored.rows.Keys
      && (d.Decoded? ==> d.returned == d.stored)
  {
    if rows != [] {
      match CashRowKeyed(fieldId, rows[0])
      case None =>
      case Some(row) => CashRowsInPlace(fieldId, rows[1..], next + 1, SetRow(t, Pos(next), row));
    }
  }

  /** Cash rows land at positions `next`, `next + 1`, ...; no other row changes. */
  lemma {:induction false} CashRowsAt(fieldId: Option<string>, rows: seq<Element>, next: int, t: Table)
    ensures var d := CashRowsKeyed(fieldId, rows, next, t);
      d.Decoded? ==>
        (forall k :: k in d.stored.rows <==> k in t.rows || InRange(k, next, next + |rows|))
        && forall k :: k in t.rows && !InRange(k, next, next + |rows|) ==> d.stored.rows[k] == t.rows[k]
  {
    if rows != [] {
      match CashRowKeyed(fieldId, rows[0])
      case None =>
      case Some(row) => CashRowsAt(fieldId, rows[1..], next + 1, SetRow(t, Pos(next), row));
    }
  }

  /**
   * The row loop the position and cash decoders share, over any per-entry
   * series: entry `i` is written at position `next + i`, and the first entry
   * that cannot be read stops the loop with the rows written so far.
   */
  function WriteRows(series: Element -> Option<Row>, rows: seq<Element>, next: int, t: Table): Decoded
  {
    if rows == [] then Decoded(t, t)
    else
      match series(rows[0])
      case None => Fault(t)
      case Some(row) => WriteRows(series, rows[1..], next + 1, SetRow(t, Pos(next), row))
  }

  /** A row outside the positions the loop writes is kept. */
  lemma {:induction false} WriteRowsKeep(series: Element -> Option<Row>, rows: seq<Element>, next: int, t: Table, k: Key)
    requires k in t.rows && !InRange(k, next, next + |rows|)
    ensures WriteRows(series, rows, next, t).Decoded? ==>
      var s := WriteRows(series, rows, next, t).stored;
      k in s.rows && s.rows[k] == t.rows[k]
  {
    if rows != [] && WriteRows(series, rows, next, t).Decoded? {
      var t' := SetRow(t, Pos(next), series(rows[0]).value);
      assert k != Pos(next);
      WriteRowsKeep(series, rows[1..], next + 1, t', k);
    }
  }

  /** Entry `i`'s series lands at position `next + i`, aligned on the frame's columns. */
  lemma {:induction false} WriteRowsContent(series: Element -> Option<Row>, rows: seq<Element>, next: int, t: Table, i: int)
    requires 0 <= i < |rows|
    ensures WriteRows(series, rows, next, t).Decoded? ==>
      var s := WriteRows(series, rows, next, t).stored;
      series(rows[i]).Some? && Pos(next + i) in s.rows && s.rows[Pos(next + i)] == Align(t.columns, series(rows[i]).value)
  {
    if WriteRows(series, rows, next, t).Decoded? {
      var t' := SetRow(t, Pos(next), series(rows[0]).value);
      if i > 0 {
        WriteRowsContent(series, rows[1..], next + 1, t', i - 1);
        assert rows[1..][i - 1] == rows[i];
        assert next + 1 + (i - 1) == next + i;
      } else {
        WriteRowsKeep(series, rows[1..], next + 1, t', Pos(next));
      }
    }
  }

  /**
   * Frame `s` holds, at each position `next + i` with `i < |rows|`, entry `i`'s
   * series aligned on `columns`.
   */
  ghost predicate RowsWritten(s: Table, series: Element -> Option<Row>, rows: seq<Element>, next: int, columns: set<string>)
  {
    forall k :: InRange(k, next, next + |rows|) ==>
      series(rows[k.pos - next]).Some? && k in s.rows
      && s.rows[k] == Align(columns, series(rows[k.pos - next]).value)
  }

  /** The cash loop is the shared row loop over `CashRow`. */
  lemma {:induction false} CashRowsWrite(rows: seq<Element>, next: int, t: Table)
    ensures CashRows(rows, next, t) == WriteRows(CashRow, rows, next, t)
  {
    if rows != [] {
      match CashRow(rows[0])
      case None =>
      case Some(row) => CashRowsWrite(rows[1..], next + 1, SetRow(t, Pos(next), row));
    }
  }

  /** The `i`-th cash row's series lands at position `next + i`, aligned on the frame's columns. */
  lemma CashRowsContent(rows: seq<Element>, next: int, t: Table, i: int)
    requires 0 <= i < |rows|
    ensures CashRows(rows, next, t).Decoded? ==>
      var s := CashRows(rows, next, t).stored;
      CashRow(rows[i]).Some? && Pos(next + i) in s.rows && s.rows[Pos(next + i)] == Align(t.columns, CashRow(rows[i]).value)
  {
    CashRowsWrite(rows, next, t);
    WriteRowsContent(CashRow, rows, next, t, i);
  }

  /** Every balance's series lands at its position, aligned on the frame's columns. */
  lemma CashRowsContentAll(rows: seq<Element>, next: int, t: Table)
    ensures CashRows(rows, next, t).Decoded? ==> RowsWritten(CashRows(rows, next, t).stored, CashRow, rows, next, t.columns)
  {
    forall k | InRange(k, next, next + |rows|)
      ensures CashRows(rows, next, t).Decoded? ==>
        var s := CashRows(rows, next, t).stored;
        CashRow(rows[k.pos - next]).Some? && k in s.rows && s.rows[k] == Align(t.columns, CashRow(rows[k.pos - next]).value)
    {
      CashRowsContent(rows, next, t, k.pos - next);
    }
  }

  // ---------------------------------------------------------------- errors

  /** The error-first rule for one decoder's outcome `d` on `msg`. */
  predicate ErrorFirst(kind: DecoderKind, msg: Element, d: Decoded)
  {
    (GetElement(msg, Names.ResponseError).Some? ==>
       d == Raised(MsgErrorText(GetElement(msg, Names.ResponseError).value)))
    && (!HasElement(msg, Names.ResponseError) && !HasElement(msg, PayloadName(kind)) ==>
          d == Raised(UnknownText(kind, msg)))
    && (d.Raised? <==> HasElement(msg, Names.ResponseError) || !HasElement(msg, PayloadName(kind)))
  }

  lemma FieldListErrorFirst(kind: DecoderKind, msg: Element, t: Table)
    requires kind == FieldList || kind == FieldSearch
    ensures ErrorFirst(kind, msg, Decode(kind, msg, t))
  {
  }

  lemma FieldInfoErrorFirst(msg: Element, t: Table)
    ensures ErrorFirst(FieldInfo, msg, FieldInfoRequest(msg, t))
    ensures FieldInfoRequest(msg, t).Decoded? ==> FieldInfoRequest(msg, t).returned == FieldInfoRequest(msg, t).stored
  {
    if !HasElement(msg, Names.ResponseError) && HasElement(msg, Names.FieldData) {
      FieldInfoRowsInPlace(Values(GetElement(msg, Names.FieldData).value), t);
    }
  }

  lemma ReferenceDataErrorFirst(msg: Element, t: Table)
    ensures ErrorFirst(ReferenceData, msg, ReferenceDataResponse(msg, t))
    ensures ReferenceDataResponse(msg, t).Decoded? ==> ReferenceDataResponse(msg, t).returned == ReferenceDataResponse(msg, t).stored
  {
    if !HasElement(msg, Names.ResponseError) && HasElement(msg, Names.SecurityData) {
      SecurityRowsInPlace(Some(Names.FieldId), Values(GetElement(msg, Names.SecurityData).value), t);
    }
  }

  lemma HistoricalDataErrorFirst(msg: Element, t: Table)
    ensures ErrorFirst(HistoricalData, msg, HistoricalDataResponse(msg, t))
  {
  }

  lemma IntradayTickErrorFirst(msg: Element, t: Table)
    ensures ErrorFirst(IntradayTick, msg, IntradayTickData(msg, t))
  {
  }

  lemma AimPositionErrorFirst(msg: Element, t: Table)
    ensures ErrorFirst(AimPosition, msg, AimPositionData(msg, t))
  {
  }

  /** Past the error and payload checks, the cash decoder is its row loop. */
  lemma AimCashRowLoop(msg: Element, t: Table, cashData: Element, positions: Element)
    requires GetElement(msg, Names.ResponseError).None?
    requires GetElement(msg, Names.CashBalanceData) == Some(cashData)
    requires GetElement(cashData, Names.DataRow) == Some(positions)
    ensures AimCashService(msg, t) == CashRows(Values(positions), |t.rows| + 1, t)
  {
  }

  lemma AimCashErrorFirst(msg: Element, t: Table)
    ensures ErrorFirst(AimCash, msg, AimCashService(msg, t))
  {
    match GetElement(msg, Names.ResponseError)
    case Some(err) =>
      assert AimCashService(msg, t) == Raised(MsgErrorText(err));
    case None =>
      match GetElement(msg, Names.CashBalanceData)
      case None =>
        assert AimCashService(msg, t) == Raised(UnknownText(AimCash, msg));
      case Some(cashData) =>
        match GetElement(cashData, Names.DataRow)
        case None =>
          assert AimCashService(msg, t) == Fault(t);
        case Some(positions) =>
          AimCashRowLoop(msg, t, cashData, positions);
          CashRowsInPlace(Some(Names.FieldId), Values(positions), |t.rows| + 1, t);
  }

  lemma AimCashInPlace(msg: Element, t: Table)
    ensures AimCashService(msg, t).Decoded? ==> AimCashService(msg, t).returned == AimCashService(msg, t).stored
  {
    match GetElement(msg, Names.ResponseError)
    case Some(err) =>
      assert AimCashService(msg, t).Raised?;
    case None =>
      match GetElement(msg, Names.CashBalanceData)
      case None =>
        assert AimCashService(msg, t).Raised?;
      case Some(cashData) =>
        match GetElement(cashData, Names.DataRow)
        case None =>
          assert AimCashService(msg, t).Fault?;
        case Some(positions) =>
          AimCashRowLoop(msg, t, cashData, positions);
          CashRowsInPlace(Some(Names.FieldId), Values(positions), |t.rows| + 1, t);
  }

  /**
   * Every decoder raises the message's fatal error before it reads any data,
   * raises "Unknown message type" when there is neither, and raises nothing
   * else of its own.
   */
  lemma ErrorCheckedFirst(kind: DecoderKind, msg: Element, t: Table)
    ensures GetElement(msg, Names.ResponseError).Some? ==>
              Decode(kind, msg, t) == Raised(MsgErrorText(GetElement(msg, Names.ResponseError).value))
    ensures !HasElement(msg, Names.ResponseError) && !HasElement(msg, PayloadName(kind)) ==>
              Decode(kind, msg, t) == Raised(UnknownText(kind, msg))
    ensures Decode(kind, msg, t).Raised? <==> HasElement(msg, Names.ResponseError) || !HasElement(msg, PayloadName(kind))
  {
    match kind
    case FieldList => FieldListErrorFirst(kind, msg, t);
    case FieldSearch => FieldListErrorFirst(kind, msg, t);
    case FieldInfo => FieldInfoErrorFirst(msg, t);
    case ReferenceData => ReferenceDataErrorFirst(msg, t);
    case HistoricalData => HistoricalDataErrorFirst(msg, t);
    case IntradayTick => IntradayTickErrorFirst(msg, t);
    case AimPosition => AimPositionErrorFirst(msg, t);
    case AimCash => AimCashErrorFirst(msg, t);
  }

  /** The decoders that build a new frame never write the caller's. */
  lemma CallerFrameUntouched(kind: DecoderKind, msg: Element, t: Table)
    requires kind in {FieldList, FieldSearch, HistoricalData, IntradayTick, AimPosition}
    ensures !Decode(kind, msg, t).Raised? ==> Decode(kind, msg, t).stored == t
  {
  }

  /** The decoders that write in place return the frame they wrote. */
  lemma InPlaceWritersReturnTheirFrame(kind: DecoderKind, msg: Element, t: Table)
    requires kind in {FieldInfo, ReferenceData, AimCash}
    ensures Decode(kind, msg, t).Decoded? ==> Decode(kind, msg, t).returned == Decode(kind, msg, t).stored
  {
    match kind
    case FieldInfo => FieldInfoErrorFirst(msg, t);
    case ReferenceData => ReferenceDataErrorFirst(msg, t);
    case AimCash => AimCashInPlace(msg, t);
  }

  // ------------------------------------------------------------ bulk fields

  function NamesOf(elems: seq<Element>): set<string>
  {
    if elems == [] then {} else {elems[0].name} + NamesOf(elems[1..])
  }

  /** The value of the last element called `k`, if any. */
  function LastNamed(elems: seq<Element>, k: string): Option<string>
  {
    if elems == [] then None
    else
      match LastNamed(elems[1..], k)
      case Some(v) => Some(v)
      case None => if elems[0].name == k then AsString(elems[0]) else None
  }

  /** Only a name that occurs has a last value. */
  lemma {:induction false} LastNamedOccurs(elems: seq<Element>, k: string)
    ensures LastNamed(elems, k).Some? ==> k in NamesOf(elems)
  {
    if elems != [] {
      LastNamedOccurs(elems[1..], k);
    }
  }

  /** The first sub-row sets one column per element, holding the value of the last element of that name. */
  lemma {:induction false} FirstSubRowFixesKeys(elems: seq<Element>, bulk: BulkTable)
    ensures FirstSubRow(elems, bulk).Some? ==>
      var b := FirstSubRow(elems, bulk).value;
      b.Keys == bulk.Keys + NamesOf(elems)
      && (forall k :: k in NamesOf(elems) ==> |b[k]| == 1)
      && (forall k :: k in NamesOf(elems) ==> LastNamed(elems, k).Some? && b[k] == [LastNamed(elems, k).value])
      && (forall k :: k in bulk && k !in NamesOf(elems) ==> b[k] == bulk[k])
  {
    if elems != [] && FirstSubRow(elems, bulk).Some? {
      var v := AsString(elems[0]).value;
      var next := bulk[elems[0].name := [v]];
      FirstSubRowFixesKeys(elems[1..], next);
      var b := FirstSubRow(elems, bulk).value;
      assert b == FirstSubRow(elems[1..], next).value;
      forall k | k in NamesOf(elems)
        ensures LastNamed(elems, k).Some? && b[k] == [LastNamed(elems, k).value]
      {
        LastNamedOccurs(elems[1..], k);
      }
    }
  }

  /** The value one element contributes to column `k`: its value if it is valid and called `k`. */
  function ValidValue(e: Element, k: string): seq<string>
  {
    if e.valid && e.name == k && AsString(e).Some? then [AsString(e).value] else []
  }

  /** The values a sub-row contributes to column `k`: its valid elements called `k`. */
  function ValidNamed(elems: seq<Element>, k: string): seq<string>
  {
    if elems == [] then [] else ValidValue(elems[0], k) + ValidNamed(elems[1..], k)
  }

  /** A later sub-row keeps the columns, and every valid element must name one of them. */
  lemma {:induction false} LaterSubRowKeys(elems: seq<Element>, bulk: BulkTable)
    ensures LaterSubRow(elems, bulk).Some? ==>
      LaterSubRow(elems, bulk).value.Keys == bulk.Keys
      && forall i :: 0 <= i < |elems| && elems[i].valid ==> elems[i].name in bulk
  {
    if elems != [] && LaterSubRow(elems, bulk).Some? {
      LaterSubRowKeys(elems[1..], AppendValid(elems[0], bulk).value);
      forall i | 0 <= i < |elems| && elems[i].valid
        ensures elems[i].name in bulk
      {
        if i > 0 {
          assert elems[i] == elems[1..][i - 1];
        }
      }
    }
  }

  /** A later sub-row appends to column `k` exactly its valid values called `k`. */
  lemma {:induction false} LaterSubRowColumn(elems: seq<Element>, bulk: BulkTable, k: string)
    requires k in bulk
    ensures LaterSubRow(elems, bulk).Some? ==>
      var b := LaterSubRow(elems, bulk).value;
      k in b && b[k] == bulk[k] + ValidNamed(elems, k)
  {
    if elems != [] && LaterSubRow(elems, bulk).Some? {
      var e := elems[0];
      var next := AppendValid(e, bulk).value;
      assert k in next && next[k] == bulk[k] + ValidValue(e, k);
      LaterSubRowColumn(elems[1..], next, k);
      assert bulk[k] + ValidValue(e, k) + ValidNamed(elems[1..], k) == bulk[k] + (ValidValue(e, k) + ValidNamed(elems[1..], k));
    }
  }

  /** What every later sub-row contributes to column `k`. */
  function SubRowsNamed(items: seq<Element>, k: string): seq<string>
  {
    if items == [] then [] else ValidNamed(Children(items[0]), k) + SubRowsNamed(items[1..], k)
  }

  /** The later sub-rows keep the columns, and every valid element must name one of them. */
  lemma {:induction false} LaterSubRowsKeys(items: seq<Element>, bulk: BulkTable)
    ensures LaterSubRows(items, bulk).Some? ==>
      LaterSubRows(items, bulk).value.Keys == bulk.Keys
      && forall i, j :: 0 <= i < |items| && 0 <= j < |Children(items[i])| && Children(items[i])[j].valid ==>
           Children(items[i])[j].name in bulk
  {
    if items != [] && LaterSubRows(items, bulk).Some? {
      var next := LaterSubRow(Children(items[0]), bulk).value;
      LaterSubRowKeys(Children(items[0]), bulk);
      LaterSubRowsKeys(items[1..], next);
      forall i, j | 0 <= i < |items| && 0 <= j < |Children(items[i])| && Children(items[i])[j].valid
        ensures Children(items[i])[j].name in bulk
      {
        if i > 0 {
          assert items[i] == items[1..][i - 1];
        }
      }
    }
  }

  /** The later sub-rows append to column `k` their valid values called `k`, in order. */
  lemma {:induction false} LaterSubRowsColumn(items: seq<Element>, bulk: BulkTable, k: string)
    requires k in bulk
    ensures LaterSubRows(items, bulk).Some? ==>
      var b := LaterSubRows(items, bulk).value;
      k in b && b[k] == bulk[k] + SubRowsNamed(items, k)
  {
    if items != [] && LaterSubRows(items, bulk).Some? {
      var next := LaterSubRow(Children(items[0]), bulk).value;
      LaterSubRowColumn(Children(items[0]), bulk, k);
      LaterSubRowsColumn(items[1..], next, k);
      assert bulk[k] + ValidNamed(Children(items[0]), k) + SubRowsNamed(items[1..], k)
          == bulk[k] + (ValidNamed(Children(items[0]), k) + SubRowsNamed(items[1..], k));
    }
  }

  /**
   * A bulk field's columns are the elements of its first sub-row; each column
   * holds the first sub-row's value followed by the valid values of the later
   * sub-rows, so a column a later sub-row lacks ends up shorter.
   */
  lemma BulkFieldShape(items: seq<Element>)
    requires items != []
    ensures BulkData(items).Some? ==>
      var b := BulkData(items).value;
      b.Keys == NamesOf(Children(items[0]))
      && (forall k :: k in b ==> |b[k]| == 1 + |SubRowsNamed(items[1..], k)| && b[k][1..] == SubRowsNamed(items[1..], k))
      && (forall k :: k in b ==>
            LastNamed(Children(items[0]), k).Some? && b[k][0] == LastNamed(Children(items[0]), k).value)
  {
    if BulkData(items).Some? {
      var first := FirstSubRow(Children(items[0]), map[]).value;
      FirstSubRowFixesKeys(Children(items[0]), map[]);
      LaterSubRowsKeys(items[1..], first);
      var b := BulkData(items).value;
      forall k | k in b
        ensures |b[k]| == 1 + |SubRowsNamed(items[1..], k)| && b[k][1..] == SubRowsNamed(items[1..], k)
        ensures LastNamed(Children(items[0]), k).Some? && b[k][0] == LastNamed(Children(items[0]), k).value
      {
        LaterSubRowsColumn(items[1..], first, k);
      }
    }
  }

  /** A valid element of a later sub-row that the first sub-row lacks raises KeyError. */
  lemma BulkNewColumnRaises(items: seq<Element>, i: int, j: int)
    requires 1 <= i < |items| && 0 <= j < |Children(items[i])|
    requires Children(items[i])[j].valid && Children(items[i])[j].name !in NamesOf(Children(items[0]))
    ensures BulkData(items).None?
  {
    if BulkData(items).Some? {
      var first := FirstSubRow(Children(items[0]), map[]).value;
      FirstSubRowFixesKeys(Children(items[0]), map[]);
      LaterSubRowsKeys(items[1..], first);
    }
  }

  // ------------------------------------------------------- scalar fields

  /** The fields that leave a cell: bulk fields, and scalars that are valid. */
  function WrittenNames(fields: seq<Element>): set<string>
  {
    if fields == [] then {}
    else (if IsArray(fields[0]) || fields[0].valid then {fields[0].name} else {}) + WrittenNames(fields[1..])
  }

  /** The cell one field leaves: its nested table, its value when it is a valid scalar, or none. */
  function CellOf(f: Element): Option<Cell>
  {
    if IsArray(f) then
      match BulkData(Values(f)) case Some(b) => Some(Bulk(b)) case None => None
    else if f.valid then
      match AsString(f) case Some(v) => Some(Val(v)) case None => None
    else None
  }

  /** The cell of the last field called `k` that leaves one, if any. */
  function LastCellFor(fields: seq<Element>, k: string): Option<Cell>
  {
    if fields == [] then None
    else
      match LastCellFor(fields[1..], k)
      case Some(c) => Some(c)
      case None => if fields[0].name == k then CellOf(fields[0]) else None
  }

  /** Only a field that leaves a cell has a last cell. */
  lemma {:induction false} LastCellWritten(fields: seq<Element>, k: string)
    ensures LastCellFor(fields, k).Some? ==> k in WrittenNames(fields)
  {
    if fields != [] {
      LastCellWritten(fields[1..], k);
    }
  }

  /**
   * An invalid scalar field leaves no cell; every other field sets its own,
   * and the cell holds the last such field's value or nested table.
   */
  lemma {:induction false} FieldCellsWritten(fields: seq<Element>, series: Row)
    ensures FieldCells(fields, series).Some? ==>
      var r := FieldCells(fields, series).value;
      r.Keys == series.Keys + WrittenNames(fields)
      && (forall k :: k in WrittenNames(fields) ==> LastCellFor(fields, k) == Some(r[k]))
      && forall k :: k in series && k !in WrittenNames(fields) ==> r[k] == series[k]
  {
    if fields != [] && FieldCells(fields, series).Some? {
      var f := fields[0];
      var next := if IsArray(f) then series[f.name := Bulk(BulkData(Values(f)).value)]
                  else if f.valid then series[f.name := Val(AsString(f).value)]
                  else series;
      assert FieldCells(fields, series) == FieldCells(fields[1..], next);
      FieldCellsWritten(fields[1..], next);
      var r := FieldCells(fields, series).value;
      forall k | k in WrittenNames(fields)
        ensures LastCellFor(fields, k) == Some(r[k])
      {
        LastCellWritten(fields[1..], k);
      }
    }
  }

  // ---------------------------------------------------------- exceptions

  predicate IsErrorMarker(c: Cell)
  {
    c.Val? && |c.text| >= 7 && c.text[..7] == "ERROR: "
  }

  /** The fields named by the exceptions that can be read. */
  function ExceptionFields(fes: seq<Element>): set<string>
  {
    if fes == [] then {}
    else (match ExceptionField(fes[0]) case None => {} case Some(f) => {f}) + ExceptionFields(fes[1..])
  }

  /** The category an exception reports, if it can be read. */
  function ExceptionCategory(fe: Element): Option<string>
  {
    var info :- GetElement(fe, Names.ErrorInfo);
    GetString(info, Names.Category)
  }

  /** The category of the last readable exception naming `f`, if any does. */
  function LastCategory(fes: seq<Element>, f: string): Option<string>
  {
    if fes == [] then None
    else
      match LastCategory(fes[1..], f)
      case Some(c) => Some(c)
      case None => if ExceptionField(fes[0]) == Some(f) then ExceptionCategory(fes[0]) else None
  }

  lemma {:induction false} LastCategoryNamed(fes: seq<Element>, f: string)
    ensures LastCategory(fes, f).Some? ==> f in ExceptionFields(fes)
  {
    if fes != [] {
      LastCategoryNamed(fes[1..], f);
    }
  }

  /** The marked row has the series' cells and the exceptions' fields; unnamed cells are kept. */
  lemma {:induction false} ExceptionsMarkKeys(fes: seq<Element>, series: Row)
    ensures MarkExceptions(fes, series).Some? ==>
      var r := MarkExceptions(fes, series).value;
      r.Keys == series.Keys + ExceptionFields(fes)
      && (forall c :: c in series && c !in ExceptionFields(fes) ==> r[c] == series[c])
  {
    if fes != [] && MarkExceptions(fes, series).Some? {
      var info := GetElement(fes[0], Names.ErrorInfo).value;
      var category := GetString(info, Names.Category).value;
      var field := GetString(info, Names.FieldId).value;
      assert ExceptionField(fes[0]) == Some(field);
      ExceptionsMarkKeys(fes[1..], series[field := Val(ErrorMarker(category))]);
    }
  }

  /** A named field's cell holds the marker of the last exception naming it. */
  lemma {:induction false} ExceptionsMarkLast(fes: seq<Element>, series: Row)
    ensures MarkExceptions(fes, series).Some? ==>
      var r := MarkExceptions(fes, series).value;
      forall f :: f in ExceptionFields(fes) ==>
        f in r && LastCategory(fes, f).Some? && r[f] == Val(ErrorMarker(LastCategory(fes, f).value))
  {
    if fes != [] && MarkExceptions(fes, series).Some? {
      var info := GetElement(fes[0], Names.ErrorInfo).value;
      var category := GetString(info, Names.Category).value;
      var field := GetString(info, Names.FieldId).value;
      assert ExceptionField(fes[0]) == Some(field);
      assert ExceptionCategory(fes[0]) == Some(category);
      var next := series[field := Val(ErrorMarker(category))];
      assert MarkExceptions(fes, series) == MarkExceptions(fes[1..], next);
      ExceptionsMarkLast(fes[1..], next);
      ExceptionsMarkKeys(fes[1..], next);
      LastCategoryNamed(fes[1..], field);
    }
  }

  /**
   * Each exception marks its field's cell with 'ERROR: <category>', the last
   * exception naming a field winning; every other cell is left alone.
   */
  lemma ExceptionsMarkCells(fes: seq<Element>, series: Row)
    ensures MarkExceptions(fes, series).Some? ==>
      var r := MarkExceptions(fes, series).value;
      r.Keys == series.Keys + ExceptionFields(fes)
      && (forall f :: f in ExceptionFields(fes) ==>
            LastCategory(fes, f).Some? && r[f] == Val(ErrorMarker(LastCategory(fes, f).value)) && IsErrorMarker(r[f]))
      && (forall c :: c in series && c !in ExceptionFields(fes) ==> r[c] == series[c])
  {
    ExceptionsMarkKeys(fes, series);
    ExceptionsMarkLast(fes, series);
    forall category: string
      ensures ErrorMarker(category)[..7] == "ERROR: "
    {
    }
  }

  /**
   * A security's row: its field cells, then every field exception overwrites
   * its field with 'ERROR: <category>' of the last exception naming it.
   */
  lemma ExceptionsAfterFields(sd: Element, fieldData: Element, series: Row)
    requires GetElement(sd, Names.FieldData) == Some(fieldData)
    requires FieldCells(Children(fieldData), map[]) == Some(series)
    requires SecurityCells(sd).Some?
    ensures var row := SecurityCells(sd).value;
      match GetElement(sd, Names.FieldExceptions)
      case None => row == series
      case Some(fes) =>
        (forall f :: f in ExceptionFields(Values(fes)) ==>
           f in row && LastCategory(Values(fes), f).Some?
           && row[f] == Val(ErrorMarker(LastCategory(Values(fes), f).value)))
        && (forall c :: c in series && c !in ExceptionFields(Values(fes)) ==> c in row && row[c] == series[c])
  {
    assert SecurityCells(sd) == WithExceptions(sd, series);
    match GetElement(sd, Names.FieldExceptions)
    case None =>
    case Some(fes) => ExceptionsMarkCells(Values(fes), series);
  }

  // ------------------------------------------------------ ticker rows

  /** The row the last security called `ticker` brings, if any does. */
  function LastRowFor(secs: seq<Element>, ticker: string): Option<Row>
  {
    if secs == [] then None
    else
      match LastRowFor(secs[1..], ticker)
      case Some(row) => Some(row)
      case None =>
        match SecurityRow(secs[0])
        case Some(r) => if r.0 == ticker then Some(r.1) else None
        case None => None
  }

  /**
   * Each ticker's row is replaced by the last row the response brings for it;
   * rows of other tickers are left alone.
   */
  lemma {:induction false} TickerRowReplaced(secs: seq<Element>, t: Table)
    ensures SecurityRows(secs, t).Decoded? ==>
      var s := SecurityRows(secs, t).stored;
      s.columns == t.columns
      && (forall k :: k in s.rows <==> k in t.rows || (k.Label? && LastRowFor(secs, k.text).Some?))
      && (forall ticker :: LastRowFor(secs, ticker).Some? ==>
            Label(ticker) in s.rows && s.rows[Label(ticker)] == Align(t.columns, LastRowFor(secs, ticker).value))
      && (forall k :: k in t.rows && !(k.Label? && LastRowFor(secs, k.text).Some?) ==> s.rows[k] == t.rows[k])
  {
    if secs != [] && SecurityRows(secs, t).Decoded? {
      var r := SecurityRow(secs[0]).value;
      var u := SetRow(t, Label(r.0), r.1);
      assert SecurityRows(secs, t) == SecurityRows(secs[1..], u);
      TickerRowReplaced(secs[1..], u);
      var s := SecurityRows(secs, t).stored;
      forall ticker | LastRowFor(secs, ticker).Some?
        ensures Label(ticker) in s.rows && s.rows[Label(ticker)] == Align(t.columns, LastRowFor(secs, ticker).value)
      {
        if LastRowFor(secs[1..], ticker).None? {
          assert ticker == r.0;
        }
      }
    }
  }

  // ---------------------------------------------------------- field info

  /**
   * A field-info entry is written under its field id when the index already
   * has it (a requested id), and under its mnemonic otherwise.
   */
  lemma FieldInfoKeyChoice(item: Element, t: Table)
    requires FieldInfoEntry(item).Some?
    ensures var e := FieldInfoEntry(item).value;
      var d := FieldInfoRows([item], t);
      d.Decoded?
      && (Label(e.id) in t.rows ==> d.stored.rows.Keys == t.rows.Keys && d.stored.rows[Label(e.id)] == Align(t.columns, e.row))
      && (Label(e.id) !in t.rows ==>
            d.stored.rows.Keys == t.rows.Keys + {Label(e.mnemonic)} && d.stored.rows[Label(e.mnemonic)] == Align(t.columns, e.row))
  {
    var e := FieldInfoEntry(item).value;
    assert [item][1..] == [];
    assert FieldInfoRows([item], t) == FieldInfoRows([], SetRow(t, FieldInfoKey(t, e.id, e.mnemonic), e.row));
  }

  predicate IsOverridableProperty(p: Element)
  {
    GetString(p, Names.Id) == Some(FieldOverridable)
  }

  /** Without a 'fieldoverridable' property the flag stays as it was (unset for an entry). */
  lemma {:induction false} OverridableUnset(props: seq<Element>, acc: Option<bool>)
    requires forall i :: 0 <= i < |props| ==> !IsOverridableProperty(props[i])
    ensures OverridableFlag(props, acc).Some? ==> OverridableFlag(props, acc).value == acc
  {
    if props != [] {
      assert !IsOverridableProperty(props[0]);
      forall j | 0 <= j < |props[1..]|
        ensures !IsOverridableProperty(props[1..][j])
      {
        assert props[1..][j] == props[j + 1];
      }
      OverridableUnset(props[1..], acc);
    }
  }

  /**
   * The last 'fieldoverridable' property decides the 'Overridable' flag: true
   * exactly when its value is 'true'.
   */
  lemma {:induction false} OverridableLastWins(props: seq<Element>, acc: Option<bool>, i: int)
    requires 0 <= i < |props| && IsOverridableProperty(props[i])
    requires forall j :: i < j < |props| ==> !IsOverridableProperty(props[j])
    ensures OverridableFlag(props, acc).Some? ==>
      OverridableFlag(props, acc).value == Some(GetString(props[i], Names.Value) == Some("true"))
  {
    if OverridableFlag(props, acc).Some? {
      var rest := props[1..];
      var next := PropertyStep(props[0], acc).value;
      forall j | i - 1 < j < |rest|
        ensures !IsOverridableProperty(rest[j])
      {
        assert rest[j] == props[j + 1];
      }
      if i == 0 {
        assert next == Some(GetString(props[0], Names.Value) == Some("true"));
        OverridableUnset(rest, next);
      } else {
        assert rest[i - 1] == props[i];
        OverridableLastWins(rest, next, i - 1);
      }
    }
  }

  // ---------------------------------------------------------- typed values

  /** A typed value is read under the first of S, D, I and B that it holds. */
  lemma TypedValueFirstMatch(value: Element)
    ensures TypedTag(value) == Some(Names.S) <==> HasElement(value, Names.S)
    ensures TypedTag(value) == Some(Names.D) <==> !HasElement(value, Names.S) && HasElement(value, Names.D)
    ensures TypedTag(value) == Some(Names.I) <==>
      !HasElement(value, Names.S) && !HasElement(value, Names.D) && HasElement(value, Names.I)
    ensures TypedTag(value) == Some(Names.B) <==>
      !HasElement(value, Names.S) && !HasElement(value, Names.D) && !HasElement(value, Names.I) && HasElement(value, Names.B)
    ensures TypedTag(value).None? <==>
      !HasElement(value, Names.S) && !HasElement(value, Names.D) && !HasElement(value, Names.I) && !HasElement(value, Names.B)
  {
    assert Names.S != Names.D && Names.S != Names.I && Names.S != Names.B;
    assert Names.D != Names.I && Names.D != Names.B && Names.I != Names.B;
  }

  // ---------------------------------------------------------- positions

  /** The rows array a position or cash message carries under `payload`; none when missing. */
  function DataRows(msg: Element, payload: string): seq<Element>
  {
    match GetElement(msg, payload)
    case None => []
    case Some(p) =>
      match GetElement(p, Names.DataRow)
      case None => []
      case Some(rows) => Values(rows)
  }

  function PosRange(lo: int, hi: int): set<Key>
  {
    set i | lo <= i < hi :: Pos(i)
  }

  lemma {:induction false} PosRangeSize(lo: int, hi: int)
    requires lo <= hi
    ensures |PosRange(lo, hi)| == hi - lo
    decreases hi - lo
  {
    if lo < hi {
      PosRangeSize(lo, hi - 1);
      assert PosRange(lo, hi) == PosRange(lo, hi - 1) + {Pos(hi - 1)};
    } else {
      assert PosRange(lo, hi) == {};
    }
  }

  /** The rows of `t` sit exactly at positions `lo` .. `hi - 1`. */
  ghost predicate Spans(t: Table, lo: int, hi: int)
  {
    forall k :: k in t.rows <==> InRange(k, lo, hi)
  }

  /** A frame spanning `lo` .. `hi - 1` has `hi - lo` rows. */
  lemma SpanSize(t: Table, lo: int, hi: int)
    requires lo <= hi && Spans(t, lo, hi)
    ensures |t.rows| == hi - lo
  {
    assert t.rows.Keys == PosRange(lo, hi);
    PosRangeSize(lo, hi);
    assert |t.rows| == |t.rows.Keys|;
  }

  /** Rows added right after a span extend it. */
  lemma GrowSpan(t: Table, s: Table, lo: int, count: nat)
    requires Spans(t, lo, lo + |t.rows|)
    requires forall k :: k in s.rows <==> k in t.rows || InRange(k, lo + |t.rows|, lo + |t.rows| + count)
    ensures Spans(s, lo, lo + |t.rows| + count) && |s.rows| == |t.rows| + count
  {
    SpanSize(s, lo, lo + |t.rows| + count);
  }

  /** Position rows land at positions `next`, `next + 1`, ...; no other row changes. */
  lemma {:induction false} PositionRowsAt(rows: seq<Element>, next: int, t: Table)
    ensures PositionRows(rows, next, t).Some? ==>
      var u := PositionRows(rows, next, t).value;
      u.columns == t.columns
      && (forall k :: k in u.rows <==> k in t.rows || InRange(k, next, next + |rows|))
      && forall k :: k in t.rows && !InRange(k, next, next + |rows|) ==> u.rows[k] == t.rows[k]
  {
    if rows != [] && PositionRows(rows, next, t).Some? {
      var row := PositionRow(rows[0]).value;
      PositionRowsAt(rows[1..], next + 1, SetRow(t, Pos(next), row));
    }
  }

  /** The position loop is the shared row loop over `PositionRow`, a failure being `None`. */
  lemma {:induction false} PositionRowsWrite(rows: seq<Element>, next: int, t: Table)
    ensures PositionRows(rows, next, t)
         == if WriteRows(PositionRow, rows, next, t).Decoded? then Some(WriteRows(PositionRow, rows, next, t).stored) else None
  {
    if rows != [] {
      match PositionRow(rows[0])
      case None =>
      case Some(row) => PositionRowsWrite(rows[1..], next + 1, SetRow(t, Pos(next), row));
    }
  }

  /** The `i`-th position's series lands at position `next + i`, aligned on the frame's columns. */
  lemma PositionRowsContent(rows: seq<Element>, next: int, t: Table, i: int)
    requires 0 <= i < |rows|
    ensures PositionRows(rows, next, t).Some? ==>
      var u := PositionRows(rows, next, t).value;
      PositionRow(rows[i]).Some? && Pos(next + i) in u.rows && u.rows[Pos(next + i)] == Align(t.columns, PositionRow(rows[i]).value)
  {
    PositionRowsWrite(rows, next, t);
    WriteRowsContent(PositionRow, rows, next, t, i);
  }

  /** Every position's series lands at its position, aligned on the frame's columns. */
  lemma PositionRowsContentAll(rows: seq<Element>, next: int, t: Table)
    ensures PositionRows(rows, next, t).Some? ==> RowsWritten(PositionRows(rows, next, t).value, PositionRow, rows, next, t.columns)
  {
    forall k | InRange(k, next, next + |rows|)
      ensures PositionRows(rows, next, t).Some? ==>
        var u := PositionRows(rows, next, t).value;
        PositionRow(rows[k.pos - next]).Some? && k in u.rows && u.rows[k] == Align(t.columns, PositionRow(rows[k.pos - next]).value)
    {
      PositionRowsContent(rows, next, t, k.pos - next);
    }
  }

  /** Past the error and payload checks, the position decoder fills a reindexed copy. */
  lemma AimPositionRowLoop(msg: Element, t: Table, asWritten: bool, positionData: Element, positions: Element)
    requires GetElement(msg, Names.ResponseError).None?
    requires GetElement(msg, Names.PositionData) == Some(positionData)
    requires GetElement(positionData, Names.DataRow) == Some(positions)
    ensures var n := |t.rows|;
      var copy := Reindex(t, PositionIndexLength(n, |Values(positions)|, asWritten));
      AimPositionDecode(msg, t, asWritten) ==
        match PositionRows(Values(positions), n + 1, copy)
        case None => Fault(t)
        case Some(filled) => Decoded(t, filled)
  {
  }

  /** The rows of the reindexed copy once the new rows are written from `len(index) + 1` on. */
  lemma FilledCopy(rows: seq<Element>, t: Table, length: nat)
    ensures PositionRows(rows, |t.rows| + 1, Reindex(t, length)).Some? ==>
      var n := |t.rows|;
      var r := PositionRows(rows, n + 1, Reindex(t, length)).value;
      r.columns == t.columns
      && (forall k :: k in r.rows <==> InRange(k, 0, length) || InRange(k, n + 1, n + 1 + |rows|))
      && forall i :: 0 <= i < length && i <= n && Pos(i) in t.rows ==> r.rows[Pos(i)] == t.rows[Pos(i)]
  {
    PositionRowsAt(rows, |t.rows| + 1, Reindex(t, length));
  }

  /** The keys of the frame the position decoder returns, for `n` rows before and `k` new ones. */
  lemma PositionResultKeys(msg: Element, t: Table, asWritten: bool)
    ensures AimPositionDecode(msg, t, asWritten).Decoded? ==>
      var n := |t.rows|;
      var k := |DataRows(msg, Names.PositionData)|;
      var r := AimPositionDecode(msg, t, asWritten).returned;
      r.columns == t.columns
      && (forall j :: j in r.rows <==> InRange(j, 0, PositionIndexLength(n, k, asWritten)) || InRange(j, n + 1, n + 1 + k))
      && forall i :: 0 <= i < PositionIndexLength(n, k, asWritten) && i <= n && Pos(i) in t.rows ==>
           r.rows[Pos(i)] == t.rows[Pos(i)]
  {
    match GetElement(msg, Names.ResponseError)
    case Some(err) =>
      assert AimPositionDecode(msg, t, asWritten).Raised?;
    case None =>
      match GetElement(msg, Names.PositionData)
      case None =>
        assert AimPositionDecode(msg, t, asWritten).Raised?;
      case Some(positionData) =>
        match GetElement(positionData, Names.DataRow)
        case None =>
          assert AimPositionDecode(msg, t, asWritten).Fault?;
        case Some(positions) =>
          AimPositionRowLoop(msg, t, asWritten, positionData, positions);
          FilledCopy(Values(positions), t, PositionIndexLength(|t.rows|, |Values(positions)|, asWritten));
  }

  /**
   * The frame the position decoder returns holds, at position `len(index) + 1 + i`,
   * the series of the message's `i`-th position, aligned on the caller's columns.
   */
  lemma PositionDataRows(msg: Element, t: Table, asWritten: bool, positionData: Element, positions: Element)
    requires GetElement(msg, Names.PositionData) == Some(positionData)
    requires GetElement(positionData, Names.DataRow) == Some(positions)
    ensures AimPositionDecode(msg, t, asWritten).Decoded? ==>
      RowsWritten(AimPositionDecode(msg, t, asWritten).returned, PositionRow, Values(positions), |t.rows| + 1, t.columns)
  {
    if GetElement(msg, Names.ResponseError).None? {
      AimPositionRowLoop(msg, t, asWritten, positionData, positions);
      PositionRowsContentAll(Values(positions), |t.rows| + 1, Reindex(t, PositionIndexLength(|t.rows|, |Values(positions)|, asWritten)));
    }
  }

  /** Frames whose rows sit at positions 0 .. len-1, as the position decoder builds them. */
  ghost predicate Dense(t: Table)
  {
    Spans(t, 0, |t.rows|)
  }

  /** The keys the corrected position decoder leaves make a dense frame. */
  lemma CorrectedSpan(r: Table, n: nat, k: nat)
    requires forall j :: j in r.rows <==> InRange(j, 0, n + k) || InRange(j, n + 1, n + 1 + k)
    ensures Dense(r)
  {
    if k > 0 {
      assert Spans(r, 0, n + k + 1);
      SpanSize(r, 0, n + k + 1);
    } else {
      assert Spans(r, 0, n);
      SpanSize(r, 0, n);
    }
  }

  /**
   * With the reindex length corrected to `len(index) + k`, a dense frame stays
   * dense and every earlier row survives the next message.
   */
  lemma PositionKeepsRows(msg: Element, t: Table)
    requires Dense(t)
    ensures AimPositionData(msg, t).Decoded? ==>
      var r := AimPositionData(msg, t).returned;
      Dense(r) && forall k :: k in t.rows ==> k in r.rows && r.rows[k] == t.rows[k]
  {
    if AimPositionData(msg, t).Decoded? {
      PositionResultKeys(msg, t, false);
      var n := |t.rows|;
      var k := |DataRows(msg, Names.PositionData)|;
      var r := AimPositionData(msg, t).returned;
      CorrectedSpan(r, n, k);
    }
  }

  /**
   * As written the copy is reindexed to `len(index)` positions while new rows
   * start at `len(index) + 1`: a row at position `len(index)` is lost.
   */
  lemma PositionAsWrittenDropsRow(msg: Element, t: Table)
    requires Pos(|t.rows|) in t.rows
    ensures AimPositionDataAsWritten(msg, t).Decoded? ==>
      Pos(|t.rows|) !in AimPositionDataAsWritten(msg, t).returned.rows
  {
    PositionResultKeys(msg, t, true);
  }

  /**
   * The first message of `k > 0` positions leaves its last row at position
   * `len(index)`, so the next message, as written, loses it.
   */
  lemma PositionAsWrittenLosesRow(first: Element, second: Element, t: Table)
    requires t.rows == map[]
    requires AimPositionDataAsWritten(first, t).Decoded? && |DataRows(first, Names.PositionData)| > 0
    ensures var t1 := AimPositionDataAsWritten(first, t).returned;
      Pos(|t1.rows|) in t1.rows
      && (AimPositionDataAsWritten(second, t1).Decoded? ==>
            Pos(|t1.rows|) !in AimPositionDataAsWritten(second, t1).returned.rows)
  {
    PositionResultKeys(first, t, true);
    var k := |DataRows(first, Names.PositionData)|;
    var t1 := AimPositionDataAsWritten(first, t).returned;
    assert Spans(t1, 1, k + 1);
    SpanSize(t1, 1, k + 1);
    PositionAsWrittenDropsRow(second, t1);
  }

  // ------------------------------------------------------------ cash

  /** Frames whose rows sit at positions 1 .. len, as the cash decoder builds them. */
  ghost predicate CashDense(t: Table)
  {
    Spans(t, 1, |t.rows| + 1)
  }

  /** Cash rows written from `len(index) + 1` on keep a frame dense. */
  lemma CashRowsDense(rows: seq<Element>, t: Table)
    requires CashDense(t)
    ensures CashRows(rows, |t.rows| + 1, t).Decoded? ==>
      var s := CashRows(rows, |t.rows| + 1, t).stored;
      CashDense(s) && |s.rows| == |t.rows| + |rows|
      && forall k :: k in t.rows ==> k in s.rows && s.rows[k] == t.rows[k]
  {
    var d := CashRows(rows, |t.rows| + 1, t);
    CashRowsAt(Some(Names.FieldId), rows, |t.rows| + 1, t);
    if d.Decoded? {
      GrowSpan(t, d.stored, 1, |rows|);
      forall k | k in t.rows
        ensures k in d.stored.rows && d.stored.rows[k] == t.rows[k]
      {
        assert !InRange(k, |t.rows| + 1, |t.rows| + 1 + |rows|);
      }
    }
  }

  /** Cash rows are appended after the existing ones, which all stay. */
  lemma CashAppendsRows(msg: Element, t: Table)
    requires CashDense(t)
    ensures AimCashService(msg, t).Decoded? ==>
      var s := AimCashService(msg, t).stored;
      CashDense(s) && |s.rows| == |t.rows| + |DataRows(msg, Names.CashBalanceData)|
      && forall k :: k in t.rows ==> k in s.rows && s.rows[k] == t.rows[k]
  {
    match GetElement(msg, Names.ResponseError)
    case Some(err) =>
      assert AimCashService(msg, t).Raised?;
    case None =>
      match GetElement(msg, Names.CashBalanceData)
      case None =>
        assert AimCashService(msg, t).Raised?;
      case Some(cashData) =>
        match GetElement(cashData, Names.DataRow)
        case None =>
          assert AimCashService(msg, t).Fault?;
        case Some(positions) =>
          AimCashRowLoop(msg, t, cashData, positions);
          CashRowsDense(Values(positions), t);
  }

  /**
   * The caller's frame, as the cash decoder leaves it, holds at position
   * `len(index) + 1 + i` the series of the message's `i`-th balance, aligned on
   * its columns.
   */
  lemma CashDataRows(msg: Element, t: Table, cashData: Element, positions: Element)
    requires GetElement(msg, Names.CashBalanceData) == Some(cashData)
    requires GetElement(cashData, Names.DataRow) == Some(positions)
    ensures AimCashService(msg, t).Decoded? ==>
      RowsWritten(AimCashService(msg, t).stored, CashRow, Values(positions), |t.rows| + 1, t.columns)
  {
    if GetElement(msg, Names.ResponseError).None? {
      AimCashRowLoop(msg, t, cashData, positions);
      CashRowsContentAll(Values(positions), |t.rows| + 1, t);
    }
  }

  // ------------------------------------------------------------ ticks

  /** The ticks a message carries; none when missing. */
  function TickValues(msg: Element): seq<Element>
  {
    match GetElement(msg, Names.TickData)
    case None => []
    case Some(returned) =>
      match GetElement(returned, Names.TickData)
      case None => []
      case Some(ticks) => Values(ticks)
  }

  lemma {:induction false} TickRowsAt(ticks: seq<Element>, next: int, columns: set<string>, acc: map<Key, Row>)
    ensures TickRows(ticks, next, columns, acc).Some? ==>
      forall k :: k in TickRows(ticks, next, columns, acc).value <==> k in acc || InRange(k, next, next + |ticks|)
  {
    if ticks != [] && TickRows(ticks, next, columns, acc).Some? {
      var row := TickRow(ticks[0]).value;
      TickRowsAt(ticks[1..], next + 1, columns, acc[Pos(next) := Align(columns, row)]);
    }
  }

  /** Rows outside the ticks' positions are kept. */
  lemma {:induction false} TickRowsKeep(ticks: seq<Element>, next: int, columns: set<string>, acc: map<Key, Row>)
    ensures TickRows(ticks, next, columns, acc).Some? ==>
      var m := TickRows(ticks, next, columns, acc).value;
      forall k :: k in acc && !InRange(k, next, next + |ticks|) ==> k in m && m[k] == acc[k]
  {
    if ticks != [] && TickRows(ticks, next, columns, acc).Some? {
      var row := TickRow(ticks[0]).value;
      var acc' := acc[Pos(next) := Align(columns, row)];
      assert TickRows(ticks, next, columns, acc) == TickRows(ticks[1..], next + 1, columns, acc');
      TickRowsKeep(ticks[1..], next + 1, columns, acc');
      forall k | k in acc && !InRange(k, next, next + |ticks|)
        ensures k in acc' && acc'[k] == acc[k] && !InRange(k, next + 1, next + |ticks|)
      {
        assert k != Pos(next);
      }
    }
  }

  /** One step of the tick fold. */
  lemma TickRowsStep(ticks: seq<Element>, next: int, columns: set<string>, acc: map<Key, Row>)
    requires 0 < |ticks| && TickRows(ticks, next, columns, acc).Some?
    ensures TickRow(ticks[0]).Some?
    ensures TickRows(ticks, next, columns, acc)
         == TickRows(ticks[1..], next + 1, columns, acc[Pos(next) := Align(columns, TickRow(ticks[0]).value)])
  {
  }

  /** The `i`-th tick's row lands at position `next + i`. */
  lemma {:induction false} TickRowsContent(ticks: seq<Element>, next: int, columns: set<string>, acc: map<Key, Row>, i: int)
    requires 0 <= i < |ticks|
    ensures TickRows(ticks, next, columns, acc).Some? ==>
      var m := TickRows(ticks, next, columns, acc).value;
      TickRow(ticks[i]).Some? && Pos(next + i) in m && m[Pos(next + i)] == Align(columns, TickRow(ticks[i]).value)
  {
    if TickRows(ticks, next, columns, acc).Some? {
      TickRowsStep(ticks, next, columns, acc);
      var acc' := acc[Pos(next) := Align(columns, TickRow(ticks[0]).value)];
      if i > 0 {
        TickRowsContent(ticks[1..], next + 1, columns, acc', i - 1);
        assert ticks[i] == ticks[1..][i - 1];
        assert Pos(next + 1 + (i - 1)) == Pos(next + i);
      } else {
        TickRowsKeep(ticks[1..], next + 1, columns, acc');
        assert Pos(next) in acc' && !InRange(Pos(next), next + 1, next + |ticks|);
      }
    }
  }

  /** Aligning twice on the same columns changes nothing. */
  lemma AlignTwice(columns: set<string>, written: Row)
    ensures Align(columns, Align(columns, written)) == Align(columns, written)
  {
  }

  /** A series already within `inner`'s columns loses nothing by being aligned on them first. */
  lemma AlignWithin(inner: set<string>, columns: set<string>, written: Row)
    requires written.Keys <= inner
    ensures Align(columns, Align(inner, written)) == Align(columns, written)
  {
  }

  /** A decoded tick response: ticks that all read, concatenated as a frame on the caller's columns. */
  lemma TickDecoded(msg: Element, t: Table)
    requires IntradayTickData(msg, t).Decoded?
    ensures |TickValues(msg)| > 0 && TickRows(TickValues(msg), 0, t.columns, map[]).Some?
    ensures IntradayTickData(msg, t)
         == Decoded(t, Concat(t, Table(t.columns, TickRows(TickValues(msg), 0, t.columns, map[]).value)))
  {
  }

  /**
   * A tick response is decoded only when it has ticks; tick `i` becomes the
   * row at position `i` of a new frame (its time, type, value and size on the
   * caller's columns), and the caller's frame is untouched.
   */
  lemma TicksConcatenated(msg: Element, t: Table)
    ensures IntradayTickData(msg, t).Decoded? ==>
      var d := IntradayTickData(msg, t);
      var ticks := TickValues(msg);
      |ticks| > 0 && d.stored == t && d.returned.columns == t.columns
      && (forall k :: k in d.returned.rows <==> k in t.rows || InRange(k, 0, |ticks|))
      && (forall i :: 0 <= i < |ticks| ==>
            TickRow(ticks[i]).Some? && d.returned.rows[Pos(i)] == Align(t.columns, TickRow(ticks[i]).value))
  {
    if IntradayTickData(msg, t).Decoded? {
      TickDecoded(msg, t);
      var ticks := TickValues(msg);
      var rows := TickRows(ticks, 0, t.columns, map[]).value;
      var u := Concat(t, Table(t.columns, rows));
      TickRowsAt(ticks, 0, t.columns, map[]);
      forall i | 0 <= i < |ticks|
        ensures TickRow(ticks[i]).Some? && u.rows[Pos(i)] == Align(t.columns, TickRow(ticks[i]).value)
      {
        TickRowsContent(ticks, 0, t.columns, map[], i);
        assert Pos(0 + i) == Pos(i);
        AlignTwice(t.columns, TickRow(ticks[i]).value);
      }
    }
  }

  // ------------------------------------------------------------ field list

  /** The row keys (field ids) of the field-list entries that can be read. */
  function FieldListKeys(items: seq<Element>): set<Key>
  {
    if items == [] then {}
    else (match FieldListEntry(items[0]) case None => {} case Some(e) => {Label(e.0)}) + FieldListKeys(items[1..])
  }

  lemma {:induction false} FieldListRowsKeys(items: seq<Element>, acc: map<Key, Row>)
    ensures FieldListRows(items, acc).Some? ==> FieldListRows(items, acc).value.Keys == acc.Keys + FieldListKeys(items)
  {
    if items != [] && FieldListRows(items, acc).Some? {
      var e := FieldListEntry(items[0]).value;
      FieldListRowsKeys(items[1..], acc[Label(e.0) := Align(FieldListColumns, e.1)]);
    }
  }

  /** The row of the last readable field-list entry for field id `id`, if any. */
  function LastEntryFor(items: seq<Element>, id: string): Option<Row>
  {
    if items == [] then None
    else
      match LastEntryFor(items[1..], id)
      case Some(row) => Some(row)
      case None =>
        match FieldListEntry(items[0])
        case Some(e) => if e.0 == id then Some(e.1) else None
        case None => None
  }

  /** Each field id's row is the last entry for it; other rows are kept. */
  lemma {:induction false} FieldListRowsContent(items: seq<Element>, acc: map<Key, Row>)
    ensures FieldListRows(items, acc).Some? ==>
      var m := FieldListRows(items, acc).value;
      (forall id :: LastEntryFor(items, id).Some? ==>
         Label(id) in m && m[Label(id)] == Align(FieldListColumns, LastEntryFor(items, id).value))
      && (forall k :: k in acc && !(k.Label? && LastEntryFor(items, k.text).Some?) ==> k in m && m[k] == acc[k])
  {
    if items != [] && FieldListRows(items, acc).Some? {
      var e := FieldListEntry(items[0]).value;
      var acc' := acc[Label(e.0) := Align(FieldListColumns, e.1)];
      FieldListRowsContent(items[1..], acc');
      var m := FieldListRows(items, acc).value;
      forall id | LastEntryFor(items, id).Some?
        ensures Label(id) in m && m[Label(id)] == Align(FieldListColumns, LastEntryFor(items, id).value)
      {
        if LastEntryFor(items[1..], id).None? {
          assert id == e.0;
        }
      }
    }
  }

  /** The fields a message lists; none when missing. */
  function Listed(msg: Element): seq<Element>
  {
    match GetElement(msg, Names.FieldData)
    case None => []
    case Some(fieldData) => Values(fieldData)
  }

  /**
   * A field list adds one row per field id to a new frame, with the columns of
   * both frames: the last entry for an id, its other columns missing. The
   * caller's frame is untouched.
   */
  lemma FieldListConcatenated(msg: Element, t: Table)
    ensures FieldListRequest(msg, t).Decoded? ==>
      var d := FieldListRequest(msg, t);
      d.stored == t && d.returned.columns == t.columns + FieldListColumns
      && d.returned.rows.Keys == t.rows.Keys + FieldListKeys(Listed(msg))
      && (forall id :: LastEntryFor(Listed(msg), id).Some? ==>
            Label(id) in d.returned.rows
            && d.returned.rows[Label(id)] == Align(d.returned.columns, LastEntryFor(Listed(msg), id).value))
  {
    if FieldListRequest(msg, t).Decoded? {
      var d := FieldListRequest(msg, t);
      FieldListRowsKeys(Listed(msg), map[]);
      FieldListRowsContent(Listed(msg), map[]);
      forall id | LastEntryFor(Listed(msg), id).Some?
        ensures Label(id) in d.returned.rows
          && d.returned.rows[Label(id)] == Align(d.returned.columns, LastEntryFor(Listed(msg), id).value)
      {
        LastEntryColumns(Listed(msg), id);
        AlignWithin(FieldListColumns, d.returned.columns, LastEntryFor(Listed(msg), id).value);
      }
    }
  }

  lemma {:induction false} LastEntryColumns(items: seq<Element>, id: string)
    ensures LastEntryFor(items, id).Some? ==> LastEntryFor(items, id).value.Keys == FieldListColumns
  {
    if items != [] {
      LastEntryColumns(items[1..], id);
    }
  }
}
