/**
 * What each message decoder of the Synchronous class computes
 * (bloomberg_py_wrapper/wrapper_content.py, `_process_msg_error` and the
 * `_process_*` methods), as functions of one message and the frame it is
 * handed.
 *
 * Every decoder checks `responseError` first, then its own payload, and
 * otherwise raises "Unknown message type". A blpapi read that finds no
 * element, or a scalar where it wants a value, raises an exception that is
 * not a protocol error; so does a bulk sub-row that brings a new column.
 */
module DecodeSpec {
  import opened Wrappers
  import opened Messages
  import Names
  import opened Tables

  /** What a decoder call does to the caller. */
  datatype Decoded =
      /** Normal return: the caller's frame after the in-place writes, and the value returned. */
    | Decoded(stored: Table, returned: Table)
      /** A protocol error (`_BloombergError`) with its text. */
    | Raised(text: string)
      /** Any other exception, with the caller's frame as the writes before it left it. */
    | Fault(stored: Table)

  /** The decoder a request registers. */
  datatype DecoderKind =
    | FieldList | FieldSearch | FieldInfo | ReferenceData | HistoricalData
    | IntradayTick | AimPosition | AimCash

  // ---------------------------------------------------------------- errors

  /** One part of a fatal error: the printed element, or '' when it is missing. */
  function PartText(err: Element, n: string): string
  {
    match GetElement(err, n)
    case None => ""
    case Some(part) => Printed(part)
  }

  /** The text `_process_msg_error` raises: 'category: subcategory: message'. */
  function MsgErrorText(err: Element): string
  {
    PartText(err, Names.Category) + ": " + PartText(err, Names.Subcategory) + ": " + PartText(err, Names.MessageText)
  }

  /** The text raised for a message with neither an error nor the payload (the cash decoder misspells it). */
  function UnknownText(kind: DecoderKind, msg: Element): string
  {
    (if kind == AimCash then "Unkown message type: " else "Unknown message type: ") + Printed(msg)
  }

  /** The element each decoder looks for once there is no error. */
  function PayloadName(kind: DecoderKind): string
  {
    match kind
    case FieldList => Names.FieldData
    case FieldSearch => Names.FieldData
    case FieldInfo => Names.FieldData
    case ReferenceData => Names.SecurityData
    case HistoricalData => Names.SecurityData
    case IntradayTick => Names.TickData
    case AimPosition => Names.PositionData
    case AimCash => Names.CashBalanceData
  }

  // ------------------------------------------- field list and field info

  /** The values of an override list, all of which must be scalars. */
  function ScalarValues(items: seq<Element>, acc: seq<string>): Option<seq<string>>
  {
    if items == [] then Some(acc)
    else
      var v :- AsString(items[0]);
      ScalarValues(items[1..], acc + [v])
  }

  /** The 'Overrides' cell: the list of overrides, or missing when there are none. */
  function OverridesCell(overrides: seq<string>): Cell
  {
    if |overrides| > 0 then Listing(overrides) else Null
  }

  /** The columns both field decoders read from a `fieldInfo` element. */
  function Describe(info: Element, withCategory: bool): (r: Option<Row>)
    ensures r.Some? ==> r.value.Keys == if withCategory then FieldListColumns else FieldListColumns - {"Category"}
  {
    var mnemonic :- GetString(info, Names.Mnemonic);
    var description :- GetString(info, Names.Description);
    var dataType :- GetString(info, Names.Datatype);
    var documentation :- GetString(info, Names.Documentation);
    var category :- if withCategory then GetString(info, Names.CategoryName) else Some("");
    var overrides :- GetElement(info, Names.Overrides);
    var listed :- ScalarValues(Values(overrides), []);
    var row := map["Mnemonic" := Val(mnemonic), "Description" := Val(description),
                   "DataType" := Val(dataType), "Documentation" := Val(documentation),
                   "Overrides" := OverridesCell(listed)];
    Some(if withCategory then row["Category" := Val(category)] else row)
  }

  /** One `fieldData` value of a field list: its field id and its row. */
  function FieldListEntry(item: Element): Option<(string, Row)>
  {
    var id :- GetString(item, Names.Id);
    var info :- GetElement(item, Names.FieldInfo);
    var row :- Describe(info, true);
    Some((id, row))
  }

  /** The columns of a field list's temporary frame once it is indexed by field id. */
  const FieldListColumns: set<string> :=
    {"Mnemonic", "Description", "DataType", "Documentation", "Category", "Overrides"}

  /** The rows of a field list's temporary frame, indexed by field id. */
  function FieldListRows(items: seq<Element>, acc: map<Key, Row>): Option<map<Key, Row>>
  {
    if items == [] then Some(acc)
    else
      var entry :- FieldListEntry(items[0]);
      FieldListRows(items[1..], acc[Label(entry.0) := Align(FieldListColumns, entry.1)])
  }

  /** `_process_field_list_request`: the rows are concatenated onto a new frame. */
  function FieldListRequest(msg: Element, t: Table): Decoded
  {
    match GetElement(msg, Names.ResponseError)
    case Some(err) => Raised(MsgErrorText(err))
    case None =>
      match GetElement(msg, Names.FieldData)
      case None => Raised(UnknownText(FieldList, msg))
      case Some(fieldData) =>
        match FieldListRows(Values(fieldData), map[])
        case None => Fault(t)
        case Some(rows) => Decoded(t, Concat(t, Table(FieldListColumns, rows)))
  }

  const FieldOverridable := "fieldoverridable"

  /** One property of a field: a `fieldoverridable` property sets the flag from its value. */
  function PropertyStep(property: Element, flag: Option<bool>): Option<Option<bool>>
  {
    var id :- GetString(property, Names.Id);
    if id == FieldOverridable then
      var value :- GetString(property, Names.Value);
      Some(Some(value == "true"))
    else Some(flag)
  }

  /** The 'Overridable' flag: set by every `fieldoverridable` property, the last one winning. */
  function OverridableFlag(props: seq<Element>, acc: Option<bool>): Option<Option<bool>>
  {
    if props == [] then Some(acc)
    else
      var next :- PropertyStep(props[0], acc);
      OverridableFlag(props[1..], next)
  }

  /** One `fieldData` value of a field-info response. */
  datatype FieldEntry = FieldEntry(id: string, mnemonic: string, row: Row)

  function FieldInfoEntry(item: Element): Option<FieldEntry>
  {
    var id :- GetString(item, Names.Id);
    var info :- GetElement(item, Names.FieldInfo);
    var mnemonic :- GetString(info, Names.Mnemonic);
    var described :- Describe(info, false);
    var props :- GetElement(info, Names.Property);
    var flag :- OverridableFlag(Values(props), None);
    var row := described["fieldId" := Val(id)];
    Some(FieldEntry(id, mnemonic, if flag.Some? then row["Overridable" := Flag(flag.value)] else row))
  }

  /** The row a field-info entry is written to: its field id if the index has it, else its mnemonic. */
  function FieldInfoKey(t: Table, id: string, mnemonic: string): Key
  {
    if Label(id) in t.rows then Label(id) else Label(mnemonic)
  }

  function FieldInfoRows(items: seq<Element>, t: Table): Decoded
  {
    if items == [] then Decoded(t, t)
    else
      match FieldInfoEntry(items[0])
      case None => Fault(t)
      case Some(e) => FieldInfoRows(items[1..], SetRow(t, FieldInfoKey(t, e.id, e.mnemonic), e.row))
  }

  /** `_process_field_info_request`: rows are written into the caller's frame. */
  function FieldInfoRequest(msg: Element, t: Table): Decoded
  {
    match GetElement(msg, Names.ResponseError)
    case Some(err) => Raised(MsgErrorText(err))
    case None =>
      match GetElement(msg, Names.FieldData)
      case None => Raised(UnknownText(FieldInfo, msg))
      case Some(fieldData) => FieldInfoRows(Values(fieldData), t)
  }

  // ------------------------------------------------------ reference data

  type BulkTable = map<string, seq<string>>

  /** The first sub-row of a bulk field fixes the columns, each holding its one value. */
  function FirstSubRow(elems: seq<Element>, bulk: BulkTable): Option<BulkTable>
  {
    if elems == [] then Some(bulk)
    else
      var v :- AsString(elems[0]);
      FirstSubRow(elems[1..], bulk[elems[0].name := [v]])
  }

  /** One element of a later sub-row: a valid value is appended to its column, which must exist. */
  function AppendValid(e: Element, bulk: BulkTable): Option<BulkTable>
  {
    if !e.valid then Some(bulk)
    else if e.name !in bulk then None
    else
      var v :- AsString(e);
      Some(bulk[e.name := bulk[e.name] + [v]])
  }

  /** A later sub-row appends each valid value to its column; a new column raises KeyError. */
  function LaterSubRow(elems: seq<Element>, bulk: BulkTable): Option<BulkTable>
  {
    if elems == [] then Some(bulk)
    else
      var next :- AppendValid(elems[0], bulk);
      LaterSubRow(elems[1..], next)
  }

  function LaterSubRows(items: seq<Element>, bulk: BulkTable): Option<BulkTable>
  {
    if items == [] then Some(bulk)
    else
      var subRow :- AsComplex(items[0]);
      var next :- LaterSubRow(Children(subRow), bulk);
      LaterSubRows(items[1..], next)
  }

  /** The nested table of a bulk field. */
  function BulkData(items: seq<Element>): Option<BulkTable>
  {
    if items == [] then Some(map[])
    else
      var first :- AsComplex(items[0]);
      var bulk :- FirstSubRow(Children(first), map[]);
      LaterSubRows(items[1..], bulk)
  }

  /** The cells of a security's `fieldData`: bulk fields as nested tables, valid scalars as values. */
  function FieldCells(fields: seq<Element>, series: Row): Option<Row>
  {
    if fields == [] then Some(series)
    else if IsArray(fields[0]) then
      var bulk :- BulkData(Values(fields[0]));
      FieldCells(fields[1..], series[fields[0].name := Bulk(bulk)])
    else if fields[0].valid then
      var v :- AsString(fields[0]);
      FieldCells(fields[1..], series[fields[0].name := Val(v)])
    else FieldCells(fields[1..], series)
  }

  /** The cell marker of a field exception. */
  function ErrorMarker(category: string): string
  {
    "ERROR: " + category
  }

  /** The field an exception names. */
  function ExceptionField(fe: Element): Option<string>
  {
    var info :- GetElement(fe, Names.ErrorInfo);
    GetString(info, Names.FieldId)
  }

  /*
   * The exception, position and cash decoders read a field id under the
   * element name the name table gives for it. Their `...Keyed` forms take
   * that lookup as `fieldId`: `None` where the key is missing, so that the
   * lookup raises KeyError. The plain forms use the name the table files
   * under 'fieldId'; the code as written asks for the key 'fieldID'.
   */

  /** Field exceptions overwrite their field's cell with 'ERROR: <category>'. */
  function MarkExceptionsKeyed(fieldId: Option<string>, fes: seq<Element>, series: Row): Option<Row>
  {
    if fes == [] then Some(series)
    else
      var info :- GetElement(fes[0], Names.ErrorInfo);
      var category :- GetString(info, Names.Category);
      var name :- fieldId;
      var field :- GetString(info, name);
      MarkExceptionsKeyed(fieldId, fes[1..], series[field := Val(ErrorMarker(category))])
  }

  function MarkExceptions(fes: seq<Element>, series: Row): Option<Row>
  {
    MarkExceptionsKeyed(Some(Names.FieldId), fes, series)
  }

  /** The field exceptions of a security, applied after its field data. */
  function WithExceptionsKeyed(fieldId: Option<string>, sd: Element, series: Row): Option<Row>
  {
    match GetElement(sd, Names.FieldExceptions)
    case None => Some(series)
    case Some(fes) => MarkExceptionsKeyed(fieldId, Values(fes), series)
  }

  function WithExceptions(sd: Element, series: Row): Option<Row>
  {
    WithExceptionsKeyed(Some(Names.FieldId), sd, series)
  }

  /** The row of one `securityData` value. */
  function SecurityCellsKeyed(fieldId: Option<string>, sd: Element): Option<Row>
  {
    var fieldData :- GetElement(sd, Names.FieldData);
    var series :- FieldCells(Children(fieldData), map[]);
    WithExceptionsKeyed(fieldId, sd, series)
  }

  function SecurityCells(sd: Element): Option<Row>
  {
    SecurityCellsKeyed(Some(Names.FieldId), sd)
  }

  /** One `securityData` value: its ticker and its row. */
  function SecurityRowKeyed(fieldId: Option<string>, sd: Element): Option<(string, Row)>
  {
    var security :- GetElement(sd, Names.Security);
    var ticker :- AsString(security);
    var row :- SecurityCellsKeyed(fieldId, sd);
    Some((ticker, row))
  }

  function SecurityRow(sd: Element): Option<(string, Row)>
  {
    SecurityRowKeyed(Some(Names.FieldId), sd)
  }

  function SecurityRowsKeyed(fieldId: Option<string>, secs: seq<Element>, t: Table): Decoded
  {
    if secs == [] then Decoded(t, t)
    else
      match SecurityRowKeyed(fieldId, secs[0])
      case None => Fault(t)
      case Some(r) => SecurityRowsKeyed(fieldId, secs[1..], SetRow(t, Label(r.0), r.1))
  }

  function SecurityRows(secs: seq<Element>, t: Table): Decoded
  {
    SecurityRowsKeyed(Some(Names.FieldId), secs, t)
  }

  /** `_process_reference_data`: each ticker's row is written into the caller's frame. */
  function ReferenceDataKeyed(fieldId: Option<string>, msg: Element, t: Table): Decoded
  {
    match GetElement(msg, Names.ResponseError)
    case Some(err) => Raised(MsgErrorText(err))
    case None =>
      match GetElement(msg, Names.SecurityData)
      case None => Raised(UnknownText(ReferenceData, msg))
      case Some(sda) => SecurityRowsKeyed(fieldId, Values(sda), t)
  }

  function ReferenceDataResponse(msg: Element, t: Table): Decoded
  {
    ReferenceDataKeyed(Some(Names.FieldId), msg, t)
  }

  /**
   * `_process_historical_data`: past the error check, building its frame
   * with an integer index raises TypeError before anything is written.
   */
  function HistoricalDataResponse(msg: Element, t: Table): Decoded
  {
    match GetElement(msg, Names.ResponseError)
    case Some(err) => Raised(MsgErrorText(err))
    case None =>
      if HasElement(msg, Names.SecurityData) then Fault(t)
      else Raised(UnknownText(HistoricalData, msg))
  }

  // ---------------------------------------------------------- intraday ticks

  function TickRow(tick: Element): Option<Row>
  {
    var time :- GetString(tick, Names.Time);
    var kind :- GetString(tick, Names.Type);
    var value :- GetString(tick, Names.Value);
    var size :- GetString(tick, Names.Size);
    Some(map["time" := Val(time), "type" := Val(kind), "value" := Val(value), "size" := Val(size)])
  }

  /** The temporary frame of ticks, indexed from 0. */
  function TickRows(ticks: seq<Element>, next: int, columns: set<string>, acc: map<Key, Row>): Option<map<Key, Row>>
  {
    if ticks == [] then Some(acc)
    else
      var row :- TickRow(ticks[0]);
      TickRows(ticks[1..], next + 1, columns, acc[Pos(next) := Align(columns, row)])
  }

  /**
   * `_process_intraday_tick_data`: the ticks are concatenated onto a new
   * frame; with no ticks the temporary frame is never bound (UnboundLocalError).
   */
  function IntradayTickData(msg: Element, t: Table): Decoded
  {
    match GetElement(msg, Names.ResponseError)
    case Some(err) => Raised(MsgErrorText(err))
    case None =>
      match GetElement(msg, Names.TickData)
      case None => Raised(UnknownText(IntradayTick, msg))
      case Some(returned) =>
        match GetElement(returned, Names.TickData)
        case None => Fault(t)
        case Some(ticks) =>
          if |Values(ticks)| == 0 then Fault(t)
          else
            match TickRows(Values(ticks), 0, t.columns, map[])
            case None => Fault(t)
            case Some(rows) => Decoded(t, Concat(t, Table(t.columns, rows)))
  }

  // ------------------------------------------------------------ positions

  /** The first of S, D, I and B that a typed value holds. */
  function TypedTag(value: Element): Option<string>
  {
    if HasElement(value, Names.S) then Some(Names.S)
    else if HasElement(value, Names.D) then Some(Names.D)
    else if HasElement(value, Names.I) then Some(Names.I)
    else if HasElement(value, Names.B) then Some(Names.B)
    else None
  }

  /** A position's fields: each typed value is written under its field id. */
  function TypedFieldsKeyed(fieldId: Option<string>, fields: seq<Element>, series: Row): Option<Row>
  {
    if fields == [] then Some(series)
    else
      var value :- GetElement(fields[0], Names.Data);
      match TypedTag(value)
      case None => TypedFieldsKeyed(fieldId, fields[1..], series)
      case Some(tag) =>
        var v :- GetString(value, tag);
        var name :- fieldId;
        var field :- GetString(fields[0], name);
        TypedFieldsKeyed(fieldId, fields[1..], series[field := Val(v)])
  }

  function TypedFields(fields: seq<Element>, series: Row): Option<Row>
  {
    TypedFieldsKeyed(Some(Names.FieldId), fields, series)
  }

  function PositionRowKeyed(fieldId: Option<string>, position: Element): Option<Row>
  {
    var security :- GetElement(position, Names.SecurityItem);
    var account :- GetString(security, Names.BookName);
    var ticker :- GetString(security, Names.SecurityId);
    var name :- GetString(security, Names.SecurityName);
    var fields :- GetElement(position, Names.FieldData);
    TypedFieldsKeyed(fieldId, Values(fields), map["ACCOUNT" := Val(account), "TICKER" := Val(ticker), "NAME" := Val(name)])
  }

  function PositionRow(position: Element): Option<Row>
  {
    PositionRowKeyed(Some(Names.FieldId), position)
  }

  /** Rows written from position `next` on. */
  function PositionRowsKeyed(fieldId: Option<string>, rows: seq<Element>, next: int, t: Table): Option<Table>
  {
    if rows == [] then Some(t)
    else
      var row :- PositionRowKeyed(fieldId, rows[0]);
      PositionRowsKeyed(fieldId, rows[1..], next + 1, SetRow(t, Pos(next), row))
  }

  function PositionRows(rows: seq<Element>, next: int, t: Table): Option<Table>
  {
    PositionRowsKeyed(Some(Names.FieldId), rows, next, t)
  }

  /**
   * The length of the index the position decoder reindexes to, for `n`
   * existing rows and `k` new ones: as written `len(output_data.index + k)`
   * adds `k` to every label and keeps the length `n`; `n + k` is intended.
   */
  function PositionIndexLength(n: nat, k: nat, asWritten: bool): nat
  {
    if asWritten then n else n + k
  }

  /**
   * `_process_aim_position_data`: the rows go into a reindexed copy, which is
   * returned; the caller's frame is never written.
   */
  function AimPositionDecodeKeyed(fieldId: Option<string>, msg: Element, t: Table, asWritten: bool): Decoded
  {
    match GetElement(msg, Names.ResponseError)
    case Some(err) => Raised(MsgErrorText(err))
    case None =>
      match GetElement(msg, Names.PositionData)
      case None => Raised(UnknownText(AimPosition, msg))
      case Some(positionData) =>
        match GetElement(positionData, Names.DataRow)
        case None => Fault(t)
        case Some(positions) => PositionsIntoKeyed(fieldId, positions, t, asWritten)
  }

  function AimPositionDecode(msg: Element, t: Table, asWritten: bool): Decoded
  {
    AimPositionDecodeKeyed(Some(Names.FieldId), msg, t, asWritten)
  }

  /** The position rows, written from `len(index) + 1` on into the reindexed copy of `t`. */
  function PositionsIntoKeyed(fieldId: Option<string>, positions: Element, t: Table, asWritten: bool): Decoded
  {
    var n := |t.rows|;
    var copy := Reindex(t, PositionIndexLength(n, |Values(positions)|, asWritten));
    match PositionRowsKeyed(fieldId, Values(positions), n + 1, copy)
    case None => Fault(t)
    case Some(filled) => Decoded(t, filled)
  }

  function PositionsInto(positions: Element, t: Table, asWritten: bool): Decoded
  {
    PositionsIntoKeyed(Some(Names.FieldId), positions, t, asWritten)
  }

  function AimPositionData(msg: Element, t: Table): Decoded
  {
    AimPositionDecode(msg, t, false)
  }

  function AimPositionDataAsWritten(msg: Element, t: Table): Decoded
  {
    AimPositionDecode(msg, t, true)
  }

  // ------------------------------------------------------------ cash

  /** A cash row's fields: each settle-date cash value under its field id. */
  function CashFieldsKeyed(fieldId: Option<string>, fields: seq<Element>, series: Row): Option<Row>
  {
    if fields == [] then Some(series)
    else
      var v :- GetString(fields[0], Names.SettleDateCash);
      var name :- fieldId;
      var field :- GetString(fields[0], name);
      CashFieldsKeyed(fieldId, fields[1..], series[field := Val(v)])
  }

  function CashFields(fields: seq<Element>, series: Row): Option<Row>
  {
    CashFieldsKeyed(Some(Names.FieldId), fields, series)
  }

  function CashRowKeyed(fieldId: Option<string>, position: Element): Option<Row>
  {
    var account :- GetString(position, Names.Account);
    var strategy :- GetString(position, Names.Strategy);
    var broker :- GetString(position, Names.PrimeBroker);
    var currency :- GetString(position, Names.Currency);
    var fields :- GetElement(position, Names.FieldData);
    CashFieldsKeyed(fieldId, Values(fields), map["ACCOUNT" := Val(account), "STRATEGY" := Val(strategy),
                                                 "PRIME_BROKER" := Val(broker), "CURRENCY" := Val(currency)])
  }

  function CashRow(position: Element): Option<Row>
  {
    CashRowKeyed(Some(Names.FieldId), position)
  }

  function CashRowsKeyed(fieldId: Option<string>, rows: seq<Element>, next: int, t: Table): Decoded
  {
    if rows == [] then Decoded(t, t)
    else
      match CashRowKeyed(fieldId, rows[0])
      case None => Fault(t)
      case Some(row) => CashRowsKeyed(fieldId, rows[1..], next + 1, SetRow(t, Pos(next), row))
  }

  function CashRows(rows: seq<Element>, next: int, t: Table): Decoded
  {
    CashRowsKeyed(Some(Names.FieldId), rows, next, t)
  }

  /**
   * `_process_aim_cash_service`: its reindexed copy is discarded, so the rows
   * go into the caller's frame, from position `len(index) + 1` on.
   */
  function AimCashKeyed(fieldId: Option<string>, msg: Element, t: Table): Decoded
  {
    match GetElement(msg, Names.ResponseError)
    case Some(err) => Raised(MsgErrorText(err))
    case None =>
      match GetElement(msg, Names.CashBalanceData)
      case None => Raised(UnknownText(AimCash, msg))
      case Some(cashData) =>
        match GetElement(cashData, Names.DataRow)
        case None => Fault(t)
        case Some(positions) => CashRowsKeyed(fieldId, Values(positions), |t.rows| + 1, t)
  }

  function AimCashService(msg: Element, t: Table): Decoded
  {
    AimCashKeyed(Some(Names.FieldId), msg, t)
  }

  // ------------------------------------------------------------ dispatch

  /** The decoder a request registered, applied to one message. */
  function Decode(kind: DecoderKind, msg: Element, t: Table): Decoded
  {
    match kind
    case FieldList => FieldListRequest(msg, t)
    case FieldSearch => FieldListRequest(msg, t)
    case FieldInfo => FieldInfoRequest(msg, t)
    case ReferenceData => ReferenceDataResponse(msg, t)
    case HistoricalData => HistoricalDataResponse(msg, t)
    case IntradayTick => IntradayTickData(msg, t)
    case AimPosition => AimPositionData(msg, t)
    case AimCash => AimCashService(msg, t)
  }
}
