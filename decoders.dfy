/**
 * The message decoders of the Synchronous class
 * (bloomberg_py_wrapper/wrapper_content.py, `_process_*`) as they run: loops
 * over the message that write rows into a frame in place, or into a new
 * frame they return. Each is proved to do what its function in DecodeSpec
 * says.
 */
module Decoders {
  import opened Wrappers
  import opened Messages
  import Names
  import opened Tables
  import opened DecodeSpec

  /** What a decoder call gives its caller. */
  datatype Reply =
      /** The frame the decoder returns. */
    | Returned(frame: Frame)
      /** A `_BloombergError` with its text. */
    | RaisedError(text: string)
      /** Any other exception. */
    | Crashed

  function FramesOf(reply: Reply): set<object>
  {
    if reply.Returned? then {reply.frame} else {}
  }

  /**
   * The reply and the caller's frame are what `d` says, for a decoder
   * handed a frame holding `t`; a protocol error leaves the frame alone.
   */
  predicate Agrees(reply: Reply, output: Frame, t: Table, d: Decoded)
    reads output, FramesOf(reply)
  {
    match d
    case Decoded(stored, returned) =>
      reply.Returned? && output.Snapshot() == stored && reply.frame.Snapshot() == returned
    case Raised(text) => reply == RaisedError(text) && output.Snapshot() == t
    case Fault(stored) => reply == Crashed && output.Snapshot() == stored
  }

  // ------------------------------------------- field list and field info

  /** The inner loop over an override list. */
  method ReadOverrides(items: seq<Element>) returns (r: Option<seq<string>>)
    ensures r == ScalarValues(items, [])
  {
    var overrides: seq<string> := [];
    var j := 0;
    while j < |items|
      invariant 0 <= j <= |items|
      invariant ScalarValues(items, []) == ScalarValues(items[j..], overrides)
    {
      assert items[j..][1..] == items[j + 1..];
      var v := AsString(items[j]);
      if v.None? {
        return None;
      }
      overrides := overrides + [v.value];
      j := j + 1;
    }
    assert items[j..] == [];
    return Some(overrides);
  }

  /** The `data_dict` both field decoders fill from a `fieldInfo` element. */
  method ReadDescription(info: Element, withCategory: bool) returns (r: Option<Row>)
    ensures r == Describe(info, withCategory)
  {
    var mnemonic :- GetString(info, Names.Mnemonic);
    var description :- GetString(info, Names.Description);
    var dataType :- GetString(info, Names.Datatype);
    var documentation :- GetString(info, Names.Documentation);
    var category := "";
    if withCategory {
      category :- GetString(info, Names.CategoryName);
    }
    var overrides :- GetElement(info, Names.Overrides);
    var listed :- ReadOverrides(Values(overrides));
    var row := map["Mnemonic" := Val(mnemonic), "Description" := Val(description),
                   "DataType" := Val(dataType), "Documentation" := Val(documentation),
                   "Overrides" := OverridesCell(listed)];
    if withCategory {
      row := row["Category" := Val(category)];
    }
    return Some(row);
  }

  /** One `fieldData` value of a field list: its field id and its `data_dict`. */
  method ReadFieldListEntry(item: Element) returns (r: Option<(string, Row)>)
    ensures r == FieldListEntry(item)
  {
    var id :- GetString(item, Names.Id);
    var info :- GetElement(item, Names.FieldInfo);
    var row :- ReadDescription(info, true);
    return Some((id, row));
  }

  /** An entry that reads as `entry` is indexed by its field id, and the fold goes on from the next one. */
  lemma FieldListRowsStep(items: seq<Element>, acc: map<Key, Row>, entry: (string, Row))
    requires items != [] && FieldListEntry(items[0]) == Some(entry)
    ensures FieldListRows(items, acc) == FieldListRows(items[1..], acc[Label(entry.0) := Align(FieldListColumns, entry.1)])
  {
  }

  /** `_process_field_list_request` (and `_process_field_search_request`): a new frame is returned. */
  method ProcessFieldListRequest(msg: Element, output: Frame) returns (reply: Reply)
    ensures Agrees(reply, output, output.Snapshot(), FieldListRequest(msg, output.Snapshot()))
    ensures reply.Returned? ==> fresh(reply.frame)
  {
    var err := GetElement(msg, Names.ResponseError);
    if err.Some? {
      return RaisedError(MsgErrorText(err.value));
    }
    var fieldData := GetElement(msg, Names.FieldData);
    if fieldData.None? {
      return RaisedError(UnknownText(FieldList, msg));
    }
    var items := Values(fieldData.value);
    var rows: map<Key, Row> := map[];
    var i := 0;
    while i < |items|
      invariant 0 <= i <= |items|
      invariant FieldListRows(items, map[]) == FieldListRows(items[i..], rows)
    {
      assert items[i..][0] == items[i] && items[i..][1..] == items[i + 1..];
      var entry := ReadFieldListEntry(items[i]);
      if entry.None? {
        return Crashed;
      }
      FieldListRowsStep(items[i..], rows, entry.value);
      rows := rows[Label(entry.value.0) := Align(FieldListColumns, entry.value.1)];
      i := i + 1;
    }
    assert items[i..] == [];
    var concatenated := new Frame(Concat(output.Snapshot(), Table(FieldListColumns, rows)));
    return Returned(concatenated);
  }

  /** The inner loop over a field's properties. */
  method ReadOverridable(props: seq<Element>) returns (r: Option<Option<bool>>)
    ensures r == OverridableFlag(props, None)
  {
    var flag: Option<bool> := None;
    var j := 0;
    while j < |props|
      invariant 0 <= j <= |props|
      invariant OverridableFlag(props, None) == OverridableFlag(props[j..], flag)
    {
      assert props[j..][1..] == props[j + 1..];
      var id := GetString(props[j], Names.Id);
      if id.None? {
        return None;
      }
      if id.value == FieldOverridable {
        var value := GetString(props[j], Names.Value);
        if value.None? {
          return None;
        }
        flag := Some(value.value == "true");
      }
      j := j + 1;
    }
    assert props[j..] == [];
    return Some(flag);
  }

  method ReadFieldInfoEntry(item: Element) returns (r: Option<FieldEntry>)
    ensures r == FieldInfoEntry(item)
  {
    var id :- GetString(item, Names.Id);
    var info :- GetElement(item, Names.FieldInfo);
    var mnemonic :- GetString(info, Names.Mnemonic);
    var described :- ReadDescription(info, false);
    var props :- GetElement(info, Names.Property);
    var flag :- ReadOverridable(Values(props));
    var row := described["fieldId" := Val(id)];
    if flag.Some? {
      row := row["Overridable" := Flag(flag.value)];
    }
    return Some(FieldEntry(id, mnemonic, row));
  }

  /** `_process_field_info_request`: rows are written into the caller's frame, which is returned. */
  method ProcessFieldInfoRequest(msg: Element, output: Frame) returns (reply: Reply)
    modifies output
    ensures Agrees(reply, output, old(output.Snapshot()), FieldInfoRequest(msg, old(output.Snapshot())))
    ensures reply.Returned? ==> reply.frame == output
  {
    var err := GetElement(msg, Names.ResponseError);
    if err.Some? {
      return RaisedError(MsgErrorText(err.value));
    }
    var fieldData := GetElement(msg, Names.FieldData);
    if fieldData.None? {
      return RaisedError(UnknownText(FieldInfo, msg));
    }
    var items := Values(fieldData.value);
    ghost var t := output.Snapshot();
    var i := 0;
    while i < |items|
      invariant 0 <= i <= |items|
      invariant FieldInfoRows(items, t) == FieldInfoRows(items[i..], output.Snapshot())
    {
      assert items[i..][1..] == items[i + 1..];
      var entry := ReadFieldInfoEntry(items[i]);
      if entry.None? {
        return Crashed;
      }
      var ref := if Label(entry.value.id) in output.rows then Label(entry.value.id) else Label(entry.value.mnemonic);
      output.WriteRow(ref, entry.value.row);
      i := i + 1;
    }
    assert items[i..] == [];
    return Returned(output);
  }

  // ------------------------------------------------------ reference data

  /** The nested table of a bulk field: the first sub-row makes the columns, later ones append. */
  method ReadBulk(items: seq<Element>) returns (r: Option<BulkTable>)
    ensures r == BulkData(items)
  {
    var bulk: BulkTable := map[];
    var i := 0;
    while i < |items|
      invariant 0 <= i <= |items|
      invariant i == 0 ==> bulk == map[]
      invariant i > 0 ==> BulkData(items) == LaterSubRows(items[i..], bulk)
    {
      assert items[i..][0] == items[i] && items[i..][1..] == items[i + 1..];
      var subRow := AsComplex(items[i]);
      if subRow.None? {
        return None;
      }
      var elems := Children(subRow.value);
      ghost var before := bulk;
      var j := 0;
      if i == 0 {
        while j < |elems|
          invariant 0 <= j <= |elems|
          invariant FirstSubRow(elems, map[]) == FirstSubRow(elems[j..], bulk)
        {
          assert elems[j..][1..] == elems[j + 1..];
          var v := AsString(elems[j]);
          if v.None? {
            return None;
          }
          bulk := bulk[elems[j].name := [v.value]];
          j := j + 1;
        }
      } else {
        while j < |elems|
          invariant 0 <= j <= |elems|
          invariant LaterSubRow(elems, before) == LaterSubRow(elems[j..], bulk)
        {
          assert elems[j..][1..] == elems[j + 1..];
          if elems[j].valid {
            if elems[j].name !in bulk {
              return None;
            }
            var v := AsString(elems[j]);
            if v.None? {
              return None;
            }
            bulk := bulk[elems[j].name := bulk[elems[j].name] + [v.value]];
          }
          j := j + 1;
        }
      }
      assert elems[j..] == [];
      i := i + 1;
    }
    assert items[i..] == [];
    return Some(bulk);
  }

  /** The loop over a security's `fieldData`, filling its series. */
  method ReadFieldCells(fields: seq<Element>) returns (r: Option<Row>)
    ensures r == FieldCells(fields, map[])
  {
    var series: Row := map[];
    var i := 0;
    while i < |fields|
      invariant 0 <= i <= |fields|
      invariant FieldCells(fields, map[]) == FieldCells(fields[i..], series)
    {
      assert fields[i..][1..] == fields[i + 1..];
      if IsArray(fields[i]) {
        var bulk := ReadBulk(Values(fields[i]));
        if bulk.None? {
          return None;
        }
        series := series[fields[i].name := Bulk(bulk.value)];
      } else if fields[i].valid {
        var v := AsString(fields[i]);
        if v.None? {
          return None;
        }
        series := series[fields[i].name := Val(v.value)];
      }
      i := i + 1;
    }
    assert fields[i..] == [];
    return Some(series);
  }

  /** The loop over a security's field exceptions, marking their cells. */
  method ReadExceptions(fes: seq<Element>, series: Row) returns (r: Option<Row>)
    ensures r == MarkExceptions(fes, series)
  {
    var marked := series;
    var i := 0;
    while i < |fes|
      invariant 0 <= i <= |fes|
      invariant MarkExceptions(fes, series) == MarkExceptions(fes[i..], marked)
    {
      assert fes[i..][1..] == fes[i + 1..];
      var info := GetElement(fes[i], Names.ErrorInfo);
      if info.None? {
        return None;
      }
      var category := GetString(info.value, Names.Category);
      if category.None? {
        return None;
      }
      var field := GetString(info.value, Names.FieldId);
      if field.None? {
        return None;
      }
      marked := marked[field.value := Val(ErrorMarker(category.value))];
      i := i + 1;
    }
    assert fes[i..] == [];
    return Some(marked);
  }

  method ReadSecurityRow(sd: Element) returns (r: Option<(string, Row)>)
    ensures r == SecurityRow(sd)
  {
    var security :- GetElement(sd, Names.Security);
    var ticker :- AsString(security);
    var fieldData :- GetElement(sd, Names.FieldData);
    var series :- ReadFieldCells(Children(fieldData));
    var fes := GetElement(sd, Names.FieldExceptions);
    if fes.Some? {
      series :- ReadExceptions(Values(fes.value), series);
    }
    return Some((ticker, series));
  }

  /** `_process_reference_data`: each ticker's row is written into the caller's frame, which is returned. */
  /** A ticker that decodes to `row` replaces its row, and the fold goes on. */
  lemma SecurityRowsStep(secs: seq<Element>, t: Table, row: (string, Row))
    requires secs != [] && SecurityRow(secs[0]) == Some(row)
    ensures SecurityRows(secs, t) == SecurityRows(secs[1..], SetRow(t, Label(row.0), row.1))
  {
  }

  method ProcessReferenceData(msg: Element, output: Frame) returns (reply: Reply)
    modifies output
    ensures Agrees(reply, output, old(output.Snapshot()), ReferenceDataResponse(msg, old(output.Snapshot())))
    ensures reply.Returned? ==> reply.frame == output
  {
    var err := GetElement(msg, Names.ResponseError);
    if err.Some? {
      return RaisedError(MsgErrorText(err.value));
    }
    var sda := GetElement(msg, Names.SecurityData);
    if sda.None? {
      return RaisedError(UnknownText(ReferenceData, msg));
    }
    var secs := Values(sda.value);
    ghost var t := output.Snapshot();
    var i := 0;
    while i < |secs|
      invariant 0 <= i <= |secs|
      invariant SecurityRows(secs, t) == SecurityRows(secs[i..], output.Snapshot())
    {
      assert secs[i..][0] == secs[i] && secs[i..][1..] == secs[i + 1..];
      var row := ReadSecurityRow(secs[i]);
      if row.None? {
        return Crashed;
      }
      SecurityRowsStep(secs[i..], output.Snapshot(), row.value);
      output.WriteRow(Label(row.value.0), row.value.1);
      i := i + 1;
    }
    assert secs[i..] == [];
    return Returned(output);
  }

  /** `_process_historical_data`: past the error check, its frame constructor raises. */
  method ProcessHistoricalData(msg: Element, output: Frame) returns (reply: Reply)
    ensures Agrees(reply, output, output.Snapshot(), HistoricalDataResponse(msg, output.Snapshot()))
  {
    var err := GetElement(msg, Names.ResponseError);
    if err.Some? {
      return RaisedError(MsgErrorText(err.value));
    }
    if HasElement(msg, Names.SecurityData) {
      return Crashed;
    }
    return RaisedError(UnknownText(HistoricalData, msg));
  }

  // ---------------------------------------------------------- intraday ticks

  /** `_process_intraday_tick_data`: the ticks fill a temporary frame that is concatenated onto a new one. */
  method ProcessIntradayTickData(msg: Element, output: Frame) returns (reply: Reply)
    ensures Agrees(reply, output, output.Snapshot(), IntradayTickData(msg, output.Snapshot()))
    ensures reply.Returned? ==> fresh(reply.frame)
  {
    var err := GetElement(msg, Names.ResponseError);
    if err.Some? {
      return RaisedError(MsgErrorText(err.value));
    }
    var returned := GetElement(msg, Names.TickData);
    if returned.None? {
      return RaisedError(UnknownText(IntradayTick, msg));
    }
    var tickDatas := GetElement(returned.value, Names.TickData);
    if tickDatas.None? {
      return Crashed;
    }
    var ticks := Values(tickDatas.value);
    if |ticks| == 0 {
      // the temporary frame is never bound
      return Crashed;
    }
    var columns := output.columns;
    var rows: map<Key, Row> := map[];
    var i := 0;
    while i < |ticks|
      invariant 0 <= i <= |ticks|
      invariant TickRows(ticks, 0, columns, map[]) == TickRows(ticks[i..], i, columns, rows)
    {
      assert ticks[i..][1..] == ticks[i + 1..];
      var time := GetString(ticks[i], Names.Time);
      var kind := GetString(ticks[i], Names.Type);
      var value := GetString(ticks[i], Names.Value);
      var size := GetString(ticks[i], Names.Size);
      if time.None? || kind.None? || value.None? || size.None? {
        return Crashed;
      }
      var row := map["time" := Val(time.value), "type" := Val(kind.value),
                     "value" := Val(value.value), "size" := Val(size.value)];
      rows := rows[Pos(i) := Align(columns, row)];
      i := i + 1;
    }
    assert ticks[i..] == [];
    var concatenated := new Frame(Concat(output.Snapshot(), Table(columns, rows)));
    return Returned(concatenated);
  }

  // ------------------------------------------------------------ positions

  /** The inner loop over a position's typed fields. */
  method ReadTypedFields(fields: seq<Element>, series: Row) returns (r: Option<Row>)
    ensures r == TypedFields(fields, series)
  {
    var filled := series;
    var j := 0;
    while j < |fields|
      invariant 0 <= j <= |fields|
      invariant TypedFields(fields, series) == TypedFields(fields[j..], filled)
    {
      assert fields[j..][1..] == fields[j + 1..];
      var value := GetElement(fields[j], Names.Data);
      if value.None? {
        return None;
      }
      var tag := TypedTag(value.value);
      if tag.Some? {
        var v := GetString(value.value, tag.value);
        if v.None? {
          return None;
        }
        var field := GetString(fields[j], Names.FieldId);
        if field.None? {
          return None;
        }
        filled := filled[field.value := Val(v.value)];
      }
      j := j + 1;
    }
    assert fields[j..] == [];
    return Some(filled);
  }

  method ReadPositionRow(position: Element) returns (r: Option<Row>)
    ensures r == PositionRow(position)
  {
    var security :- GetElement(position, Names.SecurityItem);
    var account :- GetString(security, Names.BookName);
    var ticker :- GetString(security, Names.SecurityId);
    var name :- GetString(security, Names.SecurityName);
    var fields :- GetElement(position, Names.FieldData);
    r := ReadTypedFields(Values(fields), map["ACCOUNT" := Val(account), "TICKER" := Val(ticker), "NAME" := Val(name)]);
  }

  /** A position that decodes to `row` is written at `next`, and the fold goes on from the next one. */
  lemma PositionRowsStep(items: seq<Element>, next: int, t: Table, row: Row)
    requires items != [] && PositionRow(items[0]) == Some(row)
    ensures PositionRows(items, next, t) == PositionRows(items[1..], next + 1, SetRow(t, Pos(next), row))
  {
  }

  /** The loop of the position decoder: one row per position, at `next` and on. */
  method WritePositions(items: seq<Element>, next: int, frame: Frame) returns (ok: bool)
    modifies frame
    ensures PositionRows(items, next, old(frame.Snapshot())) == if ok then Some(frame.Snapshot()) else None
  {
    ghost var start := frame.Snapshot();
    var rowToPopulate := next;
    var i := 0;
    while i < |items|
      invariant 0 <= i <= |items|
      invariant PositionRows(items, next, start) == PositionRows(items[i..], rowToPopulate, frame.Snapshot())
    {
      assert items[i..][0] == items[i] && items[i..][1..] == items[i + 1..];
      var series := ReadPositionRow(items[i]);
      if series.None? {
        return false;
      }
      PositionRowsStep(items[i..], rowToPopulate, frame.Snapshot(), series.value);
      frame.WriteRow(Pos(rowToPopulate), series.value);
      rowToPopulate := rowToPopulate + 1;
      i := i + 1;
    }
    assert items[i..] == [];
    return true;
  }

  /** The position rows go into the reindexed copy, however its length was computed. */
  lemma PositionsIntoCopy(positions: Element, t: Table, copy: Table)
    requires copy == Reindex(t, PositionIndexLength(|t.rows|, |Values(positions)|, false))
    ensures PositionsInto(positions, t, false) ==
      match PositionRows(Values(positions), |t.rows| + 1, copy)
      case None => Fault(t)
      case Some(filled) => Decoded(t, filled)
  {
  }

  /** The position decoder past its error and payload checks. */
  method DecodePositions(positions: Element, output: Frame) returns (reply: Reply)
    ensures Agrees(reply, output, output.Snapshot(), PositionsInto(positions, output.Snapshot(), false))
    ensures reply.Returned? ==> fresh(reply.frame)
  {
    ghost var t := output.Snapshot();
    var items := Values(positions);
    var n := |output.rows|;
    var copy := new Frame(Reindex(output.Snapshot(), n + |items|));
    ghost var start := copy.Snapshot();
    assert start == Reindex(t, PositionIndexLength(n, |items|, false));
    var ok := WritePositions(items, n + 1, copy);
    PositionsIntoCopy(positions, t, start);
    if !ok {
      return Crashed;
    }
    return Returned(copy);
  }

  /**
   * `_process_aim_position_data`, with the reindex sized for the new rows:
   * the rows go into a reindexed copy, which is returned.
   */
  method ProcessAimPositionData(msg: Element, output: Frame) returns (reply: Reply)
    ensures Agrees(reply, output, output.Snapshot(), AimPositionData(msg, output.Snapshot()))
    ensures reply.Returned? ==> fresh(reply.frame)
  {
    var err := GetElement(msg, Names.ResponseError);
    if err.Some? {
      return RaisedError(MsgErrorText(err.value));
    }
    var positionData := GetElement(msg, Names.PositionData);
    if positionData.None? {
      return RaisedError(UnknownText(AimPosition, msg));
    }
    var positions := GetElement(positionData.value, Names.DataRow);
    if positions.None? {
      return Crashed;
    }
    reply := DecodePositions(positions.value, output);
  }

  // ------------------------------------------------------------ cash

  /** The inner loop over a cash row's fields. */
  method ReadCashFields(fields: seq<Element>, series: Row) returns (r: Option<Row>)
    ensures r == CashFields(fields, series)
  {
    var filled := series;
    var j := 0;
    while j < |fields|
      invariant 0 <= j <= |fields|
      invariant CashFields(fields, series) == CashFields(fields[j..], filled)
    {
      assert fields[j..][1..] == fields[j + 1..];
      var v := GetString(fields[j], Names.SettleDateCash);
      if v.None? {
        return None;
      }
      var field := GetString(fields[j], Names.FieldId);
      if field.None? {
        return None;
      }
      filled := filled[field.value := Val(v.value)];
      j := j + 1;
    }
    assert fields[j..] == [];
    return Some(filled);
  }

  /** A cash row that decodes to `row` is written at `next`, and the fold goes on from the next one. */
  lemma CashRowsStep(rows: seq<Element>, next: int, t: Table, row: Row)
    requires rows != [] && CashRow(rows[0]) == Some(row)
    ensures CashRows(rows, next, t) == CashRows(rows[1..], next + 1, SetRow(t, Pos(next), row))
  {
  }

  method ReadCashRow(position: Element) returns (r: Option<Row>)
    ensures r == CashRow(position)
  {
    var account :- GetString(position, Names.Account);
    var strategy :- GetString(position, Names.Strategy);
    var broker :- GetString(position, Names.PrimeBroker);
    var currency :- GetString(position, Names.Currency);
    var fields :- GetElement(position, Names.FieldData);
    r := ReadCashFields(Values(fields), map["ACCOUNT" := Val(account), "STRATEGY" := Val(strategy),
                                             "PRIME_BROKER" := Val(broker), "CURRENCY" := Val(currency)]);
  }

  /** The loop of the cash decoder: one row per balance, at `next` and on. */
  method WriteCashRows(items: seq<Element>, next: int, frame: Frame) returns (ok: bool)
    modifies frame
    ensures CashRows(items, next, old(frame.Snapshot())) ==
              if ok then Decoded(frame.Snapshot(), frame.Snapshot()) else Fault(frame.Snapshot())
  {
    ghost var start := frame.Snapshot();
    var rowToPopulate := next;
    var i := 0;
    while i < |items|
      invariant 0 <= i <= |items|
      invariant CashRows(items, next, start) == CashRows(items[i..], rowToPopulate, frame.Snapshot())
    {
      assert items[i..][0] == items[i] && items[i..][1..] == items[i + 1..];
      var series := ReadCashRow(items[i]);
      if series.None? {
        return false;
      }
      CashRowsStep(items[i..], rowToPopulate, frame.Snapshot(), series.value);
      frame.WriteRow(Pos(rowToPopulate), series.value);
      rowToPopulate := rowToPopulate + 1;
      i := i + 1;
    }
    assert items[i..] == [];
    return true;
  }

  /**
   * `_process_aim_cash_service`: its reindexed copy is discarded, so the
   * rows are written into the caller's frame, which is returned.
   */
  method ProcessAimCashService(msg: Element, output: Frame) returns (reply: Reply)
    modifies output
    ensures Agrees(reply, output, old(output.Snapshot()), AimCashService(msg, old(output.Snapshot())))
    ensures reply.Returned? ==> reply.frame == output
  {
    var err := GetElement(msg, Names.ResponseError);
    if err.Some? {
      return RaisedError(MsgErrorText(err.value));
    }
    var cashData := GetElement(msg, Names.CashBalanceData);
    if cashData.None? {
      return RaisedError(UnknownText(AimCash, msg));
    }
    var positions := GetElement(cashData.value, Names.DataRow);
    if positions.None? {
      return Crashed;
    }
    var ok := WriteCashRows(Values(positions.value), |output.rows| + 1, output);
    if !ok {
      return Crashed;
    }
    return Returned(output);
  }

  // ------------------------------------------------------------ dispatch

  /** The decoder a request registered, run on one message. */
  method ProcessMessage(kind: DecoderKind, msg: Element, output: Frame) returns (reply: Reply)
    modifies output
    ensures Agrees(reply, output, old(output.Snapshot()), Decode(kind, msg, old(output.Snapshot())))
  {
    match kind {
      case FieldList => reply := ProcessFieldListRequest(msg, output);
      case FieldSearch => reply := ProcessFieldListRequest(msg, output);
      case FieldInfo => reply := ProcessFieldInfoRequest(msg, output);
      case ReferenceData => reply := ProcessReferenceData(msg, output);
      case HistoricalData => reply := ProcessHistoricalData(msg, output);
      case IntradayTick => reply := ProcessIntradayTickData(msg, output);
      case AimPosition => reply := ProcessAimPositionData(msg, output);
      case AimCash => reply := ProcessAimCashService(msg, output);
    }
  }
}
