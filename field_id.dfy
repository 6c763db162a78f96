/**
 * The field-id lookup of the exception, position and cash decoders
 * (bloomberg_py_wrapper/wrapper_content.py, :1291, :1420 and :1523). As
 * written they ask the name table for the key 'fieldID', which it does not
 * have, so every field exception, typed position field and cash field raises
 * KeyError; with the table's 'fieldId' entry each value lands under its field
 * id.
 */
module FieldIdLookup {
  import opened Wrappers
  import opened Messages
  import Names
  import opened Tables
  import opened DecodeSpec
  import DecodeProperties

  // ---------------------------------------------------------- exceptions

  /** A security with at least one field exception. */
  predicate HasExceptions(sd: Element)
  {
    GetElement(sd, Names.FieldExceptions).Some? && |Values(GetElement(sd, Names.FieldExceptions).value)| > 0
  }

  /** The `securityData` values of a message; none when missing. */
  function Securities(msg: Element): seq<Element>
  {
    match GetElement(msg, Names.SecurityData)
    case None => []
    case Some(sda) => Values(sda)
  }

  /** Without the key, any field exception fails its security; without exceptions the key is never read. */
  lemma SecurityRowKeyMissing(sd: Element, name: string)
    ensures HasExceptions(sd) ==> SecurityRowKeyed(None, sd).None?
    ensures !HasExceptions(sd) ==> SecurityRowKeyed(None, sd) == SecurityRowKeyed(Some(name), sd)
  {
    match GetElement(sd, Names.FieldExceptions)
    case None =>
    case Some(fes) =>
      if |Values(fes)| > 0 {
        var series := map[];
        assert MarkExceptionsKeyed(None, Values(fes), series).None?;
      }
  }

  /** Without the key, the fold fails at the first security with exceptions, if not before. */
  lemma {:induction false} SecurityRowsFault(secs: seq<Element>, t: Table, i: int)
    requires 0 <= i < |secs| && HasExceptions(secs[i])
    ensures SecurityRowsKeyed(None, secs, t).Fault?
  {
    SecurityRowKeyMissing(secs[0], Names.FieldId);
    if i > 0 && SecurityRowKeyed(None, secs[0]).Some? {
      var r := SecurityRowKeyed(None, secs[0]).value;
      assert secs[1..][i - 1] == secs[i];
      SecurityRowsFault(secs[1..], SetRow(t, Label(r.0), r.1), i - 1);
    }
  }

  /** Without exceptions the key is never read, and the fold is the intended one. */
  lemma {:induction false} SecurityRowsAgree(secs: seq<Element>, t: Table)
    requires forall i :: 0 <= i < |secs| ==> !HasExceptions(secs[i])
    ensures SecurityRowsKeyed(None, secs, t) == SecurityRows(secs, t)
  {
    if secs != [] {
      SecurityRowKeyMissing(secs[0], Names.FieldId);
      if SecurityRowKeyed(None, secs[0]).Some? {
        var r := SecurityRowKeyed(None, secs[0]).value;
        assert forall i :: 0 <= i < |secs[1..]| ==> secs[1..][i] == secs[i + 1];
        SecurityRowsAgree(secs[1..], SetRow(t, Label(r.0), r.1));
      }
    }
  }

  /**
   * As written, a reference-data response in which any security reports a
   * field exception fails with the rows before it written; one without
   * exceptions decodes as intended.
   */
  lemma ReferenceDataAsWrittenFaults(msg: Element, t: Table)
    ensures var d := ReferenceDataKeyed(Names.Lookup("fieldID"), msg, t);
      && ((GetElement(msg, Names.ResponseError).None?
           && exists i :: 0 <= i < |Securities(msg)| && HasExceptions(Securities(msg)[i])) ==> d.Fault?)
      && ((forall i :: 0 <= i < |Securities(msg)| ==> !HasExceptions(Securities(msg)[i])) ==> d == ReferenceDataResponse(msg, t))
  {
    Names.FieldIdKeyMissing();
    var secs := Securities(msg);
    forall i | 0 <= i < |secs| && HasExceptions(secs[i])
      ensures SecurityRowsKeyed(None, secs, t).Fault?
    {
      SecurityRowsFault(secs, t, i);
    }
    if forall i :: 0 <= i < |secs| ==> !HasExceptions(secs[i]) {
      SecurityRowsAgree(secs, t);
    }
  }

  // ---------------------------------------------------------- positions

  /** A position field whose data holds a typed value: the decoder reads its field id. */
  predicate Typed(field: Element)
  {
    GetElement(field, Names.Data).Some? && TypedTag(GetElement(field, Names.Data).value).Some?
  }

  lemma {:induction false} TypedFieldsKeyMissing(fields: seq<Element>, series: Row, name: string)
    ensures (exists j :: 0 <= j < |fields| && Typed(fields[j])) ==> TypedFieldsKeyed(None, fields, series).None?
    ensures (forall j :: 0 <= j < |fields| ==> !Typed(fields[j])) ==>
      TypedFieldsKeyed(None, fields, series) == TypedFieldsKeyed(Some(name), fields, series)
  {
    if fields != [] && GetElement(fields[0], Names.Data).Some? && !Typed(fields[0]) {
      TypedFieldsKeyMissing(fields[1..], series, name);
      if exists j :: 0 <= j < |fields| && Typed(fields[j]) {
        var j :| 0 <= j < |fields| && Typed(fields[j]);
        assert j > 0 && fields[1..][j - 1] == fields[j];
      }
      if forall j :: 0 <= j < |fields| ==> !Typed(fields[j]) {
        assert forall j :: 0 <= j < |fields[1..]| ==> fields[1..][j] == fields[j + 1];
      }
    }
  }

  /** A position with a typed field value. */
  predicate HasTypedField(position: Element)
  {
    GetElement(position, Names.FieldData).Some?
    && exists j :: 0 <= j < |Values(GetElement(position, Names.FieldData).value)|
                && Typed(Values(GetElement(position, Names.FieldData).value)[j])
  }

  lemma PositionRowKeyMissing(position: Element, name: string)
    ensures HasTypedField(position) ==> PositionRowKeyed(None, position).None?
    ensures !HasTypedField(position) ==> PositionRowKeyed(None, position) == PositionRowKeyed(Some(name), position)
  {
    match GetElement(position, Names.SecurityItem)
    case None =>
    case Some(security) =>
      match GetElement(position, Names.FieldData)
      case None =>
      case Some(fields) =>
        if GetString(security, Names.BookName).Some? && GetString(security, Names.SecurityId).Some?
          && GetString(security, Names.SecurityName).Some? {
          var series := map["ACCOUNT" := Val(GetString(security, Names.BookName).value),
                             "TICKER" := Val(GetString(security, Names.SecurityId).value),
                             "NAME" := Val(GetString(security, Names.SecurityName).value)];
          TypedFieldsKeyMissing(Values(fields), series, name);
        }
  }

  /** Without the key, the fold fails at the first position with a typed field, if not before. */
  lemma {:induction false} PositionRowsFault(rows: seq<Element>, next: int, t: Table, i: int)
    requires 0 <= i < |rows| && HasTypedField(rows[i])
    ensures PositionRowsKeyed(None, rows, next, t).None?
  {
    PositionRowKeyMissing(rows[0], Names.FieldId);
    if i > 0 && PositionRowKeyed(None, rows[0]).Some? {
      var row := PositionRowKeyed(None, rows[0]).value;
      assert rows[1..][i - 1] == rows[i];
      PositionRowsFault(rows[1..], next + 1, SetRow(t, Pos(next), row), i - 1);
    }
  }

  /** Without typed fields the key is never read, and the fold is the intended one. */
  lemma {:induction false} PositionRowsAgree(rows: seq<Element>, next: int, t: Table)
    requires forall i :: 0 <= i < |rows| ==> !HasTypedField(rows[i])
    ensures PositionRowsKeyed(None, rows, next, t) == PositionRows(rows, next, t)
  {
    if rows != [] {
      PositionRowKeyMissing(rows[0], Names.FieldId);
      if PositionRowKeyed(None, rows[0]).Some? {
        var row := PositionRowKeyed(None, rows[0]).value;
        assert forall i :: 0 <= i < |rows[1..]| ==> rows[1..][i] == rows[i + 1];
        PositionRowsAgree(rows[1..], next + 1, SetRow(t, Pos(next), row));
      }
    }
  }

  /** The copy the position decoder writes its rows into. */
  function PositionCopy(positions: Element, t: Table, asWritten: bool): Table
  {
    Reindex(t, PositionIndexLength(|t.rows|, |Values(positions)|, asWritten))
  }

  /** The decoder fails exactly when its row fold does, whatever the lookup. */
  lemma PositionsIntoFold(fieldId: Option<string>, positions: Element, t: Table, asWritten: bool)
    ensures var keyed := PositionRowsKeyed(fieldId, Values(positions), |t.rows| + 1, PositionCopy(positions, t, asWritten));
      PositionsIntoKeyed(fieldId, positions, t, asWritten) == if keyed.None? then Fault(t) else Decoded(t, keyed.value)
  {
  }

  lemma PositionsIntoKeyMissing(positions: Element, t: Table, asWritten: bool)
    ensures (exists i :: 0 <= i < |Values(positions)| && HasTypedField(Values(positions)[i])) ==>
      PositionsIntoKeyed(None, positions, t, asWritten) == Fault(t)
    ensures (forall i :: 0 <= i < |Values(positions)| ==> !HasTypedField(Values(positions)[i])) ==>
      PositionsIntoKeyed(None, positions, t, asWritten) == PositionsInto(positions, t, asWritten)
  {
    var rows := Values(positions);
    var copy := PositionCopy(positions, t, asWritten);
    PositionsIntoFold(None, positions, t, asWritten);
    PositionsIntoFold(Some(Names.FieldId), positions, t, asWritten);
    forall i | 0 <= i < |rows| && HasTypedField(rows[i])
      ensures PositionRowsKeyed(None, rows, |t.rows| + 1, copy).None?
    {
      PositionRowsFault(rows, |t.rows| + 1, copy, i);
    }
    if forall i :: 0 <= i < |rows| ==> !HasTypedField(rows[i]) {
      PositionRowsAgree(rows, |t.rows| + 1, copy);
    }
  }

  /**
   * As written, a position response in which any position has a typed field
   * value fails; one without typed values decodes as intended.
   */
  lemma PositionAsWrittenFaults(msg: Element, t: Table, asWritten: bool)
    ensures var rows := DecodeProperties.DataRows(msg, Names.PositionData);
      var d := AimPositionDecodeKeyed(Names.Lookup("fieldID"), msg, t, asWritten);
      && ((GetElement(msg, Names.ResponseError).None? && exists i :: 0 <= i < |rows| && HasTypedField(rows[i])) ==> d == Fault(t))
      && ((forall i :: 0 <= i < |rows| ==> !HasTypedField(rows[i])) ==> d == AimPositionDecode(msg, t, asWritten))
  {
    Names.FieldIdKeyMissing();
    var key := Names.Lookup("fieldID");
    match GetElement(msg, Names.ResponseError)
    case Some(_) =>
    case None =>
      match GetElement(msg, Names.PositionData)
      case None =>
      case Some(positionData) =>
        match GetElement(positionData, Names.DataRow)
        case None =>
        case Some(positions) =>
          assert DecodeProperties.DataRows(msg, Names.PositionData) == Values(positions);
          assert AimPositionDecodeKeyed(key, msg, t, asWritten) == PositionsIntoKeyed(None, positions, t, asWritten);
          assert AimPositionDecode(msg, t, asWritten) == PositionsInto(positions, t, asWritten);
          PositionsIntoKeyMissing(positions, t, asWritten);
  }

  // ---------------------------------------------------------- cash

  /** A cash row with at least one field. */
  predicate HasCashFields(position: Element)
  {
    GetElement(position, Names.FieldData).Some? && |Values(GetElement(position, Names.FieldData).value)| > 0
  }

  lemma CashRowKeyMissing(position: Element, name: string)
    ensures HasCashFields(position) ==> CashRowKeyed(None, position).None?
    ensures !HasCashFields(position) ==> CashRowKeyed(None, position) == CashRowKeyed(Some(name), position)
  {
  }

  /** Without the key, the fold fails at the first row with a field, if not before. */
  lemma {:induction false} CashRowsFault(rows: seq<Element>, next: int, t: Table, i: int)
    requires 0 <= i < |rows| && HasCashFields(rows[i])
    ensures CashRowsKeyed(None, rows, next, t).Fault?
  {
    CashRowKeyMissing(rows[0], Names.FieldId);
    if i > 0 && CashRowKeyed(None, rows[0]).Some? {
      var row := CashRowKeyed(None, rows[0]).value;
      assert rows[1..][i - 1] == rows[i];
      CashRowsFault(rows[1..], next + 1, SetRow(t, Pos(next), row), i - 1);
    }
  }

  /** Without fields the key is never read, and the fold is the intended one. */
  lemma {:induction false} CashRowsAgree(rows: seq<Element>, next: int, t: Table)
    requires forall i :: 0 <= i < |rows| ==> !HasCashFields(rows[i])
    ensures CashRowsKeyed(None, rows, next, t) == CashRows(rows, next, t)
  {
    if rows != [] {
      CashRowKeyMissing(rows[0], Names.FieldId);
      if CashRowKeyed(None, rows[0]).Some? {
        var row := CashRowKeyed(None, rows[0]).value;
        assert forall i :: 0 <= i < |rows[1..]| ==> rows[1..][i] == rows[i + 1];
        CashRowsAgree(rows[1..], next + 1, SetRow(t, Pos(next), row));
      }
    }
  }

  /** A cash message that reaches the row loop: no error, and a `dataRow` under `cashBalanceData`. */
  predicate CashPayload(msg: Element)
  {
    GetElement(msg, Names.ResponseError).None? && GetElement(msg, Names.CashBalanceData).Some?
    && GetElement(GetElement(msg, Names.CashBalanceData).value, Names.DataRow).Some?
  }

  /** Past its checks, the cash decoder is its row fold over the message's rows. */
  lemma AimCashFold(fieldId: Option<string>, msg: Element, t: Table, positions: Element)
    requires GetElement(msg, Names.ResponseError).None? && GetElement(msg, Names.CashBalanceData).Some?
    requires GetElement(GetElement(msg, Names.CashBalanceData).value, Names.DataRow) == Some(positions)
    ensures AimCashKeyed(fieldId, msg, t) == CashRowsKeyed(fieldId, Values(positions), |t.rows| + 1, t)
  {
  }

  /** Before the row loop the lookup is never read, and the message carries no rows. */
  lemma AimCashEarly(msg: Element, t: Table)
    requires !CashPayload(msg)
    ensures AimCashKeyed(None, msg, t) == AimCashService(msg, t)
    ensures GetElement(msg, Names.ResponseError).None? ==> DecodeProperties.DataRows(msg, Names.CashBalanceData) == []
  {
  }

  /**
   * As written, a cash response in which any row has a field fails, with the
   * rows before it written into the caller's frame; one without fields
   * decodes as intended.
   */
  lemma CashAsWrittenFaults(msg: Element, t: Table)
    ensures var rows := DecodeProperties.DataRows(msg, Names.CashBalanceData);
      var d := AimCashKeyed(Names.Lookup("fieldID"), msg, t);
      && ((GetElement(msg, Names.ResponseError).None? && exists i :: 0 <= i < |rows| && HasCashFields(rows[i])) ==> d.Fault?)
      && ((forall i :: 0 <= i < |rows| ==> !HasCashFields(rows[i])) ==> d == AimCashService(msg, t))
  {
    Names.FieldIdKeyMissing();
    var rows := DecodeProperties.DataRows(msg, Names.CashBalanceData);
    if CashPayload(msg) {
      var positions := GetElement(GetElement(msg, Names.CashBalanceData).value, Names.DataRow).value;
      assert rows == Values(positions);
      AimCashFold(None, msg, t, positions);
      AimCashFold(Some(Names.FieldId), msg, t, positions);
    } else {
      AimCashEarly(msg, t);
    }
    forall i | 0 <= i < |rows| && HasCashFields(rows[i])
      ensures CashRowsKeyed(None, rows, |t.rows| + 1, t).Fault?
    {
      CashRowsFault(rows, |t.rows| + 1, t, i);
    }
    if forall i :: 0 <= i < |rows| ==> !HasCashFields(rows[i]) {
      CashRowsAgree(rows, |t.rows| + 1, t);
    }
  }

  // ---------------------------------------------------------- as intended

  /** The field ids of the typed position fields that can be read. */
  function TypedIds(fields: seq<Element>): set<string>
  {
    if fields == [] then {}
    else
      (if Typed(fields[0]) && GetString(fields[0], Names.FieldId).Some? then {GetString(fields[0], Names.FieldId).value} else {})
      + TypedIds(fields[1..])
  }

  /** A position field's typed value: the string under the first of S, D, I and B its data holds. */
  function TypedValue(field: Element): Option<string>
  {
    var value :- GetElement(field, Names.Data);
    var tag :- TypedTag(value);
    GetString(value, tag)
  }

  /** The typed value of the last typed field whose field id is `id`, if any. */
  function LastTypedFor(fields: seq<Element>, id: string): Option<string>
  {
    if fields == [] then None
    else
      match LastTypedFor(fields[1..], id)
      case Some(v) => Some(v)
      case None =>
        if Typed(fields[0]) && GetString(fields[0], Names.FieldId) == Some(id) then TypedValue(fields[0]) else None
  }

  lemma {:induction false} LastTypedListed(fields: seq<Element>, id: string)
    ensures LastTypedFor(fields, id).Some? ==> id in TypedIds(fields)
  {
    if fields != [] {
      LastTypedListed(fields[1..], id);
    }
  }

  /**
   * With the 'fieldId' entry, each typed value is written under its field id
   * (the last typed field with that id wins), and the other cells are kept.
   */
  lemma {:induction false} TypedFieldsWritten(fields: seq<Element>, series: Row)
    ensures TypedFields(fields, series).Some? ==>
      var r := TypedFields(fields, series).value;
      r.Keys == series.Keys + TypedIds(fields)
      && (forall id :: id in TypedIds(fields) ==> LastTypedFor(fields, id).Some? && r[id] == Val(LastTypedFor(fields, id).value))
      && forall c :: c in series && c !in TypedIds(fields) ==> r[c] == series[c]
  {
    if fields != [] && TypedFields(fields, series).Some? {
      var value := GetElement(fields[0], Names.Data).value;
      var r := TypedFields(fields, series).value;
      match TypedTag(value)
      case None =>
        assert TypedFields(fields, series) == TypedFields(fields[1..], series);
        TypedFieldsWritten(fields[1..], series);
        forall id | id in TypedIds(fields)
          ensures LastTypedFor(fields, id).Some? && r[id] == Val(LastTypedFor(fields, id).value)
        {
          LastTypedListed(fields[1..], id);
        }
      case Some(tag) =>
        var v := GetString(value, tag).value;
        var field := GetString(fields[0], Names.FieldId).value;
        assert TypedFields(fields, series) == TypedFields(fields[1..], series[field := Val(v)]);
        TypedFieldsWritten(fields[1..], series[field := Val(v)]);
        forall id | id in TypedIds(fields)
          ensures LastTypedFor(fields, id).Some? && r[id] == Val(LastTypedFor(fields, id).value)
        {
          LastTypedListed(fields[1..], id);
        }
    }
  }

  /** The field ids of the cash fields that can be read. */
  function CashIds(fields: seq<Element>): set<string>
  {
    if fields == [] then {}
    else
      (if GetString(fields[0], Names.FieldId).Some? then {GetString(fields[0], Names.FieldId).value} else {})
      + CashIds(fields[1..])
  }

  /** The settle-date cash value of the last field whose field id is `id`, if any. */
  function LastCashFor(fields: seq<Element>, id: string): Option<string>
  {
    if fields == [] then None
    else
      match LastCashFor(fields[1..], id)
      case Some(v) => Some(v)
      case None =>
        if GetString(fields[0], Names.FieldId) == Some(id) then GetString(fields[0], Names.SettleDateCash) else None
  }

  lemma {:induction false} LastCashListed(fields: seq<Element>, id: string)
    ensures LastCashFor(fields, id).Some? ==> id in CashIds(fields)
  {
    if fields != [] {
      LastCashListed(fields[1..], id);
    }
  }

  /**
   * With the 'fieldId' entry, each settle-date cash value is written under its
   * field id (the last field with that id wins), and the other cells are kept.
   */
  lemma {:induction false} CashFieldsWritten(fields: seq<Element>, series: Row)
    ensures CashFields(fields, series).Some? ==>
      var r := CashFields(fields, series).value;
      r.Keys == series.Keys + CashIds(fields)
      && (forall id :: id in CashIds(fields) ==> LastCashFor(fields, id).Some? && r[id] == Val(LastCashFor(fields, id).value))
      && forall c :: c in series && c !in CashIds(fields) ==> r[c] == series[c]
  {
    if fields != [] && CashFields(fields, series).Some? {
      var v := GetString(fields[0], Names.SettleDateCash).value;
      var field := GetString(fields[0], Names.FieldId).value;
      assert CashFields(fields, series) == CashFields(fields[1..], series[field := Val(v)]);
      CashFieldsWritten(fields[1..], series[field := Val(v)]);
      var r := CashFields(fields, series).value;
      forall id | id in CashIds(fields)
        ensures LastCashFor(fields, id).Some? && r[id] == Val(LastCashFor(fields, id).value)
      {
        LastCashListed(fields[1..], id);
      }
    }
  }

  /**
   * A position's row holds the book name, security id and security name of its
   * security under ACCOUNT, TICKER and NAME, then each typed field's value under
   * its field id, a field id equal to one of those three names overwriting it.
   */
  lemma PositionRowCells(position: Element)
    ensures PositionRow(position).Some? ==>
      GetElement(position, Names.SecurityItem).Some? && GetElement(position, Names.FieldData).Some?
      && var security := GetElement(position, Names.SecurityItem).value;
      var fields := Values(GetElement(position, Names.FieldData).value);
      var r := PositionRow(position).value;
      GetString(security, Names.BookName).Some? && GetString(security, Names.SecurityId).Some?
      && GetString(security, Names.SecurityName).Some?
      && r.Keys == {"ACCOUNT", "TICKER", "NAME"} + TypedIds(fields)
      && ("ACCOUNT" !in TypedIds(fields) ==> r["ACCOUNT"] == Val(GetString(security, Names.BookName).value))
      && ("TICKER" !in TypedIds(fields) ==> r["TICKER"] == Val(GetString(security, Names.SecurityId).value))
      && ("NAME" !in TypedIds(fields) ==> r["NAME"] == Val(GetString(security, Names.SecurityName).value))
      && forall id :: id in TypedIds(fields) ==> LastTypedFor(fields, id).Some? && r[id] == Val(LastTypedFor(fields, id).value)
  {
    if PositionRow(position).Some? {
      var security := GetElement(position, Names.SecurityItem).value;
      var fields := Values(GetElement(position, Names.FieldData).value);
      var base := map["ACCOUNT" := Val(GetString(security, Names.BookName).value),
                      "TICKER" := Val(GetString(security, Names.SecurityId).value),
                      "NAME" := Val(GetString(security, Names.SecurityName).value)];
      assert PositionRow(position) == TypedFields(fields, base);
      TypedFieldsWritten(fields, base);
    }
  }

  /**
   * A balance's row holds its account, strategy, prime broker and currency under
   * ACCOUNT, STRATEGY, PRIME_BROKER and CURRENCY, then each field's settle-date
   * cash under its field id, a field id equal to one of those names overwriting it.
   */
  lemma CashRowCells(balance: Element)
    ensures CashRow(balance).Some? ==>
      GetElement(balance, Names.FieldData).Some?
      && var fields := Values(GetElement(balance, Names.FieldData).value);
      var r := CashRow(balance).value;
      GetString(balance, Names.Account).Some? && GetString(balance, Names.Strategy).Some?
      && GetString(balance, Names.PrimeBroker).Some? && GetString(balance, Names.Currency).Some?
      && r.Keys == {"ACCOUNT", "STRATEGY", "PRIME_BROKER", "CURRENCY"} + CashIds(fields)
      && ("ACCOUNT" !in CashIds(fields) ==> r["ACCOUNT"] == Val(GetString(balance, Names.Account).value))
      && ("STRATEGY" !in CashIds(fields) ==> r["STRATEGY"] == Val(GetString(balance, Names.Strategy).value))
      && ("PRIME_BROKER" !in CashIds(fields) ==> r["PRIME_BROKER"] == Val(GetString(balance, Names.PrimeBroker).value))
      && ("CURRENCY" !in CashIds(fields) ==> r["CURRENCY"] == Val(GetString(balance, Names.Currency).value))
      && forall id :: id in CashIds(fields) ==> LastCashFor(fields, id).Some? && r[id] == Val(LastCashFor(fields, id).value)
  {
    if CashRow(balance).Some? {
      var fields := Values(GetElement(balance, Names.FieldData).value);
      var base := map["ACCOUNT" := Val(GetString(balance, Names.Account).value),
                      "STRATEGY" := Val(GetString(balance, Names.Strategy).value),
                      "PRIME_BROKER" := Val(GetString(balance, Names.PrimeBroker).value),
                      "CURRENCY" := Val(GetString(balance, Names.Currency).value)];
      assert CashRow(balance) == CashFields(fields, base);
      CashFieldsWritten(fields, base);
    }
  }

  /** A cell for a string that may be missing. */
  function StringCell(s: Option<string>): (c: Cell)
    ensures c.Val? <==> s.Some?
    ensures s.Some? ==> c == Val(s.value)
  {
    if s.Some? then Val(s.value) else Null
  }

  /**
   * `row` is position's row aligned on `columns`: a typed field's value under its
   * field id, else the book name, security id or security name under ACCOUNT,
   * TICKER or NAME, else a missing cell.
   */
  ghost predicate PositionHeld(row: Row, position: Element, columns: set<string>)
  {
    GetElement(position, Names.SecurityItem).Some? && GetElement(position, Names.FieldData).Some?
    && var security := GetElement(position, Names.SecurityItem).value;
    var fields := Values(GetElement(position, Names.FieldData).value);
    row.Keys == columns
    && forall c :: c in columns ==>
      row[c] == if LastTypedFor(fields, c).Some? then Val(LastTypedFor(fields, c).value)
                else if c == "ACCOUNT" then StringCell(GetString(security, Names.BookName))
                else if c == "TICKER" then StringCell(GetString(security, Names.SecurityId))
                else if c == "NAME" then StringCell(GetString(security, Names.SecurityName))
                else Null
  }

  /** A position's series, aligned on a frame's columns, holds the cells `PositionHeld` names. */
  lemma PositionRowHeld(position: Element, columns: set<string>)
    ensures PositionRow(position).Some? ==> PositionHeld(Align(columns, PositionRow(position).value), position, columns)
  {
    if PositionRow(position).Some? {
      PositionRowCells(position);
      var fields := Values(GetElement(position, Names.FieldData).value);
      forall c | c in columns
        ensures LastTypedFor(fields, c).Some? <==> c in TypedIds(fields)
      {
        LastTypedListed(fields, c);
      }
    }
  }

  /** Frame `r` holds, at each position `next + i`, the cells of the `i`-th position aligned on `columns`. */
  ghost predicate PositionsHeld(r: Table, rows: seq<Element>, next: int, columns: set<string>)
  {
    forall k :: DecodeProperties.InRange(k, next, next + |rows|) ==> k in r.rows && PositionHeld(r.rows[k], rows[k.pos - next], columns)
  }

  lemma PositionsHeldFromWritten(r: Table, rows: seq<Element>, next: int, columns: set<string>)
    requires DecodeProperties.RowsWritten(r, PositionRow, rows, next, columns)
    ensures PositionsHeld(r, rows, next, columns)
  {
    forall k | DecodeProperties.InRange(k, next, next + |rows|)
      ensures k in r.rows && PositionHeld(r.rows[k], rows[k.pos - next], columns)
    {
      PositionRowHeld(rows[k.pos - next], columns);
    }
  }

  /**
   * The frame the position decoder returns holds, at position `len(index) + 1 + i`,
   * the ACCOUNT, TICKER and NAME of the message's `i`-th position and its typed
   * field values.
   */
  lemma PositionDataCells(msg: Element, t: Table, asWritten: bool, positionData: Element, positions: Element)
    requires GetElement(msg, Names.PositionData) == Some(positionData)
    requires GetElement(positionData, Names.DataRow) == Some(positions)
    ensures AimPositionDecode(msg, t, asWritten).Decoded? ==>
      PositionsHeld(AimPositionDecode(msg, t, asWritten).returned, Values(positions), |t.rows| + 1, t.columns)
  {
    var d := AimPositionDecode(msg, t, asWritten);
    if d.Decoded? {
      DecodeProperties.PositionDataRows(msg, t, asWritten, positionData, positions);
      PositionsHeldFromWritten(d.returned, Values(positions), |t.rows| + 1, t.columns);
    }
  }

  /**
   * `row` is balance's row aligned on `columns`: a field's settle-date cash under
   * its field id, else the account, strategy, prime broker or currency under
   * ACCOUNT, STRATEGY, PRIME_BROKER or CURRENCY, else a missing cell.
   */
  ghost predicate BalanceHeld(row: Row, balance: Element, columns: set<string>)
  {
    GetElement(balance, Names.FieldData).Some?
    && var fields := Values(GetElement(balance, Names.FieldData).value);
    row.Keys == columns
    && forall c :: c in columns ==>
      row[c] == if LastCashFor(fields, c).Some? then Val(LastCashFor(fields, c).value)
                else if c == "ACCOUNT" then StringCell(GetString(balance, Names.Account))
                else if c == "STRATEGY" then StringCell(GetString(balance, Names.Strategy))
                else if c == "PRIME_BROKER" then StringCell(GetString(balance, Names.PrimeBroker))
                else if c == "CURRENCY" then StringCell(GetString(balance, Names.Currency))
                else Null
  }

  /** A balance's series, aligned on a frame's columns, holds the cells `BalanceHeld` names. */
  lemma CashRowHeld(balance: Element, columns: set<string>)
    ensures CashRow(balance).Some? ==> BalanceHeld(Align(columns, CashRow(balance).value), balance, columns)
  {
    if CashRow(balance).Some? {
      CashRowCells(balance);
      var fields := Values(GetElement(balance, Names.FieldData).value);
      forall c | c in columns
        ensures LastCashFor(fields, c).Some? <==> c in CashIds(fields)
      {
        LastCashListed(fields, c);
      }
    }
  }

  /** Frame `s` holds, at each position `next + i`, the cells of the `i`-th balance aligned on `columns`. */
  ghost predicate BalancesHeld(s: Table, rows: seq<Element>, next: int, columns: set<string>)
  {
    forall k :: DecodeProperties.InRange(k, next, next + |rows|) ==> k in s.rows && BalanceHeld(s.rows[k], rows[k.pos - next], columns)
  }

  lemma BalancesHeldFromWritten(s: Table, rows: seq<Element>, next: int, columns: set<string>)
    requires DecodeProperties.RowsWritten(s, CashRow, rows, next, columns)
    ensures BalancesHeld(s, rows, next, columns)
  {
    forall k | DecodeProperties.InRange(k, next, next + |rows|)
      ensures k in s.rows && BalanceHeld(s.rows[k], rows[k.pos - next], columns)
    {
      CashRowHeld(rows[k.pos - next], columns);
    }
  }

  /**
   * The caller's frame, as the cash decoder leaves it, holds at position
   * `len(index) + 1 + i` the ACCOUNT, STRATEGY, PRIME_BROKER and CURRENCY of the
   * message's `i`-th balance and its settle-date cash values.
   */
  lemma CashDataCells(msg: Element, t: Table, cashData: Element, positions: Element)
    requires GetElement(msg, Names.CashBalanceData) == Some(cashData)
    requires GetElement(cashData, Names.DataRow) == Some(positions)
    ensures AimCashService(msg, t).Decoded? ==>
      BalancesHeld(AimCashService(msg, t).stored, Values(positions), |t.rows| + 1, t.columns)
  {
    var d := AimCashService(msg, t);
    if d.Decoded? {
      DecodeProperties.CashDataRows(msg, t, cashData, positions);
      BalancesHeldFromWritten(d.stored, Values(positions), |t.rows| + 1, t.columns);
    }
  }
}
