# bloomberg_py_wrapper: the request registry, the message decoders and the input validators

This project models three parts of `bloomberg_py_wrapper/wrapper_content.py` in Dafny and proves properties of them. The first is the bookkeeping of the `Asynchronous` client. It holds a correlation-id counter and six dictionaries keyed by id: the request, its decoder, its data, its call-back, its status and its timeout. Six operations act on that state:

- sending a request;
- clearing a request;
- the two status queries;
- fetching a request's data;
- one step of the listener thread;
- one step of the timeout monitor.

The second part is the seven message decoders (`_process_*`) and `_process_msg_error`. They turn a self-describing market-data message into rows of a frame. The third part is the two input validators.

Layout, one module per file:

- `wrappers.dfy` (`Wrappers`): `Option` with failure propagation.
- `messages.dfy` (`Names`, `Messages`):
  - the element names the decoders look up, and the name table;
  - a message as an `Element`: a name, a validity flag, and a scalar, a sequence of child elements, or an array of values;
  - the lookups `getElement`, `hasElement`, `getElementAsString` and the others.
- `tables.dfy` (`Tables`):
  - a frame as a value `Table`: a column set, plus rows keyed by label or position;
  - the class `Frame`, which decoders write into in place (`frame.loc[k] = series`).
- `decode_spec.dfy` (`DecodeSpec`): each decoder as a function from a message and the caller's frame to `Decoded(stored, returned)`, `Raised(text)` or `Fault(stored)`.
  - `stored` is the caller's frame after in-place writes.
  - `returned` is the return value.
  - `Fault` is any exception other than `_BloombergError`.
- `decoders.dfy` (`Decoders`): the decoders as methods with their loops, each proved equal to its function.
- `decode_props.dfy` (`DecodeProperties`): what the decoders promise.
- `field_id.dfy` (`FieldIdLookup`): the decoders run with the field-id lookup as written, which fails, beside the same loops as intended.
- `validation.dfy` (`Validation`): the validators over a small Python value type.
- `registry.dfy` (`Requests`): the registry as a value `Registry`, and each operation as a function on it.
- `registry_props.dfy` (`RequestProperties`): what those operations promise.
- `async_client.dfy` (`AsyncClient`): the class `Asynchronous`.
  - Its fields are the counter and the six dictionaries.
  - A ghost log records every call-back invocation.
  - Each method is proved to leave the state the matching `Requests` function gives.
- `sync_listen.dfy` (`SyncListen`): the synchronous `_listen_bloomberg` as a fold over a finite run of events, and as a loop.

Time is an integer number of microseconds, passed in as `now`. A call-back is an opaque identity, and calling it appends a `Call(callback, status, cid, data)` to the log. The listener and the monitor are modelled one step at a time, and each step is a method of the class.

In these places the model keeps the code's behaviour, which a reader may not expect:

- The timeout step sets TIMEOUT over any status, READY and ERROR included (:1627). A finished request can therefore be timed out and notified a second time.
- The timeout call-back receives no id (:1629).
- The asynchronous listener discards the decoder's return value (:1602). Its stored data therefore sees only the decoder's in-place writes.
- The cash decoder's "Unkown message type" text is kept as written.

## Model

| member | source | states |
|---|---|---|
| Names.FieldIdKeyMissing | bloomberg_py_wrapper/wrapper_content.py:122-172 | The name table has no key `'fieldID'`, the key the exception, position and cash decoders look up. |
| Names.FieldIdEntry | bloomberg_py_wrapper/wrapper_content.py:140 | The field-id name is filed under the key `'fieldId'`. |
| FieldIdLookup.ReferenceDataAsWrittenFaults | bloomberg_py_wrapper/wrapper_content.py:1286-1292 | As written, a reference-data message without `responseError` fails (a KeyError) when some ticker has field exceptions, and decodes as intended when none has. |
| FieldIdLookup.PositionAsWrittenFaults | bloomberg_py_wrapper/wrapper_content.py:1414-1430 | As written, a position message without `responseError` fails when some data row has a field with an S, D, I or B value, and decodes as intended when none has. |
| FieldIdLookup.CashAsWrittenFaults | bloomberg_py_wrapper/wrapper_content.py:1520-1524 | As written, a cash message without `responseError` fails when some balance has a field, and decodes as intended when none has. |
| FieldIdLookup.TypedFieldsWritten | bloomberg_py_wrapper/wrapper_content.py:1414-1430 | Corrected: the position field loop adds exactly the typed fields' ids to the row. Under each id it writes the string under the first of S, D, I and B held by the last typed field with that id, and it keeps the row's other cells. |
| FieldIdLookup.PositionRowCells | bloomberg_py_wrapper/wrapper_content.py:1408-1430 | Corrected: a position's series holds the security's book name, security id and security name under ACCOUNT, TICKER and NAME, unless a typed field's id overwrites that name. It then holds each typed field's value under its id, the last such field winning. It has no other cells. |
| FieldIdLookup.PositionRowHeld | bloomberg_py_wrapper/wrapper_content.py:1408-1432 | Corrected: once aligned on a frame's columns, each column of a position's row holds the typed value for that id, else the ACCOUNT, TICKER or NAME string, else a missing cell. |
| FieldIdLookup.PositionsHeldFromWritten | bloomberg_py_wrapper/wrapper_content.py:1406-1433 | Rows written by the position loop hold, cell by cell, the values `PositionRowHeld` names. |
| FieldIdLookup.PositionDataCells | bloomberg_py_wrapper/wrapper_content.py:1400-1433 | Corrected: the frame the position decoder returns holds, at position `len(index) + 1 + i`, position i's ACCOUNT, TICKER, NAME and typed values, cell by cell. |
| FieldIdLookup.CashRowCells | bloomberg_py_wrapper/wrapper_content.py:1513-1524 | Corrected: a balance's series holds its account, strategy, prime broker and currency under ACCOUNT, STRATEGY, PRIME_BROKER and CURRENCY, unless a field's id overwrites that name. It then holds each field's `settleDateCash` value under its id, the last such field winning. It has no other cells. |
| FieldIdLookup.CashRowHeld | bloomberg_py_wrapper/wrapper_content.py:1512-1525 | Corrected: once aligned on a frame's columns, each column of a balance's row holds the cash value for that id, else the ACCOUNT, STRATEGY, PRIME_BROKER or CURRENCY string, else a missing cell. |
| FieldIdLookup.BalancesHeldFromWritten | bloomberg_py_wrapper/wrapper_content.py:1511-1527 | Rows written by the cash loop hold, cell by cell, the values `CashRowHeld` names. |
| FieldIdLookup.CashDataCells | bloomberg_py_wrapper/wrapper_content.py:1505-1527 | Corrected: the frame the cash decoder leaves holds, at position `len(index) + 1 + i`, balance i's ACCOUNT, STRATEGY, PRIME_BROKER, CURRENCY and cash values, cell by cell. |
| FieldIdLookup.CashFieldsWritten | bloomberg_py_wrapper/wrapper_content.py:1520-1524 | Corrected: the cash field loop adds exactly the fields' ids to the row. Under each id it writes the `settleDateCash` value of the last field with that id, and it keeps the row's other cells. |
| Messages.FindSpec | bloomberg_py_wrapper/wrapper_content.py:1121-1126 | `getElement(n)` gives a child named n; it gives nothing exactly when no child has that name. |
| Tables.Align | bloomberg_py_wrapper/wrapper_content.py:1294 | A row written with `.loc` holds exactly the frame's columns. |
| Tables.Blank | bloomberg_py_wrapper/wrapper_content.py:1405 | A row added by `reindex` holds exactly the frame's columns. |
| Tables.SetRow | bloomberg_py_wrapper/wrapper_content.py:1294 | `.loc[k] = series` adds or replaces row k, aligned to the columns, and keeps the columns and every other row. |
| Tables.Reindex | bloomberg_py_wrapper/wrapper_content.py:1405 | `reindex(range(0, n))` keeps the columns, keeps exactly positions 0..n-1, and keeps those positions' old rows. |
| Tables.Concat | bloomberg_py_wrapper/wrapper_content.py:1171 | `concat` takes the union of columns and of row keys, and every row is aligned to the union. A label present in both frames keeps only the second frame's row, where pandas keeps both (see Left out). |
| Tables.Frame.constructor | bloomberg_py_wrapper/wrapper_content.py:1371 | A new frame holds the table it is given. |
| Tables.Frame.WriteRow | bloomberg_py_wrapper/wrapper_content.py:1294 | Writing a row in place leaves the frame equal to `SetRow` of the frame before. |
| Validation.EmptyCount | bloomberg_py_wrapper/wrapper_content.py:214-217 | The `num_empty` count of a list or tuple never exceeds its length. |
| Validation.EmptyValueCount | bloomberg_py_wrapper/wrapper_content.py:224-227 | The empty-value count of a dictionary never exceeds its size. |
| Validation.SecondOfKey | bloomberg_py_wrapper/wrapper_content.py:225 | Unpacking one dictionary key into `key, item`: a key of length two (a string, list, tuple or dictionary) gives its second item, and any other key fails. No contract of its own; `FirstKeyFails` uses it. |
| Validation.ValidateTypeAsWritten | bloomberg_py_wrapper/wrapper_content.py:191-234 | The type validator with the dictionary loop as written. No contract of its own; `DictKeysUnpackedAsWritten` states where it differs. |
| Validation.ValidateType | bloomberg_py_wrapper/wrapper_content.py:191-234 | The type validator with the dictionary loop as intended. No contract of its own; `StrictModeChecksOnlyNone` and `TypeCheckAccepts` state what it gives. |
| Validation.ValidateList | bloomberg_py_wrapper/wrapper_content.py:236-250 | The list validator. No contract of its own; `StrictModeChecksOnlyNone` and `ListCheckAccepts` state what it gives. |
| Validation.EmptyCountAll | bloomberg_py_wrapper/wrapper_content.py:214-219 | `num_empty == len(variable)` holds exactly when every item is `''`. |
| Validation.EmptyValueCountAll | bloomberg_py_wrapper/wrapper_content.py:224-229 | For a dictionary, the count equals the size exactly when every value is `''`. |
| Validation.StrictModeChecksOnlyNone | bloomberg_py_wrapper/wrapper_content.py:191-250 | With `can_be_none` False, both validators raise on None and give False for anything else, unchecked. |
| Validation.TypeCheckAccepts | bloomberg_py_wrapper/wrapper_content.py:202-234 | With `can_be_none` True, the type validator gives False for None. It gives True exactly for a value of an allowed type that is not `''`, not empty, and not all `''`. For any other non-None value it raises. |
| Validation.ListCheckAccepts | bloomberg_py_wrapper/wrapper_content.py:245-250 | With `can_be_none` True, the list validator gives True for a value in the allowed set (None included) and raises otherwise. |
| Validation.DictKeysUnpackedAsWritten | bloomberg_py_wrapper/wrapper_content.py:220-229 | As written, a dictionary whose first key is a string of length other than 2 makes the type validator raise. The intended validator accepts it when the value is not `''`. |
| Validation.FirstKeyFails | bloomberg_py_wrapper/wrapper_content.py:225 | Unpacking such a key into `key, item` fails, so counting fails. |
| Validation.InputValidationType | bloomberg_py_wrapper/wrapper_content.py:191-234 | The validator with its counting loops returns exactly what `ValidateType` gives. |
| DecodeSpec.MsgErrorText | bloomberg_py_wrapper/wrapper_content.py:1116-1130 | The text `_process_msg_error` raises: `category: subcategory: message`, a missing part printed as empty. No contract of its own; `DecodeProperties.ErrorCheckedFirst` states when it is raised. |
| DecodeSpec.Describe | bloomberg_py_wrapper/wrapper_content.py:1153-1167 | The row read from a `fieldInfo` element holds exactly the field-list columns, without `Category` for field info. |
| DecodeSpec.FieldListRequest | bloomberg_py_wrapper/wrapper_content.py:1132-1176 | The field-list decoder as a function. No contract of its own; `FieldListErrorFirst` and `FieldListConcatenated` state what it gives. |
| DecodeSpec.FieldInfoRequest | bloomberg_py_wrapper/wrapper_content.py:1178-1231 | The field-info decoder as a function. No contract of its own; `FieldInfoErrorFirst`, `FieldInfoRowsInPlace` and `FieldInfoKeyChoice` state what it gives. |
| DecodeSpec.BulkData | bloomberg_py_wrapper/wrapper_content.py:1264-1280 | A bulk field's table. No contract of its own; `BulkFieldShape` and `BulkNewColumnRaises` state its shape. |
| DecodeSpec.MarkExceptions | bloomberg_py_wrapper/wrapper_content.py:1286-1292 | The exceptions loop with the field-id name looked up as intended. No contract of its own; `ExceptionsMarkCells` states its effect. |
| DecodeSpec.ReferenceDataResponse | bloomberg_py_wrapper/wrapper_content.py:1243-1299 | The reference-data decoder, as intended. No contract of its own; `ReferenceDataErrorFirst`, `TickerRowReplaced` and `ExceptionsAfterFields` state what it gives, and `ReferenceDataAsWrittenFaults` relates it to the code as written. |
| DecodeSpec.HistoricalDataResponse | bloomberg_py_wrapper/wrapper_content.py:1301-1352 | The historical decoder up to its frame constructor. No contract of its own; `HistoricalDataErrorFirst` states what it gives. |
| DecodeSpec.IntradayTickData | bloomberg_py_wrapper/wrapper_content.py:1354-1383 | The tick decoder. No contract of its own; `IntradayTickErrorFirst` and `TicksConcatenated` state what it gives. |
| DecodeSpec.AimPositionData | bloomberg_py_wrapper/wrapper_content.py:1385-1437 | The position decoder with the reindex length corrected. No contract of its own. `AimPositionErrorFirst`, `PositionKeepsRows` and `PositionResultKeys` state its errors and keys. `PositionDataRows` and `FieldIdLookup.PositionDataCells` state that position `len(index) + 1 + i` holds position i's ACCOUNT, TICKER and NAME and its typed values. |
| DecodeSpec.AimPositionDataAsWritten | bloomberg_py_wrapper/wrapper_content.py:1385-1437 | The position decoder with the reindex length as written. No contract of its own; `PositionAsWrittenDropsRow` and `PositionAsWrittenLosesRow` state what it loses. |
| DecodeSpec.AimCashService | bloomberg_py_wrapper/wrapper_content.py:1491-1531 | The cash decoder, as intended. No contract of its own. `AimCashErrorFirst`, `AimCashInPlace` and `CashAppendsRows` state its errors, its frame and its keys. `CashDataRows` and `FieldIdLookup.CashDataCells` state that position `len(index) + 1 + i` holds balance i's ACCOUNT, STRATEGY, PRIME_BROKER and CURRENCY and its cash values. |
| DecodeSpec.Decode | bloomberg_py_wrapper/wrapper_content.py:1602 | Runs the decoder a request registered. No contract of its own; `ErrorCheckedFirst`, `CallerFrameUntouched` and `InPlaceWritersReturnTheirFrame` hold of it. |
| Decoders.ReadOverrides | bloomberg_py_wrapper/wrapper_content.py:1161-1167 | The overrides loop collects the override values in order. |
| Decoders.ReadDescription | bloomberg_py_wrapper/wrapper_content.py:1153-1167 | Reading one field's documentation gives the specified field-list entry. |
| Decoders.ReadFieldListEntry | bloomberg_py_wrapper/wrapper_content.py:1150-1169 | One iteration of the field-list loop gives the specified row, or a lookup failure. |
| Decoders.FieldListRowsStep | bloomberg_py_wrapper/wrapper_content.py:1150-1169 | The field-list fold takes one decoded entry and goes on. |
| Decoders.ProcessFieldListRequest | bloomberg_py_wrapper/wrapper_content.py:1132-1176 | The field-list decoder leaves the caller's frame alone and returns a new frame: the caller's frame concatenated with one row per field. It raises or fails as `FieldListRequest` says. |
| Decoders.ReadOverridable | bloomberg_py_wrapper/wrapper_content.py:1212-1220 | The property loop gives the `Overridable` flag the specification fold gives. |
| Decoders.ReadFieldInfoEntry | bloomberg_py_wrapper/wrapper_content.py:1196-1220 | One field-info entry is read as specified. |
| Decoders.ProcessFieldInfoRequest | bloomberg_py_wrapper/wrapper_content.py:1178-1231 | The field-info decoder writes its rows into the caller's frame in place, returns that frame, and agrees with `FieldInfoRequest`. |
| Decoders.ReadBulk | bloomberg_py_wrapper/wrapper_content.py:1264-1280 | The bulk-field loops give the specified bulk table, or a failure (a KeyError). |
| Decoders.ReadFieldCells | bloomberg_py_wrapper/wrapper_content.py:1263-1284 | The field-data loop gives the specified cells. |
| Decoders.ReadExceptions | bloomberg_py_wrapper/wrapper_content.py:1286-1292 | The exceptions loop gives the specified error markers. |
| Decoders.ReadSecurityRow | bloomberg_py_wrapper/wrapper_content.py:1259-1292 | One ticker's row is read as specified. |
| Decoders.SecurityRowsStep | bloomberg_py_wrapper/wrapper_content.py:1259-1294 | The reference-data fold writes one ticker's row and goes on. |
| Decoders.ProcessReferenceData | bloomberg_py_wrapper/wrapper_content.py:1243-1299 | The reference-data decoder writes one row per ticker into the caller's frame, returns that frame, and agrees with `ReferenceDataResponse`. |
| Decoders.ProcessHistoricalData | bloomberg_py_wrapper/wrapper_content.py:1301-1322 | The historical decoder raises the message's error first, then fails on its frame constructor, and otherwise raises "Unknown message type". |
| Decoders.ProcessIntradayTickData | bloomberg_py_wrapper/wrapper_content.py:1354-1383 | The tick decoder returns a new frame, the caller's frame concatenated with the ticks, and agrees with `IntradayTickData`. |
| Decoders.ReadTypedFields | bloomberg_py_wrapper/wrapper_content.py:1414-1430 | The position field loop gives the specified typed values. |
| Decoders.ReadPositionRow | bloomberg_py_wrapper/wrapper_content.py:1406-1430 | One position's row is read as specified. |
| Decoders.PositionRowsStep | bloomberg_py_wrapper/wrapper_content.py:1406-1432 | The position fold writes one row at the next position and goes on. |
| Decoders.WritePositions | bloomberg_py_wrapper/wrapper_content.py:1406-1432 | The position loop writes the rows from `next` on, exactly as the `PositionRows` fold says, or reports the failure. |
| Decoders.PositionsIntoCopy | bloomberg_py_wrapper/wrapper_content.py:1400-1405 | The corrected decoder writes its rows into a copy reindexed to `len(index) + num_rows`. |
| Decoders.DecodePositions | bloomberg_py_wrapper/wrapper_content.py:1400-1433 | Past its checks, the position decoder returns a new reindexed frame holding the rows, and leaves the caller's frame alone. |
| Decoders.ProcessAimPositionData | bloomberg_py_wrapper/wrapper_content.py:1385-1437 | The position decoder agrees with the corrected `AimPositionData`. |
| Decoders.ReadCashFields | bloomberg_py_wrapper/wrapper_content.py:1520-1524 | The cash field loop gives the specified cells. |
| Decoders.CashRowsStep | bloomberg_py_wrapper/wrapper_content.py:1512-1526 | The cash fold writes one row at the next position and goes on. |
| Decoders.ReadCashRow | bloomberg_py_wrapper/wrapper_content.py:1513-1524 | One balance's row is read as specified. |
| Decoders.WriteCashRows | bloomberg_py_wrapper/wrapper_content.py:1509-1526 | The cash loop writes the rows from `next` on into the frame in place, exactly as the `CashRows` fold says. |
| Decoders.ProcessAimCashService | bloomberg_py_wrapper/wrapper_content.py:1491-1531 | The cash decoder writes its rows into the caller's frame from `len(index) + 1` on, returns that frame, and agrees with `AimCashService`. |
| Decoders.ProcessMessage | bloomberg_py_wrapper/wrapper_content.py:1602 | The decoder a request registered, run on one message, agrees with `Decode`. |
| DecodeProperties.ErrorCheckedFirst | bloomberg_py_wrapper/wrapper_content.py:1116-1130 | Every decoder raises the message's `responseError` as `category: subcategory: message` before looking at any data. Without an error or the payload, it raises "Unknown message type". It raises exactly in those two cases. |
| DecodeProperties.FieldListErrorFirst | bloomberg_py_wrapper/wrapper_content.py:1141-1176 | The field-list decoder checks the error first, then its payload. |
| DecodeProperties.FieldInfoErrorFirst | bloomberg_py_wrapper/wrapper_content.py:1187-1231 | The same for field info, whose result is the frame it wrote into. |
| DecodeProperties.ReferenceDataErrorFirst | bloomberg_py_wrapper/wrapper_content.py:1252-1299 | The same for reference data. |
| DecodeProperties.HistoricalDataErrorFirst | bloomberg_py_wrapper/wrapper_content.py:1310-1352 | The same for historical data. |
| DecodeProperties.IntradayTickErrorFirst | bloomberg_py_wrapper/wrapper_content.py:1363-1383 | The same for intraday ticks. |
| DecodeProperties.AimPositionErrorFirst | bloomberg_py_wrapper/wrapper_content.py:1394-1437 | The same for positions. |
| DecodeProperties.AimCashErrorFirst | bloomberg_py_wrapper/wrapper_content.py:1500-1531 | The same for cash. |
| DecodeProperties.AimCashRowLoop | bloomberg_py_wrapper/wrapper_content.py:1504-1526 | Past its checks, the cash decoder is the row fold from `len(index) + 1`. |
| DecodeProperties.AimCashInPlace | bloomberg_py_wrapper/wrapper_content.py:1525-1527 | The cash decoder returns the frame it wrote into. |
| DecodeProperties.CallerFrameUntouched | bloomberg_py_wrapper/wrapper_content.py:1132-1437 | The field-list, historical, tick and position decoders never write into the caller's frame, so the asynchronous listener's data for them never changes. |
| DecodeProperties.InPlaceWritersReturnTheirFrame | bloomberg_py_wrapper/wrapper_content.py:1178-1531 | The field-info, reference-data and cash decoders return the very frame they wrote into. |
| DecodeProperties.FieldInfoRowsInPlace | bloomberg_py_wrapper/wrapper_content.py:1196-1227 | The field-info loop never raises, keeps the columns and the old rows, and adds rows only under mnemonics. |
| DecodeProperties.SecurityRowsInPlace | bloomberg_py_wrapper/wrapper_content.py:1259-1295 | The reference-data loop never raises, and keeps the columns and the old rows, whatever the field-id lookup gives. |
| DecodeProperties.CashRowsInPlace | bloomberg_py_wrapper/wrapper_content.py:1512-1527 | The cash loop never raises, and keeps the columns and the old rows, whatever the field-id lookup gives. |
| DecodeProperties.CashRowsAt | bloomberg_py_wrapper/wrapper_content.py:1512-1526 | The cash loop adds exactly the positions `next .. next + count - 1` and keeps every other row, whatever the field-id lookup gives. |
| DecodeProperties.FirstSubRowFixesKeys | bloomberg_py_wrapper/wrapper_content.py:1269-1273 | The first sub-row sets one key per element name. Each key holds a one-element list: the value of the last element with that name. |
| DecodeProperties.LaterSubRowKeys | bloomberg_py_wrapper/wrapper_content.py:1274-1279 | A later sub-row adds no key, and each of its valid elements names an existing key. |
| DecodeProperties.LaterSubRowColumn | bloomberg_py_wrapper/wrapper_content.py:1276-1279 | A later sub-row appends to a key exactly its valid values of that name. |
| DecodeProperties.LaterSubRowsKeys | bloomberg_py_wrapper/wrapper_content.py:1267-1279 | The same, over all later sub-rows. |
| DecodeProperties.LaterSubRowsColumn | bloomberg_py_wrapper/wrapper_content.py:1267-1279 | The same, over all later sub-rows. |
| DecodeProperties.BulkFieldShape | bloomberg_py_wrapper/wrapper_content.py:1264-1280 | A bulk field's keys are the first sub-row's names. Each key's list is the first sub-row's value for it, followed by the valid later values of that name, so a key missing from a later sub-row ends up shorter. |
| DecodeProperties.BulkNewColumnRaises | bloomberg_py_wrapper/wrapper_content.py:1279 | A valid element in a later sub-row under a name the first sub-row lacked makes the decoder fail. |
| DecodeProperties.FieldCellsWritten | bloomberg_py_wrapper/wrapper_content.py:1263-1284 | The field loop writes a cell for each bulk field and each valid scalar, and keeps the rest of the row. A cell holds the value or nested table of the last such field with that name. |
| DecodeProperties.ExceptionsMarkKeys | bloomberg_py_wrapper/wrapper_content.py:1286-1292 | The exceptions loop adds a cell exactly for each excepted field id and keeps every other cell. |
| DecodeProperties.ExceptionsMarkLast | bloomberg_py_wrapper/wrapper_content.py:1286-1292 | An excepted field's cell holds `ERROR: <category>` of the last exception naming that field. |
| DecodeProperties.ExceptionsMarkCells | bloomberg_py_wrapper/wrapper_content.py:1286-1292 | Both together: each excepted field's cell is the marker of its last exception, and every other cell is untouched. |
| DecodeProperties.ExceptionsAfterFields | bloomberg_py_wrapper/wrapper_content.py:1263-1292 | Exceptions are applied after the field data: a field with an exception shows the marker of its last exception, whatever data it had. Every other cell keeps its data. |
| DecodeProperties.TickerRowReplaced | bloomberg_py_wrapper/wrapper_content.py:1259-1294 | After the loop, each ticker's row is that of its last occurrence, aligned to the columns, and every other row is kept. |
| DecodeProperties.FieldInfoKeyChoice | bloomberg_py_wrapper/wrapper_content.py:1222-1226 | A field-info row is keyed by `fieldId` when that is already in the index, and by `Mnemonic` otherwise. |
| DecodeProperties.OverridableUnset | bloomberg_py_wrapper/wrapper_content.py:1212-1220 | Without a `fieldoverridable` property, the flag keeps its value. |
| DecodeProperties.OverridableLastWins | bloomberg_py_wrapper/wrapper_content.py:1212-1220 | The last `fieldoverridable` property decides the flag: True exactly for the value `'true'`. |
| DecodeProperties.TypedValueFirstMatch | bloomberg_py_wrapper/wrapper_content.py:1419-1430 | A typed position value is taken from S, else D, else I, else B: the first present in that order, and none if none is present. |
| DecodeProperties.PositionRowsAt | bloomberg_py_wrapper/wrapper_content.py:1406-1432 | The position loop adds exactly the positions `next .. next + count - 1` and keeps every other row. |
| DecodeProperties.AimPositionRowLoop | bloomberg_py_wrapper/wrapper_content.py:1398-1433 | Past its checks, the position decoder is the row fold into the reindexed copy. |
| DecodeProperties.FilledCopy | bloomberg_py_wrapper/wrapper_content.py:1405-1432 | The filled copy holds the reindexed positions plus the new ones, and keeps the old rows below the reindex length. |
| DecodeProperties.PositionResultKeys | bloomberg_py_wrapper/wrapper_content.py:1400-1433 | The returned frame's keys, as written and as corrected. |
| DecodeProperties.PositionKeepsRows | bloomberg_py_wrapper/wrapper_content.py:1398-1433 | Corrected: on a frame with rows 0..n-1, the position decoder keeps every old row and returns a dense frame. |
| DecodeProperties.PositionAsWrittenDropsRow | bloomberg_py_wrapper/wrapper_content.py:1405 | As written, row n of a frame with n rows is lost by the reindex. |
| DecodeProperties.PositionAsWrittenLosesRow | bloomberg_py_wrapper/wrapper_content.py:1405-1432 | As written, across two messages on an empty frame, the last row of the first message is dropped by the second. |
| DecodeProperties.CashRowsDense | bloomberg_py_wrapper/wrapper_content.py:1509-1526 | The cash rows extend a frame with rows 1..n by rows n+1..n+count, keeping the old rows. |
| DecodeProperties.CashAppendsRows | bloomberg_py_wrapper/wrapper_content.py:1504-1527 | The cash decoder appends one row per balance after the existing ones and keeps them. `CashDataRows` states what the appended rows hold. |
| DecodeProperties.WriteRowsContent | bloomberg_py_wrapper/wrapper_content.py:1406-1433 | In the row loop both decoders share, when every entry reads, entry i's series is written at position `next + i`, aligned on the frame's columns. |
| DecodeProperties.WriteRowsKeep | bloomberg_py_wrapper/wrapper_content.py:1406-1433 | The shared row loop keeps every row outside the positions it writes. |
| DecodeProperties.CashRowsWrite | bloomberg_py_wrapper/wrapper_content.py:1511-1527 | The cash loop is the shared row loop over the balance series. |
| DecodeProperties.CashRowsContent | bloomberg_py_wrapper/wrapper_content.py:1511-1527 | When the cash loop completes, position `next + i` holds balance i's series aligned on the frame's columns. |
| DecodeProperties.CashRowsContentAll | bloomberg_py_wrapper/wrapper_content.py:1511-1527 | When the cash loop completes, every position `next .. next + count - 1` holds its balance's aligned series. |
| DecodeProperties.CashDataRows | bloomberg_py_wrapper/wrapper_content.py:1505-1527 | The frame the cash decoder leaves holds, at each position `len(index) + 1 + i`, balance i's series aligned on the caller's columns. |
| DecodeProperties.PositionRowsWrite | bloomberg_py_wrapper/wrapper_content.py:1406-1433 | The position loop is the shared row loop over the position series, a failure giving no frame. |
| DecodeProperties.PositionRowsContent | bloomberg_py_wrapper/wrapper_content.py:1406-1433 | When the position loop completes, position `next + i` holds position i's series aligned on the frame's columns. |
| DecodeProperties.PositionRowsContentAll | bloomberg_py_wrapper/wrapper_content.py:1406-1433 | When the position loop completes, every position `next .. next + count - 1` holds its position's aligned series. |
| DecodeProperties.PositionDataRows | bloomberg_py_wrapper/wrapper_content.py:1400-1433 | The frame the position decoder returns holds, at each position `len(index) + 1 + i`, position i's series aligned on the caller's columns. |
| DecodeProperties.TickRowsAt | bloomberg_py_wrapper/wrapper_content.py:1370-1378 | The tick loop fills positions `0 .. count - 1`. |
| DecodeProperties.TickRowsKeep | bloomberg_py_wrapper/wrapper_content.py:1370-1378 | The tick loop keeps every row outside the positions it fills. |
| DecodeProperties.TickRowsStep | bloomberg_py_wrapper/wrapper_content.py:1370-1378 | The tick loop writes one tick at its position and goes on. |
| DecodeProperties.TickRowsContent | bloomberg_py_wrapper/wrapper_content.py:1370-1378 | Position `next + i` holds tick i's `time`, `type`, `value` and `size`, aligned to the frame's columns. |
| DecodeProperties.TickDecoded | bloomberg_py_wrapper/wrapper_content.py:1366-1379 | A decoded tick message has at least one tick, every tick reads, and the result is the caller's frame concatenated with the tick rows. |
| DecodeProperties.TicksConcatenated | bloomberg_py_wrapper/wrapper_content.py:1366-1379 | The tick decoder leaves the caller's frame alone and needs at least one tick. It returns the caller's columns, the caller's labels plus positions `0 .. count - 1`, and position i holds tick i's four values. |
| DecodeProperties.FieldListRowsKeys | bloomberg_py_wrapper/wrapper_content.py:1150-1170 | The field-list rows are keyed by field id. |
| DecodeProperties.FieldListRowsContent | bloomberg_py_wrapper/wrapper_content.py:1150-1170 | A field id's row is the entry of the last field with that id, and every other row is kept. |
| DecodeProperties.LastEntryColumns | bloomberg_py_wrapper/wrapper_content.py:1150-1170 | That entry has exactly the field-list columns. |
| DecodeProperties.FieldListConcatenated | bloomberg_py_wrapper/wrapper_content.py:1145-1172 | The field-list decoder leaves the caller's frame alone. It returns the caller's columns plus the field-list columns, the caller's labels plus the field ids, and a field id's row is its last field's entry. |
| Requests.Register | bloomberg_py_wrapper/wrapper_content.py:1635-1646 | `_send_request` on the registry. No contract of its own; `RegisterFresh` and `RegisterKeepsOthers` state what it does. |
| Requests.Submit | bloomberg_py_wrapper/wrapper_content.py:1703-1706 | A façade request: send, then register the call-back if one is given. No contract of its own; `SubmitRecord` and `IdsNeverRepeat` state what it does. |
| Requests.Clear | bloomberg_py_wrapper/wrapper_content.py:1648-1657 | `_clear_request`. No contract of its own; `ClearForgets` states what it does. |
| Requests.IsReady | bloomberg_py_wrapper/wrapper_content.py:1664-1672 | `request_is_ready`. No contract of its own; `QueriesClassify` and `ErrorImpliesReady` state what it gives. |
| Requests.IsError | bloomberg_py_wrapper/wrapper_content.py:1674-1682 | `request_is_error`. No contract of its own; `QueriesClassify` and `ErrorImpliesReady` state what it gives. |
| Requests.DecodeStored | bloomberg_py_wrapper/wrapper_content.py:1602 | The decoder run on a data slot, which holds a frame or an error text. No contract of its own; `StoredTextRaises` states what it gives on a text. |
| Requests.ListenAsWritten | bloomberg_py_wrapper/wrapper_content.py:1596-1614 | The listener step as written. No contract of its own; `ListenAsWrittenLosesError` and `ListenAsWrittenWitness` state where it differs. |
| Requests.Expired | bloomberg_py_wrapper/wrapper_content.py:1624-1625 | The intended deadline test. No contract of its own; `ExpiredWithinDay` and `NoTimeoutNeverExpires` state when it holds. |
| Requests.SweepAsWritten | bloomberg_py_wrapper/wrapper_content.py:1619-1633 | The monitor's sweep as written. No contract of its own; `SweepAsWrittenNeverTimesOut` states what it does. |
| Requests.GetData | bloomberg_py_wrapper/wrapper_content.py:1684-1696 | Fetching data keeps the bookkeeping invariant. |
| Requests.ListenStep | bloomberg_py_wrapper/wrapper_content.py:1596-1614 | A listener step keeps the bookkeeping invariant, and changes only the data and status of its own id. |
| Requests.AfterDecoded | bloomberg_py_wrapper/wrapper_content.py:1602-1607 | Past a decoder that returned, only the data and status of the id change. |
| Requests.AfterRaised | bloomberg_py_wrapper/wrapper_content.py:1608-1614 | Past a decoder error, only the data and status of the id change. |
| Requests.Listen | bloomberg_py_wrapper/wrapper_content.py:1596-1614 | The intended listener step keeps the bookkeeping invariant. |
| Requests.ListenCids | bloomberg_py_wrapper/wrapper_content.py:1597-1600 | The loop over a message's ids keeps the invariant. |
| Requests.ListenEvent | bloomberg_py_wrapper/wrapper_content.py:1595-1600 | The loop over an event's messages keeps the invariant. |
| Requests.ElapsedSeconds | bloomberg_py_wrapper/wrapper_content.py:1624-1625 | `timedelta.seconds` lies in 0..86399. |
| Requests.CheckTimeoutBy | bloomberg_py_wrapper/wrapper_content.py:1622-1630 | The timeout step, with the deadline test as written or as intended, keeps the invariant and never stops the monitor. |
| Requests.CheckTimeout | bloomberg_py_wrapper/wrapper_content.py:1622-1630 | The intended timeout step, which skips a request without a timeout, keeps the invariant and never stops the monitor. |
| Requests.Sweep | bloomberg_py_wrapper/wrapper_content.py:1619-1630 | The monitor's sweep keeps the invariant. |
| RequestProperties.RegisterFresh | bloomberg_py_wrapper/wrapper_content.py:1635-1662 | `_send_request` takes `counter + 1`, above every id in use, and gives that id a full record: the request, its decoder, the pre-allocated output, status PROCESSING and `{start, time}`, and no call-back. The invariant is kept. |
| RequestProperties.RegisterKeepsOthers | bloomberg_py_wrapper/wrapper_content.py:1635-1646 | Sending leaves every other id's record unchanged. |
| RequestProperties.SubmitRecord | bloomberg_py_wrapper/wrapper_content.py:1703-1706 | A façade request registers exactly the call-back it was given under the new id, and changes nothing else. |
| RequestProperties.IdsNeverRepeat | bloomberg_py_wrapper/wrapper_content.py:1659-1662 | Successive requests take strictly increasing ids, none of them already in use. |
| RequestProperties.ClearForgets | bloomberg_py_wrapper/wrapper_content.py:1648-1657 | Clearing removes the id from every dictionary and no other id, and later queries on the id raise ValueError. |
| RequestProperties.QueriesClassify | bloomberg_py_wrapper/wrapper_content.py:1664-1682 | `request_is_ready` is true exactly for READY, ERROR or TIMEOUT, and false for PROCESSING. `request_is_error` is true exactly for ERROR or TIMEOUT. Both raise ValueError exactly for an unregistered id. |
| RequestProperties.ErrorImpliesReady | bloomberg_py_wrapper/wrapper_content.py:1664-1682 | is_error implies is_ready, and not ready implies not an error. |
| RequestProperties.GetDataOutcomes | bloomberg_py_wrapper/wrapper_content.py:1684-1696 | `get_request_data` behaves as follows, and leaves the state unchanged unless asked to remove: an unknown id raises ValueError; PROCESSING gives None; ERROR raises "The request failed!"; READY or TIMEOUT gives the data. |
| RequestProperties.GetDataRemoves | bloomberg_py_wrapper/wrapper_content.py:1648-1696 | Fetching with removal forgets the request, so later queries on it raise ValueError, and leaves every other record unchanged. |
| RequestProperties.ListenUnregistered | bloomberg_py_wrapper/wrapper_content.py:1599 | A message for an unregistered id changes nothing and calls nothing. |
| RequestProperties.ListenDecoded | bloomberg_py_wrapper/wrapper_content.py:1601-1607 | After a decode, the data slot holds the frame with the in-place writes. A RESPONSE sets READY and calls the call-back with READY, the id and the data. Any other event leaves the status alone and calls nothing. |
| RequestProperties.ListenRaised | bloomberg_py_wrapper/wrapper_content.py:1608-1614 | A decoder error sets ERROR, replaces the data with the error text, and calls the call-back with ERROR, the id and the text. |
| RequestProperties.OnlyOwnRecord | bloomberg_py_wrapper/wrapper_content.py:1596-1614 | A listener step on an id changes no other id's record. |
| RequestProperties.ListenNotifiesRegistered | bloomberg_py_wrapper/wrapper_content.py:1603-1614 | A step calls at most one call-back, and only a registered one, with the status and data the step left. A registered call-back is called whenever the step changes the status. |
| RequestProperties.ListenKeepsOthers | bloomberg_py_wrapper/wrapper_content.py:1596-1614 | A listener step leaves every other id's record unchanged. |
| RequestProperties.StoredTextRaises | bloomberg_py_wrapper/wrapper_content.py:1602-1611 | A decoder run on an error text instead of a frame raises exactly when it would raise on any frame, and never returns. |
| RequestProperties.ListenCidsUnregistered | bloomberg_py_wrapper/wrapper_content.py:1597-1599 | A message carrying no registered id changes nothing. |
| RequestProperties.ListenCidsAppends | bloomberg_py_wrapper/wrapper_content.py:1597-1614 | The listener only appends to the call-backs already made. |
| RequestProperties.ExpiredWithinDay | bloomberg_py_wrapper/wrapper_content.py:1624-1625 | Within a day, a deadline has expired exactly when `time` whole seconds have passed. |
| RequestProperties.CheckTimeoutNotDue | bloomberg_py_wrapper/wrapper_content.py:1625 | Before its deadline, a request is left alone. |
| RequestProperties.CheckTimeoutDue | bloomberg_py_wrapper/wrapper_content.py:1625-1630 | An expired request becomes TIMEOUT. With a call-back, that is called with TIMEOUT and the current data (no id) and the request is cleared. Without one, the request stays registered as TIMEOUT and counts as an error. Other records are unchanged. |
| RequestProperties.SweepKeepsOthers | bloomberg_py_wrapper/wrapper_content.py:1621-1630 | A sweep leaves every id it does not visit unchanged. |
| RequestProperties.SweepTimesOut | bloomberg_py_wrapper/wrapper_content.py:1621-1630 | A sweep that visits an expired request without a call-back leaves it TIMEOUT. |
| RequestProperties.SweepAsWrittenNeverTimesOut | bloomberg_py_wrapper/wrapper_content.py:1619-1633 | As written, the sweep leaves an expired request PROCESSING and tells nobody, where the intended sweep marks it TIMEOUT. |
| RequestProperties.NoTimeoutExpiresAsWritten | bloomberg_py_wrapper/wrapper_content.py:1622-1630 | The per-id check at :1622-1630 as written, once the :1621 loop is corrected, times out a request sent with the default timeout None on its first look: Python 2 orders None below every number, so the comparison holds, and a call-back is told TIMEOUT and cleared. |
| RequestProperties.NoTimeoutNeverExpires | bloomberg_py_wrapper/wrapper_content.py:1625 | As intended, a request without a timeout never expires, and the timeout step leaves it alone. |
| RequestProperties.ListenAsWrittenLosesError | bloomberg_py_wrapper/wrapper_content.py:1608-1614 | As written, a decoder error sets ERROR and then kills the listener: the data keeps the frame and the call-back is not called. The intended step stores the text, calls the call-back and listens on. |
| RequestProperties.ListenAsWrittenWitness | bloomberg_py_wrapper/wrapper_content.py:1608-1614 | An input that shows it: a reference-data request with a call-back, and a `ReferenceDataResponse` message with an empty `responseError`. |
| AsyncClient.RunDecoder | bloomberg_py_wrapper/wrapper_content.py:1602 | Running a request's decoder on its data slot through a frame gives exactly `DecodeStored`. |
| AsyncClient.Asynchronous.constructor | bloomberg_py_wrapper/wrapper_content.py:1555-1566 | A new client has counter 0, six empty dictionaries and an empty log, and is consistent. |
| AsyncClient.Asynchronous.GenerateCid | bloomberg_py_wrapper/wrapper_content.py:1659-1662 | Increments the counter and returns the new value; nothing else changes. |
| AsyncClient.Asynchronous.SendRequest | bloomberg_py_wrapper/wrapper_content.py:1635-1646 | Leaves the state `Register` gives, and returns the new id. |
| AsyncClient.Asynchronous.RegisterCallback | bloomberg_py_wrapper/wrapper_content.py:1704-1705 | Registers a call-back under the id only when one is given. |
| AsyncClient.Asynchronous.SubmitRequest | bloomberg_py_wrapper/wrapper_content.py:1703-1706 | Leaves the state `Submit` gives, returns an id not previously in use, and keeps the invariant. |
| AsyncClient.Asynchronous.ClearRequest | bloomberg_py_wrapper/wrapper_content.py:1648-1657 | Leaves the state `Clear` gives. |
| AsyncClient.Asynchronous.RequestIsReady | bloomberg_py_wrapper/wrapper_content.py:1664-1672 | Returns True exactly for READY, ERROR or TIMEOUT, and raises ValueError exactly for an unregistered id. |
| AsyncClient.Asynchronous.RequestIsError | bloomberg_py_wrapper/wrapper_content.py:1674-1682 | Returns True exactly for ERROR or TIMEOUT, and raises ValueError exactly for an unregistered id. |
| AsyncClient.Asynchronous.GetRequestData | bloomberg_py_wrapper/wrapper_content.py:1684-1696 | Returns and leaves what `GetData` gives, and keeps the invariant. |
| AsyncClient.Asynchronous.Notify | bloomberg_py_wrapper/wrapper_content.py:1605-1607 | Logs the call-back invocation if one is registered, and changes nothing else. |
| AsyncClient.Asynchronous.RecordError | bloomberg_py_wrapper/wrapper_content.py:1608-1614 | The error branch, as intended: sets ERROR, stores the text, and notifies. |
| AsyncClient.Asynchronous.ListenStep | bloomberg_py_wrapper/wrapper_content.py:1599-1614 | Leaves the state, the log and the thread's fate that `Listen` gives. |
| AsyncClient.Asynchronous.ListenMessage | bloomberg_py_wrapper/wrapper_content.py:1597-1614 | The loop over a message's ids does what `ListenCids` gives. |
| AsyncClient.Asynchronous.ListenEvent | bloomberg_py_wrapper/wrapper_content.py:1595-1614 | The loop over an event's messages does what `ListenEvent` gives. |
| AsyncClient.Asynchronous.TimeoutStep | bloomberg_py_wrapper/wrapper_content.py:1622-1630 | Leaves the state and log that `CheckTimeout` gives. |
| AsyncClient.Asynchronous.SweepTimeouts | bloomberg_py_wrapper/wrapper_content.py:1619-1630 | The intended sweep leaves the state and log that `Sweep` gives. |
| SyncListen.ListenFor | bloomberg_py_wrapper/wrapper_content.py:1100-1114 | `_listen_bloomberg` over a finite run of events. No contract of its own; `OthersIgnored`, `AnsweredByResponse` and `ErrorEndsListening` state what it gives. |
| SyncListen.ListenBloomberg | bloomberg_py_wrapper/wrapper_content.py:1100-1114 | The synchronous listener's loops return exactly what the `ListenFor` fold gives. |
| SyncListen.OthersIgnored | bloomberg_py_wrapper/wrapper_content.py:1110-1111 | Messages that do not carry the id are never decoded: without one, the frame comes through unchanged. |
| SyncListen.MessagesIgnored | bloomberg_py_wrapper/wrapper_content.py:1110-1111 | The same, within one event. |
| SyncListen.AnsweredByResponse | bloomberg_py_wrapper/wrapper_content.py:1111-1114 | A frame is handed back only by a RESPONSE event that carries the id. |
| SyncListen.MessagesAnswer | bloomberg_py_wrapper/wrapper_content.py:1111-1114 | The same, within one event. |
| SyncListen.ErrorEndsListening | bloomberg_py_wrapper/wrapper_content.py:1112-1130 | A message for the id carrying `responseError` ends listening with the decoder's raise. |

## Left out

- Threads: the listener and timeout threads, their `while ..._alive` loops, `__del__` and any interleaving. One step of each is modelled, as a method of the class.
- The market-data library: sessions, services, building requests, and `sendRequest`. The model takes `sendRequest` to return the generated id. The synchronous `_send_request`, with its signal-based timeout, is not part of this model.
- The façade methods' request building (:252-1098). Only their call-back registration (:1704-1706 and its copies) is modelled. The overrides at :1719, :1762, :1773 and :1785 call `Synchronous.*` without `self` and would raise before registering. `aim_cash_service` returns None, so its call-back would be registered under None. Neither is modelled.
- `_callback_function_removes_data` (:1569) is stored but never read, so nothing depends on it.
- `_process_aim_historical_position_data` (:1439-1489) is never used by a request. It is not part of this model.
- `_process_historical_data` is modelled only up to its error check. Past that, its frame constructor raises (a `Fault`).
- pandas: frames are the abstract `Table`. Cell values are opaque, and float tick values are opaque strings. Duplicate index labels, `MultiIndex` and dtype handling are not modelled.
- Aliasing: the stored frame and a decoder's frame are values. A frame that a caller shares with the registry is not modelled.
- Clock: `datetime.now()` is the integer `now`, in microseconds.
- Requests.Clear: requires the id in the four dictionaries that `_clear_request` deletes from unconditionally. The source would raise KeyError otherwise; no caller reaches that.
- Requests.GetData: requires the bookkeeping invariant, which the class keeps. Without it, the source's reads could raise KeyError.
- Requests.CheckTimeout: an id without a timeout record changes nothing. The monitor only visits ids with one. A request whose timeout is None is skipped, as intended; `Requests.CheckTimeoutBy` with the comparison as written times it out on the per-id check's first look, once the :1621 loop is corrected (see Findings).
- Tables.Concat: a label present in both frames keeps only the second frame's row, where pandas keeps both rows under the repeated label. Two places depend on that: a tick message after another one, whose positions 0.. repeat the earlier ticks' labels (:1370, :1112), and a field id listed twice in one field-list message (:1168-1171). There the model keeps one row where the source returns several.
- Requests.Register: accepts the field-list, field-info and search decoders that the `Asynchronous` class disables (:1551-1553). The facts about a data slot holding an error text (`StoredTextRaises`) are stated for every decoder kind, including those it cannot register.
- Messages.Printed: stands in for the market-data library's printed form of an element in error texts. A scalar prints as its value and anything else as its name; the library's own layout is not modelled.
- Requests.SweepAsWritten: modelled only by its effect, that nothing changes, not by the TypeError it swallows.
- Requests.DecodeStored: a data slot that holds an error text is given to the decoder as an empty frame. A decoder raises its protocol errors first and fails on anything else, and only that distinction is kept.

## Findings

| source | as written | input that shows it | evidently intended | confidence | as-written member | corrected member |
|---|---|---|---|---|---|---|
| bloomberg_py_wrapper/wrapper_content.py:1611, 1614 | `e.message()` calls the string attribute `message` of a Python 2 exception. That raises TypeError after ERROR is set: the data is not replaced, the call-back is not called, and the listener thread dies. | A registered request with a call-back, and a message carrying `responseError` | Store `e.message` (the text) as the data and pass it to the call-back | high (not executed) | RequestProperties.ListenAsWrittenLosesError | Requests.Listen |
| bloomberg_py_wrapper/wrapper_content.py:1405 | `len(output_data.index + num_rows)` is the length of the index, not the length plus `num_rows`. The reindex therefore drops position n, where the previous message's last row sits. | Two position messages of one row each, on an empty frame | `len(output_data.index) + num_rows`, as at :1458 and :1511 | high (not executed) | DecodeProperties.PositionAsWrittenLosesRow | DecodeProperties.PositionKeepsRows |
| bloomberg_py_wrapper/wrapper_content.py:225 | `for key, item in variable` iterates a dictionary's keys and unpacks each key into two values. That raises for any key that is not a two-element sequence. | `{'PX_LAST': 'x'}` with `dict` allowed | `variable.items()` | high (not executed) | Validation.DictKeysUnpackedAsWritten | Validation.TypeCheckAccepts |
| bloomberg_py_wrapper/wrapper_content.py:1291 | The reference-data decoder looks up the key `'fieldID'`, but the name table files the field-id name under `'fieldId'` (:140). The lookup raises KeyError, so any ticker with a field exception makes the decoder fail. | A reference-data message with one ticker and one field exception | One key, `'fieldId'`, for the field-id name | high (not executed) | FieldIdLookup.ReferenceDataAsWrittenFaults | DecodeProperties.ExceptionsMarkCells |
| bloomberg_py_wrapper/wrapper_content.py:1420 | The position decoder looks up the same missing key, so any position field with an S, D, I or B value makes the decoder fail. | A position message with one data row holding one typed field | One key, `'fieldId'`, for the field-id name | high (not executed) | FieldIdLookup.PositionAsWrittenFaults | FieldIdLookup.TypedFieldsWritten |
| bloomberg_py_wrapper/wrapper_content.py:1523 | The cash decoder looks up the same missing key, so any balance with a field makes the decoder fail. | A cash message with one balance holding one field | One key, `'fieldId'`, for the field-id name | high (not executed) | FieldIdLookup.CashAsWrittenFaults | FieldIdLookup.CashFieldsWritten |
| bloomberg_py_wrapper/wrapper_content.py:1621 | `for cid in self._requests_timeout.iteritems()` yields (id, record) pairs. Looking a pair up as a key hashes the record dictionary, which raises TypeError, and the loop swallows it. No request ever times out. | Any registered request whose timeout has passed | `for cid in self._requests_timeout.keys()` | high (not executed) | RequestProperties.SweepAsWrittenNeverTimesOut | RequestProperties.SweepTimesOut |
| bloomberg_py_wrapper/wrapper_content.py:1625 | `tot_time.seconds >= self._requests_timeout[cid]['time']` with the default timeout None: Python 2 orders None below every integer, so the test holds at once. | A façade request sent without `timeout_seconds` and with a call-back: once the :1621 loop is corrected, the first sweep that reaches it tells the call-back TIMEOUT and clears it | Skip requests whose timeout is None | medium (not executed) | RequestProperties.NoTimeoutExpiresAsWritten | RequestProperties.NoTimeoutNeverExpires |
