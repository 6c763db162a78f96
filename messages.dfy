/**
 * The self-describing messages the market-data service delivers, and the
 * element names the decoders look up in them
 * (bloomberg_py_wrapper/wrapper_content.py, the name table built in the
 * Synchronous constructor).
 */
module Names {
  import opened Wrappers

  const ResponseError := "responseError"
  const Category := "category"
  const Subcategory := "subcategory"
  const MessageText := "message"

  const FieldData := "fieldData"
  const Id := "id"
  const FieldInfo := "fieldInfo"
  const Mnemonic := "mnemonic"
  const Description := "description"
  const Datatype := "datatype"
  const Documentation := "documentation"
  const CategoryName := "categoryName"
  const Overrides := "overrides"
  const Property := "property"
  const Value := "value"

  const SecurityData := "securityData"
  const Security := "security"
  const FieldExceptions := "fieldExceptions"
  const ErrorInfo := "errorInfo"
  /** The one element name used for a field id (the table's 'fieldId' entry). */
  const FieldId := "fieldID"

  const TickData := "tickData"
  const Time := "time"
  const Type := "type"
  const Size := "size"

  const PositionData := "positionData"
  const DataRow := "dataRow"
  const SecurityItem := "securityItem"
  const BookName := "bookName"
  const SecurityId := "securityID"
  const SecurityName := "securityName"
  const Data := "data"
  const S := "S"
  const D := "D"
  const I := "I"
  const B := "B"

  const CashBalanceData := "cashBalanceData"
  const Account := "account"
  const Strategy := "strategy"
  const PrimeBroker := "primeBroker"
  const Currency := "currency"
  const SettleDateCash := "settleDateCash"

  /** The constructor's table from lookup key to element name, entry for entry. */
  const NameObjects: map<string, string> :=
    RequestNames + PositionNames + FieldNames + ReplyNames + ResponseNames

  const RequestNames: map<string, string> := map[
    "dateRange" := "dateRange", "fromDate" := "fromDate", "toDate" := "toDate",
    "internalParameters" := "internalParameters", "name" := "name", "value" := "value",
    "exclude" := "exclude", "include" := "include", "overrides" := "overrides",
    "property" := "property", "id" := "id", "eidData" := "eidData"]

  const PositionNames: map<string, string> := map[
    "dataRow" := "dataRow", "data" := "data", "bookName" := "bookName", "securityItem" := "securityItem",
    "securityID" := "securityID", "securityName" := "securityName", "security" := "security",
    "date" := "date", "primeBroker" := "primeBroker", "currency" := "currency", "account" := "account",
    "strategy" := "strategy", "settleDateCash" := "settleDateCash"]

  const FieldNames: map<string, string> := map[
    "S" := "S", "D" := "D", "I" := "I", "B" := "B", "mnemonic" := "mnemonic",
    "description" := "description", "datatype" := "datatype", "documentation" := "documentation",
    "categoryName" := "categoryName", "time" := "time", "type" := "type", "size" := "size"]

  const ReplyNames: map<string, string> := map[
    "positionData" := "positionData", "securityData" := "securityData",
    "positionHistoryResponse" := "positionHistoryResponse", "cashBalanceData" := "cashBalanceData",
    "errorInfo" := "errorInfo", "responseError" := "responseError", "category" := "category",
    "subcategory" := "subcategory", "message" := "message", "fieldInfo" := "fieldInfo",
    "tickData" := "tickData"]

  const ResponseNames: map<string, string> := map[
    "fieldData" := "fieldData", "fieldId" := "fieldID", "fieldExceptions" := "fieldExceptions"]

  /** `name_objects[key]`: the element name filed under `key`, or nothing (KeyError). */
  function Lookup(key: string): Option<string>
  {
    if key in NameObjects then Some(NameObjects[key]) else None
  }

  /**
   * The decoders look the field id up under the key 'fieldID', but no part of
   * the table has that key: as written, every such lookup raises KeyError.
   */
  lemma FieldIdKeyMissing()
    ensures "fieldID" !in NameObjects && Lookup("fieldID") == None
  {
    FieldIdNotIn(RequestNames);
    FieldIdNotIn(PositionNames);
    FieldIdNotIn(FieldNames);
    FieldIdNotIn(ReplyNames);
    FieldIdNotIn(ResponseNames);
  }

  /** One part of the table at a time (each part's literal is checked on its own). */
  lemma FieldIdNotIn(part: map<string, string>)
    requires part in {RequestNames, PositionNames, FieldNames, ReplyNames, ResponseNames}
    ensures "fieldID" !in part
  {
  }

  /** The table's 'fieldId' entry names the element the decoders read the field id from. */
  lemma FieldIdEntry()
    ensures Lookup("fieldId") == Some(FieldId)
  {
    assert ResponseNames["fieldId"] == "fieldID";
  }
}

module Messages {
  import opened Wrappers

  /** A named element of a message: a validity flag and a body. */
  datatype Element = Element(name: string, valid: bool, body: Body)

  /** A scalar value, a sequence of named child elements, or an array of values. */
  datatype Body =
    | Scalar(value: string)
    | Sequence(children: seq<Element>)
    | Array(items: seq<Element>)

  /** The child elements (numElements / getElement(j) / elements()); none unless a sequence. */
  function Children(e: Element): seq<Element>
  {
    if e.body.Sequence? then e.body.children else []
  }

  /** The values of an array (numValues / getValueAsElement(i) / values()); none unless an array. */
  function Values(e: Element): seq<Element>
  {
    if e.body.Array? then e.body.items else []
  }

  predicate IsArray(e: Element)
  {
    e.body.Array?
  }

  /** The first element of `kids` called `n`. */
  function Find(kids: seq<Element>, n: string): (r: Option<Element>)
  {
    if kids == [] then None
    else if kids[0].name == n then Some(kids[0])
    else Find(kids[1..], n)
  }

  /** The first element found has the name asked for; nothing is found exactly when no element has it. */
  lemma {:induction false} FindSpec(kids: seq<Element>, n: string)
    ensures Find(kids, n).Some? ==> Find(kids, n).value in kids && Find(kids, n).value.name == n
    ensures Find(kids, n).None? <==> forall i :: 0 <= i < |kids| ==> kids[i].name != n
  {
    if kids != [] && kids[0].name != n {
      FindSpec(kids[1..], n);
      assert forall i :: 1 <= i < |kids| ==> kids[i] == kids[1..][i - 1];
    }
  }

  /** getElement(n): the child called `n`, or nothing (blpapi raises NotFound). */
  function GetElement(e: Element, n: string): Option<Element>
  {
    Find(Children(e), n)
  }

  /** hasElement(n). */
  predicate HasElement(e: Element, n: string)
  {
    GetElement(e, n).Some?
  }

  /** getValue / getValueAsString: only a scalar has one. */
  function AsString(e: Element): Option<string>
  {
    if e.body.Scalar? then Some(e.body.value) else None
  }

  /** getElementAsString(n): the scalar child called `n`. */
  function GetString(e: Element, n: string): Option<string>
  {
    match GetElement(e, n)
    case None => None
    case Some(c) => AsString(c)
  }

  /** getValueAsElement(i) on an array value: only a complex (sequence) value is an element. */
  function AsComplex(item: Element): Option<Element>
  {
    if item.body.Sequence? then Some(item) else None
  }

  /** The printed form of an element, as used in error texts. */
  function Printed(e: Element): string
  {
    match e.body
    case Scalar(v) => v
    case _ => e.name
  }
}
