/**
 * The request bookkeeping of the Asynchronous class
 * (bloomberg_py_wrapper/wrapper_content.py, :1560-1696): a correlation-id
 * counter and six dictionaries keyed by correlation id, and what sending,
 * clearing, querying, listening and timing out do to them, as functions of
 * the state before.
 */
module Requests {
  import opened Wrappers
  import opened Messages
  import opened Tables
  import opened DecodeSpec

  /** A correlation id (`CorrelationId(n)`). */
  type Cid = nat

  /** `_requests_status` values. */
  datatype Status = Processing | Ready | Error | Timeout

  /** What a request's data slot holds: its frame, or the error text that replaced it. */
  datatype Stored = Rows(table: Table) | Text(text: string)

  /** A user call-back function, known only by identity. */
  type Callback = nat

  /** `{'start': ..., 'time': timeout_seconds}`: the start in microseconds, the timeout in seconds if one was given. */
  datatype Deadline = Deadline(start: int, time: Option<int>)

  /** One invocation of a call-back: the status and cid it was passed (the timeout passes no cid) and its data. */
  datatype Call = Call(callback: Callback, status: Status, cid: Option<Cid>, data: Stored)

  datatype Registry = Registry(
    counter: nat,                           // _cid_counter
    requests: map<Cid, string>,             // _requests
    processing: map<Cid, DecoderKind>,      // _requests_processing
    data: map<Cid, Stored>,                 // _requests_data
    callbacks: map<Cid, Callback>,          // _call_functions
    status: map<Cid, Status>,               // _requests_status
    timeouts: map<Cid, Deadline>)           // _requests_timeout

  const Empty := Registry(0, map[], map[], map[], map[], map[], map[])

  /** Everything the registry holds about one id, `None` where a dictionary has no entry. */
  datatype Record = Record(request: Option<string>, decoder: Option<DecoderKind>, data: Option<Stored>,
                           callback: Option<Callback>, status: Option<Status>, deadline: Option<Deadline>)

  const NoRecord := Record(None, None, None, None, None, None)

  function Lookup<K, V>(m: map<K, V>, k: K): Option<V>
  {
    if k in m then Some(m[k]) else None
  }

  function RecordOf(r: Registry, cid: Cid): Record
  {
    Record(Lookup(r.requests, cid), Lookup(r.processing, cid), Lookup(r.data, cid),
           Lookup(r.callbacks, cid), Lookup(r.status, cid), Lookup(r.timeouts, cid))
  }

  /**
   * The bookkeeping invariant: the four per-request dictionaries share one
   * key set, timeouts and call-backs are kept only for registered requests,
   * and every registered id has been issued by the counter.
   */
  predicate Consistent(r: Registry)
  {
    r.processing.Keys == r.requests.Keys && r.data.Keys == r.requests.Keys && r.status.Keys == r.requests.Keys
    && r.timeouts.Keys <= r.requests.Keys && r.callbacks.Keys <= r.requests.Keys
    && forall c :: c in r.requests ==> 1 <= c <= r.counter
  }

  // ------------------------------------------------------------ sending

  /** The id `_send_request` takes. */
  function NextCid(r: Registry): Cid
  {
    r.counter + 1
  }

  /** `_send_request`: a new id, registered in every dictionary, with status PROCESSING. */
  function Register(r: Registry, request: string, output: Table, timeout: Option<int>, decoder: DecoderKind, now: int): Registry
  {
    var cid := NextCid(r);
    r.(counter := cid,
       requests := r.requests[cid := request],
       timeouts := r.timeouts[cid := Deadline(now, timeout)],
       data := r.data[cid := Rows(output)],
       processing := r.processing[cid := decoder],
       status := r.status[cid := Processing])
  }

  /** A façade request of the Asynchronous class: sent, then its call-back (if any) registered under the returned id. */
  function Submit(r: Registry, request: string, output: Table, timeout: Option<int>, decoder: DecoderKind,
                  callback: Option<Callback>, now: int): Registry
  {
    var s := Register(r, request, output, timeout, decoder, now);
    if callback.Some? then s.(callbacks := s.callbacks[NextCid(r) := callback.value]) else s
  }

  // ------------------------------------------------------------ clearing

  /** `_clear_request`: the request leaves every dictionary (a missing key in the first four raises KeyError). */
  function Clear(r: Registry, cid: Cid): Registry
    requires cid in r.requests && cid in r.data && cid in r.status && cid in r.processing
  {
    r.(requests := r.requests - {cid},
       data := r.data - {cid},
       status := r.status - {cid},
       processing := r.processing - {cid},
       timeouts := r.timeouts - {cid},
       callbacks := r.callbacks - {cid})
  }

  // ------------------------------------------------------------ queries

  /** The outcome of a query: a value, ValueError for an unknown id, or a `_BloombergError`. */
  datatype Answer<T> = Answer(value: T) | ValueError(cid: Cid) | BloombergError(text: string)

  predicate Finished(s: Status)
  {
    s == Ready || s == Error || s == Timeout
  }

  predicate Failed(s: Status)
  {
    s == Error || s == Timeout
  }

  /** `request_is_ready`. */
  function IsReady(r: Registry, cid: Cid): Answer<bool>
  {
    if cid in r.status then Answer(Finished(r.status[cid])) else ValueError(cid)
  }

  /** `request_is_error`. */
  function IsError(r: Registry, cid: Cid): Answer<bool>
  {
    if cid in r.status then Answer(Failed(r.status[cid])) else ValueError(cid)
  }

  const FailedText := "The request failed!"

  /**
   * `get_request_data`: nothing (None) while processing, a raise for a failed
   * request, otherwise the data, the request being cleared if asked to.
   */
  function GetData(r: Registry, cid: Cid, remove: bool): (out: (Answer<Option<Stored>>, Registry))
    requires Consistent(r)
    ensures Consistent(out.1)
  {
    match IsReady(r, cid)
    case Answer(ready) =>
      if !ready then (Answer(None), r)
      else if r.status[cid] == Error then (BloombergError(FailedText), r)
      else if remove then (Answer(Some(r.data[cid])), Clear(r, cid))
      else (Answer(Some(r.data[cid])), r)
    case ValueError(c) => (ValueError(c), r)
    case BloombergError(text) => (BloombergError(text), r)
  }

  // ------------------------------------------------------------ listening

  const EmptyTable := Table({}, map[])

  /**
   * A decoder run on a request's data slot. A slot that holds an error text
   * is no frame: the decoder still raises its protocol errors, which come
   * first, and fails on anything else.
   */
  function DecodeStored(kind: DecoderKind, msg: Element, stored: Stored): Decoded
  {
    match stored
    case Rows(t) => Decode(kind, msg, t)
    case Text(_) =>
      var d := Decode(kind, msg, EmptyTable);
      if d.Raised? then d else Fault(EmptyTable)
  }

  /** What the listener thread does: the new state, the call-backs invoked, and whether the thread lives on. */
  datatype Heard = Heard(reg: Registry, calls: seq<Call>, alive: bool)

  /** The call-back invocation for a registered call-back, none otherwise. */
  function Notify(r: Registry, cid: Cid, status: Status, passed: Option<Cid>, data: Stored): seq<Call>
  {
    if cid in r.callbacks then [Call(r.callbacks[cid], status, passed, data)] else []
  }

  /**
   * The listener's body for one correlation id of a message. The decoder's
   * return value is discarded, so the stored frame only sees in-place
   * writes. As written, the error branch calls `e.message()`, which raises
   * after the status is set: the thread dies with the old data and no
   * call-back.
   */
  function ListenStep(r: Registry, msg: Element, cid: Cid, isResponse: bool, asWritten: bool): (h: Heard)
    requires Consistent(r)
    ensures Consistent(h.reg) && h.reg == r.(data := h.reg.data, status := h.reg.status)
    ensures h.reg.data - {cid} == r.data - {cid} && h.reg.status - {cid} == r.status - {cid}
  {
    if cid !in r.requests then Heard(r, [], true)
    else
      match DecodeStored(r.processing[cid], msg, r.data[cid])
      case Decoded(stored, _) => AfterDecoded(r, cid, stored, isResponse)
      case Raised(text) => AfterRaised(r, cid, text, asWritten)
      case Fault(stored) =>
        Heard(if r.data[cid].Rows? then r.(data := r.data[cid := Rows(stored)]) else r, [], false)
  }

  /** The listener past a decoder that returned: the frame kept, READY and the call-back on a RESPONSE. */
  function AfterDecoded(r: Registry, cid: Cid, stored: Table, isResponse: bool): (h: Heard)
    requires Consistent(r) && cid in r.requests
    ensures Consistent(h.reg) && h.reg == r.(data := h.reg.data, status := h.reg.status)
    ensures h.reg.data - {cid} == r.data - {cid} && h.reg.status - {cid} == r.status - {cid}
  {
    var r1 := r.(data := r.data[cid := Rows(stored)]);
    if isResponse then Heard(r1.(status := r1.status[cid := Ready]), Notify(r, cid, Ready, Some(cid), Rows(stored)), true)
    else Heard(r1, [], true)
  }

  /** The listener past a decoder error: ERROR, then (as intended) the text stored and the call-back told. */
  function AfterRaised(r: Registry, cid: Cid, text: string, asWritten: bool): (h: Heard)
    requires Consistent(r) && cid in r.requests
    ensures Consistent(h.reg) && h.reg == r.(data := h.reg.data, status := h.reg.status)
    ensures h.reg.data - {cid} == r.data - {cid} && h.reg.status - {cid} == r.status - {cid}
  {
    var r1 := r.(status := r.status[cid := Error]);
    if asWritten then Heard(r1, [], false)
    else Heard(r1.(data := r1.data[cid := Text(text)]), Notify(r, cid, Error, Some(cid), Text(text)), true)
  }

  /** The listener's body with the error text stored and passed on, as the comments there intend. */
  function Listen(r: Registry, msg: Element, cid: Cid, isResponse: bool): (h: Heard)
    requires Consistent(r)
    ensures Consistent(h.reg)
  {
    ListenStep(r, msg, cid, isResponse, false)
  }

  /** A message of an event, with the correlation ids it carries. */
  datatype Incoming = Incoming(msg: Element, cids: seq<Cid>)

  /**
   * The listener's inner loop over the ids of one message, `calls` being the
   * call-backs invoked so far; it stops where the thread dies.
   */
  function ListenCids(r: Registry, msg: Element, cids: seq<Cid>, isResponse: bool, calls: seq<Call>): (h: Heard)
    requires Consistent(r)
    ensures Consistent(h.reg)
    decreases |cids|
  {
    if cids == [] then Heard(r, calls, true)
    else
      var h := Listen(r, msg, cids[0], isResponse);
      if h.alive then ListenCids(h.reg, msg, cids[1..], isResponse, calls + h.calls)
      else Heard(h.reg, calls + h.calls, false)
  }

  /** The listener's body for one event: every message, every id, in order. */
  function ListenEvent(r: Registry, msgs: seq<Incoming>, isResponse: bool, calls: seq<Call>): (h: Heard)
    requires Consistent(r)
    ensures Consistent(h.reg)
    decreases |msgs|
  {
    if msgs == [] then Heard(r, calls, true)
    else
      var h := ListenCids(r, msgs[0].msg, msgs[0].cids, isResponse, calls);
      if h.alive then ListenEvent(h.reg, msgs[1..], isResponse, h.calls)
      else h
  }

  /** The listener's body as written. */
  function ListenAsWritten(r: Registry, msg: Element, cid: Cid, isResponse: bool): Heard
    requires Consistent(r)
  {
    ListenStep(r, msg, cid, isResponse, true)
  }

  // ------------------------------------------------------------ timing out

  /** `timedelta.seconds` of `now - start`, both in microseconds: whole seconds, days dropped. */
  function ElapsedSeconds(start: int, now: int): (s: int)
    ensures 0 <= s < 86400
  {
    ((now - start) / 1000000) % 86400
  }

  /**
   * `tot_time.seconds >= time` as written: under Python 2 ordering every
   * integer is at least None, so the per-id check, once the loop over the
   * ids is corrected, times out a request sent without a timeout (the
   * default) on its first look.
   */
  predicate ExpiredAsWritten(d: Deadline, now: int)
  {
    d.time.None? || ElapsedSeconds(d.start, now) >= d.time.value
  }

  /** The deadline as intended: a request without a timeout never expires. */
  predicate Expired(d: Deadline, now: int)
  {
    d.time.Some? && ElapsedSeconds(d.start, now) >= d.time.value
  }

  /**
   * The timeout monitor's body for one request: an expired request gets
   * status TIMEOUT; with a call-back it is notified (without its cid) and
   * cleared. `asWritten` selects the comparison as written.
   */
  function CheckTimeoutBy(r: Registry, cid: Cid, now: int, asWritten: bool): (h: Heard)
    requires Consistent(r)
    ensures Consistent(h.reg) && h.alive
  {
    var due := cid in r.timeouts && (if asWritten then ExpiredAsWritten(r.timeouts[cid], now) else Expired(r.timeouts[cid], now));
    if !due then Heard(r, [], true)
    else
      var r1 := r.(status := r.status[cid := Timeout]);
      if cid in r.callbacks then Heard(Clear(r1, cid), Notify(r, cid, Timeout, None, r.data[cid]), true)
      else Heard(r1, [], true)
  }

  /** The timeout step with a request without a timeout left alone. */
  function CheckTimeout(r: Registry, cid: Cid, now: int): (h: Heard)
    requires Consistent(r)
    ensures Consistent(h.reg) && h.alive
  {
    CheckTimeoutBy(r, cid, now, false)
  }

  /**
   * The monitor's sweep over the ids with a timeout, in the order given
   * (`for cid in self._requests_timeout.keys()`).
   */
  function Sweep(r: Registry, order: seq<Cid>, now: int, calls: seq<Call>): (h: Heard)
    requires Consistent(r)
    ensures Consistent(h.reg)
    decreases |order|
  {
    if order == [] then Heard(r, calls, true)
    else
      var h := CheckTimeout(r, order[0], now);
      Sweep(h.reg, order[1..], now, calls + h.calls)
  }

  /**
   * The sweep as written: `iteritems()` yields (id, record) pairs, and
   * looking a pair up as a key hashes the record dictionary, which raises
   * TypeError; the loop swallows it, so a non-empty sweep ends at its first
   * item having changed nothing.
   */
  function SweepAsWritten(r: Registry, order: seq<Cid>, now: int, calls: seq<Call>): Heard
    requires Consistent(r)
  {
    Heard(r, calls, true)
  }
}
