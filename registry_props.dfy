/** What the registry's rules promise: fresh ids, exact queries, removal, and the listener and timeout steps. */
module RequestProperties {
  import opened Wrappers
  import opened Messages
  import opened Tables
  import opened DecodeSpec
  import opened Requests
  import DecodeProperties

  // ------------------------------------------------------------ registration

  /**
   * `_send_request` takes an id above every id in use, and registers it in
   * every dictionary but the call-backs, with status PROCESSING.
   */
  lemma RegisterFresh(r: Registry, request: string, output: Table, timeout: Option<int>, decoder: DecoderKind, now: int)
    requires Consistent(r)
    ensures var s := Register(r, request, output, timeout, decoder, now);
      && (forall c :: c in r.requests ==> c < NextCid(r))
      && RecordOf(r, NextCid(r)) == NoRecord
      && RecordOf(s, NextCid(r)) == Record(Some(request), Some(decoder), Some(Rows(output)), None, Some(Processing), Some(Deadline(now, timeout)))
      && s.counter == NextCid(r)
      && Consistent(s)
  {
  }

  /** Sending changes no other id's record. */
  lemma RegisterKeepsOthers(r: Registry, request: string, output: Table, timeout: Option<int>, decoder: DecoderKind, now: int, c: Cid)
    requires c != NextCid(r)
    ensures RecordOf(Register(r, request, output, timeout, decoder, now), c) == RecordOf(r, c)
  {
  }

  /** A façade request: registered as above, with exactly the call-back it was given, and nothing else changed. */
  lemma SubmitRecord(r: Registry, request: string, output: Table, timeout: Option<int>, decoder: DecoderKind,
                     callback: Option<Callback>, now: int, c: Cid)
    requires Consistent(r)
    ensures var s := Submit(r, request, output, timeout, decoder, callback, now);
      && Consistent(s)
      && s.counter == NextCid(r)
      && RecordOf(s, NextCid(r)) == Record(Some(request), Some(decoder), Some(Rows(output)), callback, Some(Processing), Some(Deadline(now, timeout)))
      && (c != NextCid(r) ==> RecordOf(s, c) == RecordOf(r, c))
  {
    var t := Register(r, request, output, timeout, decoder, now);
    RegisterFresh(r, request, output, timeout, decoder, now);
    if c != NextCid(r) {
      RegisterKeepsOthers(r, request, output, timeout, decoder, now, c);
    }
    if callback.Some? {
      assert Submit(r, request, output, timeout, decoder, callback, now) == t.(callbacks := t.callbacks[NextCid(r) := callback.value]);
    }
  }

  /** Ids strictly increase: two requests in a row take two ids, the second the greater, neither one in use. */
  lemma IdsNeverRepeat(r: Registry, req1: string, out1: Table, to1: Option<int>, dec1: DecoderKind, cb1: Option<Callback>, now1: int,
                       req2: string, out2: Table, to2: Option<int>, dec2: DecoderKind, cb2: Option<Callback>, now2: int)
    requires Consistent(r)
    ensures var s := Submit(r, req1, out1, to1, dec1, cb1, now1);
      && NextCid(r) < NextCid(s)
      && NextCid(r) !in r.requests && NextCid(s) !in s.requests
  {
    SubmitRecord(r, req1, out1, to1, dec1, cb1, now1, 0);
    var s := Submit(r, req1, out1, to1, dec1, cb1, now1);
    RegisterFresh(r, req1, out1, to1, dec1, now1);
    RegisterFresh(s, req2, out2, to2, dec2, now2);
  }

  // ------------------------------------------------------------ clearing

  /** `_clear_request` removes the id's whole record and no other. */
  lemma ClearForgets(r: Registry, cid: Cid, c: Cid)
    requires Consistent(r) && cid in r.requests
    ensures Consistent(Clear(r, cid))
    ensures RecordOf(Clear(r, cid), cid) == NoRecord
    ensures c != cid ==> RecordOf(Clear(r, cid), c) == RecordOf(r, c)
    ensures IsReady(Clear(r, cid), cid) == ValueError(cid) && IsError(Clear(r, cid), cid) == ValueError(cid)
  {
  }

  // ------------------------------------------------------------ queries

  /** Both queries raise ValueError exactly for an unregistered id; otherwise they classify its status. */
  lemma QueriesClassify(r: Registry, cid: Cid)
    requires Consistent(r)
    ensures IsReady(r, cid).ValueError? <==> cid !in r.requests
    ensures IsError(r, cid).ValueError? <==> cid !in r.requests
    ensures IsReady(r, cid) == Answer(true) <==> cid in r.status && r.status[cid] in {Ready, Error, Timeout}
    ensures IsReady(r, cid) == Answer(false) <==> cid in r.status && r.status[cid] == Processing
    ensures IsError(r, cid) == Answer(true) <==> cid in r.status && r.status[cid] in {Error, Timeout}
  {
  }

  /** An error (or a timeout) is a finished request. */
  lemma ErrorImpliesReady(r: Registry, cid: Cid)
    ensures IsError(r, cid) == Answer(true) ==> IsReady(r, cid) == Answer(true)
    ensures IsReady(r, cid) == Answer(false) ==> IsError(r, cid) == Answer(false)
  {
  }

  /** `get_request_data` leaves the state alone except when it hands over finished data with removal asked for. */
  lemma GetDataOutcomes(r: Registry, cid: Cid, remove: bool)
    requires Consistent(r)
    ensures cid !in r.requests ==> GetData(r, cid, remove) == (ValueError(cid), r)
    ensures cid in r.requests && r.status[cid] == Processing ==> GetData(r, cid, remove) == (Answer(None), r)
    ensures cid in r.requests && r.status[cid] == Error ==> GetData(r, cid, remove) == (BloombergError(FailedText), r)
    ensures cid in r.requests && r.status[cid] in {Ready, Timeout} ==>
              GetData(r, cid, remove).0 == Answer(Some(r.data[cid]))
    ensures !remove ==> GetData(r, cid, remove).1 == r
  {
  }

  /** Handed over with removal, the request is forgotten: later queries on it raise ValueError, others are untouched. */
  lemma GetDataRemoves(r: Registry, cid: Cid, c: Cid)
    requires Consistent(r) && cid in r.requests && r.status[cid] in {Ready, Timeout}
    ensures var s := GetData(r, cid, true).1;
      && RecordOf(s, cid) == NoRecord
      && IsReady(s, cid) == ValueError(cid)
      && GetData(s, cid, true).0 == ValueError(cid)
      && (c != cid ==> RecordOf(s, c) == RecordOf(r, c))
  {
    ClearForgets(r, cid, c);
  }

  // ------------------------------------------------------------ listening

  /** A message for an id that is not registered changes nothing and calls nothing. */
  lemma ListenUnregistered(r: Registry, msg: Element, cid: Cid, isResponse: bool)
    requires Consistent(r) && cid !in r.requests
    ensures Listen(r, msg, cid, isResponse) == Heard(r, [], true)
    ensures ListenAsWritten(r, msg, cid, isResponse) == Heard(r, [], true)
  {
  }

  /**
   * A decoded message: the data slot holds the frame after the decoder's
   * in-place writes; a RESPONSE makes the request READY and calls its
   * call-back, any other event leaves the status as it was and calls
   * nothing.
   */
  lemma ListenDecoded(r: Registry, msg: Element, cid: Cid, isResponse: bool, stored: Table, returned: Table)
    requires Consistent(r) && cid in r.requests
    requires DecodeStored(r.processing[cid], msg, r.data[cid]) == Decoded(stored, returned)
    ensures var h := Listen(r, msg, cid, isResponse);
      && h.alive
      && h.reg.data == r.data[cid := Rows(stored)]
      && h.reg.status == (if isResponse then r.status[cid := Ready] else r.status)
      && h.calls == (if isResponse && cid in r.callbacks then [Call(r.callbacks[cid], Ready, Some(cid), Rows(stored))] else [])
  {
  }

  /** A decoder error: status ERROR, the data replaced by the error text, and the call-back told so. */
  lemma ListenRaised(r: Registry, msg: Element, cid: Cid, isResponse: bool, text: string)
    requires Consistent(r) && cid in r.requests
    requires DecodeStored(r.processing[cid], msg, r.data[cid]) == Raised(text)
    ensures var h := Listen(r, msg, cid, isResponse);
      && h.alive
      && h.reg.status == r.status[cid := Error]
      && h.reg.data == r.data[cid := Text(text)]
      && h.calls == (if cid in r.callbacks then [Call(r.callbacks[cid], Error, Some(cid), Text(text))] else [])
  {
  }

  /**
   * The call-back fires at most once per step, only when one is
   * registered, with that call-back, the id, and the status the step left.
   */
  lemma ListenNotifiesRegistered(r: Registry, msg: Element, cid: Cid, isResponse: bool)
    requires Consistent(r)
    ensures var h := Listen(r, msg, cid, isResponse);
      && |h.calls| <= 1
      && (h.calls != [] ==> cid in r.callbacks && cid in h.reg.status
                            && h.calls[0] == Call(r.callbacks[cid], h.reg.status[cid], Some(cid), h.reg.data[cid]))
      && (cid in r.callbacks && h.alive && cid in h.reg.status && h.reg.status[cid] != r.status[cid] ==> h.calls != [])
  {
  }

  /** A state that differs from `r` only in the data and status of `cid` holds every other record unchanged. */
  lemma OnlyOwnRecord(r: Registry, s: Registry, cid: Cid, c: Cid)
    requires s == r.(data := s.data, status := s.status)
    requires s.data - {cid} == r.data - {cid} && s.status - {cid} == r.status - {cid}
    requires c != cid
    ensures RecordOf(s, c) == RecordOf(r, c)
  {
    assert c in s.data <==> c in s.data - {cid};
    assert c in s.status <==> c in s.status - {cid};
  }

  /** A listener step touches only the record of its own id. */
  lemma ListenKeepsOthers(r: Registry, msg: Element, cid: Cid, isResponse: bool, c: Cid)
    requires Consistent(r) && c != cid
    ensures RecordOf(Listen(r, msg, cid, isResponse).reg, c) == RecordOf(r, c)
    ensures RecordOf(ListenAsWritten(r, msg, cid, isResponse).reg, c) == RecordOf(r, c)
  {
    OnlyOwnRecord(r, Listen(r, msg, cid, isResponse).reg, cid, c);
    OnlyOwnRecord(r, ListenAsWritten(r, msg, cid, isResponse).reg, cid, c);
  }

  /** A slot holding an error text raises exactly when the decoder would raise on any frame. */
  lemma StoredTextRaises(kind: DecoderKind, msg: Element, text: string)
    ensures DecodeStored(kind, msg, Text(text)).Raised? <==>
              HasElement(msg, Names.ResponseError) || !HasElement(msg, PayloadName(kind))
    ensures !DecodeStored(kind, msg, Text(text)).Decoded?
  {
    DecodeProperties.ErrorCheckedFirst(kind, msg, EmptyTable);
  }

  /**
   * Listening over a message's ids only adds call-backs after those already
   * made, and a message for no registered id changes nothing.
   */
  lemma {:induction false} ListenCidsUnregistered(r: Registry, msg: Element, cids: seq<Cid>, isResponse: bool, calls: seq<Call>)
    requires Consistent(r)
    requires forall i :: 0 <= i < |cids| ==> cids[i] !in r.requests
    ensures ListenCids(r, msg, cids, isResponse, calls) == Heard(r, calls, true)
    decreases |cids|
  {
    if cids != [] {
      ListenUnregistered(r, msg, cids[0], isResponse);
      assert calls + [] == calls;
      ListenCidsUnregistered(r, msg, cids[1..], isResponse, calls);
    }
  }

  /** The call-backs made so far are kept: a step only appends to them. */
  lemma {:induction false} ListenCidsAppends(r: Registry, msg: Element, cids: seq<Cid>, isResponse: bool, calls: seq<Call>)
    requires Consistent(r)
    ensures var h := ListenCids(r, msg, cids, isResponse, calls);
      |calls| <= |h.calls| && h.calls[..|calls|] == calls
    decreases |cids|
  {
    if cids != [] {
      var h := Listen(r, msg, cids[0], isResponse);
      if h.alive {
        ListenCidsAppends(h.reg, msg, cids[1..], isResponse, calls + h.calls);
        var rest := ListenCids(h.reg, msg, cids[1..], isResponse, calls + h.calls);
        assert rest.calls[..|calls|] == (rest.calls[..|calls + h.calls|])[..|calls|];
      }
    }
  }

  // ------------------------------------------------------------ timing out

  /** Elapsed whole seconds: once `time` seconds have passed (within the day), the deadline has expired, and not before. */
  lemma ExpiredWithinDay(start: int, now: int, time: int)
    requires 0 <= time && 0 <= now - start < 86400 * 1000000
    ensures Expired(Deadline(start, Some(time)), now) <==> now - start >= time * 1000000
  {
    var e := now - start;
    var q := e / 1000000;
    assert e == q * 1000000 + e % 1000000 && 0 <= e % 1000000 < 1000000;
    assert 0 <= q < 86400;
  }

  /** A request whose deadline has not passed, or that has none recorded, is left alone. */
  lemma CheckTimeoutNotDue(r: Registry, cid: Cid, now: int)
    requires Consistent(r)
    requires cid !in r.timeouts || !Expired(r.timeouts[cid], now)
    ensures CheckTimeout(r, cid, now) == Heard(r, [], true)
  {
  }

  /**
   * An expired request becomes TIMEOUT, whatever its status was; with a
   * call-back, that is told TIMEOUT and the current data (no id) and the
   * request is cleared; without one it stays registered as TIMEOUT.
   */
  lemma CheckTimeoutDue(r: Registry, cid: Cid, now: int, c: Cid)
    requires Consistent(r) && cid in r.timeouts && Expired(r.timeouts[cid], now)
    ensures var h := CheckTimeout(r, cid, now);
      && (cid in r.callbacks ==>
            h.calls == [Call(r.callbacks[cid], Timeout, None, r.data[cid])]
            && RecordOf(h.reg, cid) == NoRecord)
      && (cid !in r.callbacks ==>
            h.calls == []
            && RecordOf(h.reg, cid) == RecordOf(r, cid).(status := Some(Timeout))
            && IsError(h.reg, cid) == Answer(true))
      && (c != cid ==> RecordOf(h.reg, c) == RecordOf(r, c))
  {
  }

  /** Only the sweep's own ids can change; every other record survives it. */
  lemma {:induction false} SweepKeepsOthers(r: Registry, order: seq<Cid>, now: int, calls: seq<Call>, c: Cid)
    requires Consistent(r)
    requires forall i :: 0 <= i < |order| ==> order[i] != c
    ensures RecordOf(Sweep(r, order, now, calls).reg, c) == RecordOf(r, c)
    decreases |order|
  {
    if order != [] {
      var h := CheckTimeout(r, order[0], now);
      if order[0] in r.timeouts && Expired(r.timeouts[order[0]], now) {
        CheckTimeoutDue(r, order[0], now, c);
      }
      SweepKeepsOthers(h.reg, order[1..], now, calls + h.calls, c);
    }
  }

  /** A sweep that reaches an expired request without a call-back leaves it as TIMEOUT. */
  lemma {:induction false} SweepTimesOut(r: Registry, order: seq<Cid>, now: int, calls: seq<Call>, cid: Cid)
    requires Consistent(r) && |order| > 0 && order[0] == cid
    requires cid in r.timeouts && Expired(r.timeouts[cid], now) && cid !in r.callbacks
    requires forall i :: 1 <= i < |order| ==> order[i] != cid
    ensures var s := Sweep(r, order, now, calls).reg;
      cid in s.status && s.status[cid] == Timeout
  {
    var h := CheckTimeout(r, cid, now);
    CheckTimeoutDue(r, cid, now, cid);
    assert forall i :: 0 <= i < |order[1..]| ==> order[1..][i] != cid;
    SweepKeepsOthers(h.reg, order[1..], now, calls + h.calls, cid);
  }

  /**
   * The sweep as written never times anything out: an expired request stays
   * PROCESSING and its call-back is never told, where the intended sweep
   * marks it TIMEOUT.
   */
  lemma SweepAsWrittenNeverTimesOut(r: Registry, order: seq<Cid>, now: int, cid: Cid)
    requires Consistent(r) && |order| > 0 && order[0] == cid
    requires cid in r.timeouts && Expired(r.timeouts[cid], now) && cid !in r.callbacks
    requires r.status[cid] == Processing
    requires forall i :: 1 <= i < |order| ==> order[i] != cid
    ensures SweepAsWritten(r, order, now, []).reg.status[cid] == Processing
    ensures SweepAsWritten(r, order, now, []).calls == []
    ensures cid in Sweep(r, order, now, []).reg.status && Sweep(r, order, now, []).reg.status[cid] == Timeout
  {
    SweepTimesOut(r, order, now, [], cid);
  }

  /**
   * The per-id check with the comparison as written (the loop over the ids
   * taken as corrected) times out a request sent without a timeout on its
   * first look: with a call-back it is told TIMEOUT and cleared before any
   * reply can arrive.
   */
  lemma NoTimeoutExpiresAsWritten(r: Registry, request: string, output: Table, decoder: DecoderKind,
                                  callback: Callback, now: int)
    requires Consistent(r)
    ensures var s := Submit(r, request, output, None, decoder, Some(callback), now);
      Consistent(s)
      && var h := CheckTimeoutBy(s, NextCid(r), now, true);
      RecordOf(h.reg, NextCid(r)) == NoRecord
      && h.calls == [Call(callback, Timeout, None, Rows(output))]
  {
    SubmitRecord(r, request, output, None, decoder, Some(callback), now, 0);
  }

  /** As intended, a request without a timeout is never timed out, however late the monitor looks. */
  lemma NoTimeoutNeverExpires(r: Registry, request: string, output: Table, decoder: DecoderKind,
                              callback: Option<Callback>, now: int, later: int)
    requires Consistent(r)
    ensures var s := Submit(r, request, output, None, decoder, callback, now);
      Consistent(s) && CheckTimeout(s, NextCid(r), later) == Heard(s, [], true)
  {
    SubmitRecord(r, request, output, None, decoder, callback, now, 0);
  }

  // ------------------------------------------------------------ the error text

  /**
   * As written, a decoder error kills the listener: ERROR is recorded, but
   * the data keeps the partial frame and the call-back is never told. The
   * intended step stores the text, tells the call-back and listens on.
   */
  lemma ListenAsWrittenLosesError(r: Registry, msg: Element, cid: Cid, isResponse: bool, text: string)
    requires Consistent(r) && cid in r.requests && cid in r.callbacks
    requires DecodeStored(r.processing[cid], msg, r.data[cid]) == Raised(text)
    ensures var w := ListenAsWritten(r, msg, cid, isResponse);
      && !w.alive && w.calls == [] && w.reg.data == r.data && w.reg.status[cid] == Error
    ensures var h := Listen(r, msg, cid, isResponse);
      && h.alive && h.calls == [Call(r.callbacks[cid], Error, Some(cid), Text(text))] && h.reg.data[cid] == Text(text)
  {
  }

  /** Such an input exists: a reference-data request with a call-back, and a message carrying a response error. */
  lemma ListenAsWrittenWitness()
    ensures var err := Element(Names.ResponseError, true, Sequence([]));
      var msg := Element("ReferenceDataResponse", true, Sequence([err]));
      var r := Submit(Empty, "request", EmptyTable, None, ReferenceData, Some(7), 0);
      && Consistent(r) && 1 in r.callbacks
      && !ListenAsWritten(r, msg, 1, true).alive
      && ListenAsWritten(r, msg, 1, true).calls == []
      && Listen(r, msg, 1, true).calls == [Call(7, Error, Some(1), Text(": : "))]
  {
    var err := Element(Names.ResponseError, true, Sequence([]));
    var msg := Element("ReferenceDataResponse", true, Sequence([err]));
    var r := Submit(Empty, "request", EmptyTable, None, ReferenceData, Some(7), 0);
    assert Find([err], Names.ResponseError) == Some(err);
    assert GetElement(msg, Names.ResponseError) == Some(err);
    assert MsgErrorText(err) == ": : ";
    DecodeProperties.ErrorCheckedFirst(ReferenceData, msg, EmptyTable);
    ListenAsWrittenLosesError(r, msg, 1, true, ": : ");
  }
}
