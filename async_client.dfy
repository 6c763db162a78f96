/**
 * The Asynchronous class's bookkeeping as an object whose dictionaries are
 * updated in place, each method proved to do what the matching function of
 * `Requests` says. Call-backs are recorded in a ghost log instead of run.
 */
module AsyncClient {
  import opened Wrappers
  import opened Messages
  import opened Tables
  import opened DecodeSpec
  import opened Requests
  import Decoders

  /**
   * A request's decoder run on its data slot, through a frame of its own:
   * the frame after the decoder's in-place writes, what it returned, what
   * it raised, or the exception that would end the listener.
   */
  method RunDecoder(kind: DecoderKind, msg: Element, stored: Stored) returns (d: Decoded)
    ensures d == DecodeStored(kind, msg, stored)
  {
    var frame := new Frame(if stored.Rows? then stored.table else EmptyTable);
    var reply := Decoders.ProcessMessage(kind, msg, frame);
    match reply {
      case Returned(f) => d := Decoded(frame.Snapshot(), f.Snapshot());
      case RaisedError(text) => d := Raised(text);
      case Crashed => d := Fault(frame.Snapshot());
    }
    if stored.Text? && !d.Raised? {
      d := Fault(EmptyTable);
    }
  }

  class Asynchronous {
    var counter: nat
    var requests: map<Cid, string>
    var processing: map<Cid, DecoderKind>
    var data: map<Cid, Stored>
    var callbacks: map<Cid, Callback>
    var status: map<Cid, Status>
    var timeouts: map<Cid, Deadline>
    /** Every call-back invocation so far, in order. */
    ghost var log: seq<Call>

    function State(): Registry
      reads this
    {
      Registry(counter, requests, processing, data, callbacks, status, timeouts)
    }

    predicate Valid()
      reads this
    {
      Consistent(State())
    }

    constructor ()
      ensures State() == Empty && log == [] && Valid()
    {
      counter := 0;
      requests := map[];
      processing := map[];
      data := map[];
      callbacks := map[];
      status := map[];
      timeouts := map[];
      log := [];
    }

    /** `_generate_cid`. */
    method GenerateCid() returns (cid: Cid)
      modifies this
      ensures cid == NextCid(old(State())) && State() == old(State()).(counter := cid) && log == old(log)
    {
      counter := counter + 1;
      cid := counter;
    }

    /** `_send_request`, `now` being the clock's reading in microseconds. */
    method SendRequest(request: string, output: Table, timeout: Option<int>, decoder: DecoderKind, now: int) returns (cid: Cid)
      modifies this
      ensures cid == NextCid(old(State()))
      ensures State() == Register(old(State()), request, output, timeout, decoder, now) && log == old(log)
    {
      cid := GenerateCid();
      requests := requests[cid := request];
      timeouts := timeouts[cid := Deadline(now, timeout)];
      data := data[cid := Rows(output)];
      processing := processing[cid := decoder];
      status := status[cid := Processing];
    }

    /** The façade's call-back registration under the id its request returned. */
    method RegisterCallback(cid: Cid, callback: Option<Callback>)
      modifies this
      ensures State() == if callback.Some? then old(State()).(callbacks := old(callbacks)[cid := callback.value]) else old(State())
      ensures log == old(log)
    {
      if callback.Some? {
        callbacks := callbacks[cid := callback.value];
      }
    }

    /** A façade request (`reference_data`, `intraday_tick_data`, ...): sent, then its call-back registered. */
    method SubmitRequest(request: string, output: Table, timeout: Option<int>, decoder: DecoderKind,
                         callback: Option<Callback>, now: int) returns (cid: Cid)
      requires Valid()
      modifies this
      ensures cid == NextCid(old(State())) && cid !in old(requests)
      ensures State() == Submit(old(State()), request, output, timeout, decoder, callback, now) && log == old(log)
      ensures Valid()
    {
      cid := SendRequest(request, output, timeout, decoder, now);
      RegisterCallback(cid, callback);
    }

    /** `_clear_request`. */
    method ClearRequest(cid: Cid)
      requires cid in requests && cid in data && cid in status && cid in processing
      modifies this
      ensures State() == Clear(old(State()), cid) && log == old(log)
    {
      requests := requests - {cid};
      data := data - {cid};
      status := status - {cid};
      processing := processing - {cid};
      if cid in timeouts {
        timeouts := timeouts - {cid};
      }
      if cid in callbacks {
        callbacks := callbacks - {cid};
      }
    }

    /** `request_is_ready`. */
    method RequestIsReady(cid: Cid) returns (a: Answer<bool>)
      requires Valid()
      ensures a.ValueError? <==> cid !in requests
      ensures a == Answer(true) <==> cid in status && status[cid] in {Ready, Error, Timeout}
      ensures a == IsReady(State(), cid)
    {
      if cid in status {
        if status[cid] == Ready || status[cid] == Error || status[cid] == Timeout {
          return Answer(true);
        } else {
          return Answer(false);
        }
      } else {
        return ValueError(cid);
      }
    }

    /** `request_is_error`. */
    method RequestIsError(cid: Cid) returns (a: Answer<bool>)
      requires Valid()
      ensures a.ValueError? <==> cid !in requests
      ensures a == Answer(true) <==> cid in status && status[cid] in {Error, Timeout}
      ensures a == IsError(State(), cid)
    {
      if cid in status {
        if status[cid] == Error || status[cid] == Timeout {
          return Answer(true);
        } else {
          return Answer(false);
        }
      } else {
        return ValueError(cid);
      }
    }

    /** `get_request_data`. */
    method GetRequestData(cid: Cid, remove: bool) returns (a: Answer<Option<Stored>>)
      requires Valid()
      modifies this
      ensures (a, State()) == GetData(old(State()), cid, remove) && log == old(log)
      ensures Valid()
    {
      var ready := RequestIsReady(cid);
      if ready.ValueError? {
        return ValueError(cid);
      }
      if ready.value {
        if status[cid] == Error {
          return BloombergError(FailedText);
        }
        var d := data[cid];
        if remove {
          ClearRequest(cid);
        }
        return Answer(Some(d));
      }
      return Answer(None);
    }

    /** The call-back invocation for `cid`, appended to the log if one is registered. */
    method Notify(cid: Cid, s: Status, passed: Option<Cid>, d: Stored)
      modifies this
      ensures State() == old(State()) && log == old(log) + Requests.Notify(old(State()), cid, s, passed, d)
    {
      if cid in callbacks {
        log := log + [Call(callbacks[cid], s, passed, d)];
      }
    }

    /** The error branch of the listener, with the text stored and passed on. */
    method RecordError(cid: Cid, text: string)
      requires Valid() && cid in requests
      modifies this
      ensures State() == old(State()).(status := old(status)[cid := Error], data := old(data)[cid := Text(text)])
      ensures log == old(log) + Requests.Notify(old(State()), cid, Error, Some(cid), Text(text))
      ensures Valid()
    {
      status := status[cid := Error];
      data := data[cid := Text(text)];
      Notify(cid, Error, Some(cid), Text(text));
    }

    /**
     * The listener's body for one id of a message; `alive` is false where
     * an exception other than a decoder error would end the thread.
     */
    method ListenStep(msg: Element, cid: Cid, isResponse: bool) returns (alive: bool)
      requires Valid()
      modifies this
      ensures var h := Listen(old(State()), msg, cid, isResponse);
        State() == h.reg && log == old(log) + h.calls && alive == h.alive
      ensures Valid()
    {
      if cid !in requests {
        return true;
      }
      var d := RunDecoder(processing[cid], msg, data[cid]);
      match d {
        case Decoded(stored, _) =>
          data := data[cid := Rows(stored)];
          if isResponse {
            status := status[cid := Ready];
            Notify(cid, Ready, Some(cid), Rows(stored));
          }
          alive := true;
        case Raised(text) =>
          RecordError(cid, text);
          alive := true;
        case Fault(stored) =>
          if data[cid].Rows? {
            data := data[cid := Rows(stored)];
          }
          alive := false;
      }
    }

    /** The listener's inner loop: every id of one message, until the thread would die. */
    method ListenMessage(msg: Element, cids: seq<Cid>, isResponse: bool) returns (alive: bool)
      requires Valid()
      modifies this
      ensures Heard(State(), log, alive) == ListenCids(old(State()), msg, cids, isResponse, old(log))
      ensures Valid()
    {
      var i := 0;
      while i < |cids|
        invariant 0 <= i <= |cids| && Valid()
        invariant ListenCids(old(State()), msg, cids, isResponse, old(log)) == ListenCids(State(), msg, cids[i..], isResponse, log)
      {
        assert cids[i..][0] == cids[i] && cids[i..][1..] == cids[i + 1..];
        alive := ListenStep(msg, cids[i], isResponse);
        if !alive {
          return;
        }
        i := i + 1;
      }
      assert cids[i..] == [];
      alive := true;
    }

    /** The listener's body for one event: every message in turn. */
    method ListenEvent(msgs: seq<Incoming>, isResponse: bool) returns (alive: bool)
      requires Valid()
      modifies this
      ensures Heard(State(), log, alive) == Requests.ListenEvent(old(State()), msgs, isResponse, old(log))
      ensures Valid()
    {
      var i := 0;
      while i < |msgs|
        invariant 0 <= i <= |msgs| && Valid()
        invariant Requests.ListenEvent(old(State()), msgs, isResponse, old(log)) == Requests.ListenEvent(State(), msgs[i..], isResponse, log)
      {
        assert msgs[i..][0] == msgs[i] && msgs[i..][1..] == msgs[i + 1..];
        alive := ListenMessage(msgs[i].msg, msgs[i].cids, isResponse);
        if !alive {
          return;
        }
        i := i + 1;
      }
      assert msgs[i..] == [];
      alive := true;
    }

    /** The timeout monitor's body for one id, `now` in microseconds. */
    method TimeoutStep(cid: Cid, now: int)
      requires Valid()
      modifies this
      ensures var h := CheckTimeout(old(State()), cid, now);
        State() == h.reg && log == old(log) + h.calls
      ensures Valid()
    {
      if cid !in timeouts {
        return;
      }
      var deadline := timeouts[cid];
      var elapsed := ((now - deadline.start) / 1000000) % 86400;
      if deadline.time.Some? && elapsed >= deadline.time.value {
        status := status[cid := Timeout];
        if cid in callbacks {
          log := log + [Call(callbacks[cid], Timeout, None, data[cid])];
          ClearRequest(cid);
        }
      }
    }

    /** One pass of the timeout monitor over the ids in `order`. */
    method SweepTimeouts(order: seq<Cid>, now: int)
      requires Valid()
      modifies this
      ensures State() == Sweep(old(State()), order, now, old(log)).reg
      ensures log == Sweep(old(State()), order, now, old(log)).calls
      ensures Valid()
    {
      for i := 0 to |order|
        invariant Valid()
        invariant Sweep(old(State()), order, now, old(log)) == Sweep(State(), order[i..], now, log)
      {
        assert order[i..][0] == order[i] && order[i..][1..] == order[i + 1..];
        TimeoutStep(order[i], now);
      }
      assert order[|order|..] == [];
    }
  }
}
