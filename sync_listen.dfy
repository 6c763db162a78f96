/**
 * The Synchronous class's listener (bloomberg_py_wrapper/wrapper_content.py,
 * :1100-1114): it feeds every message that carries its correlation id to the
 * request's decoder, keeps what the decoder returns as the frame, and hands
 * that frame back at the first RESPONSE event that carries the id.
 */
module SyncListen {
  import opened Wrappers
  import opened Messages
  import opened Tables
  import opened DecodeSpec
  import opened Requests
  import Decoders
  import DecodeProperties

  /** One event of the session: its messages and whether it is a RESPONSE. */
  datatype Event = Event(msgs: seq<Incoming>, isResponse: bool)

  /**
   * How listening ends: the frame handed back, a decoder's raise, another
   * exception, or (the events having run out) still waiting with the frame so far.
   */
  datatype Outcome = Answered(frame: Table) | RaisedText(text: string) | Crashed | Waiting(frame: Table)

  /** The messages of one event, in order. */
  function OnMessages(cid: Cid, kind: DecoderKind, msgs: seq<Incoming>, isResponse: bool, t: Table): Outcome
    decreases |msgs|
  {
    if msgs == [] then Waiting(t)
    else if cid !in msgs[0].cids then OnMessages(cid, kind, msgs[1..], isResponse, t)
    else
      match Decode(kind, msgs[0].msg, t)
      case Raised(text) => RaisedText(text)
      case Fault(_) => Crashed
      case Decoded(_, returned) =>
        if isResponse then Answered(returned) else OnMessages(cid, kind, msgs[1..], isResponse, returned)
  }

  /** The listener over a finite run of events. */
  function ListenFor(cid: Cid, kind: DecoderKind, events: seq<Event>, t: Table): Outcome
    decreases |events|
  {
    if events == [] then Waiting(t)
    else
      match OnMessages(cid, kind, events[0].msgs, events[0].isResponse, t)
      case Waiting(u) => ListenFor(cid, kind, events[1..], u)
      case done => done
  }

  predicate Carries(e: Event, cid: Cid)
  {
    exists j :: 0 <= j < |e.msgs| && cid in e.msgs[j].cids
  }

  /** `_listen_bloomberg` of the Synchronous class, over the events given. */
  method ListenBloomberg(cid: Cid, kind: DecoderKind, events: seq<Event>, output: Table) returns (o: Outcome)
    ensures o == ListenFor(cid, kind, events, output)
  {
    var t := output;
    for i := 0 to |events|
      invariant ListenFor(cid, kind, events, output) == ListenFor(cid, kind, events[i..], t)
    {
      assert events[i..][0] == events[i] && events[i..][1..] == events[i + 1..];
      var msgs := events[i].msgs;
      ghost var t0 := t;
      for j := 0 to |msgs|
        invariant OnMessages(cid, kind, msgs, events[i].isResponse, t0) == OnMessages(cid, kind, msgs[j..], events[i].isResponse, t)
      {
        assert msgs[j..][0] == msgs[j] && msgs[j..][1..] == msgs[j + 1..];
        if cid in msgs[j].cids {
          var frame := new Frame(t);
          var reply := Decoders.ProcessMessage(kind, msgs[j].msg, frame);
          match reply {
            case RaisedError(text) => return RaisedText(text);
            case Crashed => return Crashed;
            case Returned(f) =>
              if events[i].isResponse {
                return Answered(f.Snapshot());
              }
              t := f.Snapshot();
          }
        }
      }
      assert msgs[|msgs|..] == [];
    }
    assert events[|events|..] == [];
    return Waiting(t);
  }

  /** Messages that do not carry the id are never decoded: without one, the frame comes through untouched. */
  lemma {:induction false} OthersIgnored(cid: Cid, kind: DecoderKind, events: seq<Event>, t: Table)
    requires forall i :: 0 <= i < |events| ==> !Carries(events[i], cid)
    ensures ListenFor(cid, kind, events, t) == Waiting(t)
    decreases |events|
  {
    if events != [] {
      MessagesIgnored(cid, kind, events[0].msgs, events[0].isResponse, t);
      OthersIgnored(cid, kind, events[1..], t);
    }
  }

  lemma {:induction false} MessagesIgnored(cid: Cid, kind: DecoderKind, msgs: seq<Incoming>, isResponse: bool, t: Table)
    requires forall j :: 0 <= j < |msgs| ==> cid !in msgs[j].cids
    ensures OnMessages(cid, kind, msgs, isResponse, t) == Waiting(t)
    decreases |msgs|
  {
    if msgs != [] {
      MessagesIgnored(cid, kind, msgs[1..], isResponse, t);
    }
  }

  /** A frame is handed back only by a RESPONSE event carrying the id. */
  lemma {:induction false} AnsweredByResponse(cid: Cid, kind: DecoderKind, events: seq<Event>, t: Table)
    ensures ListenFor(cid, kind, events, t).Answered? ==>
              exists i :: 0 <= i < |events| && events[i].isResponse && Carries(events[i], cid)
    decreases |events|
  {
    if events != [] {
      var o := OnMessages(cid, kind, events[0].msgs, events[0].isResponse, t);
      if o.Answered? {
        MessagesAnswer(cid, kind, events[0].msgs, events[0].isResponse, t);
      } else if o.Waiting? {
        AnsweredByResponse(cid, kind, events[1..], o.frame);
        if ListenFor(cid, kind, events, t).Answered? {
          var i :| 0 <= i < |events[1..]| && events[1..][i].isResponse && Carries(events[1..][i], cid);
          assert events[i + 1] == events[1..][i];
        }
      }
    }
  }

  lemma {:induction false} MessagesAnswer(cid: Cid, kind: DecoderKind, msgs: seq<Incoming>, isResponse: bool, t: Table)
    ensures OnMessages(cid, kind, msgs, isResponse, t).Answered? ==>
              isResponse && exists j :: 0 <= j < |msgs| && cid in msgs[j].cids
    decreases |msgs|
  {
    if msgs != [] {
      if cid in msgs[0].cids {
        var d := Decode(kind, msgs[0].msg, t);
        if d.Decoded? && !isResponse {
          MessagesAnswer(cid, kind, msgs[1..], isResponse, d.returned);
        }
      } else {
        MessagesAnswer(cid, kind, msgs[1..], isResponse, t);
        if OnMessages(cid, kind, msgs, isResponse, t).Answered? {
          var j :| 0 <= j < |msgs[1..]| && cid in msgs[1..][j].cids;
          assert msgs[j + 1] == msgs[1..][j];
        }
      }
    }
  }

  /** The decoder's raise (its error check first) ends listening with that text. */
  lemma ErrorEndsListening(cid: Cid, kind: DecoderKind, first: Incoming, rest: seq<Incoming>, isResponse: bool,
                           later: seq<Event>, t: Table, err: Element)
    requires cid in first.cids && GetElement(first.msg, Names.ResponseError) == Some(err)
    ensures ListenFor(cid, kind, [Event([first] + rest, isResponse)] + later, t) == RaisedText(MsgErrorText(err))
  {
    DecodeProperties.ErrorCheckedFirst(kind, first.msg, t);
    assert ([first] + rest)[0] == first;
    assert ([Event([first] + rest, isResponse)] + later)[0] == Event([first] + rest, isResponse);
  }
}
