/** What every call returns, and what it sends, over runs: read off the events of the run. */
module Outcomes {
  import opened RpcTypes
  import opened RpcClient
  import opened XidWindow
  import opened RpcSystem
  import opened AtMostOnce

  /** A `cancel` among the first n events found call x outstanding. */
  ghost predicate CancelledBy(ss: seq<Sys>, es: seq<Event>, x: nat, n: nat) {
    exists k: nat :: CancelledAt(ss, es, x, n, k)
  }

  ghost predicate CancelledAt(ss: seq<Sys>, es: seq<Event>, x: nat, n: nat, k: nat) {
    k < n <= |es| && n <= |ss| && es[k].CancelAll? && x in ss[k].client.calls
  }

  /** The slot of a waiting call says what has happened to it so far. */
  ghost predicate SlotOk(s: Sys, x: nat, cancelled: bool)
    requires x in s.client.calls
  {
    var ca := s.client.calls[x];
    && (cancelled ==> ca.done && ca.intret == CANCEL_FAILURE)
    && (!cancelled && x in s.accepted ==>
          ca.done && ca.intret == s.accepted[x].rep.ret && ca.body == s.accepted[x].rep.body)
    && (!cancelled && x !in s.accepted ==> !ca.done && ca.body == [])
  }

  ghost predicate OutcomeOk(s: Sys, x: nat, cancelled: bool)
    requires x in s.outcomes
  {
    var o := s.outcomes[x];
    && (cancelled ==> o.ret == CANCEL_FAILURE)
    && (!cancelled && x in s.accepted ==> o == Outcome(s.accepted[x].rep.ret, s.accepted[x].rep.body))
    && (!cancelled && x !in s.accepted ==> o == Outcome(TIMEOUT_FAILURE, []))
  }

  lemma CancelledGrows(ss: seq<Sys>, es: seq<Event>, x: nat, n: nat)
    requires n < |es| && n < |ss|
    ensures CancelledBy(ss, es, x, n + 1) <==> CancelledBy(ss, es, x, n) || (es[n].CancelAll? && x in ss[n].client.calls)
  {
    if CancelledBy(ss, es, x, n) {
      var k: nat :| CancelledAt(ss, es, x, n, k);
      assert CancelledAt(ss, es, x, n + 1, k);
    }
    if es[n].CancelAll? && x in ss[n].client.calls {
      assert CancelledAt(ss, es, x, n + 1, n);
    }
    if CancelledBy(ss, es, x, n + 1) {
      var k: nat :| CancelledAt(ss, es, x, n + 1, k);
      assert k < n ==> CancelledAt(ss, es, x, n, k);
    }
  }

  /** A call that has not been made has no history. */
  lemma FreshFacts(s: Sys, x: nat)
    requires Inv(s)
    ensures x !in s.headers ==> x !in s.client.calls && x !in s.accepted && x !in s.outcomes
    ensures x in s.outcomes ==> x !in s.client.calls
    ensures |s.client.repWindow| > 0 && s.client.nextXid !in s.headers
  {
    hide NetInv, Doomed, Explained, HeaderOk;
  }

  lemma {:induction false} NotCancelledBefore(ss: seq<Sys>, es: seq<Event>, x: nat, n: nat)
    requires Run(ss, es) && n <= |es| && x !in ss[n].headers
    ensures !CancelledBy(ss, es, x, n)
  {
    forall k: nat | k < n ensures !CancelledAt(ss, es, x, n, k) {
      RunInv(ss, es, k);
      RunGrows(ss, es, k, n);
      hide Inv, Run, Evolves;
      FreshFacts(ss[k], x);
    }
  }

  lemma SlotStep(s: Sys, e: Event, x: nat, c: bool)
    requires Inv(s) && Enabled(s, e) && x in s.client.calls && SlotOk(s, x, c)
    ensures var s' := Step(s, e); var c' := c || e.CancelAll?;
      && (x in s'.client.calls ==> SlotOk(s', x, c'))
      && (x !in s'.client.calls ==> e == Finish(x) && x in s'.outcomes && OutcomeOk(s', x, c'))
  {
    hide Inv, Dispatch, StoreAndSend, SetPhase, BindResult, HandlerResult, Report;
    FreshFacts(s, x);
  }

  lemma NewSlot(s: Sys, e: Event, x: nat)
    requires Inv(s) && Enabled(s, e) && x !in s.client.calls && x in Step(s, e).client.calls
    ensures x !in s.headers && !e.CancelAll? && SlotOk(Step(s, e), x, false)
  {
    hide Inv, Dispatch, StoreAndSend, SetPhase, BindResult, HandlerResult, Report;
    FreshFacts(s, x);
    FreshFacts(s, s.client.nextXid);
  }

  lemma OutcomeStays(s: Sys, e: Event, x: nat)
    requires Inv(s) && Enabled(s, e) && x !in s.client.calls && x !in Step(s, e).client.calls
    ensures var s' := Step(s, e);
      && (x in s'.outcomes <==> x in s.outcomes)
      && (x in s.outcomes ==> s'.outcomes[x] == s.outcomes[x])
      && (x in s'.accepted <==> x in s.accepted) && (x in s.accepted ==> s'.accepted[x] == s.accepted[x])
  {
    hide Inv, Dispatch, StoreAndSend, SetPhase, BindResult, HandlerResult, Report;
  }

  lemma {:induction false} CallsAndOutcomes(ss: seq<Sys>, es: seq<Event>, x: nat, n: nat)
    requires Run(ss, es) && n <= |es|
    ensures x in ss[n].client.calls ==> SlotOk(ss[n], x, CancelledBy(ss, es, x, n))
    ensures x in ss[n].outcomes ==> OutcomeOk(ss[n], x, CancelledBy(ss, es, x, n))
  {
    hide Inv, Step, Enabled, SlotOk, OutcomeOk, CancelledBy;
    if n > 0 {
      var s, e := ss[n - 1], es[n - 1];
      CallsAndOutcomes(ss, es, x, n - 1);
      RunInv(ss, es, n - 1);
      assert Enabled(s, e) && ss[n] == Step(s, e);
      CancelledGrows(ss, es, x, n - 1);
      FreshFacts(s, x);
      if x in s.client.calls {
        SlotStep(s, e, x, CancelledBy(ss, es, x, n - 1));
        RunInv(ss, es, n);
        FreshFacts(ss[n], x);
      } else if x in ss[n].client.calls {
        NewSlot(s, e, x);
        NotCancelledBefore(ss, es, x, n - 1);
        RunInv(ss, es, n);
        FreshFacts(ss[n], x);
      } else {
        OutcomeStays(s, e, x);
        OutcomeSame(s, ss[n], x, CancelledBy(ss, es, x, n));
      }
    }
  }

  lemma OutcomeSame(s: Sys, s': Sys, x: nat, c: bool)
    requires x in s.outcomes ==> OutcomeOk(s, x, c)
    requires (x in s'.outcomes <==> x in s.outcomes) && (x in s.outcomes ==> s'.outcomes[x] == s.outcomes[x])
    requires (x in s'.accepted <==> x in s.accepted) && (x in s.accepted ==> s'.accepted[x] == s.accepted[x])
    ensures x in s'.outcomes ==> OutcomeOk(s', x, c)
  {
  }

  /** No reply in the network carries one of the two codes that the client makes up itself. */
  lemma RepliesAreNotLocal(s: Sys, m: Msg)
    requires Inv(s) && m in s.reps
    ensures m.rep.ret != CANCEL_FAILURE && m.rep.ret != TIMEOUT_FAILURE
  {
    hide ClientInv, CallInv, Doomed, Executed, SrvInv, Addressed;
    assert MsgOk(m.rep, s.servers[m.from], s.reported);
    if i: nat :| FromExec(m.rep, s.servers[m.from], i) {
      assert SrvInv(m.from, s.servers[m.from], s.headers, s.reported);
      HandlerRepliesAreHandlerRets(m.from, s.servers[m.from], s.headers, s.reported, m.rep, i);
    }
  }

  lemma AcceptedIsReply(s: Sys, x: nat)
    requires Inv(s) && x in s.accepted
    ensures s.accepted[x] in s.reps && s.accepted[x].rep.xid == x
  {
    hide ClientInv, NetInv, Doomed, Explained;
  }

  /** The result of every call, in every run: `cancel_failure` iff a `cancel` found it outstanding;
      else the code and the bytes of the reply it accepted, if it accepted one; and else, and only
      then, `timeout_failure`. */
  lemma OutcomeExactly(ss: seq<Sys>, es: seq<Event>, x: nat, n: nat)
    requires Run(ss, es) && n <= |es| && x in ss[n].outcomes
    ensures var s, o, c := ss[n], ss[n].outcomes[x], CancelledBy(ss, es, x, n);
      && (o.ret == CANCEL_FAILURE <==> c)
      && (o.ret == TIMEOUT_FAILURE <==> !c && x !in s.accepted)
      && (!c && x in s.accepted ==> o == Outcome(s.accepted[x].rep.ret, s.accepted[x].rep.body))
  {
    hide Inv, CancelledBy;
    CallsAndOutcomes(ss, es, x, n);
    RunInv(ss, es, n);
    if x in ss[n].accepted {
      AcceptedIsReply(ss[n], x);
      RepliesAreNotLocal(ss[n], ss[n].accepted[x]);
    }
  }

  /** A call ends with a result: the event that takes it out of the table records one for it. */
  lemma EveryEndHasOutcome(ss: seq<Sys>, es: seq<Event>, n: nat)
    requires Run(ss, es) && n < |es| && es[n].Finish?
    ensures es[n].xid in ss[n].client.calls && es[n].xid !in ss[n + 1].client.calls
    ensures es[n].xid in ss[n + 1].outcomes && es[n].xid in ss[n + 1].reported
  {
    assert Enabled(ss[n], es[n]) && ss[n + 1] == Step(ss[n], es[n]);
    hide Run, Report;
  }

  // ---- Starting a call ----

  /** `call1` refuses a call before the bind, a second bind, and any call once it is being destroyed,
      each with its own code; and nothing else. */
  lemma RefusedIffNotReady(cl: Client, proc: nat, args: Bytes)
    requires |cl.repWindow| > 0
    ensures StartCall(cl, proc, args).Refused? <==> (proc == BIND) == cl.bindDone || cl.destroyWait
    ensures (proc == BIND) == cl.bindDone ==> StartCall(cl, proc, args) == Refused(BIND_FAILURE)
    ensures (proc == BIND) != cl.bindDone && cl.destroyWait ==> StartCall(cl, proc, args) == Refused(CANCEL_FAILURE)
  {
  }

  /** Event i made call x. */
  ghost predicate MadeAt(ss: seq<Sys>, es: seq<Event>, x: nat, i: nat) {
    && i < |es| == |ss| - 1 && es[i].Start? && x == ss[i].client.nextXid
  }

  /** Where every header comes from: one `Start`, with its procedure and arguments, the client's nonce,
      the nonce it was bound to at that moment, and as watermark the largest n with 1..n reported. */
  ghost predicate HeaderFrom(ss: seq<Sys>, es: seq<Event>, x: nat, i: nat, h: Req) {
    && MadeAt(ss, es, x, i)
    && var cl := ss[i].client;
    && h.xid == x && h.proc == es[i].proc && h.args == es[i].args
    && h.cltNonce == ss[0].client.cltNonce && h.srvNonce == cl.srvNonce
    && (forall y | 1 <= y <= h.xidRep :: y in ss[i].reported) && h.xidRep + 1 !in ss[i].reported
  }

  lemma NewHeader(s: Sys, e: Event, x: nat)
    requires Inv(s) && Enabled(s, e) && x !in s.headers && x in Step(s, e).headers
    ensures e.Start? && x == s.client.nextXid
    ensures var h := Step(s, e).headers[x];
      && h.xid == x && h.proc == e.proc && h.args == e.args
      && h.cltNonce == s.client.cltNonce && h.srvNonce == s.client.srvNonce
      && (forall y | 1 <= y <= h.xidRep :: y in s.reported) && h.xidRep + 1 !in s.reported
  {
    hide NetInv, CallInv, Dispatch, StoreAndSend, SetPhase, BindResult, HandlerResult, Report, HeaderOk;
  }

  lemma NonceStep(s: Sys, e: Event)
    requires Enabled(s, e)
    ensures Step(s, e).client.cltNonce == s.client.cltNonce
  {
    hide Dispatch, StoreAndSend, SetPhase, BindResult, HandlerResult, Report;
  }

  lemma {:induction false} NonceStays(ss: seq<Sys>, es: seq<Event>, n: nat)
    requires Run(ss, es) && n <= |es|
    ensures ss[n].client.cltNonce == ss[0].client.cltNonce
  {
    hide Step, Enabled;
    if n > 0 {
      NonceStays(ss, es, n - 1);
      assert Enabled(ss[n - 1], es[n - 1]) && ss[n] == Step(ss[n - 1], es[n - 1]);
      NonceStep(ss[n - 1], es[n - 1]);
    }
  }

  lemma {:induction false} HeaderExactly(ss: seq<Sys>, es: seq<Event>, x: nat, n: nat) returns (i: nat)
    requires Run(ss, es) && n <= |es| && x in ss[n].headers
    ensures i < n && HeaderFrom(ss, es, x, i, ss[n].headers[x])
  {
    hide Inv, Step, Enabled;
    var s, e := ss[n - 1], es[n - 1];
    RunInv(ss, es, n - 1);
    assert Enabled(s, e) && ss[n] == Step(s, e);
    if x in s.headers {
      HistoryGrows(s, e);
      i := HeaderExactly(ss, es, x, n - 1);
    } else {
      NewHeader(s, e, x);
      NonceStays(ss, es, n - 1);
      i := n - 1;
    }
  }

  /** What goes on the wire for a call is its header and nothing else, each time it is sent. */
  lemma TransmitSendsHeader(ss: seq<Sys>, es: seq<Event>, n: nat)
    requires Run(ss, es) && n < |es| && es[n].Transmit?
    ensures es[n].xid in ss[n].headers && ss[n + 1].reqs == ss[n].reqs + {ss[n].headers[es[n].xid]}
  {
    RunInv(ss, es, n);
    assert Enabled(ss[n], es[n]) && ss[n + 1] == Step(ss[n], es[n]);
    hide Run, NetInv, CallInv, Represents, HeaderOk;
  }

  /** After a successful bind the client carries the nonce of the instance that ran its bind request
      and whose reply it accepted. */
  lemma BoundToAnswerer(ss: seq<Sys>, es: seq<Event>, n: nat)
    requires Run(ss, es) && n < |es| && es[n].EndBind?
    ensures es[n].xid in ss[n].accepted
    ensures ss[n + 1].client.bindDone && ss[n + 1].client.srvNonce == ss[n].accepted[es[n].xid].from
    ensures ss[n].accepted[es[n].xid].from in ss[n].servers
  {
    RunInv(ss, es, n);
    assert Enabled(ss[n], es[n]) && ss[n + 1] == Step(ss[n], es[n]);
    BindFrom(ss[n], es[n].xid);
    hide Run, Inv, BindResult;
  }

  lemma BindFrom(s: Sys, xid: nat)
    requires Inv(s) && Enabled(s, EndBind(xid))
    ensures xid in s.accepted && s.accepted[xid].from in s.servers
    ensures BindResult(s.outcomes[xid].body) == Some(s.accepted[xid].from)
  {
    hide SrvInv, Doomed, Represents, HeaderOk, BindResult;
    assert Explained(s.accepted, xid, 0, s.outcomes[xid].body);
    var m := s.accepted[xid];
    var sv := s.servers[m.from];
    assert MsgOk(m.rep, sv, s.reported);
    var i: nat :| FromExec(m.rep, sv, i);
    HandlerRepliesAreHandlerRets(m.from, sv, s.headers, s.reported, m.rep, i);
    NonceRange(s, m.from);
    BindBody(m.from);
  }
}
