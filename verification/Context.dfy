/** Which Tuxedo context a call runs in, when handles with contexts of their own share a thread. */
module Context {
  import opened Atmi

  datatype Call = TpCall | TpAcall | TpEnqueue | TpDequeue | TpBegin | TpCommit | TpAbort
  {
    /** begin, commit and abort do not switch. */
    predicate Switches() {
      TpCall? || TpAcall? || TpEnqueue? || TpDequeue?
    }
  }

  /** What the library answers to tpgetctxt and tpsetctxt: the tperrno of a failure. */
  datatype Answers = Answers(get: Option<int>, put: Option<int>)

  datatype Op = Invoke(handle: nat, call: Call, answers: Answers) | SetContext(handle: nat, context: int)

  /** A call that reached the library: who made it, the context it should and did run in. */
  datatype Ran = Ran(handle: nat, call: Call, own: int, current: int)

  datatype Thread = Thread(current: int, contexts: map<nat, int>, log: seq<Ran>)
  {
    /** A new handle has context 0: none of its own. */
    function ContextOf(h: nat): int {
      if h in contexts then contexts[h] else 0
    }
  }

  /** switch_context */
  function Switch(current: int, own: int, a: Answers): Result<int> {
    if own <= 0 then Ok(current)
    else if a.get.Some? then Thrown(TuxedoException(a.get.value))
    else if own == current then Ok(current)
    else if a.put.Some? then Thrown(TuxedoException(a.put.value))
    else Ok(own)
  }

  function Apply(t: Thread, op: Op): (Thread, Option<Exn>) {
    match op
    case SetContext(h, c) => (t.(contexts := t.contexts[h := c]), None)
    case Invoke(h, call, a) =>
      var own := t.ContextOf(h);
      var r := if call.Switches() then Switch(t.current, own, a) else Ok(t.current);
      if r.Thrown? then (t, Some(r.exn))
      else (t.(current := r.value, log := t.log + [Ran(h, call, own, r.value)]), None)
  }

  function Run(t: Thread, ops: seq<Op>): Thread
    decreases |ops|
  {
    if ops == [] then t else Run(Apply(t, ops[0]).0, ops[1..])
  }

  // ---- every call in its own context ------------------------------------------------------------

  lemma {:induction false} RunConcat(t: Thread, a: seq<Op>, b: seq<Op>)
    ensures Run(t, a + b) == Run(Run(t, a), b)
    decreases |a|
  {
    if a == [] {
      assert a + b == b;
    } else {
      assert (a + b)[1..] == a[1..] + b;
      RunConcat(Apply(t, a[0]).0, a[1..], b);
    }
  }

  lemma RunSnoc(t: Thread, ops: seq<Op>, k: nat)
    requires k < |ops|
    ensures Run(t, ops[..k + 1]) == Apply(Run(t, ops[..k]), ops[k]).0
  {
    assert ops[..k + 1] == ops[..k] + [ops[k]];
    RunConcat(t, ops[..k], [ops[k]]);
    var t' := Run(t, ops[..k]);
    assert Run(t', [ops[k]]) == Run(Apply(t', ops[k]).0, [ops[k]][1..]);
  }

  /** The context that the operations give to a handle: that of the last set_context on it, or the
      one it had before. */
  function LastSet(ops: seq<Op>, h: nat, before: int): int {
    if ops == [] then before else
    var last := ops[|ops| - 1];
    if last.SetContext? && last.handle == h then last.context else LastSet(ops[..|ops| - 1], h, before)
  }

  /** The context a handle starts a run with; a new one has none, which is context 0. */
  function Initial(t: Thread, h: nat): int {
    if h in t.contexts then t.contexts[h] else NO_CONTEXT
  }

  const NO_CONTEXT := 0

  lemma {:induction false} ContextIsLastSet(t: Thread, ops: seq<Op>, h: nat)
    ensures Run(t, ops).ContextOf(h) == LastSet(ops, h, Initial(t, h))
    decreases |ops|
  {
    if ops != [] {
      var k := |ops| - 1;
      assert ops[..k + 1] == ops;
      RunSnoc(t, ops, k);
      ContextIsLastSet(t, ops[..k], h);
    }
  }

  /** Entry `i` of the log is the call of operation `k`: made by its handle, whose context is that
      of the last set_context on it before -- and made in that context, if the call switches and
      the handle has one. */
  ghost predicate MadeBy(t: Thread, ops: seq<Op>, c: Ran, i: nat, k: nat)
    requires k < |ops|
  {
    && ops[k].Invoke?
    && |Run(t, ops[..k]).log| == i && |Run(t, ops[..k + 1]).log| == i + 1
    && c.handle == ops[k].handle && c.call == ops[k].call
    && c.own == LastSet(ops[..k], c.handle, Initial(t, c.handle))
    && (c.call.Switches() && c.own > 0 ==> c.current == c.own)
  }

  ghost predicate OwnCall(t: Thread, ops: seq<Op>, c: Ran, i: nat) {
    exists k :: 0 <= k < |ops| && MadeBy(t, ops, c, i, k)
  }

  /** For any handles and any interleaving of their operations, set_context among them, every
      service call and every queue operation that reaches the library runs in the context last
      set on its own handle, if that has one. */
  lemma {:induction false} CallsRunInOwnContext(t: Thread, ops: seq<Op>)
    ensures var log := Run(t, ops).log;
            && t.log <= log
            && forall i :: |t.log| <= i < |log| ==> OwnCall(t, ops, log[i], i)
    decreases |ops|
  {
    if ops == [] {
      assert Run(t, ops) == t;
    } else {
      var n := |ops| - 1;
      var ops', log', log := ops[..n], Run(t, ops[..n]).log, Run(t, ops).log;
      assert ops[..n + 1] == ops;
      RunSnoc(t, ops, n);
      CallsRunInOwnContext(t, ops');
      forall i | |t.log| <= i < |log|
        ensures OwnCall(t, ops, log[i], i)
      {
        if i < |log'| {
          assert OwnCall(t, ops', log'[i], i);
          var k :| 0 <= k < |ops'| && MadeBy(t, ops', log'[i], i, k);
          assert ops'[..k] == ops[..k] && ops'[..k + 1] == ops[..k + 1];
          assert MadeBy(t, ops, log[i], i, k);
        } else {
          ContextIsLastSet(t, ops', ops[n].handle);
          assert MadeBy(t, ops, log[i], i, n);
        }
      }
    }
  }

  /** An operation that throws has reached nothing and changed nothing; it throws for a switch it
      needs and the library refuses, and for nothing else; and what it throws carries the error of
      the call that refused. */
  lemma ThrowsBeforeReaching(t: Thread, op: Op)
    ensures var (t', e) := Apply(t, op);
            && (e.Some? ==> t' == t)
            && (e.Some? <==> op.Invoke? && op.call.Switches() && t.ContextOf(op.handle) > 0
                             && (op.answers.get.Some?
                                 || (op.answers.put.Some? && t.current != t.ContextOf(op.handle))))
            && (e.Some? ==> e.value == TuxedoException(op.answers.get.GetOr(op.answers.put.GetOr(0))))
            && (e.None? && op.Invoke? ==> |t'.log| == |t.log| + 1)
  {
  }

  // ---- runs ---------------------------------------------------------------------------------------

  /** The operations of a run that do not throw. */
  function Effective(t: Thread, ops: seq<Op>): seq<Op>
    decreases |ops|
  {
    if ops == [] then [] else
    var (t', e) := Apply(t, ops[0]);
    (if e.None? then [ops[0]] else []) + Effective(t', ops[1..])
  }

  function Throws(t: Thread, ops: seq<Op>): nat
    decreases |ops|
  {
    if ops == [] then 0 else (if Apply(t, ops[0]).1.Some? then 1 else 0) + Throws(Apply(t, ops[0]).0, ops[1..])
  }

  /** Operations that throw leave no trace: without them no operation throws, and the run ends in
      the same place. */
  lemma {:induction false} ThrownCallsLeaveNoTrace(t: Thread, ops: seq<Op>)
    ensures Run(t, Effective(t, ops)) == Run(t, ops)
    ensures Throws(t, Effective(t, ops)) == 0
    decreases |ops|
  {
    if ops != [] {
      var (t', e) := Apply(t, ops[0]);
      ThrownCallsLeaveNoTrace(t', ops[1..]);
      ThrowsBeforeReaching(t, ops[0]);
      var rest := Effective(t', ops[1..]);
      if e.None? {
        assert ([ops[0]] + rest)[1..] == rest;
      } else {
        assert [] + rest == rest;
      }
    }
  }

  /** The context that calls leave behind: that of the last one that switches and has a context
      of its own, or the one there was before. */
  function Leaves(calls: seq<Ran>, before: int): int {
    if calls == [] then before else
    var last := calls[|calls| - 1];
    if last.call.Switches() && last.own > 0 then last.own else Leaves(calls[..|calls| - 1], before)
  }

  lemma LeavesSnoc(calls: seq<Ran>, r: Ran, before: int)
    ensures Leaves(calls + [r], before) == if r.call.Switches() && r.own > 0 then r.own else Leaves(calls, before)
  {
    assert (calls + [r])[..|calls|] == calls;
  }

  /** Every call of the log ran in the context that the calls up to it leave behind. */
  ghost predicate Traced(log: seq<Ran>, before: int, current: int) {
    && current == Leaves(log, before)
    && forall i :: 0 <= i < |log| ==> log[i].current == Leaves(log[..i + 1], before)
  }

  lemma TracedSnoc(log: seq<Ran>, r: Ran, before: int, current: int)
    requires Traced(log, before, current)
    requires r.current == if r.call.Switches() && r.own > 0 then r.own else current
    ensures Traced(log + [r], before, r.current)
  {
    LeavesSnoc(log, r, before);
    forall i | 0 <= i < |log| + 1
      ensures (log + [r])[i].current == Leaves((log + [r])[..i + 1], before)
    {
      if i < |log| {
        assert (log + [r])[..i + 1] == log[..i + 1];
      } else {
        assert (log + [r])[..i + 1] == log + [r];
      }
    }
  }

  /** For any handles and any interleaving, with any switches refused: every call that reaches
      the library, begin, commit and abort included, runs in the context of the last service call
      or queue operation up to it whose handle has one, whichever handle that was. */
  lemma {:induction false} ContextIsLastSwitch(t: Thread, ops: seq<Op>, before: int)
    requires Traced(t.log, before, t.current)
    ensures Traced(Run(t, ops).log, before, Run(t, ops).current)
    decreases |ops|
  {
    hide Leaves;
    if ops != [] {
      var t' := Apply(t, ops[0]).0;
      if t' != t && ops[0].Invoke? {
        TracedSnoc(t.log, t'.log[|t.log|], before, t.current);
      }
      ContextIsLastSwitch(t', ops[1..], before);
    }
  }

  // ---- units of work ------------------------------------------------------------------------------

  const FINE := Answers(None, None)

  /** Units of work of a handle, one after the other: begin, one operation, and what ends it. */
  function UnitsOfWork(h: nat, units: seq<(Call, Call)>): seq<Op> {
    if units == [] then []
    else [Invoke(h, TpBegin, FINE), Invoke(h, units[0].0, FINE), Invoke(h, units[0].1, FINE)]
         + UnitsOfWork(h, units[1..])
  }

  predicate ProperUnits(units: seq<(Call, Call)>) {
    forall i :: 0 <= i < |units| ==> units[i].0.Switches() && (units[i].1.TpCommit? || units[i].1.TpAbort?)
  }

  lemma OneUnit(t: Thread, h: nat, call: Call, end: Call)
    requires call.Switches() && (end.TpCommit? || end.TpAbort?)
    ensures var own := t.ContextOf(h);
            var there := if own > 0 then own else t.current;
            Run(t, [Invoke(h, TpBegin, FINE), Invoke(h, call, FINE), Invoke(h, end, FINE)])
            == t.(current := there,
                  log := t.log + [Ran(h, TpBegin, own, t.current), Ran(h, call, own, there), Ran(h, end, own, there)])
  {
    var ops := [Invoke(h, TpBegin, FINE), Invoke(h, call, FINE), Invoke(h, end, FINE)];
    var t1 := Apply(t, ops[0]).0;
    var t2 := Apply(t1, ops[1]).0;
    var t3 := Apply(t2, ops[2]).0;
    assert ops[1..][0] == ops[1] && ops[1..][1..] == [ops[2]];
    assert Run(t2, [ops[2]]) == t3 by { assert Run(t3, []) == t3 && [ops[2]][1..] == []; }
    assert Run(t, ops) == Run(t1, ops[1..]) == Run(t2, [ops[2]]);
  }

  /** begin runs in whatever context is current. So of any number of units of work of one handle
      exactly the first begin can run elsewhere: every other call runs in the handle's own context,
      and all of them run in one context if and only if the handle has none of its own or was
      already in it. Otherwise the first operation runs outside the transaction that begin opened,
      and its commit or abort goes to the other context. */
  lemma {:induction false} UnitOfWorkContexts(t: Thread, h: nat, units: seq<(Call, Call)>)
    requires ProperUnits(units) && units != []
    ensures var log, n, own := Run(t, UnitsOfWork(h, units)).log, |t.log|, t.ContextOf(h);
            && |log| == n + 3 * |units|
            && t.log <= log
            && log[n].call.TpBegin? && log[n].current == t.current
            && (forall i :: n < i < |log| ==> log[i].current == if own > 0 then own else t.current)
            && ((forall i :: n < i < |log| ==> log[i].current == log[n].current) <==> own <= 0 || t.current == own)
    decreases |units|
  {
    var first := [Invoke(h, TpBegin, FINE), Invoke(h, units[0].0, FINE), Invoke(h, units[0].1, FINE)];
    var t' := Run(t, first);
    OneUnit(t, h, units[0].0, units[0].1);
    RunConcat(t, first, UnitsOfWork(h, units[1..]));
    hide Run;
    if |units| == 1 {
      NoOps(t');
      assert t'.log[|t.log| + 1].current == if t.ContextOf(h) > 0 then t.ContextOf(h) else t.current;
    } else {
      UnitOfWorkContexts(t', h, units[1..]);
      var log, n := Run(t, UnitsOfWork(h, units)).log, |t.log|;
      assert forall i :: n <= i < n + 3 ==> log[i] == t'.log[i];
      assert log[n + 1].current == if t.ContextOf(h) > 0 then t.ContextOf(h) else t.current;
    }
  }

  lemma NoOps(t: Thread)
    ensures Run(t, []) == t
  {
  }
}
