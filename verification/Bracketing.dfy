/** Transaction bracketing: a monitor that reads the trace of a run, and the proof that no run
    of either stream operator ever breaks it. */
module Bracketing {
  import opened Atmi
  import opened TuxedoQueue
  import opened QueueSpec

  datatype Phase = Idle | InTransaction | Moved | Written | Refused | Unsettled | Over | Broken

  /** What may follow what. A queue operation or a write outside this order, a second write in
      one transaction, or an abort that comes right after a write, breaks the monitor for good:
      once a line is written the only way on is a commit attempt. */
  function Advance(p: Phase, e: Event): Phase {
    match p
    case Idle =>
      if e.Begun? then (if e.ok then InTransaction else Refused) else if e.Aborted? then Over else Broken
    case InTransaction =>
      if (e.Took? && e.inTransaction) || (e.Put? && e.inTransaction) then Moved
      else if e.Aborted? then AfterAbort(e) else Broken
    case Moved =>
      if e.Wrote? then Written
      else if e.Committed? then AfterCommit(e)
      else if e.Aborted? then AfterAbort(e) else Broken
    case Written => if e.Committed? then AfterCommit(e) else Broken
    case Refused => if e.Aborted? then Over else Broken
    case Unsettled => if e.Aborted? then Over else Broken
    case Over => if e.Aborted? then Over else Broken
    case Broken => Broken
  }

  function AfterCommit(e: Event): Phase
    requires e.Committed?
  {
    if e.ok then Idle else Unsettled
  }

  /** A new begin may follow an abort that succeeded, and only that. */
  function AfterAbort(e: Event): Phase
    requires e.Aborted?
  {
    if e.ok then Idle else Over
  }

  function PhaseOf(t: seq<Event>): Phase {
    if t == [] then Idle else Advance(PhaseOf(t[..|t| - 1]), t[|t| - 1])
  }

  lemma PhaseSnoc(t: seq<Event>, e: Event)
    ensures PhaseOf(t + [e]) == Advance(PhaseOf(t), e)
  {
    assert (t + [e])[..|t|] == t;
  }

  // ---- operator<< -------------------------------------------------------------------------

  lemma ShipPhase(c: Setup, w: World, m: Bytes, own: bool)
    requires w.tx.Open? && PhaseOf(w.trace) == Moved
    ensures var p := Ship(c, w, m, own);
            && (p.exn.None? ==> PhaseOf(p.w.trace) == Idle && p.w.tx.Closed?)
            && (p.exn.Some? ==> PhaseOf(p.w.trace) in {Moved, Unsettled})
  {
    ShipEffect(c, w, m, own);
    hide Ship;
    hide PhaseOf;
    var p := Ship(c, w, m, own);
    if p.lines != [] {
      PhaseSnoc(w.trace, Wrote);
      PhaseSnoc(w.trace + [Wrote], Committed(p.exn.None?));
      assert w.trace + [Wrote] + [Committed(p.exn.None?)] == p.w.trace;
    } else {
      assert w.trace + [] == w.trace;
    }
  }

  lemma PassPhase(c: Setup, w: World, rc: int, message: Bytes)
    requires rc != QMENOMSG && PhaseOf(w.trace) == Idle
    ensures var p := TryBlock(c, w, rc, message);
            && (p.exn.None? ==> PhaseOf(p.w.trace) == Idle && p.w.tx.Closed?)
            && (p.exn.Some? ==> PhaseOf(p.w.trace) in {Refused, InTransaction, Moved, Unsettled})
            && (p.exn == Some(TimeoutException) ==> PhaseOf(p.w.trace) == Moved)
  {
    hide Ship;
    hide PhaseOf;
    var (w1, e1) := Begin(w);
    PhaseSnoc(w.trace, Begun(e1.None?));
    if e1.None? && c.named {
      var (w2, r, got) := Dequeue(w1, c.named);
      PhaseSnoc(w1.trace, Took(got.Some?, true));
      if r.Ok? {
        var m := if got.Some? then got.value else message;
        if r.value != QMENOMSG && |m| > 0 {
          ShipPhase(c, w2, m, got.Some?);
          ShipScript(c, w2, m, got.Some?);
        } else {
          PhaseSnoc(w2.trace, Committed(TpCommit(w2).1.Success?));
        }
      }
    }
  }

  /** After an abort the transaction is open just when that abort failed and left it so. */
  predicate LeftOpen(w: World) {
    w.trace != [] && w.trace[|w.trace| - 1].Aborted? && w.trace[|w.trace| - 1].leftOpen
  }

  lemma AbortPhase(w: World)
    requires PhaseOf(w.trace) in {Idle, Refused, InTransaction, Moved, Unsettled, Over}
    ensures var (w', e) := Abort(w);
            && PhaseOf(w'.trace) in {Idle, Over}
            && (PhaseOf(w.trace) == Moved && e.None? ==> PhaseOf(w'.trace) == Idle)
            && (w'.tx.Open? <==> LeftOpen(w'))
            && (e.None? ==> w'.tx.Closed?)
  {
    PhaseSnoc(w.trace, TpAbort(w).0.trace[|w.trace|]);
  }

  lemma {:induction false} DrainPhase(c: Setup, w: World, rc: int, message: Bytes)
    requires PhaseOf(w.trace) == Idle && (w.tx.Closed? || rc != QMENOMSG)
    ensures var r := Drain(c, w, rc, message);
            && PhaseOf(r.w.trace) in {Idle, Over}
            && (r.exn.None? ==> PhaseOf(r.w.trace) == Idle && r.w.tx.Closed?)
            && (r.exn.Some? ==> (r.w.tx.Open? <==> LeftOpen(r.w)))
    decreases |w.script|, |w.queue|, if rc == QMENOMSG then 0 else 1
  {
    hide TryBlock;
    hide PhaseOf;
    hide Abort;
    hide LeftOpen;
    if rc != QMENOMSG {
      var p := TryBlock(c, w, rc, message);
      PassProgress(c, w, rc, message);
      PassPhase(c, w, rc, message);
      AbortPhase(p.w);
      AbortProgress(p.w);
      var (w', e) := Abort(p.w);
      if p.exn.None? {
        DrainPhase(c, p.w, p.rc, p.message);
      } else if p.exn.value.TimeoutException? {
        if e.None? {
          DrainPhase(c, w', p.rc, p.message);
        } else {
          AbortPhase(w');
        }
      }
    }
  }

  /** Whatever fails, the drain keeps every queue operation and every write inside a
      transaction of its own, follows each by exactly one commit or abort attempt before the
      next begin, and never aborts a transaction after writing its line without having tried
      to commit it -- so the retry after a timeout cannot repeat a line. A normal exit leaves
      no transaction open; a throwing one only if the last abort failed and left it open. */
  lemma ExportIsBracketed(c: Setup, w: World, blank: Bytes)
    requires PhaseOf(w.trace) == Idle
    ensures var r := Export(c, w, blank);
            && PhaseOf(r.w.trace) in {Idle, Over}
            && (r.exn.None? ==> PhaseOf(r.w.trace) == Idle && r.w.tx.Closed?)
            && (r.exn.Some? ==> (r.w.tx.Open? <==> LeftOpen(r.w)))
  {
    if Next(w).Success? {
      DrainPhase(c, Consume(w), -1, blank);
    } else {
      AbortPhase(Consume(w));
    }
  }

  /** Called inside a transaction of the caller, the drain writes nothing, takes nothing and
      throws -- and it is the caller's transaction that its handler aborts. */
  lemma CallersTransactionIsAborted(c: Setup, w: World, blank: Bytes)
    requires w.tx.Open?
    ensures var r := Export(c, w, blank);
            && r.exn.Some? && r.lines == [] && r.w.queue == w.queue
            && (r.w.tx.Closed? || LeftOpen(r.w))
  {
    if Next(w).Success? {
      var p := TryBlock(c, Consume(w), -1, blank);
      assert p.exn == Some(TuxedoException(TPEPROTO));
      assert p.lines + [] == [];
    }
  }

  // ---- operator>> -------------------------------------------------------------------------

  lemma RollbackPhase(w: World, exn: Exn, applied: bool)
    requires PhaseOf(w.trace) in {Refused, InTransaction, Moved, Unsettled}
    ensures var l := Rollback(w, exn, applied);
            if exn.IsTuxedo() then
              && PhaseOf(l.w.trace) in {Idle, Over} && l.exn.Some? && l.exn.value.IsTuxedo()
              && (l.w.tx.Open? <==> LeftOpen(l.w))
            else l.w == w && l.exn == Some(exn)
  {
    AbortPhase(w);
  }

  lemma StorePhase(c: Setup, w: World, m: Bytes)
    requires PhaseOf(w.trace) == Idle
    ensures var l := StoreMessage(c, w, m);
            && (l.exn.None? ==> PhaseOf(l.w.trace) == Idle && l.w.tx.Closed? && !LeftOpen(l.w))
            && (l.exn.Some? && l.exn.value.IsTuxedo() ==>
                  PhaseOf(l.w.trace) in {Idle, Over} && (l.w.tx.Open? <==> LeftOpen(l.w)))
            && (l.exn.Some? && !l.exn.value.IsTuxedo() ==>
                  && !c.named && l.exn.value.AtmiException?
                  && PhaseOf(l.w.trace) == InTransaction && l.w.tx.Open? && !LeftOpen(l.w))
  {
    hide PhaseOf;
    hide Rollback;
    var (w1, e1) := Begin(w);
    PhaseSnoc(w.trace, Begun(e1.None?));
    if e1.Some? {
      RollbackPhase(w1, e1.value, false);
    } else {
      var (w2, r) := Enqueue(w1, c.named, m);
      if c.named {
        PhaseSnoc(w1.trace, Put(TpEnqueue(w1, m).1.Success?, true));
      }
      if r.Thrown? {
        RollbackPhase(w2, r.exn, false);
      } else {
        var (w3, e3) := Commit(w2);
        PhaseSnoc(w2.trace, Committed(e3.None?));
        if e3.Some? {
          RollbackPhase(w3, e3.value, |w3.queue| > |w.queue|);
        }
      }
    }
  }

  lemma {:induction false} LoadPhase(c: Setup, w: World, lines: seq<Bytes>)
    requires PhaseOf(w.trace) == Idle && w.tx.Closed? && !LeftOpen(w)
    ensures var l := Load(c, w, lines);
            && PhaseOf(l.w.trace) in {Idle, Over, InTransaction}
            && (l.exn.None? ==> PhaseOf(l.w.trace) == Idle && l.w.tx.Closed?)
            && (l.exn == Some(AtmiException) <==> PhaseOf(l.w.trace) == InTransaction)
            && (l.w.tx.Open? <==> l.exn == Some(AtmiException) || LeftOpen(l.w))
            && (l.exn == Some(AtmiException) ==> l.w.tx.Open? && !c.named)
    decreases |lines|
  {
    hide PhaseOf;
    hide StoreMessage;
    if lines != [] {
      var (w1, r, m) := TpImport(c.codec, w, lines[0]);
      if r.Success? {
        StorePhase(c, w1, m.value);
        var l := StoreMessage(c, w1, m.value);
        if l.exn.None? {
          LoadPhase(c, l.w, lines[1..]);
        }
      }
    }
  }

  /** The input on which the import leaves a transaction open: the queue space or the queue name
      is missing, there is a first line and it can be imported, no transaction is open, and the
      three calls before the enqueue -- tpalloc, tpimport and tpbegin -- succeed. */
  predicate LeaksTransaction(c: Setup, w: World, lines: seq<Bytes>) {
    && !c.named && w.tx.Closed?
    && lines != [] && c.codec.imp(lines[0]).Some?
    && forall i :: 0 <= i < |w.script| && i < 3 ==> w.script[i].Success?
  }

  lemma {:induction false} NamedLoad(c: Setup, w: World, lines: seq<Bytes>)
    requires c.named
    ensures Load(c, w, lines).exn != Some(AtmiException)
    decreases |lines|
  {
    if lines != [] && LoadLine(c, w, lines[0]).exn.None? {
      NamedLoad(c, LoadLine(c, w, lines[0]).w, lines[1..]);
    }
  }

  lemma NamelessLine(c: Setup, w: World, line: Bytes)
    requires !c.named
    ensures var l := LoadLine(c, w, line);
            && l.exn.Some? && l.count == 0 && l.w.queue == w.queue
            && (l.exn == Some(AtmiException) <==>
                  w.tx.Closed? && c.codec.imp(line).Some? && Next(w).Success? && Next(Consume(w)).Success?)
            && (l.exn == Some(AtmiException) ==> l.w.tx.Open?)
  {
  }

  /** The exception that the handlers of the import do not catch is thrown on that input and on
      no other; then nothing is stored or counted, and the transaction stays open. */
  lemma MissingNameLeavesTransactionOpen(c: Setup, w: World, lines: seq<Bytes>)
    ensures var l := Import(c, w, lines);
            && (l.exn == Some(AtmiException) <==> LeaksTransaction(c, w, lines))
            && (l.exn == Some(AtmiException) ==> l.w.tx.Open? && l.w.queue == w.queue && l.count == 0)
  {
    hide LoadLine;
    if Next(w).Success? {
      var w1 := Consume(w);
      if c.named {
        NamedLoad(c, w1, lines);
      } else if lines != [] {
        NamelessLine(c, w1, lines[0]);
        FirstThree(w);
      }
    }
  }

  lemma FirstThree(w: World)
    ensures (forall i :: 0 <= i < |w.script| && i < 3 ==> w.script[i].Success?)
            <==> Next(w).Success? && Next(Consume(w)).Success? && Next(Consume(Consume(w))).Success?
  {
    if |w.script| > 1 {
      assert Next(Consume(w)) == w.script[1];
    }
    if |w.script| > 2 {
      assert Next(Consume(Consume(w))) == w.script[2];
    }
  }

  /** The load keeps the same discipline. A transaction is open on exit if and only if the last
      abort failed and left it so, or the input is the one that leaks it. */
  lemma ImportIsBracketed(c: Setup, w: World, lines: seq<Bytes>)
    requires PhaseOf(w.trace) == Idle && w.tx.Closed? && !LeftOpen(w)
    ensures var l := Import(c, w, lines);
            && PhaseOf(l.w.trace) in {Idle, Over, InTransaction}
            && (l.exn.None? ==> PhaseOf(l.w.trace) == Idle && l.w.tx.Closed?)
            && (PhaseOf(l.w.trace) == InTransaction <==> LeaksTransaction(c, w, lines))
            && (l.w.tx.Open? <==> LeaksTransaction(c, w, lines) || LeftOpen(l.w))
  {
    hide Load;
    MissingNameLeavesTransactionOpen(c, w, lines);
    hide LeaksTransaction;
    if Next(w).Success? {
      LoadPhase(c, Consume(w), lines);
    }
  }

  /** Called inside a transaction of the caller, the import stores and counts nothing. It
      touches that transaction only when it comes to store a first line: then it throws, and its
      handler aborts the caller's transaction. */
  lemma ImportInCallersTransaction(c: Setup, w: World, lines: seq<Bytes>)
    requires w.tx.Open?
    ensures var l := Import(c, w, lines);
            var reached := Next(w).Success? && lines != [] && c.codec.imp(lines[0]).Some? && Next(Consume(w)).Success?;
            && l.w.queue == w.queue && l.count == 0
            && (reached ==> l.exn.Some? && l.exn.value.IsTuxedo() && (l.w.tx.Closed? || LeftOpen(l.w)))
            && (!reached ==> l.w.tx == w.tx)
            && (l.exn.None? <==> Next(w).Success? && lines == [])
  {
    hide LoadLine;
    if Next(w).Success? && lines != [] {
      LineInCallersTransaction(c, Consume(w), lines[0]);
    }
  }

  lemma LineInCallersTransaction(c: Setup, w: World, line: Bytes)
    requires w.tx.Open?
    ensures var l := LoadLine(c, w, line);
            && l.w.queue == w.queue && l.count == 0 && l.exn.Some?
            && (if c.codec.imp(line).Some? && Next(w).Success?
                then l.exn.value.IsTuxedo() && (l.w.tx.Closed? || LeftOpen(l.w)) else l.w.tx == w.tx)
  {
  }
}
