/** What the queue operations return and throw, and which exception comes out of a stream
    operator, read off the record of what the library answered. */
module Exceptions {
  import opened Atmi
  import opened TuxedoQueue
  import opened QueueSpec

  // ---- one call ---------------------------------------------------------------------------------

  /** The error codes with an exception class of their own. */
  const CLASSES := map[TPEBLOCK := BlockingException, TPGOTSIG := InterruptException,
                       TPESVCERR := ServiceException, TPETIME := TimeoutException]

  /** The exception that stands for a failed queue operation. */
  function ClassOf(r: Reply): Exn
    requires r.Failure?
  {
    if r.tperrno == TPEDIAGNOSTIC then
      if r.diagnostic == QMEABORTED then AbortedException else DiagnosticException(TPEDIAGNOSTIC, r.diagnostic)
    else if r.tperrno in CLASSES then CLASSES[r.tperrno]
    else TuxedoException(r.tperrno)
  }

  /** A failure after which a queue operation returns all the same: the service failed, or the
      diagnostic says "no message". */
  predicate Passes(r: Reply) {
    r.Failure? && (r.tperrno == TPESVCFAIL || (r.tperrno == TPEDIAGNOSTIC && r.diagnostic == QMENOMSG))
  }

  /** enqueue returns 0 if and only if the message was stored, behind all others; -1 for the two
      failures it lets pass; and throws the exception of any other, or that of a missing name,
      before it has called the library. Nothing is stored unless it returns 0. */
  lemma EnqueueReturns(w: World, named: bool, m: Bytes)
    ensures var (w', r) := Enqueue(w, named, m);
            var reply := Next(w);
            && (r == Ok(0) <==> View(w') == View(w) + [m])
            && (r == Ok(0) <==> named && reply.Success?)
            && (r != Ok(0) ==> w'.queue == w.queue && w'.tx == w.tx)
            && (r == Ok(-1) <==> named && Passes(reply))
            && (r.Ok? ==> r.value == 0 || r.value == -1)
            && (r.Thrown? <==> !named || (reply.Failure? && !Passes(reply)))
            && (r.Thrown? ==> r.exn == if named then ClassOf(reply) else AtmiException)
            && (!named ==> w' == w)
  {
    assert |View(w) + [m]| != |View(w)|;
  }

  /** dequeue returns 0 if and only if it has taken the first message; "no message" for an empty
      queue, or when the library says so; -1 for a service failure; and throws the exception of
      any other failure, or that of a missing name. Nothing is taken unless it returns 0. */
  lemma DequeueReturns(w: World, named: bool)
    ensures var (w', r, got) := Dequeue(w, named);
            var reply := Next(w);
            && (r == Ok(0) <==> got.Some?)
            && (r == Ok(0) <==> named && reply.Success? && View(w) != [])
            && (got.Some? ==> View(w) == [got.value] + View(w'))
            && (got.None? ==> w'.queue == w.queue && w'.tx == w.tx)
            && (r == Ok(QMENOMSG) <==> named && (if reply.Success? then View(w) == []
                                                 else Passes(reply) && reply.tperrno != TPESVCFAIL))
            && (r == Ok(-1) <==> named && reply.Failure? && reply.tperrno == TPESVCFAIL)
            && (r.Ok? ==> r.value == 0 || r.value == -1 || r.value == QMENOMSG)
            && (r.Thrown? <==> !named || (reply.Failure? && !Passes(reply)))
            && (r.Thrown? ==> r.exn == if named then ClassOf(reply) else AtmiException)
            && (!named ==> w' == w)
  {
  }

  // ---- the record -------------------------------------------------------------------------------

  /** What a failed call raises. */
  function RaisedBy(a: Answer): Exn
    requires a.reply.Failure?
  {
    if a.call.Dequeueing? || a.call.Enqueueing? then ClassOf(a.reply)
    else TuxedoException(a.reply.tperrno)
  }

  predicate Ends(answers: seq<Answer>, call: Call) {
    answers != [] && answers[|answers| - 1].call == call
  }

  predicate EndsWell(answers: seq<Answer>) {
    answers != [] && answers[|answers| - 1].reply.Success?
  }

  /** The exception that a record ends with: the one its last call raised; or, when that was an
      abort that succeeded, the one raised by the call before it. A record whose last call before
      any abort succeeded ends with the one exception that no call raises, that of a missing
      name. */
  function LastRaised(answers: seq<Answer>): Exn {
    if answers == [] then AtmiException
    else if answers[|answers| - 1].reply.Failure? then RaisedBy(answers[|answers| - 1])
    else if Ends(answers, Aborting) then LastFailure(answers[..|answers| - 1])
    else AtmiException
  }

  function LastFailure(answers: seq<Answer>): Exn {
    if answers == [] || EndsWell(answers) then AtmiException else RaisedBy(answers[|answers| - 1])
  }

  // ---- the export -------------------------------------------------------------------------------

  lemma SendRaises(c: Setup, w: World, m: Bytes)
    ensures var (w', e) := ExportMessage(c, w, m);
            e.Some? ==> w'.answers != [] && !EndsWell(w'.answers) && e.value == LastFailure(w'.answers)
  {
  }

  lemma CommitRaises(w: World)
    ensures var (w', e) := Commit(w);
            && Ends(w'.answers, Committing)
            && (EndsWell(w'.answers) <==> e.None?)
            && (e.Some? ==> e.value == LastFailure(w'.answers))
  {
  }

  lemma ShipRaises(c: Setup, w: World, m: Bytes, own: bool)
    ensures var p := Ship(c, w, m, own);
            && (p.exn.None? ==> Ends(p.w.answers, Committing) && EndsWell(p.w.answers))
            && (p.exn.Some? ==> p.w.answers != [] && !EndsWell(p.w.answers) && p.exn.value == LastFailure(p.w.answers))
  {
    SendRaises(c, w, m);
    var w1 := ExportMessage(c, w, m).0;
    CommitRaises(w1.(trace := w1.trace + [Wrote]));
    hide ExportMessage;
    hide Commit;
    hide LastFailure;
  }

  lemma PassRaises(c: Setup, w: World, rc: int, message: Bytes)
    ensures var p := TryBlock(c, w, rc, message);
            && (p.exn.None? ==> Ends(p.w.answers, Committing) && EndsWell(p.w.answers))
            && (p.exn.Some? ==> p.w.answers != [] && p.exn.value == LastFailure(p.w.answers))
            && (p.exn.Some? && EndsWell(p.w.answers) ==> !c.named && Ends(p.w.answers, Beginning))
  {
    hide Ship;
    var (w1, e1) := Begin(w);
    if e1.None? {
      var (w2, r, got) := Dequeue(w1, c.named);
      DequeueReturns(w1, c.named);
      if r.Ok? {
        ShipRaises(c, w2, if got.Some? then got.value else message, got.Some?);
        CommitRaises(w2);
      }
    }
  }

  lemma AbortRaises(w: World)
    ensures var (w', e) := Abort(w);
            && Ends(w'.answers, Aborting) && w'.answers[..|w'.answers| - 1] == w.answers
            && (EndsWell(w'.answers) <==> e.None?)
            && (e.Some? ==> e.value == LastFailure(w'.answers))
  {
  }

  /** What gets past the outermost handler: the exception it caught, or that of its abort. */
  lemma LeaveRaises(w: World, exn: Exn, inflight: bool)
    requires w.answers != [] && exn == LastFailure(w.answers)
    ensures var r := Leave(w, exn, inflight);
            r.exn == Some(LastRaised(r.w.answers)) && Ends(r.w.answers, Aborting)
            && r.w.answers[..|r.w.answers| - 1] == w.answers
  {
  }

  /** The last call but one, the one before the abort. */
  function BeforeAbort(answers: seq<Answer>): seq<Answer> {
    if answers == [] then [] else answers[..|answers| - 1]
  }

  lemma {:induction false} DrainRaises(c: Setup, w: World, rc: int, message: Bytes)
    requires rc != QMENOMSG || (Ends(w.answers, Committing) && EndsWell(w.answers))
    ensures var r := Drain(c, w, rc, message);
            && (r.exn.None? ==> Ends(r.w.answers, Committing) && EndsWell(r.w.answers))
            && (r.exn.Some? ==> Ends(r.w.answers, Aborting) && r.exn.value == LastRaised(r.w.answers))
            && (r.exn.Some? && EndsWell(BeforeAbort(r.w.answers)) ==>
                  !c.named && Ends(BeforeAbort(r.w.answers), Beginning))
    decreases |w.script|, |w.queue|, if rc == QMENOMSG then 0 else 1
  {
    hide TryBlock;
    hide Abort;
    hide Leave;
    hide LastFailure;
    hide LastRaised;
    if rc != QMENOMSG {
      var p := TryBlock(c, w, rc, message);
      PassProgress(c, w, rc, message);
      PassRaises(c, w, rc, message);
      AbortRaises(p.w);
      AbortProgress(p.w);
      var (w', e) := Abort(p.w);
      if p.exn.None? {
        DrainRaises(c, p.w, p.rc, p.message);
      } else if p.exn.value.TimeoutException? {
        if e.None? {
          TimeoutKeepsRc(c, w, rc, message);
          DrainRaises(c, w', p.rc, p.message);
        } else {
          LeaveRaises(w', e.value, false);
        }
      } else {
        LeaveRaises(p.w, p.exn.value, p.inflight);
      }
    }
  }

  /** For every script: an export that throws has ended with an abort. It throws what that abort
      raised, if it failed, and otherwise what the call before it raised -- its own error code,
      and for a dequeue the class of that code. No call raised it if and only if the names are
      missing and the call before the abort was a begin that succeeded: then it is the
      atmi_exception. One that returns has ended with a commit. */
  lemma ExportThrows(c: Setup, w: World, blank: Bytes)
    ensures var r := Export(c, w, blank);
            && (r.exn.None? <==> Ends(r.w.answers, Committing))
            && (r.exn.None? ==> EndsWell(r.w.answers))
            && (r.exn.Some? ==> Ends(r.w.answers, Aborting) && r.exn.value == LastRaised(r.w.answers))
            && (r.exn.Some? && EndsWell(BeforeAbort(r.w.answers)) ==>
                  !c.named && Ends(BeforeAbort(r.w.answers), Beginning))
  {
    hide Drain;
    if Next(w).Success? {
      DrainRaises(c, Consume(w), -1, blank);
    } else {
      LeaveRaises(Consume(w), TuxedoException(Next(w).tperrno), false);
    }
  }

  // ---- the import -------------------------------------------------------------------------------

  /** The calls whose failure is rethrown as it is; after any other comes an abort. */
  predicate Unhandled(call: Call) {
    call.Allocating? || call.Importing?
  }

  /** How the record of an import ends that threw `exn`, or none. */
  predicate Leaves(c: Setup, answers: seq<Answer>, exn: Option<Exn>) {
    answers != [] &&
    var last := answers[|answers| - 1];
    if exn.None? then last.reply.Success? && (last.call.Allocating? || last.call.Committing?)
    else
      && exn.value == LastRaised(answers)
      && (if last.call.Aborting? then !EndsWell(BeforeAbort(answers)) && BeforeAbort(answers) != []
          else if last.reply.Failure? then Unhandled(last.call)
          else !c.named && last.call.Beginning?)
  }

  lemma StoreRaises(c: Setup, w: World, m: Bytes)
    ensures var l := StoreMessage(c, w, m);
            Leaves(c, l.w.answers, l.exn)
  {
    var (w1, e1) := Begin(w);
    if e1.Some? {
      RollbackRaises(c, w1, e1.value, false);
    } else {
      var (w2, r) := Enqueue(w1, c.named, m);
      EnqueueReturns(w1, c.named, m);
      var (w3, e3) := Commit(w2);
      CommitRaises(w2);
      hide Commit;
      if r.Thrown? {
        if c.named {
          RollbackRaises(c, w2, r.exn, false);
        }
      } else if e3.Some? {
        RollbackRaises(c, w3, e3.value, |w3.queue| > |w.queue|);
      }
    }
  }

  lemma RollbackRaises(c: Setup, w: World, exn: Exn, applied: bool)
    requires w.answers != [] && !EndsWell(w.answers) && exn == LastFailure(w.answers) && exn.IsTuxedo()
    ensures var l := Rollback(w, exn, applied);
            Leaves(c, l.w.answers, l.exn)
  {
  }

  lemma {:induction false} LoadRaises(c: Setup, w: World, lines: seq<Bytes>)
    requires Leaves(c, w.answers, None)
    ensures var l := Load(c, w, lines);
            Leaves(c, l.w.answers, l.exn)
    decreases |lines|
  {
    hide StoreMessage;
    if lines != [] {
      var (w1, r, m) := TpImport(c.codec, w, lines[0]);
      if r.Success? {
        StoreRaises(c, w1, m.value);
        hide Leaves;
        var l := StoreMessage(c, w1, m.value);
        if l.exn.None? {
          LoadRaises(c, l.w, lines[1..]);
        }
      }
    }
  }

  /** For every script: an import that throws ends with an abort after a failed begin, enqueue or
      commit, and throws what that abort raised, if it failed, and otherwise what the call before
      it raised; or it ends with a tpalloc or tpimport that failed, and throws what that raised; or
      the names are missing, it ends with the begin and throws the atmi_exception. One that
      returns has ended with a commit, or with the tpalloc if there were no lines. */
  lemma ImportThrows(c: Setup, w: World, lines: seq<Bytes>)
    ensures var l := Import(c, w, lines);
            Leaves(c, l.w.answers, l.exn)
  {
    hide Load;
    if Next(w).Success? {
      LoadRaises(c, Consume(w), lines);
    }
  }
}
