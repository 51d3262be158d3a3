/** How a drain runs: how many passes it makes, when it has seen the whole queue, what a
    timeout changes, and when it succeeds outright. */
module ExportRuns {
  import opened Atmi
  import opened TuxedoQueue
  import opened QueueSpec
  import opened ExportTheorems
  import opened Subsequences

  // ---- termination ------------------------------------------------------------------------

  /** The transactions begun or refused in a trace: one for each pass of the drain loop. */
  function Passes(t: seq<Event>): nat {
    if t == [] then 0 else Passes(t[..|t| - 1]) + if t[|t| - 1].Begun? then 1 else 0
  }

  lemma PassesSnoc(t: seq<Event>, e: Event)
    ensures Passes(t + [e]) == Passes(t) + if e.Begun? then 1 else 0
  {
    assert (t + [e])[..|t|] == t;
  }

  /** The only two errors after which a drain that has taken no message goes on. */
  predicate Retryable(r: Reply) {
    r.Failure? && (r.tperrno == TPETIME || r.tperrno == TPESVCFAIL)
  }

  function Retries(s: seq<Reply>): nat {
    if s == [] then 0 else (if Retryable(s[0]) then 1 else 0) + Retries(Rest(s))
  }

  lemma PassCost(c: Setup, w: World, rc: int, message: Bytes)
    requires rc != QMENOMSG
    ensures var p := TryBlock(c, w, rc, message);
            && Passes(p.w.trace) == Passes(w.trace) + 1
            && |p.w.queue| <= |w.queue|
            && (p.exn.None? && p.rc != QMENOMSG ==>
                  |p.w.queue| + Retries(p.w.script) < |w.queue| + Retries(w.script))
            && (p.exn == Some(TimeoutException) ==> Retries(p.w.script) < Retries(w.script))
  {
    hide Finish;
    hide Passes;
    hide Retries;
    RestRetries(w.script);
    RestRetries(Rest(w.script));
    var (w1, e1) := Begin(w);
    PassesSnoc(w.trace, Begun(e1.None?));
    if e1.None? && c.named {
      var (w2, r, got) := Dequeue(w1, c.named);
      PassesSnoc(w1.trace, Took(got.Some?, true));
      if r.Ok? {
        FinishCost(c, w2, r.value, if got.Some? then got.value else message, got.Some?);
      }
    }
  }

  lemma FinishCost(c: Setup, w: World, rc: int, m: Bytes, own: bool)
    requires w.tx.Open?
    ensures var p := Finish(c, w, rc, m, own);
            && Passes(p.w.trace) == Passes(w.trace)
            && Retries(p.w.script) <= Retries(w.script)
            && (p.w.queue == w.queue || p.w.queue == w.tx.view)
            && (p.exn.None? ==> p.w.queue == w.tx.view)
            && (p.exn.None? && p.rc == QMENOMSG ==> rc == QMENOMSG)
            && (p.exn.None? && rc == QMENOMSG ==> p.rc == QMENOMSG)
            && p.exn != Some(TimeoutException)
  {
    hide Passes;
    hide Retries;
    hide Ship;
    if rc != QMENOMSG && |m| > 0 {
      ShipCost(c, w, m, own);
      ShipEffect(c, w, m, own);
      ShipScript(c, w, m, own);
    } else {
      RestRetries(w.script);
      PassesSnoc(w.trace, Committed(TpCommit(w).1.Success?));
    }
  }

  lemma RestRetries(s: seq<Reply>)
    ensures Retries(s) == Retries(Rest(s)) + if s != [] && Retryable(s[0]) then 1 else 0
  {
  }

  lemma ShipRetries(c: Setup, w: World, m: Bytes, own: bool)
    ensures Retries(Ship(c, w, m, own).w.script) <= Retries(w.script)
  {
    RestRetries(w.script);
    RestRetries(Rest(w.script));
    RestRetries(Rest(Rest(w.script)));
    hide Retries;
  }

  lemma ShipCost(c: Setup, w: World, m: Bytes, own: bool)
    requires w.tx.Open?
    ensures var p := Ship(c, w, m, own);
            && Passes(p.w.trace) == Passes(w.trace)
            && Retries(p.w.script) <= Retries(w.script)
  {
    ShipEffect(c, w, m, own);
    ShipRetries(c, w, m, own);
    hide Ship;
    hide Retries;
    var p := Ship(c, w, m, own);
    if p.lines != [] {
      PassesSnoc(w.trace, Wrote);
      PassesSnoc(w.trace + [Wrote], Committed(p.exn.None?));
      assert w.trace + [Wrote] + [Committed(p.exn.None?)] == p.w.trace;
    }
  }

  lemma AbortCost(w: World)
    ensures Passes(Abort(w).0.trace) == Passes(w.trace)
    ensures Retries(Abort(w).0.script) <= Retries(w.script)
  {
    PassesSnoc(w.trace, TpAbort(w).0.trace[|w.trace|]);
  }

  lemma {:induction false} DrainPasses(c: Setup, w: World, rc: int, message: Bytes)
    ensures var r := Drain(c, w, rc, message);
            Passes(r.w.trace) <= Passes(w.trace) + |w.queue| + Retries(w.script) + if rc == QMENOMSG then 0 else 1
    decreases |w.script|, |w.queue|, if rc == QMENOMSG then 0 else 1
  {
    hide TryBlock;
    hide Passes;
    hide Retries;
    hide Abort;
    if rc != QMENOMSG {
      var p := TryBlock(c, w, rc, message);
      PassProgress(c, w, rc, message);
      PassCost(c, w, rc, message);
      AbortCost(p.w);
      AbortProgress(p.w);
      var (w', e) := Abort(p.w);
      if p.exn.None? {
        DrainPasses(c, p.w, p.rc, p.message);
      } else if p.exn.value.TimeoutException? {
        if e.None? {
          assert p.rc != QMENOMSG by { TimeoutKeepsRc(c, w, rc, message); }
          DrainPasses(c, w', p.rc, p.message);
        } else {
          AbortCost(w');
        }
      }
    }
  }

  /** The drain ends: it makes at most one pass for each message, one for each timeout or
      service failure in the script, and one more. */
  lemma ExportTerminates(c: Setup, w: World, blank: Bytes)
    ensures Passes(Export(c, w, blank).w.trace) <= Passes(w.trace) + |w.queue| + Retries(w.script) + 1
  {
    if Next(w).Success? {
      DrainPasses(c, Consume(w), -1, blank);
    } else {
      AbortCost(Consume(w));
    }
  }

  // ---- a normal exit has seen the queue empty ---------------------------------------------

  predicate NotNoMessage(r: Reply) {
    r.Failure? && r.tperrno == TPEDIAGNOSTIC ==> r.diagnostic != QMENOMSG
  }

  /** The input on which a pass ends the drain although messages are left: the names are set, no
      transaction is open, begin and commit succeed, and the dequeue between them is answered
      with QMENOMSG for a queue that is not empty. */
  predicate EndsInVain(c: Setup, w: World) {
    && c.named && w.tx.Closed? && w.queue != []
    && Next(w).Success?
    && !NotNoMessage(Next(Consume(w)))
    && Next(Consume(Consume(w))).Success?
  }

  lemma PassSeesEmpty(c: Setup, w: World, rc: int, message: Bytes)
    requires rc != QMENOMSG
    ensures var p := TryBlock(c, w, rc, message);
            && (p.exn.None? && p.rc == QMENOMSG ==> p.w.queue == w.queue && (w.queue != [] <==> EndsInVain(c, w)))
            && (EndsInVain(c, w) ==> p.exn.None? && p.rc == QMENOMSG)
  {
    hide Ship;
    var (w1, e1) := Begin(w);
    if e1.None? && c.named {
      var (w2, r, got) := Dequeue(w1, c.named);
      if r.Ok? && r.value != QMENOMSG {
        ShipScript(c, w2, if got.Some? then got.value else message, got.Some?);
      }
    }
  }

  /** Does a drain come to a loop head with that input? */
  predicate ComesToVainEnd(c: Setup, h: Head)
    decreases |h.w.script|, |h.w.queue|, if h.rc == QMENOMSG then 0 else 1
  {
    FollowProgress(c, h);
    var n := Follow(c, h);
    || (h.rc != QMENOMSG && EndsInVain(c, h.w))
    || (n.Some? && ComesToVainEnd(c, n.value))
  }

  lemma {:induction false} DrainSeesEmpty(c: Setup, h: Head)
    requires h.rc != QMENOMSG
    ensures var r := DrainFrom(c, h);
            r.exn.None? ==> (r.w.queue == [] <==> !ComesToVainEnd(c, h))
    decreases |h.w.script|, |h.w.queue|, if h.rc == QMENOMSG then 0 else 1
  {
    hide TryBlock;
    hide Abort;
    hide Leave;
    hide EndsInVain;
    var p, n := TryBlock(c, h.w, h.rc, h.message), Follow(c, h);
    FollowProgress(c, h);
    DrainFollows(c, h);
    PassSeesEmpty(c, h.w, h.rc, h.message);
    TimeoutKeepsRc(c, h.w, h.rc, h.message);
    LeaveEffect(p.w, p.exn.GetOr(BadArrayLength), p.inflight);
    LeaveEffect(Abort(p.w).0, Abort(p.w).1.GetOr(BadArrayLength), false);
    if n.Some? && n.value.rc != QMENOMSG {
      DrainSeesEmpty(c, n.value);
    }
  }

  lemma {:induction false} TruthfulDrain(c: Setup, h: Head)
    requires Every(h.w.script, NotNoMessage)
    ensures !ComesToVainEnd(c, h)
    decreases |h.w.script|, |h.w.queue|, if h.rc == QMENOMSG then 0 else 1
  {
    var n := Follow(c, h);
    FollowProgress(c, h);
    RestEvery(h.w.script, NotNoMessage);
    RestEvery(Rest(h.w.script), NotNoMessage);
    PassEvery(c, h.w, h.rc, h.message, NotNoMessage);
    AbortEvery(TryBlock(c, h.w, h.rc, h.message).w, NotNoMessage);
    hide TryBlock;
    hide Abort;
    hide Every;
    if n.Some? {
      TruthfulDrain(c, n.value);
    }
  }

  /** Does an export end although messages are left, because QMENOMSG was answered for a queue
      that was not empty? */
  predicate EndsEarly(c: Setup, w: World, blank: Bytes) {
    Next(w).Success? && ComesToVainEnd(c, Head(Consume(w), -1, blank))
  }

  /** An export that returns normally has emptied the queue if and only if it did not end early;
      and then it has written the whole queue, in order, with nothing else among it but stale
      lines -- so exactly the queue if and only if there are none of those. It never ends early
      if QMENOMSG is only answered for an empty queue. */
  lemma NormalExportDrains(c: Setup, w: World, blank: Bytes)
    requires Export(c, w, blank).exn.None?
    ensures var r := Export(c, w, blank);
            var all := Exports(c.codec, w.queue);
            && (r.w.queue == [] <==> !EndsEarly(c, w, blank))
            && (!EndsEarly(c, w, blank) ==>
                  && Subsequence(all, r.lines)
                  && |r.lines| == |all| + StaleLines(c, w, blank)
                  && (r.lines == all <==> StaleLines(c, w, blank) == 0))
            && (Every(w.script, NotNoMessage) ==> !EndsEarly(c, w, blank))
  {
    var h := Head(Consume(w), -1, blank);
    DrainSeesEmpty(c, h);
    if Every(w.script, NotNoMessage) {
      RestEvery(w.script, NotNoMessage);
      TruthfulDrain(c, h);
    }
    assert Export(c, w, blank) == DrainFrom(c, h);
    ExportLosesNothing(c, w, blank);
    StaleLinesAreServiceFailures(c, w, blank);
    ExportIsFaithful(c, w, blank);
    hide Export;
    hide StaleLines;
    hide StaleWrites;
    hide Stutters;
    hide Subsequence;
    hide Every;
    assert w.queue[..|w.queue|] == w.queue;
  }

  // ---- timeouts ---------------------------------------------------------------------------

  /** The replies to a pass that is rolled back after its dequeue timed out. */
  function TimedOut(diagnostic: int, urcode: int): seq<Reply> {
    [Success, Failure(TPETIME, diagnostic, urcode, false, false, false), Success]
  }

  function TimeoutTrace(): seq<Event> {
    [Begun(true), Took(false, true), Aborted(true, false)]
  }

  /** The world after such a pass: the three calls are recorded, and nothing else has changed. */
  function AfterTimeout(w: World, d: int, u: int, s: seq<Reply>): World {
    var replies := TimedOut(d, u);
    w.(script := s, trace := w.trace + TimeoutTrace(),
       answers := w.answers + [Answer(Beginning, replies[0]), Answer(Dequeueing, replies[1]),
                               Answer(Aborting, replies[2])])
  }

  /** A timed-out pass is invisible: the rest of the drain is what it would have been without
      it, except for the record of three calls. */
  lemma TimeoutIsInvisible(c: Setup, w: World, rc: int, message: Bytes, d: int, u: int, s: seq<Reply>)
    requires c.named && w.tx.Closed? && rc != QMENOMSG && w.script == TimedOut(d, u) + s
    ensures Drain(c, w, rc, message) == Drain(c, AfterTimeout(w, d, u, s), rc, message)
  {
    var p := TryBlock(c, w, rc, message);
    assert w.script[1..][1..] == [Success] + s;
    assert p.exn == Some(TimeoutException) && p.w.script == [Success] + s;
    var (w', e) := Abort(p.w);
    assert w'.script == s;
    assert w'.trace == w.trace + TimeoutTrace();
    assert w'.answers == AfterTimeout(w, d, u, s).answers;
    assert w' == AfterTimeout(w, d, u, s);
  }

  // ---- buffer regrowth ------------------------------------------------------------------------

  /** A message is exported if and only if it fits the stream buffer and the first call
      succeeds; or the first call reports TPELIMIT -- because the message does not fit, or
      because the library says so -- and the second succeeds with room enough, which it has
      when twice the size does, or when the library said how much it needs. */
  lemma RegrowthSuffices(c: Setup, w: World, m: Bytes)
    ensures var need := |c.codec.exp(m)|;
            var first, second := Next(w), Next(Consume(w));
            var tooSmall := if first.Success? then need > c.size else first.tperrno == TPELIMIT;
            ExportMessage(c, w, m).1.None?
            <==> if tooSmall then second.Success? && (need <= c.size + c.size || (first.Failure? && first.tells))
                 else first.Success?
  {
  }

  // ---- no failures at all -----------------------------------------------------------------

  /** A message whose export string fits once the stream buffer has been doubled. */
  predicate Fits(c: Setup, m: Bytes) {
    m == [] || |c.codec.exp(m)| <= c.size + c.size
  }

  lemma QuietPass(c: Setup, w: World, rc: int, message: Bytes)
    requires c.named && w.tx.Closed? && w.script == [] && rc != QMENOMSG
    ensures var p := TryBlock(c, w, rc, message);
            && (w.queue == [] ==> p.exn.None? && p.rc == QMENOMSG)
            && (w.queue != [] && Fits(c, w.queue[0]) ==>
                  p.exn.None? && p.rc != QMENOMSG && p.w.queue == w.queue[1..] && p.w.tx.Closed? && p.w.script == [])
            && (w.queue != [] && !Fits(c, w.queue[0]) ==>
                  p.exn == Some(TuxedoException(TPELIMIT)) && p.w.tx.Open? && p.w.script == [])
  {
    var (w1, e1) := Begin(w);
    var (w2, r, got) := Dequeue(w1, c.named);
    assert w2.script == [];
    if w.queue != [] && w.queue[0] != [] {
      QuietShip(c, w2, w.queue[0]);
    }
  }

  lemma QuietShip(c: Setup, w: World, m: Bytes)
    requires w.tx.Open? && w.script == [] && m != []
    ensures var p := Ship(c, w, m, true);
            && p.w.script == []
            && (Fits(c, m) ==> p.exn.None? && p.rc != QMENOMSG && p.w.queue == w.tx.view && p.w.tx.Closed?)
            && (!Fits(c, m) ==> p.exn == Some(TuxedoException(TPELIMIT)) && p.w.tx.Open?)
  {
  }

  lemma {:induction false} QuietDrain(c: Setup, w: World, rc: int, message: Bytes)
    requires c.named && w.tx.Closed? && w.script == [] && rc != QMENOMSG
    ensures var r := Drain(c, w, rc, message);
            && (r.exn.None? <==> forall i :: 0 <= i < |w.queue| ==> Fits(c, w.queue[i]))
            && (r.exn.Some? ==> r.exn.value == TuxedoException(TPELIMIT))
    decreases |w.queue|
  {
    hide TryBlock;
    hide Fits;
    var p := TryBlock(c, w, rc, message);
    QuietPass(c, w, rc, message);
    if w.queue != [] {
      if Fits(c, w.queue[0]) {
        QuietDrain(c, p.w, p.rc, p.message);
        assert forall i :: 0 < i < |w.queue| ==> w.queue[i] == p.w.queue[i - 1];
        assert forall i :: 0 <= i < |p.w.queue| ==> p.w.queue[i] == w.queue[i + 1];
      }
    }
  }

  /** When no call fails, the drain succeeds exactly when every message fits: the buffer is
      doubled once, for one message at a time, and never again. */
  lemma QuietExport(c: Setup, w: World, blank: Bytes)
    requires c.named && w.tx.Closed? && w.script == []
    ensures var r := Export(c, w, blank);
            && (r.exn.None? <==> forall i :: 0 <= i < |w.queue| ==> Fits(c, w.queue[i]))
            && (r.exn.Some? ==> r.exn.value == TuxedoException(TPELIMIT))
            && (r.exn.None? ==> r.w.queue == [] && r.lines == Exports(c.codec, w.queue))
  {
    QuietDrain(c, Consume(w), -1, blank);
    if Export(c, w, blank).exn.None? {
      NormalExportDrains(c, w, blank);
      StaleLinesAreServiceFailures(c, w, blank);
    }
  }
}
