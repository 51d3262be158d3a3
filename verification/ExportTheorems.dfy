/** What operator<< guarantees, for every queue and every script of failures. */
module ExportTheorems {
  import opened Atmi
  import opened TuxedoQueue
  import opened QueueSpec
  import opened Subsequences

  /** The strings that exporting the messages of `q` writes: empty messages write nothing. */
  function Exports(c: Codec, q: seq<Bytes>): seq<Bytes> {
    if q == [] then []
    else (if q[0] == [] then [] else [c.exp(q[0])]) + Exports(c, q[1..])
  }

  lemma {:induction false} ExportsConcat(c: Codec, a: seq<Bytes>, b: seq<Bytes>)
    ensures Exports(c, a + b) == Exports(c, a) + Exports(c, b)
  {
    if a == [] {
      assert a + b == b;
    } else {
      assert (a + b)[1..] == a[1..] + b;
      ExportsConcat(c, a[1..], b);
    }
  }

  /** Lines written although the dequeue before them took no message. */
  function StaleWrites(t: seq<Event>): nat {
    var n := |t| - 1;
    if n < 0 then 0
    else StaleWrites(t[..n]) + if t[n].Wrote? && n > 0 && t[n - 1].Took? && !t[n - 1].ok then 1 else 0
  }

  lemma StaleSnoc(t: seq<Event>, e: Event)
    ensures StaleWrites(t + [e]) == StaleWrites(t)
              + if e.Wrote? && t != [] && t[|t| - 1].Took? && !t[|t| - 1].ok then 1 else 0
  {
    assert (t + [e])[..|t|] == t;
  }

  lemma StaleShip(t: seq<Event>, ok: bool)
    requires t != [] && t[|t| - 1].Took?
    ensures StaleWrites(t + [Wrote, Committed(ok)]) == StaleWrites(t) + if t[|t| - 1].ok then 0 else 1
  {
    StaleSnoc(t, Wrote);
    StaleSnoc(t + [Wrote], Committed(ok));
    assert t + [Wrote] + [Committed(ok)] == t + [Wrote, Committed(ok)];
  }

  // ---- conservation -----------------------------------------------------------------------

  /** From `q`, a run removed the first messages and wrote the exports of all of those (and of
      one more when it is in flight), in order, with `stale` other lines among them. */
  ghost predicate Accounts(c: Codec, q: seq<Bytes>, q': seq<Bytes>, lines: seq<Bytes>, inflight: bool, stale: int) {
    var d := |q| - |q'|;
    var k := d + if inflight then 1 else 0;
    && 0 <= d && k <= |q| && q' == q[d..]
    && Subsequence(Exports(c, q[..k]), lines)
    && |lines| == |Exports(c, q[..k])| + stale
  }

  /** The run came to a commit that failed right after a line was written. */
  predicate CommitFailed(t: seq<Event>) {
    |t| >= 2 && t[|t| - 2] == Wrote && t[|t| - 1] == Committed(false)
  }

  lemma ShipAccounts(c: Setup, w: World, m: Bytes, own: bool)
    requires m != [] && w.tx.Open?
    requires w.trace != [] && w.trace[|w.trace| - 1] == Took(own, true)
    requires if own then w.queue != [] && m == w.queue[0] && w.tx.view == w.queue[1..] else w.tx.view == w.queue
    ensures var p := Ship(c, w, m, own);
            && Accounts(c.codec, w.queue, p.w.queue, p.lines, p.inflight,
                        StaleWrites(p.w.trace) - StaleWrites(w.trace))
            && (p.inflight ==> p.exn.Some? && w.queue != [] && p.w.queue == w.queue
                               && p.lines == [c.codec.exp(w.queue[0])] && CommitFailed(p.w.trace))
  {
    ShipEffect(c, w, m, own);
    hide Ship;
    var p := Ship(c, w, m, own);
    StaleShip(w.trace, p.exn.None?);
    hide StaleWrites;
    if own {
      assert w.queue[..1] == [m];
      assert Exports(c.codec, [m]) == [c.codec.exp(m)];
    }
    NothingDone(c.codec, w.queue);
  }

  lemma PassAccounts(c: Setup, w: World, rc: int, message: Bytes)
    requires rc != QMENOMSG
    ensures var p := TryBlock(c, w, rc, message);
            && Accounts(c.codec, w.queue, p.w.queue, p.lines, p.inflight,
                        StaleWrites(p.w.trace) - StaleWrites(w.trace))
            && (p.inflight ==> p.exn.Some? && w.queue != [] && p.w.queue == w.queue
                               && p.lines == [c.codec.exp(w.queue[0])] && CommitFailed(p.w.trace))
            && (p.exn == Some(TimeoutException) ==> p.lines == [] && p.w.queue == w.queue)
  {
    hide Finish;
    hide Accounts;
    hide StaleWrites;
    NothingDone(c.codec, w.queue);
    var (w1, e1) := Begin(w);
    StaleSnoc(w.trace, Begun(e1.None?));
    if e1.None? && c.named {
      var (w2, r, got) := Dequeue(w1, c.named);
      StaleSnoc(w1.trace, Took(got.Some?, true));
      if r.Ok? {
        FinishScript(c, w2, r.value, if got.Some? then got.value else message, got.Some?);
        FinishAccounts(c, w2, r.value, if got.Some? then got.value else message, got.Some?);
      }
    }
  }

  lemma FinishAccounts(c: Setup, w: World, rc: int, m: Bytes, own: bool)
    requires w.tx.Open? && (own ==> rc != QMENOMSG)
    requires w.trace != [] && w.trace[|w.trace| - 1] == Took(own, true)
    requires if own then w.queue != [] && m == w.queue[0] && w.tx.view == w.queue[1..] else w.tx.view == w.queue
    ensures var p := Finish(c, w, rc, m, own);
            && Accounts(c.codec, w.queue, p.w.queue, p.lines, p.inflight,
                        StaleWrites(p.w.trace) - StaleWrites(w.trace))
            && (p.inflight ==> p.exn.Some? && w.queue != [] && p.w.queue == w.queue
                               && p.lines == [c.codec.exp(w.queue[0])] && CommitFailed(p.w.trace))
  {
    hide Ship;
    hide StaleWrites;
    NothingDone(c.codec, w.queue);
    if rc != QMENOMSG && |m| > 0 {
      ShipAccounts(c, w, m, own);
    } else {
      StaleSnoc(w.trace, Committed(TpCommit(w).1.Success?));
      if own {
        assert w.queue[..1] == [m];
        assert Exports(c.codec, [m]) == [];
      }
    }
  }

  lemma NothingDone(c: Codec, q: seq<Bytes>)
    ensures Accounts(c, q, q, [], false, 0)
  {
    assert q[..0] == [];
  }

  /** Two stretches of a run account for the whole. */
  lemma Compose(c: Codec, q: seq<Bytes>, q1: seq<Bytes>, l1: seq<Bytes>, s1: int,
                q2: seq<Bytes>, l2: seq<Bytes>, inflight: bool, s2: int)
    requires Accounts(c, q, q1, l1, false, s1) && Accounts(c, q1, q2, l2, inflight, s2)
    ensures Accounts(c, q, q2, l1 + l2, inflight, s1 + s2)
  {
    var d1, d2 := |q| - |q1|, |q1| - |q2|;
    var k2 := d2 + if inflight then 1 else 0;
    assert q[..d1 + k2] == q[..d1] + q1[..k2];
    ExportsConcat(c, q[..d1], q1[..k2]);
    Concatenates(Exports(c, q[..d1]), l1, Exports(c, q1[..k2]), l2);
    assert q2 == q[d1 + d2..];
  }

  lemma AbortEffect(w: World)
    ensures Abort(w).0.queue == w.queue && StaleWrites(Abort(w).0.trace) == StaleWrites(w.trace)
  {
    StaleSnoc(w.trace, TpAbort(w).0.trace[|w.trace|]);
  }

  lemma LeaveEffect(w: World, exn: Exn, inflight: bool)
    ensures var r := Leave(w, exn, inflight);
            && r.w.queue == w.queue && StaleWrites(r.w.trace) == StaleWrites(w.trace)
            && r.lines == [] && r.exn.Some? && r.inflight == inflight
            && r.w.trace != [] && r.w.trace[..|r.w.trace| - 1] == w.trace
  {
    AbortEffect(w);
  }

  lemma {:induction false} DrainAccounts(c: Setup, w: World, rc: int, message: Bytes)
    ensures var r := Drain(c, w, rc, message);
            && Accounts(c.codec, w.queue, r.w.queue, r.lines, r.inflight,
                        StaleWrites(r.w.trace) - StaleWrites(w.trace))
            && (r.inflight ==>
                  && r.exn.Some? && r.w.queue != [] && r.lines != []
                  && r.lines[|r.lines| - 1] == c.codec.exp(r.w.queue[0])
                  && r.w.trace != [] && CommitFailed(r.w.trace[..|r.w.trace| - 1]))
    decreases |w.script|, |w.queue|, if rc == QMENOMSG then 0 else 1
  {
    hide TryBlock;
    hide StaleWrites;
    hide Accounts;
    hide Abort;
    hide Leave;
    NothingDone(c.codec, w.queue);
    if rc != QMENOMSG {
      var p := TryBlock(c, w, rc, message);
      PassProgress(c, w, rc, message);
      PassAccounts(c, w, rc, message);
      AbortEffect(p.w);
      var (w', e) := Abort(p.w);
      if p.exn.None? {
        DrainAccounts(c, p.w, p.rc, p.message);
        var r := Drain(c, p.w, p.rc, p.message);
        Compose(c.codec, w.queue, p.w.queue, p.lines, StaleWrites(p.w.trace) - StaleWrites(w.trace),
                r.w.queue, r.lines, r.inflight, StaleWrites(r.w.trace) - StaleWrites(p.w.trace));
      } else if p.exn.value.TimeoutException? {
        if e.None? {
          AbortProgress(p.w);
          DrainAccounts(c, w', p.rc, p.message);
          var r := Drain(c, w', p.rc, p.message);
          Compose(c.codec, w.queue, p.w.queue, p.lines, StaleWrites(p.w.trace) - StaleWrites(w.trace),
                  r.w.queue, r.lines, r.inflight, StaleWrites(r.w.trace) - StaleWrites(p.w.trace));
          assert p.lines + r.lines == r.lines;
        } else {
          LeaveEffect(w', e.value, false);
        }
      } else {
        LeaveEffect(p.w, p.exn.value, p.inflight);
        assert p.lines + [] == p.lines;
      }
    }
  }

  /** Export loses nothing. On every exit, normal or throwing, and whatever failed, what is left
      on the queue is a tail of what was there; the lines written hold the export of every
      message that is gone, in order -- and at the very end, when it is in flight, of the first
      message left, which takes a commit that failed right after the write and before the last
      abort. The only other lines are the stale ones: each repeats the line just before it, or
      writes the typed buffer as it was allocated ahead of the first. So the lines are exactly
      the exports if and only if there are none of those. */
  lemma ExportLosesNothing(c: Setup, w: World, blank: Bytes)
    ensures var r := Export(c, w, blank);
            var gone := |w.queue| - |r.w.queue|;
            var shown := gone + if r.inflight then 1 else 0;
            var stale := StaleWrites(r.w.trace) - StaleWrites(w.trace);
            && 0 <= gone && shown <= |w.queue| && 0 <= stale
            && r.w.queue == w.queue[gone..]
            && Subsequence(Exports(c.codec, w.queue[..shown]), r.lines)
            && |r.lines| == |Exports(c.codec, w.queue[..shown])| + stale
            && Stutters(Echo(c.codec, blank), Exports(c.codec, w.queue[..shown]), r.lines)
            && (r.lines == Exports(c.codec, w.queue[..shown]) <==> stale == 0)
            && (r.inflight ==> r.exn.Some? && r.lines != []
                               && r.lines[|r.lines| - 1] == c.codec.exp(r.w.queue[0])
                               && r.w.trace != [] && CommitFailed(r.w.trace[..|r.w.trace| - 1]))
  {
    hide Drain;
    hide Leave;
    hide StaleWrites;
    hide Subsequence;
    hide Stutters;
    hide Echo;
    var r := Export(c, w, blank);
    if Next(w).Success? {
      DrainAccounts(c, Consume(w), -1, blank);
      DrainStutters(c, Head(Consume(w), -1, blank));
    } else {
      LeaveEffect(Consume(w), TuxedoException(Next(w).tperrno), false);
      NothingDone(c.codec, w.queue);
      NothingStutters(c, Head(w, QMENOMSG, blank));
    }
    IsNoLonger(Exports(c.codec, w.queue[..|w.queue| - |r.w.queue| + if r.inflight then 1 else 0]), r.lines);
  }

  // ---- when are stale lines possible? -----------------------------------------------------

  predicate NotServiceFailure(r: Reply) {
    r.Failure? ==> r.tperrno != TPESVCFAIL
  }

  ghost predicate Every(s: seq<Reply>, p: Reply -> bool) {
    forall i :: 0 <= i < |s| ==> p(s[i])
  }

  lemma RestEvery(s: seq<Reply>, p: Reply -> bool)
    requires Every(s, p)
    ensures Every(Rest(s), p) && Every(Rest(Rest(s)), p) && Every(Rest(Rest(Rest(s))), p)
    ensures s != [] ==> p(s[0])
  {
  }

  /** The input on which a pass writes a stale line: with the names set and no transaction open,
      begin succeeds, the dequeue is answered TPESVCFAIL, the typed buffer is not empty, and
      what it holds can be exported. */
  predicate WritesStale(c: Setup, w: World, message: Bytes) {
    && c.named && w.tx.Closed? && Next(w).Success?
    && (var w1 := TpBegin(w).0;
        && !NotServiceFailure(Next(w1))
        && message != []
        && ExportMessage(c, TpDequeue(w1).0, message).1.None?)
  }

  /** A pass writes at most one stale line, and it does so on exactly that input. */
  lemma PassIsStale(c: Setup, w: World, rc: int, message: Bytes)
    requires rc != QMENOMSG
    ensures StaleWrites(TryBlock(c, w, rc, message).w.trace)
            == StaleWrites(w.trace) + if WritesStale(c, w, message) then 1 else 0
  {
    hide Ship;
    hide StaleWrites;
    hide ExportMessage;
    var (w1, e1) := Begin(w);
    StaleSnoc(w.trace, Begun(e1.None?));
    if e1.None? && c.named {
      var (w2, r, got) := Dequeue(w1, c.named);
      StaleSnoc(w1.trace, Took(got.Some?, true));
      if r.Ok? {
        var m := if got.Some? then got.value else message;
        if r.value != QMENOMSG && |m| > 0 {
          ShipIsStale(c, w2, m, got.Some?);
        } else {
          StaleSnoc(w2.trace, Committed(TpCommit(w2).1.Success?));
        }
      }
    }
  }

  lemma ShipIsStale(c: Setup, w: World, m: Bytes, own: bool)
    requires w.tx.Open? && w.trace != [] && w.trace[|w.trace| - 1] == Took(own, true)
    ensures StaleWrites(Ship(c, w, m, own).w.trace)
            == StaleWrites(w.trace) + if !own && ExportMessage(c, w, m).1.None? then 1 else 0
  {
    ShipEffect(c, w, m, own);
    hide StaleWrites;
    var p := Ship(c, w, m, own);
    assert p.lines != [] <==> ExportMessage(c, w, m).1.None?;
    hide Ship;
    hide ExportMessage;
    StaleShip(w.trace, p.exn.None?);
    assert w.trace + [] == w.trace;
  }

  /** A pass consumes replies from the front of the script only. */
  lemma PassEvery(c: Setup, w: World, rc: int, message: Bytes, p: Reply -> bool)
    requires Every(w.script, p)
    ensures Every(TryBlock(c, w, rc, message).w.script, p)
  {
    hide Every;
    hide Finish;
    RestEvery(w.script, p);
    var (w1, e1) := Begin(w);
    if e1.None? {
      var (w2, r, got) := Dequeue(w1, c.named);
      if r.Ok? {
        FinishEvery(c, w2, r.value, if got.Some? then got.value else message, got.Some?, p);
      }
    }
  }

  lemma FinishEvery(c: Setup, w: World, rc: int, m: Bytes, own: bool, p: Reply -> bool)
    requires Every(w.script, p)
    ensures Every(Finish(c, w, rc, m, own).w.script, p)
  {
    hide Every;
    RestEvery(w.script, p);
    RestEvery(Rest(w.script), p);
  }

  lemma PassIsClean(c: Setup, w: World, rc: int, message: Bytes)
    requires rc != QMENOMSG
    requires Every(w.script, NotServiceFailure)
    ensures StaleWrites(TryBlock(c, w, rc, message).w.trace) == StaleWrites(w.trace)
  {
    PassIsStale(c, w, rc, message);
    hide TryBlock;
    RestEvery(w.script, NotServiceFailure);
    RestEvery(Rest(w.script), NotServiceFailure);
  }

  lemma AbortEvery(w: World, p: Reply -> bool)
    requires Every(w.script, p)
    ensures Every(Abort(w).0.script, p)
  {
  }

  lemma {:induction false} DrainIsClean(c: Setup, w: World, rc: int, message: Bytes)
    requires Every(w.script, NotServiceFailure)
    ensures StaleWrites(Drain(c, w, rc, message).w.trace) == StaleWrites(w.trace)
    decreases |w.script|, |w.queue|, if rc == QMENOMSG then 0 else 1
  {
    hide TryBlock;
    hide StaleWrites;
    hide Leave;
    hide Abort;
    hide Every;
    if rc != QMENOMSG {
      var p := TryBlock(c, w, rc, message);
      PassProgress(c, w, rc, message);
      PassEvery(c, w, rc, message, NotServiceFailure);
      AbortEvery(p.w, NotServiceFailure);
      AbortProgress(p.w);
      PassIsClean(c, w, rc, message);
      AbortEffect(p.w);
      var (w', e) := Abort(p.w);
      if p.exn.None? {
        DrainIsClean(c, p.w, p.rc, p.message);
      } else if p.exn.value.TimeoutException? && e.None? {
        DrainIsClean(c, w', p.rc, p.message);
      } else {
        LeaveEffect(w', e.GetOr(BadArrayLength), false);
        LeaveEffect(p.w, p.exn.value, p.inflight);
      }
    }
  }

  /** The loop head that a pass leads to, if the drain goes on. */
  datatype Head = Head(w: World, rc: int, message: Bytes)

  function Follow(c: Setup, h: Head): Option<Head> {
    if h.rc == QMENOMSG then None else
    var p := TryBlock(c, h.w, h.rc, h.message);
    if p.exn.None? then Some(Head(p.w, p.rc, p.message))
    else if p.exn.value.TimeoutException? && Abort(p.w).1.None? then Some(Head(Abort(p.w).0, p.rc, p.message))
    else None
  }

  lemma FollowProgress(c: Setup, h: Head)
    ensures var n := Follow(c, h);
            n.Some? ==> h.rc != QMENOMSG && Smaller(n.value.w, n.value.rc, h.w)
  {
    hide TryBlock;
    hide Abort;
    if h.rc != QMENOMSG {
      PassProgress(c, h.w, h.rc, h.message);
      AbortProgress(TryBlock(c, h.w, h.rc, h.message).w);
    }
  }

  function DrainFrom(c: Setup, h: Head): Drained {
    Drain(c, h.w, h.rc, h.message)
  }

  /** A drain, by where its first pass leads. */
  lemma DrainFollows(c: Setup, h: Head)
    requires h.rc != QMENOMSG
    ensures var p, n := TryBlock(c, h.w, h.rc, h.message), Follow(c, h);
            && (n.Some? ==> DrainFrom(c, h) == Prepend(p.lines, DrainFrom(c, n.value)))
            && (n.None? ==> p.exn.Some?)
            && (n.None? && p.exn.value.TimeoutException? ==>
                  DrainFrom(c, h) == Leave(Abort(p.w).0, Abort(p.w).1.GetOr(BadArrayLength), false))
            && (n.None? && !p.exn.value.TimeoutException? ==>
                  DrainFrom(c, h) == Prepend(p.lines, Leave(p.w, p.exn.value, p.inflight)))
  {
    TimeoutKeepsRc(c, h.w, h.rc, h.message);
    hide TryBlock;
    hide Abort;
    hide Leave;
    var p, n := TryBlock(c, h.w, h.rc, h.message), Follow(c, h);
    if n.Some? && p.exn.Some? {
      var rest := DrainFrom(c, n.value);
      assert [] + rest.lines == rest.lines;
    }
  }

  /** How many loop heads of a drain are ones at which a stale line is written. */
  function StaleHeads(c: Setup, h: Head): nat
    decreases |h.w.script|, |h.w.queue|, if h.rc == QMENOMSG then 0 else 1
  {
    FollowProgress(c, h);
    var n := Follow(c, h);
    (if h.rc != QMENOMSG && WritesStale(c, h.w, h.message) then 1 else 0)
    + if n.None? then 0 else StaleHeads(c, n.value)
  }

  lemma {:induction false} DrainIsStale(c: Setup, h: Head)
    ensures StaleWrites(Drain(c, h.w, h.rc, h.message).w.trace) == StaleWrites(h.w.trace) + StaleHeads(c, h)
    decreases |h.w.script|, |h.w.queue|, if h.rc == QMENOMSG then 0 else 1
  {
    hide TryBlock;
    hide StaleWrites;
    hide WritesStale;
    hide Leave;
    hide Abort;
    if h.rc != QMENOMSG {
      var p := TryBlock(c, h.w, h.rc, h.message);
      FollowProgress(c, h);
      PassProgress(c, h.w, h.rc, h.message);
      PassIsStale(c, h.w, h.rc, h.message);
      AbortEffect(p.w);
      var n := Follow(c, h);
      if n.Some? {
        DrainIsStale(c, n.value);
      } else {
        LeaveEffect(Abort(p.w).0, Abort(p.w).1.GetOr(BadArrayLength), false);
        LeaveEffect(p.w, p.exn.value, p.inflight);
      }
    }
  }

  /** The stale lines of an export, counted by what its passes are given: one for each loop head
      with that input. */
  function StaleLines(c: Setup, w: World, blank: Bytes): nat {
    if Next(w).Success? then StaleHeads(c, Head(Consume(w), -1, blank)) else 0
  }

  lemma StaleLinesAreServiceFailures(c: Setup, w: World, blank: Bytes)
    ensures StaleWrites(Export(c, w, blank).w.trace) - StaleWrites(w.trace) == StaleLines(c, w, blank)
    ensures Every(w.script, NotServiceFailure) ==> StaleLines(c, w, blank) == 0
  {
    hide Drain;
    hide Leave;
    hide StaleWrites;
    hide StaleHeads;
    hide Every;
    if Next(w).Success? {
      DrainIsStale(c, Head(Consume(w), -1, blank));
    } else {
      LeaveEffect(Consume(w), TuxedoException(Next(w).tperrno), false);
    }
    if Every(w.script, NotServiceFailure) && Next(w).Success? {
      RestEvery(w.script, NotServiceFailure);
      DrainIsClean(c, Consume(w), -1, blank);
    }
  }

  /** The lines are exactly the exports of the messages that are gone, or in flight, if and only
      if no loop head of the run has that input -- which none has unless a call is answered
      TPESVCFAIL. */
  lemma ExportIsFaithful(c: Setup, w: World, blank: Bytes)
    ensures var r := Export(c, w, blank);
            var gone := |w.queue| - |r.w.queue|;
            && 0 <= gone && gone + (if r.inflight then 1 else 0) <= |w.queue|
            && r.w.queue == w.queue[gone..]
            && (r.lines == Exports(c.codec, w.queue[..gone + if r.inflight then 1 else 0])
                <==> StaleLines(c, w, blank) == 0)
            && (r.exn.None? ==> !r.inflight)
            && (Every(w.script, NotServiceFailure) ==> StaleLines(c, w, blank) == 0)
  {
    hide Export;
    hide StaleWrites;
    hide Every;
    hide StaleLines;
    ExportLosesNothing(c, w, blank);
    StaleLinesAreServiceFailures(c, w, blank);
  }

  // ---- what the stale lines contain ---------------------------------------------------------------

  /** `lines` are `own` with repetitions put in: each further line repeats the line just before
      it, or what `prev` says ahead of the first. */
  predicate Stutters(prev: Option<Bytes>, own: seq<Bytes>, lines: seq<Bytes>)
    decreases |lines|
  {
    if lines == [] then own == []
    else
      || (own != [] && lines[0] == own[0] && Stutters(Some(own[0]), own[1..], lines[1..]))
      || (prev == Some(lines[0]) && Stutters(prev, own, lines[1..]))
  }

  /** What a stale line would say: the export of the typed buffer, if that is not empty. */
  function Echo(c: Codec, message: Bytes): Option<Bytes> {
    if message == [] then None else Some(c.exp(message))
  }

  lemma {:induction false} StuttersWeakens(prev: Option<Bytes>, own: seq<Bytes>, lines: seq<Bytes>)
    requires Stutters(None, own, lines)
    ensures Stutters(prev, own, lines)
  {
  }

  /** One pass: it removes or shows nothing and writes nothing or the echo of the typed buffer;
      or it removes or shows the first message and writes its export, if it is not empty, and
      that message is then in the typed buffer. */
  ghost predicate Steps(c: Codec, w: World, message: Bytes, p: Pass) {
    var shown := |w.queue| - |p.w.queue| + if p.inflight then 1 else 0;
    if shown == 0 then
      && p.w.queue == w.queue && !p.inflight
      && (p.lines == [] || (|p.lines| == 1 && Echo(c, message) == Some(p.lines[0])))
      && (Survives(p) ==> p.message == message)
    else
      && shown == 1 && w.queue != []
      && p.lines == Exports(c, [w.queue[0]])
      && (Survives(p) ==> p.message == w.queue[0] && p.w.queue == w.queue[1..] && !p.inflight)
  }

  /** The drain may go on after this pass. */
  predicate Survives(p: Pass) {
    p.exn.None? || p.exn.value.TimeoutException?
  }

  lemma ShipSteps(c: Setup, w: World, m: Bytes, own: bool)
    requires w.tx.Open? && m != []
    requires if own then w.queue != [] && m == w.queue[0] && w.tx.view == w.queue[1..] else w.tx.view == w.queue
    ensures var p := Ship(c, w, m, own);
            && Steps(c.codec, w, m, p)
            && (own ==> p.lines == [] || |w.queue| - |p.w.queue| + (if p.inflight then 1 else 0) == 1)
            && (own && Survives(p) ==> p.lines != [])
  {
    ShipEffect(c, w, m, own);
    ShipScript(c, w, m, own);
    assert Ship(c, w, m, own).message == m;
    hide Ship;
    if own {
      assert Exports(c.codec, [m]) == [c.codec.exp(m)];
    }
  }

  lemma PassSteps(c: Setup, w: World, rc: int, message: Bytes)
    requires rc != QMENOMSG
    ensures Steps(c.codec, w, message, TryBlock(c, w, rc, message))
  {
    hide Ship;
    var (w1, e1) := Begin(w);
    if e1.None? && c.named {
      var (w2, r, got) := Dequeue(w1, c.named);
      if r.Ok? {
        var m := if got.Some? then got.value else message;
        if r.value != QMENOMSG && |m| > 0 {
          ShipSteps(c, w2, m, got.Some?);
          ShipEffect(c, w2, m, got.Some?);
        } else if got.Some? {
          assert Exports(c.codec, [m]) == [];
        }
      }
    }
  }

  lemma StuttersOnce(c: Codec, w: World, message: Bytes, p: Pass, own: seq<Bytes>, lines: seq<Bytes>)
    requires Steps(c, w, message, p) && Survives(p)
    requires Stutters(Echo(c, p.message), own, lines)
    ensures Stutters(Echo(c, message), Exports(c, w.queue[..|w.queue| - |p.w.queue|]) + own, p.lines + lines)
  {
    if p.w.queue == w.queue {
      assert w.queue[..0] == [] && [] + own == own;
      if p.lines == [] {
        assert [] + lines == lines;
      } else {
        assert (p.lines + lines)[1..] == lines;
      }
    } else {
      assert w.queue[..1] == [w.queue[0]];
      if p.message == [] {
        assert Exports(c, [p.message]) == [] && [] + own == own && [] + lines == lines;
        StuttersWeakens(Echo(c, message), own, lines);
      } else {
        var x := c.exp(p.message);
        assert Exports(c, [p.message]) == [x] == p.lines;
        assert ([x] + own)[1..] == own && ([x] + lines)[1..] == lines;
      }
    }
  }

  lemma LastStutter(c: Codec, w: World, message: Bytes, p: Pass)
    requires Steps(c, w, message, p)
    ensures var shown := |w.queue| - |p.w.queue| + if p.inflight then 1 else 0;
            0 <= shown <= |w.queue| && Stutters(Echo(c, message), Exports(c, w.queue[..shown]), p.lines)
  {
    assert w.queue[..0] == [];
    if w.queue != [] {
      assert w.queue[..1] == [w.queue[0]];
      assert Exports(c, [w.queue[0]]) == if w.queue[0] == [] then [] else [c.exp(w.queue[0])];
    }
  }

  lemma {:induction false} DrainStutters(c: Setup, h: Head)
    ensures var r := DrainFrom(c, h);
            var shown := |h.w.queue| - |r.w.queue| + if r.inflight then 1 else 0;
            && 0 <= shown <= |h.w.queue|
            && Stutters(Echo(c.codec, h.message), Exports(c.codec, h.w.queue[..shown]), r.lines)
    decreases |h.w.script|, |h.w.queue|, if h.rc == QMENOMSG then 0 else 1
  {
    hide TryBlock;
    hide Abort;
    hide Leave;
    hide Stutters;
    hide Steps;
    hide Echo;
    hide Drain;
    if h.rc == QMENOMSG {
      NothingStutters(c, h);
    } else {
      var p, n := TryBlock(c, h.w, h.rc, h.message), Follow(c, h);
      FollowProgress(c, h);
      DrainFollows(c, h);
      PassSteps(c, h.w, h.rc, h.message);
      LastStutter(c.codec, h.w, h.message, p);
      AbortEffect(p.w);
      if n.Some? {
        DrainStutters(c, n.value);
        var rest := DrainFrom(c, n.value);
        StuttersOn(c.codec, h.w, h.message, p, |rest.w.queue|, rest.inflight, rest.lines);
      } else if p.exn.value.TimeoutException? {
        LeaveEffect(Abort(p.w).0, Abort(p.w).1.GetOr(BadArrayLength), false);
        TimeoutKeepsRc(c, h.w, h.rc, h.message);
        SurvivorIsNotInflight(c.codec, h.w, h.message, p);
      } else {
        LeaveEffect(p.w, p.exn.value, p.inflight);
        assert p.lines + [] == p.lines;
      }
    }
  }

  lemma NothingStutters(c: Setup, h: Head)
    requires h.rc == QMENOMSG
    ensures DrainFrom(c, h) == Drained(h.w, [], None, false)
    ensures Stutters(Echo(c.codec, h.message), Exports(c.codec, h.w.queue[..0]), [])
  {
    assert h.w.queue[..0] == [];
  }

  lemma SurvivorIsNotInflight(c: Codec, w: World, message: Bytes, p: Pass)
    requires Steps(c, w, message, p) && Survives(p)
    ensures !p.inflight && |p.w.queue| <= |w.queue| && p.w.queue == w.queue[|w.queue| - |p.w.queue|..]
  {
  }

  lemma StuttersOn(c: Codec, w: World, message: Bytes, p: Pass, left: nat, inflight: bool, lines: seq<Bytes>)
    requires Steps(c, w, message, p) && Survives(p)
    requires var shown := |p.w.queue| - left + if inflight then 1 else 0;
             0 <= shown <= |p.w.queue| && Stutters(Echo(c, p.message), Exports(c, p.w.queue[..shown]), lines)
    ensures var shown := |w.queue| - left + if inflight then 1 else 0;
            0 <= shown <= |w.queue| && Stutters(Echo(c, message), Exports(c, w.queue[..shown]), p.lines + lines)
  {
    hide Stutters;
    hide Echo;
    SurvivorIsNotInflight(c, w, message, p);
    hide Steps;
    hide Exports;
    var d := |w.queue| - |p.w.queue|;
    var k := |p.w.queue| - left + if inflight then 1 else 0;
    StuttersOnce(c, w, message, p, Exports(c, p.w.queue[..k]), lines);
    ExportsConcat(c, w.queue[..d], p.w.queue[..k]);
    ShownInTurn(w.queue, d, k);
  }

  lemma ShownInTurn(q: seq<Bytes>, d: nat, k: nat)
    requires d + k <= |q|
    ensures q[..d + k] == q[..d] + q[d..][..k]
  {
  }

  /** With one TPESVCFAIL the uninitialised typed buffer, as large as the stream buffer, is
      exported and written although the queue is empty, and the drain still ends normally. */
  lemma ServiceFailureWritesJunk(size: nat, codec: Codec, blank: Bytes)
    requires |blank| == size > 0 && |codec.exp(blank)| <= size + size
    ensures var w := World([], Closed, [Success, Success, SERVICE_FAILURE], []);
            var r := Export(Setup(true, size, codec), w, blank);
            r.exn.None? && r.lines == [codec.exp(blank)] && r.w.queue == []
  {
    var c := Setup(true, size, codec);
    var w := World([], Closed, [Success, Success, SERVICE_FAILURE], []);
    var p := TryBlock(c, Consume(w), -1, blank);
    assert p.exn.None? && p.lines == [codec.exp(blank)];
    DrainOfEmpty(c, p.w, p.rc, p.message);
  }

  const SERVICE_FAILURE := Failure(TPESVCFAIL, 0, 0, false, false, false)

  lemma DrainOnce(c: Setup, w: World, rc: int, message: Bytes)
    requires rc != QMENOMSG && TryBlock(c, w, rc, message).exn.None?
    ensures var p := TryBlock(c, w, rc, message);
            Drain(c, w, rc, message) == Prepend(p.lines, Drain(c, p.w, p.rc, p.message))
  {
    hide TryBlock;
  }

  lemma DrainOfEmpty(c: Setup, w: World, rc: int, message: Bytes)
    requires c.named && rc != QMENOMSG && w.queue == [] && w.script == [] && w.tx.Closed?
    ensures var r := Drain(c, w, rc, message);
            r.exn.None? && r.lines == [] && r.w.queue == []
  {
    var p := TryBlock(c, w, rc, message);
    assert p.exn.None? && p.rc == QMENOMSG && p.lines == [] && p.w.queue == [];
    assert Drain(c, p.w, p.rc, p.message) == Drained(p.w, [], None, false);
  }

  /** The same reply after a message has been exported writes that message a second time. */
  lemma ServiceFailureRepeatsMessage(size: nat, codec: Codec, blank: Bytes, m: Bytes)
    requires |blank| == size && m != [] && |codec.exp(m)| <= size
    ensures var w := World([m], Closed, [Success, Success, Success, Success, Success, Success, SERVICE_FAILURE], []);
            var r := Export(Setup(true, size, codec), w, blank);
            r.exn.None? && r.lines == [codec.exp(m), codec.exp(m)] && r.w.queue == []
  {
    var c := Setup(true, size, codec);
    var s := [Success, Success, Success, Success, Success, Success, SERVICE_FAILURE];
    var w := Consume(World([m], Closed, s, []));
    var p := TryBlock(c, w, -1, blank);
    var p' := TryBlock(c, p.w, p.rc, p.message);
    FirstPass(c, w, blank);
    SecondPass(c, p.w, m);
    hide TryBlock;
    DrainOnce(c, w, -1, blank);
    DrainOnce(c, p.w, p.rc, p.message);
    hide Drain;
    DrainOfEmpty(c, p'.w, p'.rc, p'.message);
    assert [codec.exp(m)] + ([codec.exp(m)] + []) == [codec.exp(m), codec.exp(m)];
  }

  lemma FirstPass(c: Setup, w: World, message: Bytes)
    requires c.named && |w.queue| == 1 && w.queue[0] != [] && |c.codec.exp(w.queue[0])| <= c.size && w.tx.Closed?
    requires w.script == [Success, Success, Success, Success, Success, SERVICE_FAILURE]
    ensures var p := TryBlock(c, w, -1, message);
            && p.exn.None? && p.lines == [c.codec.exp(w.queue[0])] && p.message == w.queue[0] && p.rc == 0
            && p.w.script == [Success, SERVICE_FAILURE] && p.w.queue == [] && p.w.tx.Closed?
  {
  }

  lemma SecondPass(c: Setup, w: World, message: Bytes)
    requires c.named && w.queue == [] && w.tx.Closed? && message != [] && |c.codec.exp(message)| <= c.size
    requires w.script == [Success, SERVICE_FAILURE]
    ensures var p := TryBlock(c, w, 0, message);
            && p.exn.None? && p.lines == [c.codec.exp(message)] && p.rc == 0
            && p.w.script == [] && p.w.queue == [] && p.w.tx.Closed?
  {
  }
}
