/** Timeouts anywhere in a run: the drain retries, and nobody can tell. */
module ExportTimeouts {
  import opened Atmi
  import opened TuxedoQueue
  import opened QueueSpec
  import opened ExportTheorems

  // ---- nothing depends on what was recorded -----------------------------------------------------

  function Untraced(w: World): World {
    w.(trace := [], answers := [])
  }

  /** The outcome of a drain: everything but the record of its calls. */
  function Outcome(d: Drained): Drained {
    d.(w := Untraced(d.w))
  }

  function UntracedPass(p: Pass): Pass {
    p.(w := Untraced(p.w))
  }

  lemma ShipUntraced(c: Setup, w: World, w': World, m: Bytes, own: bool)
    requires Untraced(w) == Untraced(w')
    ensures UntracedPass(Ship(c, w, m, own)) == UntracedPass(Ship(c, w', m, own))
  {
    ExportUntraced(c, w, w', m);
    hide ExportMessage;
  }

  lemma ExportUntraced(c: Setup, w: World, w': World, m: Bytes)
    requires Untraced(w) == Untraced(w')
    ensures var (w1, e), (w1', e') := ExportMessage(c, w, m), ExportMessage(c, w', m);
            Untraced(w1) == Untraced(w1') && e == e'
  {
  }

  lemma PassUntraced(c: Setup, w: World, w': World, rc: int, message: Bytes)
    requires Untraced(w) == Untraced(w')
    ensures UntracedPass(TryBlock(c, w, rc, message)) == UntracedPass(TryBlock(c, w', rc, message))
  {
    hide Ship;
    var (w1, e1) := Begin(w);
    var (w1', e1') := Begin(w');
    assert Untraced(w1) == Untraced(w1') && e1 == e1';
    if e1.None? {
      var (w2, r, got) := Dequeue(w1, c.named);
      var (w2', r', got') := Dequeue(w1', c.named);
      assert Untraced(w2) == Untraced(w2') && r == r' && got == got';
      if r.Ok? {
        ShipUntraced(c, w2, w2', if got.Some? then got.value else message, got.Some?);
      }
    }
  }

  lemma AbortUntraced(w: World, w': World)
    requires Untraced(w) == Untraced(w')
    ensures Untraced(Abort(w).0) == Untraced(Abort(w').0) && Abort(w).1 == Abort(w').1
  {
  }

  lemma LeaveUntraced(w: World, w': World, exn: Exn, inflight: bool)
    requires Untraced(w) == Untraced(w')
    ensures Outcome(Leave(w, exn, inflight)) == Outcome(Leave(w', exn, inflight))
  {
    AbortUntraced(w, w');
    hide Abort;
  }

  predicate SameHead(h: Head, h': Head) {
    Untraced(h.w) == Untraced(h'.w) && h.rc == h'.rc && h.message == h'.message
  }

  lemma FollowUntraced(c: Setup, h: Head, h': Head)
    requires SameHead(h, h')
    ensures var n, n' := Follow(c, h), Follow(c, h');
            && (n.Some? <==> n'.Some?)
            && (n.Some? ==> SameHead(n.value, n'.value))
            && (TimesOut(c, h) <==> TimesOut(c, h'))
  {
    if h.rc != QMENOMSG {
      PassUntraced(c, h.w, h'.w, h.rc, h.message);
      AbortUntraced(TryBlock(c, h.w, h.rc, h.message).w, TryBlock(c, h'.w, h.rc, h.message).w);
      hide TryBlock;
      hide Abort;
    }
  }

  lemma {:induction false} DrainUntraced(c: Setup, h: Head, h': Head)
    requires SameHead(h, h')
    ensures Outcome(DrainFrom(c, h)) == Outcome(DrainFrom(c, h'))
    decreases |h.w.script|, |h.w.queue|, if h.rc == QMENOMSG then 0 else 1
  {
    if h.rc != QMENOMSG {
      FollowUntraced(c, h, h');
      FollowProgress(c, h);
      DrainFollows(c, h);
      DrainFollows(c, h');
      var p, p' := TryBlock(c, h.w, h.rc, h.message), TryBlock(c, h'.w, h.rc, h.message);
      PassUntraced(c, h.w, h'.w, h.rc, h.message);
      AbortUntraced(p.w, p'.w);
      hide TryBlock;
      hide Abort;
      hide Leave;
      hide Drain;
      var n := Follow(c, h);
      if n.Some? {
        DrainUntraced(c, n.value, Follow(c, h').value);
      } else {
        var (a, e) := Abort(p.w);
        var (a', e') := Abort(p'.w);
        LeaveUntraced(a, a', e.GetOr(BadArrayLength), false);
        LeaveUntraced(p.w, p'.w, p.exn.value, p.inflight);
      }
    }
  }

  // ---- a pass depends on the replies it consumes, and on no later ones ----------------------------

  /** `w'` is `w` with the replies after the first ones, `rest`, replaced by `other`. */
  predicate Framed(w: World, w': World, rest: seq<Reply>, other: seq<Reply>) {
    && |rest| <= |w.script|
    && w.script[|w.script| - |rest|..] == rest
    && w' == w.(script := w.script[..|w.script| - |rest|] + other)
  }

  lemma RestFramed(s: seq<Reply>, s': seq<Reply>, rest: seq<Reply>, other: seq<Reply>)
    requires |rest| < |s| && s[|s| - |rest|..] == rest && s' == s[..|s| - |rest|] + other
    ensures s'[0] == s[0]
    ensures |Rest(s)| == |s| - 1
    ensures Rest(s)[|s| - 1 - |rest|..] == rest && Rest(s') == Rest(s)[..|s| - 1 - |rest|] + other
  {
  }

  lemma AllFramed(w: World, w': World, rest: seq<Reply>, other: seq<Reply>)
    requires Framed(w, w', rest, other) && |w.script| == |rest|
    ensures w' == w.(script := other)
  {
  }

  lemma TpExportFramed(c: Codec, w: World, w': World, m: Bytes, n: int, rest: seq<Reply>, other: seq<Reply>)
    requires Framed(w, w', rest, other) && |rest| < |w.script| && n >= 0
    ensures var (w1, r, s), (w1', r', s') := TpExport(c, w, m, n), TpExport(c, w', m, n);
            Framed(w1, w1', rest, other) && r == r' && s == s' && |w1.script| == |w.script| - 1
  {
    RestFramed(w.script, w'.script, rest, other);
  }

  lemma ExportFramed(c: Setup, w: World, w': World, m: Bytes, rest: seq<Reply>, other: seq<Reply>)
    requires Framed(w, w', rest, other) && |rest| <= |ExportMessage(c, w, m).0.script| && rest != []
    ensures var (w1, e), (w1', e') := ExportMessage(c, w, m), ExportMessage(c, w', m);
            Framed(w1, w1', rest, other) && e == e'
  {
    var (w1, r1, s1) := TpExport(c.codec, w, m, c.size);
    var (w1', _, _) := TpExport(c.codec, w', m, c.size);
    var w2 := TpExport(c.codec, w1, m, s1 + s1).0;
    assert w2.script == Rest(w1.script) && w1.script == Rest(w.script);
    TpExportFramed(c.codec, w, w', m, c.size, rest, other);
    hide TpExport;
    hide Framed;
    if r1.Failure? && r1.tperrno == TPELIMIT {
      TpExportFramed(c.codec, w1, w1', m, s1 + s1, rest, other);
    }
  }

  lemma CommitFramed(w: World, w': World, rest: seq<Reply>, other: seq<Reply>)
    requires Framed(w, w', rest, other) && Commit(w).0.script == rest != []
    ensures Commit(w').0 == Commit(w).0.(script := other) && Commit(w').1 == Commit(w).1
  {
    RestFramed(w.script, w'.script, rest, other);
  }

  lemma WriteFramed(w: World, w': World, rest: seq<Reply>, other: seq<Reply>)
    requires Framed(w, w', rest, other)
    ensures Framed(w.(trace := w.trace + [Wrote]), w'.(trace := w'.trace + [Wrote]), rest, other)
  {
  }

  lemma ShipFramed(c: Setup, w: World, w': World, m: Bytes, own: bool, rest: seq<Reply>, other: seq<Reply>)
    requires Framed(w, w', rest, other) && Ship(c, w, m, own).w.script == rest != []
    ensures var p := Ship(c, w, m, own);
            Ship(c, w', m, own) == p.(w := p.w.(script := other))
  {
    hide Commit;
    hide ExportMessage;
    hide Framed;
    var (w1, e1) := ExportMessage(c, w, m);
    var (w1', e1') := ExportMessage(c, w', m);
    var w2 := w1.(trace := w1.trace + [Wrote]);
    CommitTail(w2);
    ExportFramed(c, w, w', m, rest, other);
    FramedQueue(w, w', rest, other);
    if e1.None? {
      WriteFramed(w1, w1', rest, other);
      CommitFramed(w2, w1'.(trace := w1'.trace + [Wrote]), rest, other);
    } else {
      AllFramed(w1, w1', rest, other);
    }
  }

  lemma FramedQueue(w: World, w': World, rest: seq<Reply>, other: seq<Reply>)
    requires Framed(w, w', rest, other)
    ensures w'.queue == w.queue
  {
  }

  lemma BeginFramed(w: World, w': World, rest: seq<Reply>, other: seq<Reply>)
    requires Framed(w, w', rest, other) && |rest| < |w.script|
    ensures var (w1, e), (w1', e') := Begin(w), Begin(w');
            Framed(w1, w1', rest, other) && e == e'
  {
    RestFramed(w.script, w'.script, rest, other);
  }

  lemma DequeueFramed(w: World, w': World, rest: seq<Reply>, other: seq<Reply>)
    requires Framed(w, w', rest, other) && |rest| < |w.script|
    ensures var (w1, r, got), (w1', r', got') := Dequeue(w, true), Dequeue(w', true);
            Framed(w1, w1', rest, other) && r == r' && got == got'
  {
    TpDequeueFramed(w, w', rest, other);
    hide TpDequeue;
    hide Framed;
  }

  lemma TpDequeueFramed(w: World, w': World, rest: seq<Reply>, other: seq<Reply>)
    requires Framed(w, w', rest, other) && |rest| < |w.script|
    ensures var (w1, r, got), (w1', r', got') := TpDequeue(w), TpDequeue(w');
            Framed(w1, w1', rest, other) && r == r' && got == got'
  {
    RestFramed(w.script, w'.script, rest, other);
  }

  lemma PassFramed(c: Setup, w: World, w': World, rc: int, message: Bytes, rest: seq<Reply>, other: seq<Reply>)
    requires Framed(w, w', rest, other) && TryBlock(c, w, rc, message).w.script == rest != []
    ensures var p := TryBlock(c, w, rc, message);
            TryBlock(c, w', rc, message) == p.(w := p.w.(script := other))
  {
    var (w1, e1) := Begin(w);
    var (w1', e1') := Begin(w');
    PassShrinks(c, w, rc, message);
    BeginFramed(w, w', rest, other);
    assert e1.None? && c.named ==> |rest| < |w1.script|;
    hide Begin;
    hide Ship;
    hide Framed;
    if e1.Some? || !c.named {
      AllFramed(w1, w1', rest, other);
    } else {
      var (w2, r, got) := Dequeue(w1, c.named);
      var (w2', r', got') := Dequeue(w1', c.named);
      DequeueFramed(w1, w1', rest, other);
      hide Dequeue;
      hide Commit;
      var m := if got.Some? then got.value else message;
      if r.Thrown? {
        AllFramed(w2, w2', rest, other);
      } else if r.value != QMENOMSG && |m| > 0 {
        ShipFramed(c, w2, w2', m, got.Some?, rest, other);
      } else {
        CommitFramed(w2, w2', rest, other);
      }
    }
  }

  /** Every call of a pass uses up a reply while there are any. */
  lemma PassShrinks(c: Setup, w: World, rc: int, message: Bytes)
    ensures var p := TryBlock(c, w, rc, message);
            p.w.script != [] ==>
              && |p.w.script| < |w.script|
              && (Begin(w).1.None? && c.named ==> |p.w.script| <= |w.script| - 2)
  {
    hide Ship;
    var (w1, e1) := Begin(w);
    if e1.None? && c.named {
      var (w2, r, got) := Dequeue(w1, c.named);
      if r.Ok? {
        ShipScript(c, w2, if got.Some? then got.value else message, got.Some?);
      }
    }
  }

  // ---- leaving the timeouts out --------------------------------------------------------------------

  /** The pass at this head times out, and is rolled back: the drain retries. */
  predicate TimesOut(c: Setup, h: Head) {
    h.rc != QMENOMSG && Follow(c, h).Some? && TryBlock(c, h.w, h.rc, h.message).exn.Some?
  }

  function Timeouts(c: Setup, h: Head): nat
    decreases |h.w.script|, |h.w.queue|, if h.rc == QMENOMSG then 0 else 1
  {
    FollowProgress(c, h);
    var n := Follow(c, h);
    (if TimesOut(c, h) then 1 else 0) + if n.None? then 0 else Timeouts(c, n.value)
  }

  /** The script without the replies of the passes that time out. */
  function Calm(c: Setup, h: Head): seq<Reply>
    decreases |h.w.script|, |h.w.queue|, if h.rc == QMENOMSG then 0 else 1
  {
    FollowProgress(c, h);
    var n := Follow(c, h);
    if n.None? then h.w.script
    else if TimesOut(c, h) then Calm(c, n.value)
    else h.w.script[..|h.w.script| - |n.value.w.script|] + Calm(c, n.value)
  }

  function Calmed(c: Setup, h: Head): Head {
    h.(w := h.w.(script := Calm(c, h)))
  }

  lemma {:induction false} CalmIsNoLonger(c: Setup, h: Head)
    ensures |Calm(c, h)| <= |h.w.script|
    decreases |h.w.script|, |h.w.queue|, if h.rc == QMENOMSG then 0 else 1
  {
    hide Follow;
    hide TimesOut;
    FollowProgress(c, h);
    if Follow(c, h).Some? {
      CalmIsNoLonger(c, Follow(c, h).value);
    }
  }

  /** A pass that is rolled back leads to the head it started from, but for its replies. */
  lemma TimeoutComesBack(c: Setup, h: Head)
    requires TimesOut(c, h)
    ensures var n := Follow(c, h).value;
            SameHead(n, h.(w := h.w.(script := n.w.script)))
            && TryBlock(c, h.w, h.rc, h.message).lines == []
  {
    TimeoutKeepsRc(c, h.w, h.rc, h.message);
    hide Ship;
    var (w1, e1) := Begin(h.w);
    if e1.None? {
      var (w2, r, got) := Dequeue(w1, c.named);
      if r.Ok? {
        ShipScript(c, w2, if got.Some? then got.value else h.message, got.Some?);
      }
    }
  }

  /** Where the calmed head leads: for a pass that returns, to the calmed next head. */
  lemma CalmedFollows(c: Setup, h: Head)
    requires Follow(c, h).Some? && !TimesOut(c, h)
    ensures var n := Follow(c, h).value;
            && h.rc != QMENOMSG
            && TryBlock(c, h.w, h.rc, h.message).exn.None?
            && TryBlock(c, Calmed(c, h).w, h.rc, h.message).lines == TryBlock(c, h.w, h.rc, h.message).lines
            && Follow(c, Calmed(c, h)) == Some(Calmed(c, n))
            && !TimesOut(c, Calmed(c, h))
  {
    hide TryBlock;
    var n := Follow(c, h).value;
    FollowProgress(c, h);
    var p := TryBlock(c, h.w, h.rc, h.message);
    var rest, other := n.w.script, Calm(c, n);
    CalmIsNoLonger(c, n);
    if rest == [] {
      assert Calm(c, h) == h.w.script;
      assert Calmed(c, h) == h && Calmed(c, n) == n;
    } else {
      PassTail(c, h.w, h.rc, h.message);
      PassFramed(c, h.w, Calmed(c, h).w, h.rc, h.message, rest, other);
    }
  }

  predicate Tail(s': seq<Reply>, s: seq<Reply>) {
    |s'| <= |s| && s[|s| - |s'|..] == s'
  }

  lemma RestIsTail(s: seq<Reply>)
    ensures Tail(s, s) && Tail(Rest(s), s)
  {
  }

  lemma TailsChain(s2: seq<Reply>, s1: seq<Reply>, s: seq<Reply>)
    requires Tail(s2, s1) && Tail(s1, s)
    ensures Tail(s2, s)
  {
  }

  /** The replies that a pass leaves are the last ones of those it was given. */
  lemma PassTail(c: Setup, w: World, rc: int, message: Bytes)
    ensures Tail(TryBlock(c, w, rc, message).w.script, w.script)
  {
    hide Finish;
    var (w1, e1) := Begin(w);
    BeginTail(w);
    hide Begin;
    if e1.None? {
      var (w2, r, got) := Dequeue(w1, c.named);
      DequeueTail(w1, c.named);
      hide Dequeue;
      hide Tail;
      TailsChain(w2.script, w1.script, w.script);
      if r.Ok? {
        var p := Finish(c, w2, r.value, if got.Some? then got.value else message, got.Some?);
        FinishTail(c, w2, r.value, if got.Some? then got.value else message, got.Some?);
        TailsChain(p.w.script, w2.script, w.script);
      }
    }
  }

  lemma BeginTail(w: World)
    ensures Tail(Begin(w).0.script, w.script)
  {
    hide Tail;
    RestIsTail(w.script);
    assert Begin(w).0.script == Rest(w.script);
  }

  lemma DequeueTail(w: World, named: bool)
    ensures Tail(Dequeue(w, named).0.script, w.script)
  {
    hide Tail;
    RestIsTail(w.script);
    assert Dequeue(w, named).0.script == if named then Rest(w.script) else w.script;
  }

  lemma FinishTail(c: Setup, w: World, rc: int, m: Bytes, own: bool)
    ensures Tail(Finish(c, w, rc, m, own).w.script, w.script)
  {
    ShipTail(c, w, m, own);
    hide Ship;
  }

  lemma ShipTail(c: Setup, w: World, m: Bytes, own: bool)
    ensures Tail(Ship(c, w, m, own).w.script, w.script)
  {
    hide ExportMessage;
    hide Commit;
    var (w1, e1) := ExportMessage(c, w, m);
    ExportTail(c, w, m);
    if e1.None? {
      var w2 := w1.(trace := w1.trace + [Wrote]);
      CommitTail(w2);
      TailsChain(Commit(w2).0.script, w1.script, w.script);
    }
  }

  lemma ExportTail(c: Setup, w: World, m: Bytes)
    ensures Tail(ExportMessage(c, w, m).0.script, w.script)
  {
    hide Tail;
    RestIsTail(w.script);
    RestIsTail(Rest(w.script));
    TailsChain(Rest(Rest(w.script)), Rest(w.script), w.script);
    assert ExportMessage(c, w, m).0.script in {Rest(w.script), Rest(Rest(w.script))};
  }

  lemma CommitTail(w: World)
    ensures Tail(Commit(w).0.script, w.script)
  {
    hide Tail;
    RestIsTail(w.script);
    assert Commit(w).0.script == Rest(w.script);
  }

  lemma {:induction false} CalmHasNoTimeouts(c: Setup, h: Head)
    ensures Timeouts(c, Calmed(c, h)) == 0
    decreases |h.w.script|, |h.w.queue|, if h.rc == QMENOMSG then 0 else 1
  {
    FollowProgress(c, h);
    var n := Follow(c, h);
    if n.Some? {
      CalmHasNoTimeouts(c, n.value);
      if TimesOut(c, h) {
        TimeoutComesBack(c, h);
        TimeoutsUntraced(c, Calmed(c, n.value), Calmed(c, h));
      } else {
        CalmedFollows(c, h);
      }
    }
  }

  lemma {:induction false} TimeoutsUntraced(c: Setup, h: Head, h': Head)
    requires SameHead(h, h')
    ensures Timeouts(c, h) == Timeouts(c, h')
    decreases |h.w.script|, |h.w.queue|, if h.rc == QMENOMSG then 0 else 1
  {
    hide Follow;
    hide TimesOut;
    FollowProgress(c, h);
    FollowUntraced(c, h, h');
    if Follow(c, h).Some? {
      TimeoutsUntraced(c, Follow(c, h).value, Follow(c, h').value);
    }
  }

  lemma {:induction false} CalmDrainsAlike(c: Setup, h: Head)
    ensures Outcome(DrainFrom(c, Calmed(c, h))) == Outcome(DrainFrom(c, h))
    decreases |h.w.script|, |h.w.queue|, if h.rc == QMENOMSG then 0 else 1
  {
    FollowProgress(c, h);
    var n := Follow(c, h);
    if n.Some? {
      CalmDrainsAlike(c, n.value);
      DrainFollows(c, h);
      if TimesOut(c, h) {
        TimeoutComesBack(c, h);
        DrainUntraced(c, Calmed(c, n.value), Calmed(c, h));
        assert [] + DrainFrom(c, n.value).lines == DrainFrom(c, n.value).lines;
      } else {
        CalmedFollows(c, h);
        DrainFollows(c, Calmed(c, h));
      }
    }
  }

  /** The script of a whole export, without the replies of the passes that time out. */
  function CalmScript(c: Setup, w: World, blank: Bytes): seq<Reply> {
    if Next(w).Failure? then w.script
    else (if w.script == [] then [] else [w.script[0]]) + Calm(c, Head(Consume(w), -1, blank))
  }

  /** Timeouts are harmless. Whatever the script, leave out the replies of every pass that timed
      out and was rolled back, wherever in the run it came: no pass of the export times out any
      more, and the lines, the queue, the exception and everything else but the record of calls
      are the same. So a retry neither repeats a line nor drops one. */
  lemma TimeoutsAreInvisible(c: Setup, w: World, blank: Bytes)
    ensures var calm := w.(script := CalmScript(c, w, blank));
            && Outcome(Export(c, calm, blank)) == Outcome(Export(c, w, blank))
            && (Next(calm).Success? ==> Timeouts(c, Head(Consume(calm), -1, blank)) == 0)
            && |calm.script| <= |w.script|
  {
    if Next(w).Success? {
      var h := Head(Consume(w), -1, blank);
      CalmDrainsAlike(c, h);
      CalmHasNoTimeouts(c, h);
      CalmIsNoLonger(c, h);
      hide Calm;
      hide Drain;
      hide Timeouts;
      if w.script == [] {
        assert CalmScript(c, w, blank) == [];
      } else {
        assert CalmScript(c, w, blank)[1..] == Calm(c, h);
      }
    }
  }
}
