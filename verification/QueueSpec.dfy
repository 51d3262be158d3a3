/** What the queue handle and the two stream operators do, as functions of the world.
    The classes in QueueStream.dfy are proved to compute exactly these. */
module QueueSpec {
  import opened Atmi
  import opened TuxedoQueue

  // ---- atmi::tuxedo and atmi::queue -------------------------------------------------------

  /** begin, commit and abort throw the base class whatever the error code, so even a TPETIME
      raised here is not a timeout_exception. */
  function Raise(r: Reply): Option<Exn> {
    if r.Success? then None else Some(TuxedoException(r.tperrno))
  }

  function Begin(w: World): (World, Option<Exn>) {
    var (w', r) := TpBegin(w);
    (w', Raise(r))
  }

  function Commit(w: World): (World, Option<Exn>) {
    var (w', r) := TpCommit(w);
    (w', Raise(r))
  }

  function Abort(w: World): (World, Option<Exn>) {
    var (w', r) := TpAbort(w);
    (w', Raise(r))
  }

  /** A handler that does not throw changes nothing: the source discards what it returns, and
      the call goes on to return the -1 of the library. */
  function Discard(r: Result<int>): Result<int> {
    if r.Thrown? then r else Ok(-1)
  }

  /** queue::dequeue. `named`: the queue space and the queue name are set. */
  function Dequeue(w: World, named: bool): (World, Result<int>, Option<Bytes>) {
    if !named then (w, Thrown(AtmiException), None) else
    var (w', r, m) := TpDequeue(w);
    (w', if r.Success? then Ok(0)
         else if r.tperrno == TPEDIAGNOSTIC then
           if r.diagnostic == QMENOMSG then Ok(QMENOMSG)
           else Discard(HandleDiagnostics(r.tperrno, r.diagnostic))
         else Discard(HandleTperrno(r.tperrno, r.urcode)), m)
  }

  /** queue::enqueue. */
  function Enqueue(w: World, named: bool, m: Bytes): (World, Result<int>) {
    if !named then (w, Thrown(AtmiException)) else
    var (w', r) := TpEnqueue(w, m);
    (w', if r.Success? then Ok(0)
         else if r.tperrno == TPEDIAGNOSTIC then Discard(HandleDiagnostics(r.tperrno, r.diagnostic))
         else Discard(HandleTperrno(r.tperrno, r.urcode)))
  }

  // ---- operator<< -------------------------------------------------------------------------

  /** Everything a stream operator is given: is the queue named, how large is the stream
      buffer, and the codec its flags select. */
  datatype Setup = Setup(named: bool, size: nat, codec: Codec)

  /** Export one message, giving a buffer that is too small one chance to be doubled. */
  function ExportMessage(c: Setup, w: World, m: Bytes): (World, Option<Exn>) {
    var (w1, r1, s1) := TpExport(c.codec, w, m, c.size);
    if r1.Success? then (w1, None)
    else if r1.tperrno != TPELIMIT then (w1, Raise(r1))
    else
      var (w2, r2, _) := TpExport(c.codec, w1, m, s1 + s1);
      (w2, Raise(r2))
  }

  /** The state in which the inner try block was left. `message` is the content of the typed
      buffer; `inflight` marks a line written for a message that a failed commit put back. */
  datatype Pass = Pass(w: World, rc: int, message: Bytes, lines: seq<Bytes>, exn: Option<Exn>, inflight: bool)

  /** The inner try block: begin, dequeue, export and write, commit. */
  function TryBlock(c: Setup, w: World, rc: int, message: Bytes): Pass {
    var (w1, e1) := Begin(w);
    if e1.Some? then Pass(w1, rc, message, [], e1, false) else
    var (w2, r, got) := Dequeue(w1, c.named);
    if r.Thrown? then Pass(w2, rc, message, [], Some(r.exn), false) else
    Finish(c, w2, r.value, if got.Some? then got.value else message, got.Some?)
  }

  /** What follows a dequeue that returned `rc`: ship what the typed buffer holds, or just
      commit. */
  function Finish(c: Setup, w: World, rc: int, m: Bytes, own: bool): Pass {
    if rc != QMENOMSG && |m| > 0 then Ship(c, w, m, own)
    else
      var (w', e) := Commit(w);
      Pass(w', rc, m, [], e, false)
  }

  /** Export `m`, write it, commit. `own`: the message was taken in this transaction. */
  function Ship(c: Setup, w: World, m: Bytes, own: bool): Pass {
    var (w1, e1) := ExportMessage(c, w, m);
    if e1.Some? then Pass(w1, -1, m, [], e1, false) else
    var w2 := w1.(trace := w1.trace + [Wrote]);
    var (w3, e3) := Commit(w2);
    Pass(w3, 0, m, [c.codec.exp(m)], e3, e3.Some? && own && w3.queue == w.queue)
  }

  /** `lines` are the export strings written, each followed by a newline on the stream. */
  datatype Drained = Drained(w: World, lines: seq<Bytes>, exn: Option<Exn>, inflight: bool)

  function Prepend(lines: seq<Bytes>, d: Drained): Drained {
    d.(lines := lines + d.lines)
  }

  /** The outermost handler: abort and rethrow, unless the abort itself throws. */
  function Bail(w: World, exn: Exn): (World, Exn) {
    var (w', e) := Abort(w);
    (w', if e.Some? then e.value else exn)
  }

  function Leave(w: World, exn: Exn, inflight: bool): Drained {
    var (w', e) := Bail(w, exn);
    Drained(w', [], Some(e), inflight)
  }

  /** The drain loop. */
  function Drain(c: Setup, w: World, rc: int, message: Bytes): Drained
    decreases |w.script|, |w.queue|, if rc == QMENOMSG then 0 else 1
  {
    if rc == QMENOMSG then Drained(w, [], None, false) else
    var p := TryBlock(c, w, rc, message);
    PassProgress(c, w, rc, message);
    if p.exn.None? then Prepend(p.lines, Drain(c, p.w, p.rc, p.message))
    else if p.exn.value.TimeoutException? then
      var (w', e) := Abort(p.w);
      if e.None? then Drain(c, w', p.rc, p.message) else Leave(w', e.value, false)
    else Prepend(p.lines, Leave(p.w, p.exn.value, p.inflight))
  }

  /** operator<<: `blank` is what tpalloc left in the new typed buffer. */
  function Export(c: Setup, w: World, blank: Bytes): Drained {
    if Next(w).Success? then Drain(c, Consume(w), -1, blank)
    else Leave(Consume(w), TuxedoException(Next(w).tperrno), false)
  }

  /** The measure of the drain loop: replies left, then messages left, then the last turn. */
  predicate Smaller(w': World, rc': int, w: World) {
    || |w'.script| < |w.script|
    || (|w'.script| == |w.script| && (|w'.queue| < |w.queue| || (|w'.queue| == |w.queue| && rc' == QMENOMSG)))
  }

  /** Every pass uses up a reply, or takes a message off the queue, or sees the queue empty. */
  lemma PassProgress(c: Setup, w: World, rc: int, message: Bytes)
    requires rc != QMENOMSG
    ensures var p := TryBlock(c, w, rc, message);
            && |p.w.script| <= |w.script|
            && (w.script != [] ==> |p.w.script| < |w.script|)
            && (w.script == [] && p.exn.None? ==>
                  (p.rc == QMENOMSG && p.w.queue == w.queue) || |p.w.queue| < |w.queue|)
            && (w.script == [] ==> p.exn != Some(TimeoutException))
  {
    hide Finish;
    var (w1, e1) := Begin(w);
    if e1.None? {
      var (w2, r, got) := Dequeue(w1, c.named);
      if r.Ok? {
        FinishScript(c, w2, r.value, if got.Some? then got.value else message, got.Some?);
      }
    }
  }

  lemma FinishScript(c: Setup, w: World, rc: int, m: Bytes, own: bool)
    ensures var p := Finish(c, w, rc, m, own);
            && |p.w.script| <= |w.script|
            && p.exn != Some(TimeoutException)
            && (p.exn.None? ==> (p.rc == QMENOMSG <==> rc == QMENOMSG))
            && (p.exn.None? && w.tx.Open? ==> p.w.queue == w.tx.view)
  {
    hide Ship;
    ShipScript(c, w, m, own);
  }

  lemma TimeoutKeepsRc(c: Setup, w: World, rc: int, message: Bytes)
    ensures var p := TryBlock(c, w, rc, message);
            p.exn == Some(TimeoutException) ==> p.rc == rc && p.message == message && p.lines == []
  {
    hide Ship;
    var (w1, e1) := Begin(w);
    if e1.None? {
      var (w2, r, got) := Dequeue(w1, c.named);
      if r.Ok? {
        ShipScript(c, w2, if got.Some? then got.value else message, got.Some?);
      }
    }
  }

  lemma AbortProgress(w: World)
    ensures |Abort(w).0.script| <= |w.script| && Abort(w).0.queue == w.queue
  {
  }

  lemma ShipScript(c: Setup, w: World, m: Bytes, own: bool)
    ensures var p := Ship(c, w, m, own);
            && |p.w.script| <= |w.script|
            && (p.exn.Some? ==> p.exn != Some(TimeoutException))
            && p.rc != QMENOMSG
            && (p.exn.None? && w.tx.Open? ==> p.w.queue == w.tx.view)
  {
  }

  /** The transaction that ships one message: what it does to the queue and to the stream. */
  lemma ShipEffect(c: Setup, w: World, m: Bytes, own: bool)
    requires w.tx.Open?
    ensures var p := Ship(c, w, m, own);
            && (p.exn.None? ==> p.w.queue == w.tx.view && p.w.tx.Closed? && p.lines != [])
            && (p.w.queue == w.queue || (p.w.queue == w.tx.view && p.lines != []))
            && (p.lines == [] || p.lines == [c.codec.exp(m)])
            && (p.inflight <==> p.exn.Some? && own && p.w.queue == w.queue && p.lines != [])
            && p.w.trace == w.trace + if p.lines == [] then [] else [Wrote, Committed(p.exn.None?)]
  {
  }

  // ---- operator>> -------------------------------------------------------------------------

  /** `count` is the stream's _count; `applied` marks a message that was kept although its
      commit reported failure. */
  datatype Loaded = Loaded(w: World, count: nat, exn: Option<Exn>, applied: bool)

  /** The inner try block and its handlers: only a tuxedo_exception makes them abort. */
  function StoreMessage(c: Setup, w: World, m: Bytes): Loaded {
    var (w1, e1) := Begin(w);
    if e1.Some? then Rollback(w1, e1.value, false) else
    var (w2, r) := Enqueue(w1, c.named, m);
    if r.Thrown? then Rollback(w2, r.exn, false) else
    var (w3, e3) := Commit(w2);
    if e3.Some? then Rollback(w3, e3.value, |w3.queue| > |w.queue|)
    else Loaded(w3, 1, None, false)
  }

  function Rollback(w: World, exn: Exn, applied: bool): Loaded {
    if exn.IsTuxedo() then
      var (w', e) := Bail(w, exn);
      Loaded(w', 0, Some(e), applied)
    else Loaded(w, 0, Some(exn), applied)
  }

  /** Import one line and store the message it yields. */
  function LoadLine(c: Setup, w: World, line: Bytes): Loaded {
    var (w', r, m) := TpImport(c.codec, w, line);
    if r.Failure? then Loaded(w', 0, Raise(r), false) else StoreMessage(c, w', m.value)
  }

  lemma LineCounts(c: Setup, w: World, line: Bytes)
    ensures var l := LoadLine(c, w, line);
            l.count == (if l.exn.None? then 1 else 0) && (l.exn.None? ==> !l.applied)
  {
  }

  /** The load loop over the lines that getline delivers. */
  function Load(c: Setup, w: World, lines: seq<Bytes>): Loaded
    decreases |lines|
  {
    if lines == [] then Loaded(w, 0, None, false) else
    var l := LoadLine(c, w, lines[0]);
    if l.exn.Some? then l else
    var rest := Load(c, l.w, lines[1..]);
    rest.(count := rest.count + 1)
  }

  /** operator>>. A failed tpalloc is rethrown without touching any transaction. */
  function Import(c: Setup, w: World, lines: seq<Bytes>): Loaded {
    if Next(w).Success? then Load(c, Consume(w), lines)
    else Loaded(Consume(w), 0, Raise(Next(w)), false)
  }
}
