/** The part of Tuxedo that the queue wrapper talks to: one queue, at most one open
    transaction, and a script that says how the coming calls are answered.

    A script is finite and every call after its end is answered with success, so a statement
    about every script is a statement about every way of failing a finite number of times. */
module TuxedoQueue {
  import opened Atmi

  /** How the library answers a call.

      `stillOpen`: a commit or abort that failed left the transaction open.
      `applied`:   a commit that failed, and closed the transaction, kept its work all the same
                   (the heuristic outcomes of a distributed commit).
      `tells`:     a tpexport that found the output buffer too small reported the needed size. */
  datatype Reply =
    | Success
    | Failure(tperrno: int, diagnostic: int, urcode: int, stillOpen: bool, applied: bool, tells: bool)

  /** What the outside world can observe, in order. */
  datatype Event =
    | Begun(ok: bool)
    | Took(ok: bool, inTransaction: bool)
    | Put(ok: bool, inTransaction: bool)
    | Wrote
    | Committed(ok: bool)
    | Aborted(ok: bool, leftOpen: bool)

  /** Which function of the library was called, and what it answered. */
  datatype Call = Allocating | Exporting | Importing | Beginning | Dequeueing | Enqueueing | Committing | Aborting
  datatype Answer = Answer(call: Call, reply: Reply)

  datatype Transaction = Closed | Open(view: seq<Bytes>)

  /** `queue` is the committed content; an open transaction works on a view of its own. `trace`
      and `answers` record what happened. */
  datatype World =
    World(queue: seq<Bytes>, tx: Transaction, script: seq<Reply>, trace: seq<Event>, answers: seq<Answer> := [])

  /** tpexport and tpimport for one setting of the flags. */
  datatype Codec = Codec(exp: Bytes -> Bytes, imp: Bytes -> Option<Bytes>)

  function Fault(tperrno: int, diagnostic: int := 0): Reply {
    Failure(tperrno, diagnostic, 0, true, false, false)
  }

  function Next(w: World): Reply {
    if w.script == [] then Success else w.script[0]
  }

  /** Consume one reply, and record the call and its answer. */
  function Hear(w: World, call: Call, r: Reply): World {
    w.(script := Rest(w.script), answers := w.answers + [Answer(call, r)])
  }

  /** The same for a call that the outside world can observe. */
  function Log(w: World, call: Call, r: Reply, e: Event): World {
    Hear(w, call, r).(trace := w.trace + [e])
  }

  function Rest(s: seq<Reply>): seq<Reply> {
    if s == [] then [] else s[1..]
  }

  function TpBegin(w: World): (World, Reply) {
    var r := if w.tx.Open? then Fault(TPEPROTO) else Next(w);
    (Log(w, Beginning, r, Begun(r.Success?)).(tx := if r.Success? then Open(w.queue) else w.tx), r)
  }

  function TpCommit(w: World): (World, Reply) {
    var r := if w.tx.Closed? then Fault(TPEPROTO) else Next(w);
    var w' := Log(w, Committing, r, Committed(r.Success?));
    (if w.tx.Closed? || (r.Failure? && r.stillOpen) then w'
     else if r.Success? || r.applied then w'.(queue := w.tx.view, tx := Closed)
     else w'.(tx := Closed), r)
  }

  function TpAbort(w: World): (World, Reply) {
    var r := if w.tx.Closed? then Fault(TPEPROTO) else Next(w);
    var left := w.tx.Open? && r.Failure? && r.stillOpen;
    (Log(w, Aborting, r, Aborted(r.Success?, left)).(tx := if left then w.tx else Closed), r)
  }

  function View(w: World): seq<Bytes> {
    if w.tx.Open? then w.tx.view else w.queue
  }

  /** Outside a transaction a queue operation takes effect at once. */
  function WithView(w: World, v: seq<Bytes>): World {
    if w.tx.Open? then w.(tx := Open(v)) else w.(queue := v)
  }

  /** On success the second component holds the message taken. */
  function TpDequeue(w: World): (World, Reply, Option<Bytes>) {
    var r := if Next(w).Success? && View(w) == []
             then Fault(TPEDIAGNOSTIC, QMENOMSG) else Next(w);
    var w' := Log(w, Dequeueing, r, Took(r.Success?, w.tx.Open?));
    if r.Success? then (WithView(w', View(w)[1..]), r, Some(View(w)[0])) else (w', r, None)
  }

  function TpEnqueue(w: World, m: Bytes): (World, Reply) {
    var r := Next(w);
    var w' := Log(w, Enqueueing, r, Put(r.Success?, w.tx.Open?));
    if r.Success? then (WithView(w', View(w) + [m]), r) else (w', r)
  }

  /** tpalloc, which like tpexport and tpimport has nothing to do with the queue. */
  function Consume(w: World): World {
    Hear(w, Allocating, Next(w))
  }

  /** tpexport into a buffer of `s` bytes; the third component is the value left in `s`. */
  function TpExport(c: Codec, w: World, m: Bytes, s: nat): (World, Reply, nat) {
    var need := |c.exp(m)|;
    var r := if Next(w).Success? && need > s then Fault(TPELIMIT) else Next(w);
    (Hear(w, Exporting, r), r, if r.Success? || (r.tperrno == TPELIMIT && r.tells && need > s) then need else s)
  }

  function TpImport(c: Codec, w: World, line: Bytes): (World, Reply, Option<Bytes>) {
    var r := if Next(w).Success? && c.imp(line).None? then Fault(TPEINVAL) else Next(w);
    (Hear(w, Importing, r), r, if r.Success? then c.imp(line) else None)
  }
}
