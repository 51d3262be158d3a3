/** The queue handle and the queue stream as the objects they are, proved to compute what
    QueueSpec says. */
module QueueStream {
  import opened Atmi
  import opened TuxedoQueue
  import Spec = QueueSpec
  import opened Framing

  const TPNOFLAGS := 0
  const TPEX_STRING := 1

  /** The library as the thread sees it. */
  class Tuxedo {
    var world: World
    const codecs: int -> Codec

    constructor (w: World, codecs: int -> Codec)
      ensures world == w && this.codecs == codecs
    {
      world := w;
      this.codecs := codecs;
    }

    method TpAlloc() returns (r: Reply)
      modifies this
      ensures r == Next(old(world)) && world == Consume(old(world))
    {
      r := Next(world);
      world := Consume(world);
    }

    /** Write the export string of `m` into `buffer`, of which `s` bytes may be used. */
    method TpExport(m: Bytes, flags: int, buffer: array<Byte>, s: nat) returns (r: Reply, s': nat)
      requires s <= buffer.Length
      modifies this, buffer
      ensures (world, r, s') == TuxedoQueue.TpExport(codecs(flags), old(world), m, s)
      ensures r.Success? ==> s' <= buffer.Length && buffer[..s'] == codecs(flags).exp(m)
    {
      var text := codecs(flags).exp(m);
      var (w, reply, n) := TuxedoQueue.TpExport(codecs(flags), world, m, s);
      world, r, s' := w, reply, n;
      if r.Success? {
        forall i | 0 <= i < |text| {
          buffer[i] := text[i];
        }
        assert buffer[..s'] == text;
      }
    }
  }

  class OutStream {
    var sink: Sink

    constructor (sink: Sink)
      ensures this.sink == sink
    {
      this.sink := sink;
    }

    /** `write(buffer, n) << endl` */
    method WriteLine(buffer: array<Byte>, n: nat)
      requires n <= buffer.Length
      modifies this
      ensures sink == Write(old(sink), buffer[..n])
    {
      sink := Write(sink, buffer[..n]);
    }
  }

  /** An input stream: everything not yet read. */
  class InStream {
    var data: Bytes

    constructor (content: Bytes)
      ensures data == content
    {
      data := content;
    }

    /** getline; `ok` is what the loop condition tests. */
    method GetLine() returns (ok: bool, line: Bytes)
      modifies this
      ensures ok <==> old(data) != []
      ensures Lines(old(data)) == if ok then [line] + Lines(data) else []
      ensures !ok ==> data == []
    {
      ok, line := data != [], [];
      if ok {
        line, data := data[..LineEnd(data)], AfterLine(data);
      }
    }
  }

  class Queue {
    const tux: Tuxedo
    var qspace: Option<string>
    var name: Option<string>

    constructor (tux: Tuxedo, qspace: Option<string>, name: Option<string>)
      ensures this.tux == tux && this.qspace == qspace && this.name == name
    {
      this.tux := tux;
      this.qspace := qspace;
      this.name := name;
    }

    predicate Named()
      reads this
    {
      qspace.Some? && name.Some?
    }

    method Begin() returns (e: Option<Exn>)
      modifies tux
      ensures (tux.world, e) == Spec.Begin(old(tux.world))
    {
      var (w, r) := TpBegin(tux.world);
      tux.world := w;
      e := if r.Success? then None else Some(TuxedoException(r.tperrno));
    }

    method Commit() returns (e: Option<Exn>)
      modifies tux
      ensures (tux.world, e) == Spec.Commit(old(tux.world))
    {
      var (w, r) := TpCommit(tux.world);
      tux.world := w;
      e := if r.Success? then None else Some(TuxedoException(r.tperrno));
    }

    method Abort() returns (e: Option<Exn>)
      modifies tux
      ensures (tux.world, e) == Spec.Abort(old(tux.world))
    {
      var (w, r) := TpAbort(tux.world);
      tux.world := w;
      e := if r.Success? then None else Some(TuxedoException(r.tperrno));
    }

    /** `message` is the content of the typed buffer, left alone unless a message is taken. */
    method Dequeue(message: Bytes) returns (r: Result<int>, message': Bytes)
      modifies tux
      ensures var (w, x, got) := Spec.Dequeue(old(tux.world), qspace.Some? && name.Some?);
              tux.world == w && r == x && message' == got.GetOr(message)
    {
      message' := message;
      if qspace.None? || name.None? {
        return Thrown(AtmiException), message;
      }
      var (w, reply, got) := TpDequeue(tux.world);
      tux.world := w;
      if reply.Success? {
        return Ok(0), got.value;
      }
      var rc := -1;
      var handled := Ok(0);
      if reply.tperrno == TPEDIAGNOSTIC {
        if reply.diagnostic == QMENOMSG {
          rc := QMENOMSG;
        } else {
          handled := HandleDiagnostics(reply.tperrno, reply.diagnostic);
        }
      } else {
        handled := HandleTperrno(reply.tperrno, reply.urcode);
      }
      r := if handled.Thrown? then handled else Ok(rc);
    }

    method Enqueue(m: Bytes) returns (r: Result<int>)
      modifies tux
      ensures (tux.world, r) == Spec.Enqueue(old(tux.world), qspace.Some? && name.Some?, m)
    {
      if qspace.None? || name.None? {
        return Thrown(AtmiException);
      }
      var (w, reply) := TpEnqueue(tux.world, m);
      tux.world := w;
      if reply.Success? {
        return Ok(0);
      }
      var handled := if reply.tperrno == TPEDIAGNOSTIC
                     then HandleDiagnostics(reply.tperrno, reply.diagnostic)
                     else HandleTperrno(reply.tperrno, reply.urcode);
      r := if handled.Thrown? then handled else Ok(-1);
    }
  }

  class QueueStream {
    var count: int
    var bufferSize: int
    var flags: int
    const queue: Queue

    constructor (queue: Queue, bufferSize: int := 1024)
      ensures count == 0 && this.bufferSize == bufferSize && this.queue == queue && flags == TPEX_STRING
    {
      this.queue := queue;
      this.bufferSize := bufferSize;
      count := 0;
      flags := TPEX_STRING;
    }

    /** As the source has it, asking for base64 is what clears TPEX_STRING. */
    method EncodeBase64(b: bool)
      modifies this`flags
      ensures flags == if b then TPNOFLAGS else TPEX_STRING
    {
      flags := if b then TPNOFLAGS else TPEX_STRING;
    }

    function Setup(): Spec.Setup
      reads this, queue
    {
      Spec.Setup(queue.Named(), if bufferSize < 0 then 0 else bufferSize, queue.tux.codecs(flags))
    }

    /** Export `m` into the stream buffer. A buffer found too small is replaced once, by one of
        twice the size left in `s`. */
    method ExportMessage(m: Bytes, buffer: array<Byte>, size: nat)
      returns (exn: Option<Exn>, buffer': array<Byte>, s: nat)
      requires size == bufferSize <= buffer.Length
      modifies queue.tux, buffer
      ensures (queue.tux.world, exn) == Spec.ExportMessage(Setup(), old(queue.tux.world), m)
      ensures (buffer' == buffer || fresh(buffer')) && size <= buffer'.Length
      ensures exn.None? ==> s <= buffer'.Length && buffer'[..s] == Setup().codec.exp(m)
    {
      buffer' := buffer;
      var r;
      r, s := queue.tux.TpExport(m, flags, buffer, size);
      if r.Failure? {
        if r.tperrno == TPELIMIT {
          s := s + s;
          buffer' := new Byte[s](_ => 0);
          r, s := queue.tux.TpExport(m, flags, buffer', s);
        }
        if r.Failure? {
          return Some(TuxedoException(r.tperrno)), buffer', s;
        }
      }
      exn := None;
    }

    /** The inner try block of operator<<, up to the point where it is left. */
    method Pass(out: OutStream, rc: int, message: Bytes, buffer: array<Byte>, size: nat)
      returns (rc': int, message': Bytes, buffer': array<Byte>, exn: Option<Exn>)
      requires size == bufferSize <= buffer.Length
      modifies this`count, queue.tux, out, buffer
      ensures var p := Spec.TryBlock(Setup(), old(queue.tux.world), rc, message);
              && queue.tux.world == p.w && exn == p.exn
              && out.sink == WriteAll(old(out.sink), p.lines)
              && count == old(count) + |p.lines|
              && (exn.None? || exn.value.TimeoutException? ==> rc' == p.rc && message' == p.message)
      ensures (buffer' == buffer || fresh(buffer')) && size <= buffer'.Length
    {
      hide Spec.Begin;
      hide Spec.ExportMessage;
      hide Spec.Commit;
      rc', message', buffer' := rc, message, buffer;
      exn := queue.Begin();
      if exn.Some? {
        return;
      }
      var r;
      r, message' := queue.Dequeue(message);
      if r.Thrown? {
        exn := Some(r.exn);
        return;
      }
      rc' := r.value;
      if rc' != QMENOMSG && |message'| > 0 {
        var s;
        exn, buffer', s := ExportMessage(message', buffer, size);
        rc' := if exn.None? then 0 else -1;
        if exn.Some? {
          return;
        }
        out.WriteLine(buffer', s);
        queue.tux.world := queue.tux.world.(trace := queue.tux.world.trace + [Wrote]);
        count := count + 1;
      }
      exn := queue.Commit();
    }

    /** One turn of the drain loop: the try block, and whatever its handlers make of the way
        it was left. An exception that gets past them has been through the outermost one. */
    method Turn(out: OutStream, rc: int, message: Bytes, buffer: array<Byte>, size: nat)
      returns (rc': int, message': Bytes, buffer': array<Byte>, exn: Option<Exn>)
      requires size == bufferSize <= buffer.Length && rc != QMENOMSG
      modifies this`count, queue.tux, out, buffer
      ensures var lines := Spec.TryBlock(Setup(), old(queue.tux.world), rc, message).lines;
              var d := Spec.Drain(Setup(), old(queue.tux.world), rc, message);
              && d == (if exn.Some? then Spec.Drained(queue.tux.world, lines, exn, d.inflight)
                       else Spec.Prepend(lines, Spec.Drain(Setup(), queue.tux.world, rc', message')))
              && out.sink == WriteAll(old(out.sink), lines)
              && count == old(count) + |lines|
      ensures exn.None? ==> Spec.Smaller(queue.tux.world, rc', old(queue.tux.world))
      ensures (buffer' == buffer || fresh(buffer')) && size <= buffer'.Length
    {
      hide Spec.TryBlock;
      hide Spec.Abort;
      ghost var w := queue.tux.world;
      ghost var p := Spec.TryBlock(Setup(), w, rc, message);
      Spec.PassProgress(Setup(), w, rc, message);
      Spec.TimeoutKeepsRc(Setup(), w, rc, message);
      Spec.AbortProgress(p.w);
      rc', message', buffer', exn := Pass(out, rc, message, buffer, size);
      if exn.Some? {
        if exn.value.TimeoutException? {
          exn := queue.Abort();
          if exn.Some? {
            exn := Handler(exn.value);
          }
        } else {
          assert p.lines + [] == p.lines;
          exn := Handler(exn.value);
        }
      }
    }

    /** operator<<. `blank` is what tpalloc leaves in the typed buffer. */
    method Export(out: OutStream, blank: Bytes) returns (exn: Option<Exn>)
      modifies this`count, queue.tux, out
      ensures bufferSize < 0 ==>
                exn == Some(BadArrayLength) && count == old(count) && queue.tux.world == old(queue.tux.world)
                && out.sink == old(out.sink)
      ensures bufferSize >= 0 ==>
                var named := queue.qspace.Some? && queue.name.Some?;
                var c := Spec.Setup(named, bufferSize, queue.tux.codecs(flags));
                var r := Spec.Export(c, old(queue.tux.world), blank);
                && queue.tux.world == r.w && exn == r.exn
                && out.sink == WriteAll(old(out.sink), r.lines)
                && count == |r.lines|
    {
      hide Spec.Drain;
      if bufferSize < 0 {
        return Some(BadArrayLength);
      }
      var size: nat := bufferSize;
      var buffer := new Byte[size](_ => 0);
      count := 0;
      var a := queue.tux.TpAlloc();
      if a.Failure? {
        exn := Handler(TuxedoException(a.tperrno));
      } else {
        exn := DrainLoop(out, blank, buffer, size);
      }
    }

    method DrainLoop(out: OutStream, blank: Bytes, buffer0: array<Byte>, size: nat) returns (exn: Option<Exn>)
      requires size == bufferSize <= buffer0.Length && count == 0
      modifies this`count, queue.tux, out, buffer0
      ensures var r := Spec.Drain(Setup(), old(queue.tux.world), -1, blank);
              && queue.tux.world == r.w && exn == r.exn
              && out.sink == WriteAll(old(out.sink), r.lines)
              && count == |r.lines|
    {
      hide Spec.TryBlock;
      var rc, message, buffer := -1, blank, buffer0;
      ghost var all := Spec.Drain(Setup(), queue.tux.world, rc, message);
      ghost var lines: seq<Bytes> := [];
      assert lines + all.lines == all.lines;
      while rc != QMENOMSG
        invariant bufferSize == size <= buffer.Length && (buffer == buffer0 || fresh(buffer))
        invariant Setup() == old(Setup())
        invariant all == Spec.Prepend(lines, Spec.Drain(old(Setup()), queue.tux.world, rc, message))
        invariant out.sink == WriteAll(old(out.sink), lines) && count == |lines|
        decreases |queue.tux.world.script|, |queue.tux.world.queue|, if rc == QMENOMSG then 0 else 1
      {
        hide Spec.Drain;
        ghost var d := Spec.Drain(Setup(), queue.tux.world, rc, message);
        ghost var more := Spec.TryBlock(Setup(), queue.tux.world, rc, message).lines;
        rc, message, buffer, exn := Turn(out, rc, message, buffer, size);
        Regroup(old(out.sink), lines, more, d, Spec.Drain(old(Setup()), queue.tux.world, rc, message));
        lines := lines + more;
        if exn.Some? {
          return;
        }
      }
      assert lines + [] == lines;
      exn := None;
    }

    /** The outermost handler: abort, and rethrow unless the abort throws itself. */
    method Handler(thrown: Exn) returns (exn: Option<Exn>)
      modifies queue.tux
      ensures var (w, e) := Spec.Bail(old(queue.tux.world), thrown);
              queue.tux.world == w && exn == Some(e)
    {
      exn := queue.Abort();
      if exn.None? {
        exn := Some(thrown);
      }
    }

    /** operator>>. */
    method Import(input: InStream) returns (exn: Option<Exn>)
      modifies this`count, queue.tux, input
      ensures var named := queue.qspace.Some? && queue.name.Some?;
              var size := if bufferSize < 0 then 0 else bufferSize;
              var c := Spec.Setup(named, size, queue.tux.codecs(flags));
              var l := Spec.Import(c, old(queue.tux.world), Lines(old(input.data)));
              && queue.tux.world == l.w && exn == l.exn && count == l.count
      ensures exn.None? ==> input.data == []
    {
      hide Spec.LoadLine;
      hide Lines;
      ghost var c, todo := Setup(), Lines(input.data);
      ghost var all := Spec.Import(c, queue.tux.world, todo);
      count := 0;
      var a := queue.tux.TpAlloc();
      if a.Failure? {
        return Some(TuxedoException(a.tperrno));
      }
      var more, line := input.GetLine();
      while more
        invariant Setup() == c && 0 <= count
        invariant todo == if more then [line] + Lines(input.data) else []
        invariant !more ==> input.data == []
        invariant var rest := Spec.Load(c, queue.tux.world, todo); all == rest.(count := count + rest.count)
        decreases |todo|
      {
        assert todo[1..] == Lines(input.data);
        Spec.LineCounts(c, queue.tux.world, line);
        exn := LoadLine(line);
        if exn.Some? {
          return;
        }
        todo := Lines(input.data);
        more, line := input.GetLine();
      }
      exn := None;
    }

    method LoadLine(line: Bytes) returns (exn: Option<Exn>)
      modifies this`count, queue.tux
      ensures var l := Spec.LoadLine(Setup(), old(queue.tux.world), line);
              queue.tux.world == l.w && exn == l.exn && count == old(count) + l.count
    {
      hide Spec.StoreMessage;
      var (w, r, m) := TpImport(queue.tux.codecs(flags), queue.tux.world, line);
      queue.tux.world := w;
      if r.Failure? {
        return Some(TuxedoException(r.tperrno));
      }
      exn := Store(m.value);
    }

    /** The inner try block of operator>> with its two handlers. */
    method Store(m: Bytes) returns (exn: Option<Exn>)
      modifies this`count, queue.tux
      ensures var l := Spec.StoreMessage(Setup(), old(queue.tux.world), m);
              queue.tux.world == l.w && exn == l.exn && count == old(count) + l.count
    {
      exn := queue.Begin();
      if exn.None? {
        var r := queue.Enqueue(m);
        if r.Thrown? {
          exn := Some(r.exn);
        } else {
          exn := queue.Commit();
        }
      }
      if exn.None? {
        count := count + 1;
      } else if exn.value.IsTuxedo() {
        exn := Handler(exn.value);
      }
    }
  }

  lemma Regroup(k: Sink, lines: seq<Bytes>, more: seq<Bytes>, d: Spec.Drained, d': Spec.Drained)
    ensures WriteAll(k, lines + more) == WriteAll(WriteAll(k, lines), more)
    ensures d == Spec.Prepend(more, d') ==> Spec.Prepend(lines, d) == Spec.Prepend(lines + more, d')
  {
    WriteAllConcat(k, lines, more);
    hide WriteAll;
    assert lines + (more + d'.lines) == lines + more + d'.lines;
  }
}
