/** qexport: drain the queue once, or again and again until a signal ends the daemon. */
module Daemon {
  import opened Atmi
  import opened TuxedoQueue
  import Spec = QueueSpec
  import opened QueueStream
  import opened Framing
  import opened ExportTheorems
  import opened ExportRuns
  import opened Subsequences
  import ImportTheorems
  import opened Exceptions

  /** What the world does to one round: the messages that arrive before it, the replies its
      calls get, and what tpalloc leaves in its typed buffer. */
  datatype Round = Round(arrivals: seq<Bytes>, script: seq<Reply>, blank: Bytes)

  function Arrive(w: World, r: Round): World {
    w.(queue := w.queue + r.arrivals, script := r.script)
  }

  /** `lines` is everything the daemon wrote; `last` are those of the round that threw, if one
      did, and `inflight` says that the last of them shows a message still on the queue. */
  datatype Report = Report(w: World, lines: seq<Bytes>, last: seq<Bytes>, exn: Option<Exn>, inflight: bool)

  /** The rounds of a daemon whose signal arrives during the last of them. */
  function Rounds(c: Spec.Setup, w: World, env: seq<Round>): Report
    decreases |env|
  {
    if env == [] then Report(w, [], [], None, false) else
    var d := Spec.Export(c, Arrive(w, env[0]), env[0].blank);
    if d.exn.Some? then Report(d.w, d.lines, d.lines, d.exn, d.inflight)
    else Behind(d.lines, Rounds(c, d.w, env[1..]))
  }

  /** A report that starts behind what was written before. */
  function Behind(lines: seq<Bytes>, r: Report): Report {
    r.(lines := lines + r.lines)
  }

  /** What arrived in all rounds together. */
  function Arrivals(env: seq<Round>): seq<Bytes> {
    if env == [] then [] else env[0].arrivals + Arrivals(env[1..])
  }

  /** One turn of the loop: what arrived before it, then `out << qs`. */
  method OneRound(qs: QueueStream, out: OutStream, r: Round) returns (exn: Option<Exn>)
    modifies qs`count, qs.queue.tux, out
    ensures qs.bufferSize < 0 ==> exn == Some(BadArrayLength) && out.sink == old(out.sink)
    ensures qs.bufferSize >= 0 ==>
              var d := Spec.Export(qs.Setup(), Arrive(old(qs.queue.tux.world), r), r.blank);
              && qs.queue.tux.world == d.w && exn == d.exn
              && out.sink == WriteAll(old(out.sink), d.lines)
              && qs.count == |d.lines|
  {
    hide Spec.Export;
    qs.queue.tux.world := Arrive(qs.queue.tux.world, r);
    exn := qs.Export(out, r.blank);
  }

  /** queue_export::run. Every round resets the stream's own count, and still the counter is the
      number of lines written by all rounds together; a round that throws leaves out its own
      lines only. Without `daemon` there is one round. */
  method Run(qs: QueueStream, out: OutStream, daemon: bool, env: seq<Round>) returns (exn: Option<Exn>, counter: int)
    requires env != []
    modifies qs`count, qs.queue.tux, out
    ensures qs.bufferSize < 0 ==> exn == Some(BadArrayLength) && counter == 0 && out.sink == old(out.sink)
    ensures qs.bufferSize >= 0 ==>
              var r := Rounds(qs.Setup(), old(qs.queue.tux.world), if daemon then env else env[..1]);
              && qs.queue.tux.world == r.w && exn == r.exn
              && counter == |r.lines| - (if exn.Some? then |r.last| else 0)
              && out.sink == WriteAll(old(out.sink), r.lines)
  {
    exn, counter := Loop(qs, out, if daemon then env else env[..1]);
  }

  /** The do-while loop; another round follows as long as `env` has one. */
  method Loop(qs: QueueStream, out: OutStream, env: seq<Round>) returns (exn: Option<Exn>, counter: int)
    requires env != []
    modifies qs`count, qs.queue.tux, out
    ensures qs.bufferSize < 0 ==> exn == Some(BadArrayLength) && counter == 0 && out.sink == old(out.sink)
    ensures qs.bufferSize >= 0 ==>
              var r := Rounds(qs.Setup(), old(qs.queue.tux.world), env);
              && qs.queue.tux.world == r.w && exn == r.exn
              && counter == |r.lines| - (if exn.Some? then |r.last| else 0)
              && out.sink == WriteAll(old(out.sink), r.lines)
  {
    hide Spec.Export;
    hide Rounds;
    hide WriteAll;
    hide Arrive;
    counter := 0;
    exn := OneRound(qs, out, env[0]);
    ghost var c, w := old(qs.Setup()), old(qs.queue.tux.world);
    ghost var d := Spec.Export(c, Arrive(w, env[0]), env[0].blank);
    FirstRound(c, w, env);
    if exn.Some? {
      return;
    }
    counter := counter + qs.count;
    ghost var lines := d.lines;
    var i := 1;
    while i < |env|
      invariant 1 <= i <= |env| && qs.Setup() == c && qs.bufferSize >= 0
      invariant Rounds(c, w, env) == Behind(lines, Rounds(c, qs.queue.tux.world, env[i..]))
      invariant counter == |lines|
      invariant out.sink == WriteAll(old(out.sink), lines)
    {
      Regroup(old(out.sink), c, qs.queue.tux.world, env[i..], lines);
      assert env[i..][1..] == env[i + 1..];
      d := Spec.Export(c, Arrive(qs.queue.tux.world, env[i]), env[i].blank);
      exn := OneRound(qs, out, env[i]);
      if exn.Some? {
        return;
      }
      counter := counter + qs.count;
      lines := lines + d.lines;
      i := i + 1;
    }
    NoMoreRounds(c, qs.queue.tux.world, lines);
    exn := None;
  }

  lemma FirstRound(c: Spec.Setup, w: World, env: seq<Round>)
    requires env != []
    ensures var d := Spec.Export(c, Arrive(w, env[0]), env[0].blank);
            Rounds(c, w, env) == if d.exn.Some? then Report(d.w, d.lines, d.lines, d.exn, d.inflight)
                                 else Behind(d.lines, Rounds(c, d.w, env[1..]))
  {
    hide Spec.Export;
  }

  lemma NoMoreRounds(c: Spec.Setup, w: World, lines: seq<Bytes>)
    ensures Behind(lines, Rounds(c, w, [])) == Report(w, lines, [], None, false)
  {
    assert lines + [] == lines;
  }

  lemma Regroup(k: Sink, c: Spec.Setup, w: World, todo: seq<Round>, lines: seq<Bytes>)
    requires todo != []
    ensures var d := Spec.Export(c, Arrive(w, todo[0]), todo[0].blank);
            && WriteAll(k, lines + d.lines) == WriteAll(WriteAll(k, lines), d.lines)
            && Behind(lines, Rounds(c, w, todo))
               == if d.exn.Some? then Report(d.w, lines + d.lines, d.lines, d.exn, d.inflight)
                  else Behind(lines + d.lines, Rounds(c, d.w, todo[1..]))
  {
    hide Spec.Export;
    var d := Spec.Export(c, Arrive(w, todo[0]), todo[0].blank);
    WriteAllConcat(k, lines, d.lines);
    hide WriteAll;
    var rest := Rounds(c, d.w, todo[1..]);
    assert lines + (d.lines + rest.lines) == lines + d.lines + rest.lines;
  }

  /** How many rounds are begun: all of them, or those up to the one that throws. */
  function RoundsBegun(c: Spec.Setup, w: World, env: seq<Round>): (n: nat)
    ensures n <= |env|
    decreases |env|
  {
    if env == [] then 0 else
    var d := Spec.Export(c, Arrive(w, env[0]), env[0].blank);
    if d.exn.Some? then 1 else 1 + RoundsBegun(c, d.w, env[1..])
  }

  /** The stale lines of these rounds together. */
  function StaleRounds(c: Spec.Setup, w: World, env: seq<Round>): nat
    decreases |env|
  {
    if env == [] then 0 else
    var w0 := Arrive(w, env[0]);
    var d := Spec.Export(c, w0, env[0].blank);
    StaleLines(c, w0, env[0].blank) + if d.exn.Some? then 0 else StaleRounds(c, d.w, env[1..])
  }

  /** Did the last round end although messages were left? */
  predicate LastEndsEarly(c: Spec.Setup, w: World, env: seq<Round>)
    decreases |env|
  {
    env != [] &&
    var w0 := Arrive(w, env[0]);
    if |env| == 1 then EndsEarly(c, w0, env[0].blank)
    else LastEndsEarly(c, Spec.Export(c, w0, env[0].blank).w, env[1..])
  }

  /** More messages behind a queue change nothing about what a run has done to it. */
  lemma AccountsBehind(c: Codec, q: seq<Bytes>, q': seq<Bytes>, more: seq<Bytes>, lines: seq<Bytes>,
                       inflight: bool, stale: int)
    requires Accounts(c, q, q', lines, inflight, stale)
    ensures Accounts(c, q + more, q' + more, lines, inflight, stale)
  {
    var d := |q| - |q'|;
    var k := d + if inflight then 1 else 0;
    assert (q + more)[..k] == q[..k] && (q + more)[d..] == q[d..] + more;
  }

  lemma RoundAccounts(c: Spec.Setup, w: World, blank: Bytes)
    ensures var d := Spec.Export(c, w, blank);
            && Accounts(c.codec, w.queue, d.w.queue, d.lines, d.inflight, StaleLines(c, w, blank))
            && (d.exn.None? ==> !d.inflight)
            && (d.exn.Some? ==> Ends(d.w.answers, Aborting) && d.exn.value == LastRaised(d.w.answers))
  {
    hide Spec.Export;
    hide StaleLines;
    hide StaleWrites;
    hide Stutters;
    hide Subsequence;
    ExportLosesNothing(c, w, blank);
    StaleLinesAreServiceFailures(c, w, blank);
    ExportIsFaithful(c, w, blank);
    ExportThrows(c, w, blank);
  }

  lemma {:induction false} DaemonAccounts(c: Spec.Setup, w: World, env: seq<Round>)
    ensures var r := Rounds(c, w, env);
            var all := w.queue + Arrivals(env[..RoundsBegun(c, w, env)]);
            && Accounts(c.codec, all, r.w.queue, r.lines, r.inflight, StaleRounds(c, w, env))
            && (r.exn.None? ==> RoundsBegun(c, w, env) == |env| && !r.inflight)
            && (r.exn.Some? ==> Ends(r.w.answers, Aborting) && r.exn.value == LastRaised(r.w.answers))
    decreases |env|
  {
    hide Spec.Export;
    hide Accounts;
    hide StaleLines;
    hide LastRaised;
    hide Ends;
    var n := RoundsBegun(c, w, env);
    if env == [] {
      assert w.queue + [] == w.queue;
      NothingDone(c.codec, w.queue);
    } else {
      var w0 := Arrive(w, env[0]);
      var d := Spec.Export(c, w0, env[0].blank);
      var r := Rounds(c, d.w, env[1..]);
      var later := Arrivals(env[1..][..n - 1]);
      RoundAccounts(c, w0, env[0].blank);
      FirstArrivals(w, env, n);
      if d.exn.Some? {
        assert w0.queue + [] == w0.queue;
      } else {
        DaemonAccounts(c, d.w, env[1..]);
        AccountsBehind(c.codec, w0.queue, d.w.queue, later, d.lines, false, StaleLines(c, w0, env[0].blank));
        Compose(c.codec, w0.queue + later, d.w.queue + later, d.lines, StaleLines(c, w0, env[0].blank),
                r.w.queue, r.lines, r.inflight, StaleRounds(c, d.w, env[1..]));
      }
    }
  }

  /** However it ends, the daemon has lost nothing: of everything that was queued, or arrived
      before the rounds that were begun, what is left on the queue is a tail, and the lines written
      are the exports of the rest, in order, with nothing else among them but the stale lines of
      those rounds -- overlapping the queue in at most one message, when a round has thrown after a
      failed commit. It throws what that round threw. If all rounds return, a round that ends early
      leaves its messages to the next one, so the queue is empty in the end if and only if the last
      round did not end early. */
  lemma DaemonConserves(c: Spec.Setup, w: World, env: seq<Round>)
    ensures var r := Rounds(c, w, env);
            var all := w.queue + Arrivals(env[..RoundsBegun(c, w, env)]);
            && Accounts(c.codec, all, r.w.queue, r.lines, r.inflight, StaleRounds(c, w, env))
            && (r.lines == Exports(c.codec, all[..|all| - |r.w.queue| + if r.inflight then 1 else 0])
                <==> StaleRounds(c, w, env) == 0)
            && (r.exn.None? ==> RoundsBegun(c, w, env) == |env| && !r.inflight)
            && (r.exn.None? && env != [] ==> (r.w.queue == [] <==> !LastEndsEarly(c, w, env)))
            && (r.exn.Some? ==> Ends(r.w.answers, Aborting) && r.exn.value == LastRaised(r.w.answers))
  {
    hide Spec.Export;
    hide Rounds;
    hide StaleRounds;
    hide RoundsBegun;
    hide LastEndsEarly;
    hide LastRaised;
    hide Arrivals;
    DaemonAccounts(c, w, env);
    ExactWhenNotStale(c.codec, w.queue + Arrivals(env[..RoundsBegun(c, w, env)]), Rounds(c, w, env),
                      StaleRounds(c, w, env));
    hide Accounts;
    if Rounds(c, w, env).exn.None? && env != [] {
      LastRoundEmpties(c, w, env);
    }
  }

  lemma FirstArrivals(w: World, env: seq<Round>, n: nat)
    requires 0 < n <= |env|
    ensures w.queue + Arrivals(env[..n]) == Arrive(w, env[0]).queue + Arrivals(env[1..][..n - 1])
  {
    assert env[..n][1..] == env[1..][..n - 1];
  }

  lemma ExactWhenNotStale(c: Codec, all: seq<Bytes>, r: Report, stale: nat)
    requires Accounts(c, all, r.w.queue, r.lines, r.inflight, stale)
    ensures var shown := |all| - |r.w.queue| + if r.inflight then 1 else 0;
            && 0 <= shown <= |all|
            && (r.lines == Exports(c, all[..shown]) <==> stale == 0)
  {
    IsNoLonger(Exports(c, all[..|all| - |r.w.queue| + if r.inflight then 1 else 0]), r.lines);
  }

  lemma {:induction false} LastRoundEmpties(c: Spec.Setup, w: World, env: seq<Round>)
    requires Rounds(c, w, env).exn.None? && env != []
    ensures Rounds(c, w, env).w.queue == [] <==> !LastEndsEarly(c, w, env)
    decreases |env|
  {
    hide Spec.Export;
    hide StaleLines;
    hide EndsEarly;
    hide Exports;
    hide Subsequence;
    hide Every;
    var w0 := Arrive(w, env[0]);
    if |env| == 1 {
      NormalExportDrains(c, w0, env[0].blank);
    } else {
      LastRoundEmpties(c, Spec.Export(c, w0, env[0].blank).w, env[1..]);
    }
  }

  /** So, with a codec that can be undone and no stale line, whoever reads the text finds as many
      lines as the daemon has written, and in them exactly the messages that are gone from the
      queue, or in flight, but for empty ones. */
  lemma DaemonIsReadable(c: Spec.Setup, w: World, env: seq<Round>)
    requires ImportTheorems.Reversible(c.codec)
    requires StaleRounds(c, w, env) == 0
    ensures var r := Rounds(c, w, env);
            var all := w.queue + Arrivals(env[..RoundsBegun(c, w, env)]);
            var shown := |all| - |r.w.queue| + if r.inflight then 1 else 0;
            var read := Lines(Frame(r.lines));
            && |read| == |r.lines|
            && 0 <= shown <= |all|
            && ImportTheorems.Decoded(c.codec, read) == ImportTheorems.NonEmpty(all[..shown])
  {
    hide Rounds;
    hide StaleRounds;
    hide RoundsBegun;
    hide Accounts;
    hide LastEndsEarly;
    hide LastRaised;
    hide Arrivals;
    hide Frame;
    hide Lines;
    hide ImportTheorems.Reversible;
    hide ImportTheorems.Decoded;
    DaemonConserves(c, w, env);
    var r := Rounds(c, w, env);
    var all := w.queue + Arrivals(env[..RoundsBegun(c, w, env)]);
    ExactWhenNotStale(c.codec, all, r, 0);
    ReadsBack(c.codec, all[..|all| - |r.w.queue| + if r.inflight then 1 else 0]);
  }

  lemma ReadsBack(c: Codec, gone: seq<Bytes>)
    requires ImportTheorems.Reversible(c)
    ensures var read := Lines(Frame(Exports(c, gone)));
            read == Exports(c, gone) && ImportTheorems.Decoded(c, read) == ImportTheorems.NonEmpty(gone)
  {
    ImportTheorems.ExportsDecode(c, gone);
    FramingInverts(Exports(c, gone));
    var n := |ImportTheorems.NonEmpty(gone)|;
    assert Exports(c, gone)[..n] == Exports(c, gone);
    assert ImportTheorems.NonEmpty(gone)[..n] == ImportTheorems.NonEmpty(gone);
  }
}
