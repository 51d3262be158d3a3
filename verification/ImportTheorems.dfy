/** What operator>> guarantees, and what a message goes through on its way from one queue to a
    text stream and into another queue. */
module ImportTheorems {
  import opened Atmi
  import opened TuxedoQueue
  import opened QueueSpec
  import opened ExportTheorems
  import opened ExportRuns
  import opened Framing
  import opened Subsequences

  /** The messages that importing `lines` yields. */
  function Decoded(c: Codec, lines: seq<Bytes>): seq<Bytes> {
    if lines == [] then []
    else (if c.imp(lines[0]).Some? then [c.imp(lines[0]).value] else []) + Decoded(c, lines[1..])
  }

  /** Commits that were counted although the enqueue before them stored nothing. */
  function SilentPuts(t: seq<Event>): nat {
    var n := |t| - 1;
    if n < 0 then 0
    else SilentPuts(t[..n]) + if t[n] == Committed(true) && n > 0 && t[n - 1].Put? && !t[n - 1].ok then 1 else 0
  }

  lemma SilentSnoc(t: seq<Event>, e: Event)
    ensures SilentPuts(t + [e]) == SilentPuts(t)
              + if e == Committed(true) && t != [] && t[|t| - 1].Put? && !t[|t| - 1].ok then 1 else 0
  {
    assert (t + [e])[..|t|] == t;
  }

  // ---- prefix atomicity -------------------------------------------------------------------

  lemma RollbackEffect(w: World, exn: Exn, applied: bool)
    ensures var l := Rollback(w, exn, applied);
            && l.w.queue == w.queue && l.count == 0 && l.exn.Some? && l.applied == applied
            && SilentPuts(l.w.trace) == SilentPuts(w.trace)
  {
    SilentSnoc(w.trace, TpAbort(w).0.trace[|w.trace|]);
  }

  lemma StoreEffect(c: Setup, w: World, m: Bytes)
    ensures var l := StoreMessage(c, w, m);
            var silent := SilentPuts(l.w.trace) - SilentPuts(w.trace);
            && (l.exn.None? ==> l.count == 1 && !l.applied && 0 <= silent <= 1
                                && l.w.queue == if silent == 0 then w.queue + [m] else w.queue)
            && (l.exn.Some? ==> l.count == 0 && silent == 0
                                && l.w.queue == if l.applied then w.queue + [m] else w.queue)
  {
    hide Rollback;
    hide SilentPuts;
    var (w1, e1) := Begin(w);
    SilentSnoc(w.trace, Begun(e1.None?));
    if e1.Some? {
      RollbackEffect(w1, e1.value, false);
    } else {
      var (w2, r) := Enqueue(w1, c.named, m);
      if c.named {
        SilentSnoc(w1.trace, Put(TpEnqueue(w1, m).1.Success?, true));
      }
      if r.Thrown? {
        RollbackEffect(w2, r.exn, false);
      } else {
        var (w3, e3) := Commit(w2);
        SilentSnoc(w2.trace, Committed(e3.None?));
        if e3.Some? {
          RollbackEffect(w3, e3.value, |w3.queue| > |w.queue|);
        }
      }
    }
  }

  lemma LineEffect(c: Setup, w: World, line: Bytes)
    ensures var l := LoadLine(c, w, line);
            var silent := SilentPuts(l.w.trace) - SilentPuts(w.trace);
            && (l.exn.None? || l.applied ==> c.codec.imp(line).Some?)
            && (l.exn.None? ==> l.count == 1 && !l.applied && 0 <= silent <= 1
                                && l.w.queue == if silent == 0 then w.queue + [c.codec.imp(line).value] else w.queue)
            && (l.exn.Some? ==> l.count == 0 && silent == 0
                                && l.w.queue == if l.applied then w.queue + [c.codec.imp(line).value] else w.queue)
  {
    hide StoreMessage;
    var (w1, r, m) := TpImport(c.codec, w, line);
    if r.Success? {
      StoreEffect(c, w1, m.value);
    }
  }

  /** The target kept what it held and grew by the decoded first `k` lines, in order, less
      `silent` of them. */
  ghost predicate Stored(c: Codec, q: seq<Bytes>, q': seq<Bytes>, lines: seq<Bytes>, k: nat, silent: int) {
    && k <= |lines|
    && |Decoded(c, lines[..k])| == k
    && q <= q'
    && |q'| - |q| == k - silent
    && Subsequence(q'[|q|..], Decoded(c, lines[..k]))
  }

  lemma StoredCons(c: Codec, q: seq<Bytes>, q1: seq<Bytes>, q2: seq<Bytes>, lines: seq<Bytes>, k: nat, s1: int, s2: int)
    requires lines != [] && c.imp(lines[0]).Some? && 0 <= s1 <= 1
    requires q1 == if s1 == 0 then q + [c.imp(lines[0]).value] else q
    requires Stored(c, q1, q2, lines[1..], k, s2)
    ensures Stored(c, q, q2, lines, k + 1, s1 + s2)
  {
    var m := c.imp(lines[0]).value;
    var rest := Decoded(c, lines[1..][..k]);
    assert lines[..k + 1][1..] == lines[1..][..k];
    assert Decoded(c, lines[..k + 1]) == [m] + rest;
    if s1 == 0 {
      IsReflexive([m]);
      Concatenates([m], [m], q2[|q1|..], rest);
      assert q2[|q|..] == [m] + q2[|q1|..];
    } else {
      Prepends([m], q2[|q1|..], rest);
    }
  }

  lemma {:induction false} LoadStores(c: Setup, w: World, lines: seq<Bytes>)
    ensures var l := Load(c, w, lines);
            && Stored(c.codec, w.queue, l.w.queue, lines, l.count + (if l.applied then 1 else 0),
                      SilentPuts(l.w.trace) - SilentPuts(w.trace))
            && (l.exn.None? ==> l.count == |lines| && !l.applied)
    decreases |lines|
  {
    hide LoadLine;
    hide SilentPuts;
    assert lines[..0] == [];
    if lines != [] {
      LineEffect(c, w, lines[0]);
      var l := LoadLine(c, w, lines[0]);
      if l.exn.None? {
        LoadStores(c, l.w, lines[1..]);
        var rest := Load(c, l.w, lines[1..]);
        StoredCons(c.codec, w.queue, l.w.queue, rest.w.queue, lines, rest.count + (if rest.applied then 1 else 0),
                   SilentPuts(l.w.trace) - SilentPuts(w.trace), SilentPuts(rest.w.trace) - SilentPuts(l.w.trace));
      } else if l.applied {
        assert Stored(c.codec, l.w.queue, l.w.queue, lines[1..], 0, 0) by { assert lines[1..][..0] == []; }
        StoredCons(c.codec, w.queue, l.w.queue, l.w.queue, lines, 0, 0, 0);
      }
    }
  }

  /** Import is prefix-atomic. On every exit, and whatever failed, the queue holds what it held
      before, followed by decoded lines and nothing else: in order, those of the first lines --
      as many as the stream has counted, and one more if a commit reported failure but kept its
      work -- less one for each enqueue that failed in silence. So it holds exactly the decoded
      first lines if and only if there was none of those. A normal exit has counted every
      line. */
  lemma ImportIsPrefixAtomic(c: Setup, w: World, lines: seq<Bytes>)
    ensures var l := Import(c, w, lines);
            var stored := l.count + if l.applied then 1 else 0;
            var silent := SilentPuts(l.w.trace) - SilentPuts(w.trace);
            && stored <= |lines| && 0 <= silent
            && w.queue <= l.w.queue
            && |l.w.queue| == |w.queue| + stored - silent
            && Subsequence(l.w.queue[|w.queue|..], Decoded(c.codec, lines[..stored]))
            && (l.w.queue == w.queue + Decoded(c.codec, lines[..stored]) <==> silent == 0)
            && (l.exn.None? ==> l.count == |lines| && !l.applied)
  {
    hide Load;
    hide SilentPuts;
    hide Subsequence;
    var l := Import(c, w, lines);
    if Next(w).Success? {
      LoadStores(c, Consume(w), lines);
    } else {
      assert lines[..0] == [];
      IsReflexive<Bytes>([]);
      assert l.w.queue[|w.queue|..] == [];
    }
    var stored := l.count + if l.applied then 1 else 0;
    IsNoLonger(l.w.queue[|w.queue|..], Decoded(c.codec, lines[..stored]));
    assert l.w.queue == w.queue + l.w.queue[|w.queue|..];
  }

  // ---- when can an enqueue fail in silence? -----------------------------------------------

  /** TPESVCFAIL, and the diagnostic QMENOMSG, are the two failures that enqueue returns. */
  predicate Loud(r: Reply) {
    NotServiceFailure(r) && NotNoMessage(r)
  }

  /** The input on which a message is counted without being stored: with the names set and no
      transaction open, begin and commit succeed and the enqueue between them is answered with
      one of the two. */
  predicate StoresInSilence(c: Setup, w: World) {
    && c.named && w.tx.Closed? && Next(w).Success?
    && !Loud(Next(Consume(w)))
    && Next(Consume(Consume(w))).Success?
  }

  lemma StoreIsSilent(c: Setup, w: World, m: Bytes)
    ensures SilentPuts(StoreMessage(c, w, m).w.trace)
            == SilentPuts(w.trace) + if StoresInSilence(c, w) then 1 else 0
  {
    StoreEffect(c, w, m);
    hide SilentPuts;
    var (w1, e1) := Begin(w);
    var (w2, r) := Enqueue(w1, c.named, m);
    var (w3, e3) := Commit(w2);
    if e1.None? && r.Ok? && e3.None? {
      assert w1.tx == Open(w.queue);
      assert StoreMessage(c, w, m).w.queue == w3.queue;
      assert |w3.queue| > |w.queue| <==> TpEnqueue(w1, m).1.Success?;
    }
  }

  /** How many lines of a load are imported and then stored in silence. */
  function SilentLines(c: Setup, w: World, lines: seq<Bytes>): nat
    decreases |lines|
  {
    if lines == [] then 0 else
    var l := LoadLine(c, w, lines[0]);
    var (w1, r, _) := TpImport(c.codec, w, lines[0]);
    (if r.Success? && StoresInSilence(c, w1) then 1 else 0)
    + if l.exn.Some? then 0 else SilentLines(c, l.w, lines[1..])
  }

  lemma {:induction false} LoadIsSilent(c: Setup, w: World, lines: seq<Bytes>)
    ensures SilentPuts(Load(c, w, lines).w.trace) == SilentPuts(w.trace) + SilentLines(c, w, lines)
    decreases |lines|
  {
    hide StoreMessage;
    hide StoresInSilence;
    hide SilentPuts;
    if lines != [] {
      var (w1, r, m) := TpImport(c.codec, w, lines[0]);
      if r.Success? {
        StoreIsSilent(c, w1, m.value);
      }
      var l := LoadLine(c, w, lines[0]);
      if l.exn.None? {
        LoadIsSilent(c, l.w, lines[1..]);
      }
    }
  }

  /** The silent enqueues of an import, counted by what its lines are given. */
  function SilentStores(c: Setup, w: World, lines: seq<Bytes>): nat {
    if Next(w).Success? then SilentLines(c, Consume(w), lines) else 0
  }

  lemma SilentPutsAreServiceFailures(c: Setup, w: World, lines: seq<Bytes>)
    ensures SilentPuts(Import(c, w, lines).w.trace) - SilentPuts(w.trace) == SilentStores(c, w, lines)
    ensures Every(w.script, Loud) ==> SilentStores(c, w, lines) == 0
  {
    hide Load;
    hide SilentPuts;
    hide SilentLines;
    if Next(w).Success? {
      LoadIsSilent(c, Consume(w), lines);
      if Every(w.script, Loud) {
        RestEvery(w.script, Loud);
        LoadIsLoud(c, Consume(w), lines);
      }
    }
  }

  lemma StoreIsLoud(c: Setup, w: World, m: Bytes)
    requires Every(w.script, Loud)
    ensures var l := StoreMessage(c, w, m);
            && SilentPuts(l.w.trace) == SilentPuts(w.trace)
            && (l.exn.None? ==> Every(l.w.script, Loud))
  {
    StoreIsSilent(c, w, m);
    hide SilentPuts;
    hide Every;
    RestEvery(w.script, Loud);
    RestEvery(Rest(w.script), Loud);
  }

  lemma {:induction false} LoadIsLoud(c: Setup, w: World, lines: seq<Bytes>)
    requires Every(w.script, Loud)
    ensures SilentPuts(Load(c, w, lines).w.trace) == SilentPuts(w.trace)
    decreases |lines|
  {
    hide StoreMessage;
    hide SilentPuts;
    if lines != [] {
      var (w1, r, m) := TpImport(c.codec, w, lines[0]);
      if r.Success? {
        StoreIsLoud(c, w1, m.value);
        var l := StoreMessage(c, w1, m.value);
        if l.exn.None? {
          LoadIsLoud(c, l.w, lines[1..]);
        }
      }
    }
  }

  /** The target holds exactly the decoded first lines if and only if no line of the run has
      that input -- which none has unless a call is answered with one of the two failures. */
  lemma ImportIsFaithful(c: Setup, w: World, lines: seq<Bytes>)
    ensures var l := Import(c, w, lines);
            var stored := l.count + if l.applied then 1 else 0;
            && stored <= |lines|
            && (l.w.queue == w.queue + Decoded(c.codec, lines[..stored]) <==> SilentStores(c, w, lines) == 0)
            && (l.exn.None? ==> stored == |lines|)
            && (Every(w.script, Loud) ==> SilentStores(c, w, lines) == 0)
  {
    hide Import;
    hide SilentPuts;
    hide SilentStores;
    hide Every;
    ImportIsPrefixAtomic(c, w, lines);
    SilentPutsAreServiceFailures(c, w, lines);
  }

  /** With one TPESVCFAIL a line is counted, the load ends normally, and its message is lost. */
  lemma ServiceFailureLosesMessage(codec: Codec, line: Bytes)
    requires codec.imp(line).Some?
    ensures var w := World([], Closed, [Success, Success, Success, Failure(TPESVCFAIL, 0, 0, false, false, false)], []);
            var l := Import(Setup(true, 100, codec), w, [line]);
            l.exn.None? && l.count == 1 && l.w.queue == []
  {
    var w := World([], Closed, [Success, Success, Success, Failure(TPESVCFAIL, 0, 0, false, false, false)], []);
    var c := Setup(true, 100, codec);
    var w1 := TpImport(codec, Consume(w), line).0;
    var l := StoreMessage(c, w1, codec.imp(line).value);
    assert l.exn.None? && l.count == 1 && l.w.queue == [];
    assert Load(c, l.w, []) == Loaded(l.w, 0, None, false);
    assert [line][1..] == [];
  }

  // ---- round trip -------------------------------------------------------------------------

  /** What the base64 format of tpexport provides. */
  ghost predicate Reversible(c: Codec) {
    forall m: Bytes :: m != [] ==> c.imp(c.exp(m)) == Some(m) && NEWLINE !in c.exp(m)
  }

  /** The messages an export carries: an empty one is taken off the queue but writes no line. */
  function NonEmpty(q: seq<Bytes>): seq<Bytes> {
    if q == [] then [] else (if q[0] == [] then [] else [q[0]]) + NonEmpty(q[1..])
  }

  lemma {:induction false} ExportsDecode(c: Codec, q: seq<Bytes>)
    requires Reversible(c)
    ensures NewlineFree(Exports(c, q))
    ensures |Exports(c, q)| == |NonEmpty(q)|
    ensures forall k :: 0 <= k <= |NonEmpty(q)| ==> Decoded(c, Exports(c, q)[..k]) == NonEmpty(q)[..k]
  {
    if q != [] {
      ExportsDecode(c, q[1..]);
      var rest := Exports(c, q[1..]);
      if q[0] == [] {
        assert Exports(c, q) == rest && NonEmpty(q) == NonEmpty(q[1..]);
      } else {
        forall k | 0 <= k <= |NonEmpty(q)|
          ensures Decoded(c, Exports(c, q)[..k]) == NonEmpty(q)[..k]
        {
          if k > 0 {
            assert Exports(c, q)[..k][1..] == rest[..k - 1];
            assert NonEmpty(q)[..k] == [q[0]] + NonEmpty(q[1..])[..k - 1];
          }
        }
      }
    }
  }

  lemma ImportOfExports(c: Setup, w: World, q: seq<Bytes>)
    requires Reversible(c.codec)
    requires SilentStores(c, w, Exports(c.codec, q)) == 0
    ensures var l := Import(c, w, Exports(c.codec, q));
            var stored := l.count + if l.applied then 1 else 0;
            && stored <= |NonEmpty(q)|
            && l.w.queue == w.queue + NonEmpty(q)[..stored]
            && (l.exn.None? ==> l.w.queue == w.queue + NonEmpty(q))
  {
    var lines := Exports(c.codec, q);
    ExportsDecode(c.codec, q);
    hide Import;
    hide SilentStores;
    hide Every;
    hide Exports;
    ImportIsFaithful(c, w, lines);
    var l := Import(c, w, lines);
    var stored := l.count + if l.applied then 1 else 0;
    assert Decoded(c.codec, lines[..stored]) == NonEmpty(q)[..stored];
    assert NonEmpty(q)[..|NonEmpty(q)|] == NonEmpty(q);
  }

  // What an export writes can be read back, stale lines and all.

  lemma {:induction false} StuttersAreReadable(prev: Option<Bytes>, own: seq<Bytes>, lines: seq<Bytes>)
    requires Stutters(prev, own, lines)
    requires NewlineFree(own) && (prev.Some? ==> NEWLINE !in prev.value)
    ensures NewlineFree(lines)
    decreases |lines|
  {
    if lines != [] {
      if own != [] && lines[0] == own[0] && Stutters(Some(own[0]), own[1..], lines[1..]) {
        StuttersAreReadable(Some(own[0]), own[1..], lines[1..]);
      } else {
        StuttersAreReadable(prev, own, lines[1..]);
      }
    }
  }

  lemma DecodedConcat(c: Codec, line: Bytes, lines: seq<Bytes>)
    ensures Decoded(c, [line] + lines)
            == (if c.imp(line).Some? then [c.imp(line).value] else []) + Decoded(c, lines)
  {
    assert ([line] + lines)[1..] == lines;
  }

  lemma {:induction false} DecodedSubsequence(c: Codec, a: seq<Bytes>, b: seq<Bytes>)
    requires Subsequence(a, b)
    ensures Subsequence(Decoded(c, a), Decoded(c, b))
    decreases |b|
  {
    if a != [] {
      var here := if c.imp(b[0]).Some? then [c.imp(b[0]).value] else [];
      if a[0] == b[0] && Subsequence(a[1..], b[1..]) {
        DecodedSubsequence(c, a[1..], b[1..]);
        IsReflexive(here);
        Concatenates(here, here, Decoded(c, a[1..]), Decoded(c, b[1..]));
      } else {
        DecodedSubsequence(c, a, b[1..]);
        Prepends(here, Decoded(c, a), Decoded(c, b[1..]));
      }
    }
  }

  /** How many messages an export removed, or showed in flight. */
  function Shown(from: seq<Bytes>, x: Drained): int {
    |from| - |x.w.queue| + if x.inflight then 1 else 0
  }

  /** `x` drained the queue `from` and `l` appended to the queue `to`: what arrived is the first
      non-empty messages, as many as `l` stored, of those that `x` removed or showed. */
  predicate HandedOver(from: seq<Bytes>, x: Drained, to: seq<Bytes>, l: Loaded) {
    var shown := Shown(from, x);
    var stored := l.count + if l.applied then 1 else 0;
    && 0 <= shown <= |from|
    && stored <= |NonEmpty(from[..shown])|
    && l.w.queue == to + NonEmpty(from[..shown])[..stored]
  }

  /** What an export wrote to the stream comes back line by line, whatever failed, and what those
      lines decode to holds every non-empty message removed or shown, in order. */
  lemma ExportIsReadable(c: Setup, w: World, blank: Bytes)
    requires Reversible(c.codec)
    ensures var x := Export(c, w, blank);
            && Lines(Frame(x.lines)) == x.lines
            && 0 <= Shown(w.queue, x) <= |w.queue|
            && Subsequence(NonEmpty(w.queue[..Shown(w.queue, x)]), Decoded(c.codec, x.lines))
  {
    hide Export;
    hide StaleWrites;
    ExportLosesNothing(c, w, blank);
    var x := Export(c, w, blank);
    var q := w.queue[..Shown(w.queue, x)];
    var own := Exports(c.codec, q);
    ExportsDecode(c.codec, q);
    assert own[..|own|] == own && NonEmpty(q)[..|own|] == NonEmpty(q);
    StuttersAreReadable(Echo(c.codec, blank), own, x.lines);
    FramingInverts(x.lines);
    DecodedSubsequence(c.codec, own, x.lines);
  }

  /** Export one queue to a stream, and load that stream into another queue. If the export wrote
      no stale line and the import stored none in silence, then whatever else fails on either
      side, the second queue receives an initial part of the non-empty messages that the first
      export removed or showed -- the same bytes, in the same order, with nothing in between. If
      moreover neither side throws and the export did not end early, that is the whole queue. */
  lemma ExportThenImport(c1: Setup, w1: World, blank: Bytes, c2: Setup, w2: World)
    requires c1.codec == c2.codec && Reversible(c1.codec)
    requires StaleLines(c1, w1, blank) == 0
    requires SilentStores(c2, w2, Lines(Frame(Export(c1, w1, blank).lines))) == 0
    ensures var x := Export(c1, w1, blank);
            var l := Import(c2, w2, Lines(Frame(x.lines)));
            && HandedOver(w1.queue, x, w2.queue, l)
            && (x.exn.None? && l.exn.None? && !EndsEarly(c1, w1, blank) ==>
                  x.w.queue == [] && l.w.queue == w2.queue + NonEmpty(w1.queue))
  {
    hide Export;
    hide Import;
    hide Every;
    hide StaleLines;
    hide SilentStores;
    hide EndsEarly;
    hide Lines;
    hide Frame;
    hide Reversible;
    ExportIsFaithful(c1, w1, blank);
    ExportIsReadable(c1, w1, blank);
    var x := Export(c1, w1, blank);
    var shown := Shown(w1.queue, x);
    ImportOfExports(c2, w2, w1.queue[..shown]);
    if x.exn.None? && !EndsEarly(c1, w1, blank) {
      NormalExportDrains(c1, w1, blank);
      assert w1.queue[..shown] == w1.queue;
    }
  }

  /** And with stale lines and silent enqueues: what arrives is, in order, what the written lines
      decode to, less one message for each silent enqueue; and that holds every non-empty message
      the export removed or showed. */
  lemma TransferOfAllLines(c1: Setup, w1: World, blank: Bytes, c2: Setup, w2: World)
    requires c1.codec == c2.codec && Reversible(c1.codec)
    ensures var x := Export(c1, w1, blank);
            var l := Import(c2, w2, Lines(Frame(x.lines)));
            && w2.queue <= l.w.queue && Counted(l) <= |x.lines|
            && Subsequence(l.w.queue[|w2.queue|..], Decoded(c1.codec, x.lines[..Counted(l)]))
            && |l.w.queue| - |w2.queue| == Counted(l) - SilentStores(c2, w2, x.lines)
            && 0 <= Shown(w1.queue, x) <= |w1.queue|
            && Subsequence(NonEmpty(w1.queue[..Shown(w1.queue, x)]), Decoded(c1.codec, x.lines))
  {
    hide Export;
    hide Import;
    hide SilentStores;
    hide Reversible;
    hide SilentPuts;
    hide Every;
    hide Subsequence;
    ExportIsReadable(c1, w1, blank);
    var x := Export(c1, w1, blank);
    ImportIsPrefixAtomic(c2, w2, x.lines);
    SilentPutsAreServiceFailures(c2, w2, x.lines);
  }

  /** The lines an import has taken: those counted, and one whose commit failed but was kept. */
  function Counted(l: Loaded): nat {
    l.count + if l.applied then 1 else 0
  }

  /** And when nothing fails, nothing throws: the second queue ends up with all of the first,
      provided each message fits the doubled stream buffer. */
  lemma QuietTransfer(c1: Setup, w1: World, blank: Bytes, c2: Setup, w2: World)
    requires c1.codec == c2.codec && Reversible(c1.codec) && c1.named && c2.named
    requires w1.tx.Closed? && w1.script == [] && w2.tx.Closed? && w2.script == []
    requires forall i :: 0 <= i < |w1.queue| ==> Fits(c1, w1.queue[i])
    ensures var x := Export(c1, w1, blank);
            var l := Import(c2, w2, Lines(Frame(x.lines)));
            x.exn.None? && l.exn.None? && x.w.queue == [] && l.w.queue == w2.queue + NonEmpty(w1.queue)
  {
    QuietExport(c1, w1, blank);
    NormalExportDrains(c1, w1, blank);
    StaleLinesAreServiceFailures(c1, w1, blank);
    var x := Export(c1, w1, blank);
    SilentPutsAreServiceFailures(c2, w2, Lines(Frame(x.lines)));
    ExportThenImport(c1, w1, blank, c2, w2);
    ExportsDecode(c1.codec, w1.queue);
    FramingInverts(x.lines);
    ExportsImport(c1.codec, w1.queue);
    QuietLoad(c2, Consume(w2), x.lines);
  }

  lemma {:induction false} ExportsImport(c: Codec, q: seq<Bytes>)
    requires Reversible(c)
    ensures forall i :: 0 <= i < |Exports(c, q)| ==> c.imp(Exports(c, q)[i]).Some?
  {
    if q != [] {
      ExportsImport(c, q[1..]);
    }
  }

  lemma {:induction false} QuietLoad(c: Setup, w: World, lines: seq<Bytes>)
    requires c.named && w.tx.Closed? && w.script == []
    requires forall i :: 0 <= i < |lines| ==> c.codec.imp(lines[i]).Some?
    ensures Load(c, w, lines).exn.None?
    decreases |lines|
  {
    if lines != [] {
      var l := StoreMessage(c, TpImport(c.codec, w, lines[0]).0, c.codec.imp(lines[0]).value);
      assert l.exn.None? && l.w.tx.Closed? && l.w.script == [];
      QuietLoad(c, l.w, lines[1..]);
    }
  }
}
