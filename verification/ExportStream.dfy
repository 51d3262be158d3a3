/** What an export leaves on its stream. The operator writes, counts and commits without looking
    at the state of the stream, so a stream that fails loses messages for good. */
module ExportStream {
  import opened Atmi
  import opened TuxedoQueue
  import opened QueueSpec
  import opened ExportTheorems
  import opened ExportRuns
  import opened Framing

  function Taken(k: Sink, n: nat): nat {
    if k.room.None? || n <= k.room.value then n else k.room.value
  }

  /** The stream `k`, given the exports of `q`, ends up as `data`: it holds a first part of them,
      and all of them if and only if it took as many lines as there were. */
  predicate Receives(c: Codec, k: Sink, q: seq<Bytes>, data: Bytes) {
    var sent := Exports(c, q);
    && data == k.data + Frame(sent[..Taken(k, |sent|)])
    && (data == k.data + Frame(sent) <==> k.room.None? || |sent| <= k.room.value)
  }

  /** The messages that a drain from `q` removed, or showed in flight, went to the stream. */
  predicate Streams(c: Codec, k: Sink, q: seq<Bytes>, r: Drained) {
    var gone := |q| - |r.w.queue|;
    var shown := gone + if r.inflight then 1 else 0;
    && 0 <= gone && shown <= |q|
    && r.w.queue == q[gone..]
    && Receives(c, k, q[..shown], WriteAll(k, r.lines).data)
  }

  /** On every exit the stream holds a first part of the lines written, and all of them if and
      only if it took as many as there were. The lines hold the exports of all messages removed
      or shown, so those beyond the part it took are on neither side; without stale lines that
      part is one of the exports. */
  lemma ExportToStream(c: Setup, w: World, blank: Bytes, k: Sink)
    ensures var r := Export(c, w, blank);
            var data := WriteAll(k, r.lines).data;
            && data == k.data + Frame(r.lines[..Taken(k, |r.lines|)])
            && (data == k.data + Frame(r.lines) <==> k.room.None? || |r.lines| <= k.room.value)
            && (StaleLines(c, w, blank) == 0 ==> Streams(c.codec, k, w.queue, r))
  {
    hide Export;
    hide Exports;
    hide WriteAll;
    hide Frame;
    hide StaleLines;
    hide Every;
    ExportIsFaithful(c, w, blank);
    StreamHolds(k, Export(c, w, blank).lines);
  }

  /** An export that returns normally has emptied the queue, unless it ended early, whatever
      became of the stream. */
  lemma FailedStreamLosesMessages(c: Setup, w: World, blank: Bytes, k: Sink)
    requires Export(c, w, blank).exn.None? && !EndsEarly(c, w, blank)
    ensures var r := Export(c, w, blank);
            && r.w.queue == []
            && (StaleLines(c, w, blank) == 0 ==> Receives(c.codec, k, w.queue, WriteAll(k, r.lines).data))
  {
    hide Export;
    hide Exports;
    hide WriteAll;
    hide Frame;
    hide StaleLines;
    hide EndsEarly;
    hide Every;
    NormalExportDrains(c, w, blank);
    StreamHolds(k, Export(c, w, blank).lines);
  }

  /** And so it goes when no call fails and every message fits: the queue is emptied, and the
      stream has it all if and only if it takes a line for every message that is not empty. */
  lemma QuietExportToStream(c: Setup, w: World, blank: Bytes, k: Sink)
    requires c.named && w.tx.Closed? && w.script == []
    requires forall i :: 0 <= i < |w.queue| ==> Fits(c, w.queue[i])
    ensures var r := Export(c, w, blank);
            var all := Exports(c.codec, w.queue);
            && r.exn.None? && r.w.queue == []
            && (WriteAll(k, r.lines).data == k.data + Frame(all) <==> k.room.None? || |all| <= k.room.value)
  {
    hide Export;
    hide Exports;
    hide WriteAll;
    hide Frame;
    hide StaleLines;
    hide EndsEarly;
    QuietExport(c, w, blank);
    NormalExportDrains(c, w, blank);
    StaleLinesAreServiceFailures(c, w, blank);
    FailedStreamLosesMessages(c, w, blank, k);
  }
}
