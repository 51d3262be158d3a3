/** The text format of an export: each string followed by a newline, read back by getline. */
module Framing {
  import opened Atmi

  const NEWLINE: Byte := 10

  /** What a sequence of `out.write(...) << std::endl` leaves on the stream. */
  function Frame(lines: seq<Bytes>): Bytes {
    if lines == [] then [] else lines[0] + [NEWLINE] + Frame(lines[1..])
  }

  /** The position of the first newline, or the length when there is none. */
  function LineEnd(data: Bytes): (n: nat)
    ensures n <= |data|
    ensures NEWLINE !in data[..n]
    ensures n < |data| ==> data[n] == NEWLINE
  {
    if data == [] || data[0] == NEWLINE then 0 else
    var n := 1 + LineEnd(data[1..]);
    assert data[..n] == [data[0]] + data[1..][..n - 1];
    n
  }

  /** What is left in the stream after getline: the newline is taken but not delivered. */
  function AfterLine(data: Bytes): Bytes {
    if LineEnd(data) < |data| then data[LineEnd(data) + 1..] else []
  }

  /** The lines that `while (getline(in, line))` sees; a last line needs no newline. */
  function Lines(data: Bytes): seq<Bytes>
    decreases |data|
  {
    if data == [] then [] else [data[..LineEnd(data)]] + Lines(AfterLine(data))
  }

  predicate NewlineFree(lines: seq<Bytes>) {
    forall i :: 0 <= i < |lines| ==> NEWLINE !in lines[i]
  }

  lemma {:induction false} LineEndIs(line: Bytes, rest: Bytes)
    requires NEWLINE !in line
    ensures LineEnd(line + [NEWLINE] + rest) == |line|
  {
    var data := line + [NEWLINE] + rest;
    if line != [] {
      assert line[0] in line && data[0] == line[0];
      assert data[1..] == line[1..] + [NEWLINE] + rest;
      LineEndIs(line[1..], rest);
    }
  }

  lemma {:induction false} LinesAreNewlineFree(data: Bytes)
    ensures NewlineFree(Lines(data))
    decreases |data|
  {
    if data != [] {
      LinesAreNewlineFree(AfterLine(data));
    }
  }

  lemma {:induction false} LinesOfFrame(lines: seq<Bytes>)
    requires NewlineFree(lines)
    ensures Lines(Frame(lines)) == lines
  {
    if lines != [] {
      LineEndIs(lines[0], Frame(lines[1..]));
      var data := Frame(lines);
      assert data[..|lines[0]|] == lines[0];
      assert data[|lines[0]| + 1..] == Frame(lines[1..]);
      LinesOfFrame(lines[1..]);
    }
  }

  /** Splitting inverts framing exactly for lines that hold no newline. */
  lemma FramingInverts(lines: seq<Bytes>)
    ensures Lines(Frame(lines)) == lines <==> NewlineFree(lines)
  {
    LinesAreNewlineFree(Frame(lines));
    if NewlineFree(lines) {
      LinesOfFrame(lines);
    }
  }

  lemma FrameCons(line: Bytes, lines: seq<Bytes>)
    ensures Frame([line] + lines) == line + [NEWLINE] + Frame(lines)
  {
    assert ([line] + lines)[1..] == lines;
  }

  /** And framing inverts splitting, up to the newline that a last line may lack. */
  lemma {:induction false} FrameOfLines(data: Bytes)
    ensures Frame(Lines(data)) == if data == [] || data[|data| - 1] == NEWLINE then data else data + [NEWLINE]
    decreases |data|
  {
    if data != [] {
      var line, rest := data[..LineEnd(data)], AfterLine(data);
      FrameOfLines(rest);
      FrameCons(line, Lines(rest));
      if LineEnd(data) < |data| {
        SplitLine(data);
        hide AfterLine;
        hide Frame;
        if rest != [] {
          assert data[|data| - 1] == rest[|rest| - 1];
        }
      } else {
        assert line == data;
        assert data[|data| - 1] in line;
        assert Frame(Lines(rest)) == [];
      }
    }
  }

  lemma SplitLine(data: Bytes)
    requires LineEnd(data) < |data|
    ensures data == data[..LineEnd(data)] + [NEWLINE] + AfterLine(data)
  {
    Cut(data, LineEnd(data));
  }

  lemma Cut(data: Bytes, n: nat)
    requires n < |data|
    ensures data == data[..n] + [data[n]] + data[n + 1..]
  {
  }

  // ---- the stream -----------------------------------------------------------------------------

  /** An output stream: what it holds, and how many more lines it takes before it fails (None:
      it never does). A failed stream swallows what it is given without a word. */
  datatype Sink = Sink(data: Bytes, room: Option<nat>)

  function Write(k: Sink, line: Bytes): Sink {
    if k.room == Some(0) then k
    else Sink(k.data + line + [NEWLINE], if k.room.None? then None else Some(k.room.value - 1))
  }

  function WriteAll(k: Sink, lines: seq<Bytes>): Sink
    decreases |lines|
  {
    if lines == [] then k else WriteAll(Write(k, lines[0]), lines[1..])
  }

  lemma {:induction false} WriteAllConcat(k: Sink, a: seq<Bytes>, b: seq<Bytes>)
    ensures WriteAll(k, a + b) == WriteAll(WriteAll(k, a), b)
    decreases |a|
  {
    if a == [] {
      assert a + b == b;
    } else {
      assert (a + b)[1..] == a[1..] + b;
      WriteAllConcat(Write(k, a[0]), a[1..], b);
    }
  }

  /** The stream ends up with all the lines it was given if and only if it did not fail before
      the last of them; and it never holds anything but the first lines. */
  lemma {:induction false} StreamHolds(k: Sink, lines: seq<Bytes>)
    ensures var n := if k.room.None? || |lines| <= k.room.value then |lines| else k.room.value;
            && WriteAll(k, lines).data == k.data + Frame(lines[..n])
            && (WriteAll(k, lines).data == k.data + Frame(lines) <==> n == |lines|)
    decreases |lines|
  {
    var n := if k.room.None? || |lines| <= k.room.value then |lines| else k.room.value;
    FrameGrows(lines, n);
    assert lines[..|lines|] == lines;
    if n == 0 {
      assert lines[..0] == [];
      FullSink(k, lines);
    } else {
      StreamHolds(Write(k, lines[0]), lines[1..]);
      assert lines[..n][1..] == lines[1..][..n - 1];
      assert k.data + lines[0] + [NEWLINE] + Frame(lines[1..][..n - 1])
          == k.data + (lines[0] + [NEWLINE] + Frame(lines[1..][..n - 1]));
    }
  }

  lemma {:induction false} FullSink(k: Sink, lines: seq<Bytes>)
    requires lines == [] || k.room == Some(0)
    ensures WriteAll(k, lines) == k
    decreases |lines|
  {
    if lines != [] {
      FullSink(k, lines[1..]);
    }
  }

  lemma {:induction false} FrameGrows(lines: seq<Bytes>, n: nat)
    requires n <= |lines|
    ensures |Frame(lines[..n])| <= |Frame(lines)|
    ensures n < |lines| ==> |Frame(lines[..n])| < |Frame(lines)|
    decreases |lines|
  {
    if n > 0 {
      assert lines[..n][1..] == lines[1..][..n - 1];
      FrameGrows(lines[1..], n - 1);
    }
  }
}
