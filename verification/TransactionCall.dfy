/** The retrying service call: which attempts it makes, what each of them sends, and what its
    caller is told in the end. */
module TransactionCall {
  import opened Atmi

  /** How the service answers one attempt. `output` is the data it returns, if any -- a failed
      attempt may return some too -- and `moved` says whether the library put it in a new
      buffer, freeing the old one. */
  datatype Answer = Answer(ok: bool, tperrno: int, urcode: int, output: Option<Bytes>, moved: bool)
  {
    predicate Sleeps() {
      !ok && (tperrno == TPETIME || tperrno == TPESVCERR)
    }
  }

  /** The typed buffers that are allocated, and an address that none of them has. */
  datatype Memory = Memory(cells: map<nat, Bytes>, next: nat)
  {
    predicate Valid() {
      forall p :: p in cells ==> p < next
    }
  }

  /** idata and ilen are passed by value; *odata is the address of the output buffer. */
  datatype Request = Request(idata: nat, ilen: nat, retries: int, delay: int)

  datatype State = State(memory: Memory, odata: nat, sent: seq<Option<Bytes>>, slept: nat, urcode: Option<int>)
  {
    predicate Valid() {
      memory.Valid() && odata in memory.cells
    }
  }

  /** What an attempt reads; None when the input buffer has been freed. */
  function Payload(m: Memory, p: nat, n: nat): Option<Bytes> {
    if p !in m.cells then None else Some(if n <= |m.cells[p]| then m.cells[p][..n] else m.cells[p])
  }

  function Deliver(s: State, a: Answer): State
    requires s.Valid()
  {
    if a.output.None? then s
    else if a.moved then
      s.(memory := Memory((s.memory.cells - {s.odata})[s.memory.next := a.output.value], s.memory.next + 1),
         odata := s.memory.next)
    else s.(memory := s.memory.(cells := s.memory.cells[s.odata := a.output.value]))
  }

  function Attempt(q: Request, s: State, a: Answer): (s': State)
    requires s.Valid()
    ensures s'.Valid()
  {
    var s1 := Deliver(s.(sent := s.sent + [Payload(s.memory, q.idata, q.ilen)]), a);
    s1.(slept := if a.Sleeps() && q.delay > 0 then s1.slept + q.delay else s1.slept,
        urcode := if a.ok then Some(a.urcode) else s1.urcode)
  }

  /** The call from attempt `i` on, against any stream of answers. */
  function CallFrom(q: Request, s: State, answers: nat -> Answer, i: nat): (s': State)
    requires s.Valid()
    ensures s'.Valid()
    decreases if q.retries > i then q.retries - i else 0
  {
    var s1 := Attempt(q, s, answers(i));
    if i + 1 <= q.retries && !answers(i).ok then CallFrom(q, s1, answers, i + 1) else s1
  }

  function Verdict(a: Answer): Result<int> {
    if a.ok then Ok(0) else HandleTperrno(a.tperrno, a.urcode)
  }

  function SleepTime(answers: nat -> Answer, i: nat, j: nat, delay: int): int
    requires i <= j
    decreases j - i
  {
    if i == j then 0
    else (if answers(i).Sleeps() && delay > 0 then delay else 0) + SleepTime(answers, i + 1, j, delay)
  }

  /** How many of the attempts from `i` to `j` failed with a timeout or a service error. */
  function Naps(answers: nat -> Answer, i: nat, j: nat): nat
    requires i <= j
    decreases j - i
  {
    if i == j then 0 else
    var a := answers(i);
    (if !a.ok && a.tperrno in {TPETIME, TPESVCERR} then 1 else 0) + Naps(answers, i + 1, j)
  }

  lemma {:induction false} SleepTimeIsNaps(answers: nat -> Answer, i: nat, j: nat, delay: int)
    requires i <= j
    ensures SleepTime(answers, i, j, delay) == if delay > 0 then Naps(answers, i, j) * delay else 0
    decreases j - i
  {
    if i < j {
      SleepTimeIsNaps(answers, i + 1, j, delay);
    }
  }

  lemma CallStep(q: Request, s: State, answers: nat -> Answer, i: nat)
    requires s.Valid()
    ensures var s1 := Attempt(q, s, answers(i));
            && s1.sent == s.sent + [Payload(s.memory, q.idata, q.ilen)]
            && CallFrom(q, s, answers, i)
               == if i + 1 <= q.retries && !answers(i).ok then CallFrom(q, s1, answers, i + 1) else s1
  {
  }

  function Limit(q: Request): nat {
    if q.retries < 0 then 1 else q.retries + 1
  }

  /** How many attempts a call makes from attempt `i` on: it goes on after a failure as long as
      there are attempts left, and only then. */
  lemma {:induction false} AttemptsMade(q: Request, s: State, answers: nat -> Answer, i: nat)
    requires s.Valid()
    requires i == 0 || i <= q.retries
    ensures var s' := CallFrom(q, s, answers, i);
            var n := |s'.sent| - |s.sent|;
            && 1 <= n && s.sent <= s'.sent
            && i + n <= Limit(q)
            && (forall k :: i <= k < i + n - 1 ==> !answers(k).ok)
            && (answers(i + n - 1).ok || i + n == Limit(q))
    decreases if q.retries > i then q.retries - i else 0
  {
    hide CallFrom;
    hide Attempt;
    CallStep(q, s, answers, i);
    var s1 := Attempt(q, s, answers(i));
    if i + 1 <= q.retries && !answers(i).ok {
      AttemptsMade(q, s1, answers, i + 1);
    }
  }

  /** A call only ever adds requests, and at least one. */
  lemma {:induction false} CallGrows(q: Request, s: State, answers: nat -> Answer, i: nat)
    requires s.Valid()
    ensures var s' := CallFrom(q, s, answers, i);
            |s.sent| < |s'.sent| && s.sent <= s'.sent
    decreases if q.retries > i then q.retries - i else 0
  {
    CallStep(q, s, answers, i);
    var s1 := Attempt(q, s, answers(i));
    hide CallFrom;
    hide Attempt;
    if i + 1 <= q.retries && !answers(i).ok {
      CallGrows(q, s1, answers, i + 1);
    }
  }

  lemma {:induction false} CallSleeps(q: Request, s: State, answers: nat -> Answer, i: nat, j: nat)
    requires s.Valid()
    requires i < j == i + |CallFrom(q, s, answers, i).sent| - |s.sent|
    ensures CallFrom(q, s, answers, i).slept == s.slept + SleepTime(answers, i, j, q.delay)
    decreases if q.retries > i then q.retries - i else 0
  {
    CallStep(q, s, answers, i);
    var s1 := Attempt(q, s, answers(i));
    assert s1.slept == s.slept + (if answers(i).Sleeps() && q.delay > 0 then q.delay else 0);
    hide CallFrom;
    hide Attempt;
    if i + 1 <= q.retries && !answers(i).ok {
      CallGrows(q, s1, answers, i + 1);
      CallSleeps(q, s1, answers, i + 1, j);
    }
  }

  lemma {:induction false} CallReturns(q: Request, s: State, answers: nat -> Answer, i: nat, j: nat)
    requires s.Valid()
    requires i < j == i + |CallFrom(q, s, answers, i).sent| - |s.sent|
    ensures CallFrom(q, s, answers, i).urcode == if answers(j - 1).ok then Some(answers(j - 1).urcode) else s.urcode
    decreases if q.retries > i then q.retries - i else 0
  {
    CallStep(q, s, answers, i);
    var s1 := Attempt(q, s, answers(i));
    assert s1.urcode == if answers(i).ok then Some(answers(i).urcode) else s.urcode;
    hide CallFrom;
    hide Attempt;
    if i + 1 <= q.retries && !answers(i).ok {
      CallGrows(q, s1, answers, i + 1);
      CallReturns(q, s1, answers, i + 1, j);
    }
  }

  class Transaction {
    var now: State

    constructor (s: State)
      ensures now == s
    {
      now := s;
    }

    /** call. It stops at the first success or after max(1, retries + 1) attempts; sleeps once
        for every timeout and service error, the last one included; hands out the user return
        code of a success only; returns 0 just when the last attempt succeeded, and else what
        handle_tperrno makes of the error of that attempt. */
    method Call(q: Request, answers: nat -> Answer) returns (r: Result<int>, ghost attempts: nat)
      requires now.Valid()
      modifies this
      ensures now == CallFrom(q, old(now), answers, 0) && now.Valid()
      ensures && 1 <= attempts <= Limit(q)
              && attempts == |now.sent| - |old(now.sent)|
              && (forall k :: 0 <= k < attempts - 1 ==> !answers(k).ok)
              && (answers(attempts - 1).ok || attempts == Limit(q))
      ensures now.slept == old(now.slept) + if q.delay > 0 then Naps(answers, 0, attempts) * q.delay else 0
      ensures now.urcode == if answers(attempts - 1).ok then Some(answers(attempts - 1).urcode) else old(now.urcode)
      ensures r == Ok(0) <==> answers(attempts - 1).ok
      ensures var last := answers(attempts - 1);
              && (!last.ok && last.tperrno == TPESVCFAIL ==> r == Ok(if last.urcode > 0 then last.urcode else -1))
              && (r.Thrown? <==> !last.ok && last.tperrno != TPESVCFAIL)
              && (r.Thrown? ==> r.exn.IsTuxedo() && r.exn.Error() == last.tperrno)
      ensures r == Verdict(answers(attempts - 1))
    {
      hide CallFrom;
      hide Attempt;
      hide HandleTperrno;
      ghost var all := CallFrom(q, now, answers, 0);
      var retry, last := 0, answers(0);
      var more := true;
      while more
        invariant now.Valid() && (retry == 0 ==> more)
        invariant |now.sent| == |old(now.sent)| + retry
        invariant retry > 0 ==> last == answers(retry - 1)
        invariant all == if more then CallFrom(q, now, answers, retry) else now
        decreases if !more then 0 else if q.retries > retry then q.retries - retry + 1 else 1
      {
        CallStep(q, now, answers, retry);
        last := answers(retry);
        now := Attempt(q, now, last);
        retry := retry + 1;
        more := retry <= q.retries && !last.ok;
      }
      attempts := retry;
      AttemptsMade(q, old(now), answers, 0);
      CallSleeps(q, old(now), answers, 0, attempts);
      CallReturns(q, old(now), answers, 0, attempts);
      SleepTimeIsNaps(answers, 0, attempts, q.delay);
      TperrnoClassification(last.tperrno, last.urcode);
      r := if last.ok then Ok(0) else HandleTperrno(last.tperrno, last.urcode);
    }
  }

  // ---- what is sent ---------------------------------------------------------------------------

  /** An answer after which a retry through the same buffer still finds the request: it brought
      no data, or exactly the bytes that were sent, where they were. */
  predicate Harmless(a: Answer, request: Bytes) {
    a.output.None?
    || (!a.moved && |request| <= |a.output.value| && a.output.value[..|request|] == request)
  }

  lemma AttemptKeepsRequest(q: Request, s: State, a: Answer, request: Bytes)
    requires s.Valid() && q.idata in s.memory.cells
    requires Payload(s.memory, q.idata, q.ilen) == Some(request) && |request| == q.ilen
    ensures var s1 := Attempt(q, s, a);
            && s1.sent == s.sent + [Some(request)]
            && (Payload(s1.memory, q.idata, q.ilen) == Some(request) <==> q.idata != s.odata || Harmless(a, request))
            && (q.idata != s.odata || Harmless(a, request) ==>
                  q.idata in s1.memory.cells && (q.idata == s1.odata <==> q.idata == s.odata))
  {
  }

  lemma {:induction false} RequestsFrom(q: Request, s: State, answers: nat -> Answer, i: nat, request: Bytes)
    requires s.Valid() && (i == 0 || i <= q.retries)
    requires q.idata in s.memory.cells && Payload(s.memory, q.idata, q.ilen) == Some(request) && |request| == q.ilen
    ensures var s' := CallFrom(q, s, answers, i);
            var m, n := |s.sent|, |s'.sent|;
            && m < n
            && ((forall k :: m <= k < n ==> s'.sent[k] == Some(request))
                <==> q.idata != s.odata || forall k :: i <= k < i + n - m - 1 ==> Harmless(answers(k), request))
    decreases if q.retries > i then q.retries - i else 0
  {
    hide Attempt;
    hide Payload;
    hide Harmless;
    hide CallFrom;
    var a := answers(i);
    var s1 := Attempt(q, s, a);
    CallGrows(q, s, answers, i);
    AttemptKeepsRequest(q, s, a, request);
    CallStep(q, s, answers, i);
    if i + 1 <= q.retries && !a.ok {
      var s' := CallFrom(q, s, answers, i);
      CallGrows(q, s1, answers, i + 1);
      NextRequest(q, s1, answers, i + 1);
      assert s'.sent[|s.sent|] == s1.sent[|s.sent|];
      if q.idata != s.odata || Harmless(a, request) {
        RequestsFrom(q, s1, answers, i + 1, request);
      }
    }
  }

  lemma NextRequest(q: Request, s: State, answers: nat -> Answer, i: nat)
    requires s.Valid() && (i == 0 || i <= q.retries)
    ensures var s' := CallFrom(q, s, answers, i);
            |s'.sent| > |s.sent| && s'.sent[|s.sent|] == Payload(s.memory, q.idata, q.ilen)
  {
    CallStep(q, s, answers, i);
    var s1 := Attempt(q, s, answers(i));
    hide CallFrom;
    hide Payload;
    if i + 1 <= q.retries && !answers(i).ok {
      CallGrows(q, s1, answers, i + 1);
    }
  }

  /** Retries resend the original request exactly when the output goes to another buffer, or
      when no attempt but the last returns data that disturbs it. */
  lemma RetriesResendRequest(q: Request, s: State, answers: nat -> Answer)
    requires s.Valid() && q.idata in s.memory.cells && q.ilen <= |s.memory.cells[q.idata]|
    ensures var s' := CallFrom(q, s, answers, 0);
            var request := s.memory.cells[q.idata][..q.ilen];
            var attempts := |s'.sent| - |s.sent|;
            && attempts >= 1
            && ((forall k :: |s.sent| <= k < |s'.sent| ==> s'.sent[k] == Some(request))
                <==> q.idata != s.odata || forall k :: 0 <= k < attempts - 1 ==> Harmless(answers(k), request))
  {
    RequestsFrom(q, s, answers, 0, s.memory.cells[q.idata][..q.ilen]);
  }

  // ---- call ( buffer ) --------------------------------------------------------------------------

  /** The overload that uses one fielded buffer both ways: the pointer the wrapper holds
      afterwards. `fml32`: the buffer that came back is of that type. */
  function WrapperAfter(wrapper: nat, s': State, verdict: Result<int>, fml32: bool): nat {
    if verdict.Ok? && fml32 then s'.odata else wrapper
  }

  predicate Moves(a: Answer) {
    a.output.Some? && a.moved
  }

  lemma AttemptMoves(q: Request, s: State, a: Answer)
    requires s.Valid() && q.idata < s.memory.next
    requires q.idata == s.odata || q.idata !in s.memory.cells
    ensures var s1 := Attempt(q, s, a);
            && q.idata < s1.memory.next
            && (if q.idata == s.odata && !Moves(a) then q.idata == s1.odata else q.idata !in s1.memory.cells)
  {
  }

  lemma {:induction false} OldBufferFrom(q: Request, s: State, answers: nat -> Answer, i: nat)
    requires s.Valid() && (i == 0 || i <= q.retries) && q.idata < s.memory.next
    requires q.idata == s.odata || q.idata !in s.memory.cells
    ensures var s' := CallFrom(q, s, answers, i);
            var n := |s'.sent| - |s.sent|;
            && (q.idata in s'.memory.cells <==>
                  q.idata == s.odata && forall k :: i <= k < i + n ==> !Moves(answers(k)))
            && (q.idata in s'.memory.cells ==> s'.odata == q.idata)
    decreases if q.retries > i then q.retries - i else 0
  {
    hide Attempt;
    hide CallFrom;
    hide Moves;
    var s1 := Attempt(q, s, answers(i));
    CallGrows(q, s, answers, i);
    AttemptMoves(q, s, answers(i));
    CallStep(q, s, answers, i);
    if i + 1 <= q.retries && !answers(i).ok {
      CallGrows(q, s1, answers, i + 1);
      OldBufferFrom(q, s1, answers, i + 1);
    }
  }

  /** After call ( buffer ) returns, the wrapper holds the buffer that the last attempt
      produced, and that buffer is allocated. When it throws, the wrapper keeps its old
      pointer, which is still good if and only if no attempt moved the buffer. */
  lemma WrapperHoldsLiveBuffer(q: Request, s: State, answers: nat -> Answer, fml32: bool)
    requires s.Valid() && q.idata == s.odata
    ensures var s' := CallFrom(q, s, answers, 0);
            var attempts := |s'.sent| - |s.sent|;
            && attempts >= 1
            && (var verdict := Verdict(answers(attempts - 1));
                var wrapper := WrapperAfter(s.odata, s', verdict, fml32);
                && (verdict.Ok? && fml32 ==> wrapper == s'.odata && wrapper in s'.memory.cells)
                && (wrapper in s'.memory.cells <==>
                      (verdict.Ok? && fml32) || forall k :: 0 <= k < attempts ==> !Moves(answers(k))))
  {
    AttemptsMade(q, s, answers, 0);
    OldBufferFrom(q, s, answers, 0);
  }

  // ---- acall --------------------------------------------------------------------------------------

  /** acall ( char *, long ): what it returns and what it leaves in _call_descriptor. `rc` is
      what tpacall returned. */
  function AcallRaw(rc: int, tperrno: int, urcode: int): (Result<int>, int) {
    if rc < 0 then (HandleTperrno(tperrno, urcode), -1) else (Ok(rc), rc)
  }

  /** acall ( buffer ) judges once more what that overload returns. */
  function Acall(rc: int, tperrno: int, urcode: int): (Result<int>, int) {
    var (r, d) := AcallRaw(rc, tperrno, urcode);
    if r.Thrown? then (r, d)
    else if r.value < 0 then (HandleTperrno(tperrno, urcode), d)
    else (r, r.value)
  }

  /** The descriptor kept for the reply is the one tpacall gave, and -1 when it gave none --
      except after a TPESVCFAIL with a positive user return code, which acall ( buffer ) takes
      for a descriptor and keeps. */
  lemma AcallDescriptor(rc: int, tperrno: int, urcode: int)
    ensures var (r, d) := Acall(rc, tperrno, urcode);
            && (d == (if rc < 0 then -1 else rc) <==> !(rc < 0 && tperrno == TPESVCFAIL && urcode > 0))
            && (rc < 0 && tperrno == TPESVCFAIL && urcode > 0 ==> d == urcode)
            && (rc >= 0 ==> r == Ok(rc))
            && (rc < 0 ==> r == HandleTperrno(tperrno, urcode))
  {
  }
}
