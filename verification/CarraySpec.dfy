/** Tfield<char *>: a field whose value lives in a backend of its own, filled by three
    different paths, and read through a length that need not be the backend's. */
module CarraySpec {
  import opened Atmi
  import opened Fml
  import Spec = BufferSpec

  /** `backend` is what _value points to. */
  datatype State = State(backend: Option<Bytes>, length: nat, bufferSize: nat)
  {
    /** The representation invariant. */
    predicate Valid() {
      && length <= bufferSize
      && (bufferSize > 0 ==> backend.Some?)
      && (backend.Some? ==> |backend.value| == bufferSize)
    }

    /** What add and set hand to the library: the first _length bytes. */
    function Value(): Bytes
      requires Valid()
    {
      if backend.Some? then backend.value[..length] else []
    }
  }

  const FRESH := State(None, 0, 0)

  /** set_char_array: a bigger value gets a new backend, a smaller one overwrites the front of
      the old backend. */
  function SetCharArray(c: State, v: Bytes): State
    requires c.Valid()
  {
    if |v| > c.bufferSize then State(Some(v), |v|, |v|)
    else c.(length := |v|, backend := if c.backend.Some? then Some(v + c.backend.value[|v|..]) else None)
  }

  /** get_char_array: the copy is as long as the smaller of the two buffers, and so, from then
      on, is the field. */
  function GetCharArray(c: State, size: nat): (State, Bytes)
    requires c.Valid()
  {
    var n := if size < c.bufferSize then size else c.bufferSize;
    (c.(length := n), if c.backend.Some? then c.backend.value[..n] else [])
  }

  function Free(c: State): State {
    if c.backend.Some? then FRESH else c
  }

  /** Fgetalloc32: a new block with room for `extra` bytes more than the stored value; what it
      cannot find leaves the caller's count alone. */
  function GetAlloc(c: State, vs: seq<Bytes>, occ: nat, pad: nat -> Byte): (State, int, Option<Exn>) {
    if occ >= |vs| then (c.(backend := None), -1, Some(BufferException(Spec.FNOTPRES)))
    else
      var block := vs[occ] + seq(c.bufferSize, pad);
      (State(Some(block), |block|, |block|), 0, None)
  }

  /** get: the return code, or the exception. `vs` are the stored occurrences of the field. The
      path with a backend asks the library with the occurrence it was given, not with the one
      it has just set, and with _length, not with the size of the backend. */
  function Get(c: State, vs: seq<Bytes>, occ: int, pad: nat -> Byte): (State, int, Option<Exn>)
    requires c.Valid()
  {
    var occ' := if occ < 0 then 0 else occ;
    if c.bufferSize == 0 then GetAlloc(c, vs, occ', pad)
    else if occ < 0 || occ >= |vs| then (c, -1, None)
    else if |vs[occ]| > c.length then GetAlloc(Free(c), vs, occ', pad)
    else if |vs[occ]| > c.bufferSize then GetAlloc(Free(c), vs, occ', pad)
    else (c.(length := |vs[occ]|, backend := Some(vs[occ] + c.backend.value[|vs[occ]|..])), 0, None)
  }

  // ---- the invariant, over every history --------------------------------------------------------

  datatype Op =
    | SetOp(v: Bytes)
    | ReadOp(size: nat)
    | GetOp(vs: seq<Bytes>, occ: int, pad: nat -> Byte)
    | FreeOp

  function Apply(c: State, op: Op): State
    requires c.Valid()
  {
    match op
    case SetOp(v) => SetCharArray(c, v)
    case ReadOp(n) => GetCharArray(c, n).0
    case GetOp(vs, occ, pad) => Get(c, vs, occ, pad).0
    case FreeOp => Free(c)
  }

  lemma ApplyKeepsValid(c: State, op: Op)
    requires c.Valid()
    ensures Apply(c, op).Valid()
  {
  }

  ghost predicate Reaches(c: State, ops: seq<Op>, c': State)
    decreases |ops|
  {
    if ops == [] then c == c' else c.Valid() && Reaches(Apply(c, ops[0]), ops[1..], c')
  }

  lemma {:induction false} HistoryKeepsValid(c: State, ops: seq<Op>, c': State)
    requires c.Valid() && Reaches(c, ops, c')
    ensures c'.Valid()
    decreases |ops|
  {
    if ops != [] {
      ApplyKeepsValid(c, ops[0]);
      HistoryKeepsValid(Apply(c, ops[0]), ops[1..], c');
    }
  }

  /** The bytes of the backend from `n` on. */
  function Tail(c: State, n: nat): Bytes {
    if c.backend.Some? && n <= |c.backend.value| then c.backend.value[n..] else []
  }

  /** After any history of assignments, truncating reads, gets and releases, a get that returns
      other than -1 has filled the field with exactly the stored occurrence, whichever of its
      paths it took: in a new block of its size, if it is longer than the old value, or else at the
      front of the old backend, the rest of which stays. The branch for a truncated value,
      _length > _buffer_size, is never taken. What was not found shows as an exception without a
      backend, and as -1 with one, which then keeps its value. */
  lemma GetAgreesWithBuffer(ops: seq<Op>, c: State, vs: seq<Bytes>, occ: int, pad: nat -> Byte)
    requires Reaches(FRESH, ops, c)
    ensures c.Valid()
    ensures var (c', rc, e) := Get(c, vs, occ, pad);
            var occ' := if occ < 0 then 0 else occ;
            && c'.Valid()
            && (e.None? && rc != -1 ==>
                  && rc == 0 && occ' < |vs| && c'.Value() == vs[occ']
                  && (if c.bufferSize == 0 || |vs[occ']| > c.length then c'.bufferSize == |vs[occ']|
                      else c'.bufferSize == c.bufferSize && Tail(c', |vs[occ']|) == Tail(c, |vs[occ']|)))
            && (occ < 0 || occ >= |vs| || |vs[occ]| > c.length || |vs[occ]| <= c.bufferSize)
            && (e.Some? <==> c.bufferSize == 0 && occ' >= |vs|)
            && (e.None? && rc == -1 <==> c.bufferSize > 0 && (occ < 0 || occ >= |vs|))
            && (e.None? && rc == -1 ==> c' == c)
            && (e.Some? ==> e.value == BufferException(Spec.FNOTPRES) && c'.backend.None? && c'.Value() == [])
            && (rc == -1 ==> c'.length == c.length && c'.bufferSize == c.bufferSize)
  {
    HistoryKeepsValid(FRESH, ops, c);
    if 0 <= occ < |vs| {
      assert (vs[occ] + seq(0, pad)) == vs[occ];
    } else if occ < 0 < |vs| {
      assert (vs[0] + seq(0, pad)) == vs[0];
    }
  }

  /** What get_char_array copies is the field's value, cut to the size asked for, if and only
      if the size does not exceed the value or the value fills its backend; otherwise old
      bytes of the backend come after the value, up to the size. */
  lemma ReadIsValue(c: State, size: nat)
    requires c.Valid()
    ensures var (c', copy) := GetCharArray(c, size);
            var promised := c.Value()[..if size < c.length then size else c.length];
            && promised <= copy
            && |copy| == c'.length == (if size < c.bufferSize then size else c.bufferSize)
            && (copy == promised <==> size <= c.length || c.length == c.bufferSize)
            && c'.Value() == copy
  {
  }

  /** A field that has been freed is an empty one: nothing is read from it, whatever the size
      asked for, and the next get finds what is stored through the path without a backend. */
  lemma FreedIsFresh(c: State, size: nat, vs: seq<Bytes>, occ: int, pad: nat -> Byte)
    requires c.Valid()
    ensures Free(c).Value() == [] && GetCharArray(Free(c), size).1 == []
    ensures var (c', rc, e) := Get(Free(c), vs, occ, pad);
            var occ' := if occ < 0 then 0 else occ;
            && (e.None? <==> occ' < |vs|)
            && (e.None? ==> rc == 0 && c'.Value() == vs[occ'])
  {
    if (if occ < 0 then 0 else occ) < |vs| {
      assert vs[if occ < 0 then 0 else occ] + seq(0, pad) == vs[if occ < 0 then 0 else occ];
    }
  }

  /** Assign, then read with enough room: the whole value, if the backend did not outlive a
      longer one. */
  lemma SetThenRead(c: State, v: Bytes, size: nat)
    requires c.Valid() && size >= |v|
    ensures SetCharArray(c, v).Value() == v
    ensures GetCharArray(SetCharArray(c, v), size).1 == v <==> size == |v| || |v| >= c.bufferSize
  {
    var c1 := SetCharArray(c, v);
    if |v| <= c.bufferSize && c.backend.Some? {
      assert c1.backend.value[..|v|] == v;
    }
    ReadIsValue(c1, size);
  }

  /** A value assigned to one carray field and added is what any other carray field of the same
      id gets back, through whichever path its own history makes it take. */
  lemma AddThenGet(l: Layout, b: Spec.Buf, f: Spec.Field, answer: Option<int>, ops: seq<Op>, c: State, pad: nat -> Byte)
    requires Spec.Valid(l, b) && f.kind.Carray? && Reaches(FRESH, ops, c)
    requires Spec.AddField(l, b, f, answer).2.None?
    ensures c.Valid()
    ensures var (b', f', _) := Spec.AddField(l, b, f, answer);
            var (c', rc, e) := Get(c, Values(b'.store, f.id), f'.occ, pad);
            e.None? && rc == 0 && c'.Valid() && c'.Value() == f.value
  {
    Spec.AddRefines(l, b, f, answer, f.id);
    var (b', f', _) := Spec.AddField(l, b, f, answer);
    GetAgreesWithBuffer(ops, c, Values(b'.store, f.id), f'.occ, pad);
  }
}
