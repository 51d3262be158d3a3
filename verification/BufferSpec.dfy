/** What the buffer and its fields do to the stored fields and to the allocation, and what
    holds of every sequence of such operations. */
module BufferSpec {
  import opened Atmi
  import opened Fml

  const FNOSPACE := 3
  const FNOTPRES := 4
  const NUL: Byte := 0

  /** An allocated buffer: its content, its size in bytes, and the wrapper's _extent. */
  datatype Buf = Buf(store: Store, size: nat, extent: nat)

  predicate Fits(l: Layout, b: Buf) {
    l.Used(b.store) <= b.size
  }

  ghost predicate Valid(l: Layout, b: Buf) {
    l.Valid() && Sorted(b.store) && Fits(l, b)
  }

  datatype Kind = Fixed | Text | Carray

  /** A Tfield: its current value and the occurrence it last dealt with. */
  datatype Field = Field(kind: Kind, id: int, occ: nat, value: Bytes)
  {
    /** The bytes the library stores for this value: a string ends at its first NUL, whatever
        length it is said to have. */
    function Stored(): Bytes {
      if kind.Text? then CStr(value) + [NUL] else value
    }

    /** field::needed: the value's own length, which leaves out the NUL of a string. */
    function Needed(l: Layout): nat {
      l.Needed(if |value| > 0 then |value| else 1)
    }

    /** What the library supplies for occurrences that a set skips. */
    function Null(): Bytes {
      match kind
      case Fixed => seq(|value|, _ => NUL)
      case Text => [NUL]
      case Carray => []
    }

    predicate Addable() {
      kind.Fixed? || value != []
    }
  }

  function CStr(s: Bytes): Bytes {
    if s == [] || s[0] == NUL then [] else [s[0]] + CStr(s[1..])
  }

  // ---- buffer.cpp ---------------------------------------------------------------------------

  /** resize. `answer` is the tperrno of a tprealloc that fails; _extent is overwritten before
      the library is asked. */
  function Resize(b: Buf, n: nat, answer: Option<int>): (Buf, Option<Exn>) {
    if answer.Some? then (b.(extent := n), Some(TuxedoException(answer.value)))
    else (b.(extent := n, size := n), None)
  }

  function Extend(b: Buf, answer: Option<int>): (Buf, Option<Exn>) {
    Resize(b, b.size + b.extent, answer)
  }

  function Pack(l: Layout, b: Buf, answer: Option<int>): (Buf, Option<Exn>) {
    Resize(b, l.Used(b.store), answer)
  }

  // ---- the fields -----------------------------------------------------------------------------

  /** The guard before every add. */
  predicate Tight(l: Layout, b: Buf, f: Field) {
    f.Needed(l) + l.Used(b.store) >= b.size
  }

  function AddField(l: Layout, b: Buf, f: Field, answer: Option<int>): (Buf, Field, Option<Exn>) {
    if !f.Addable() then (b, f, Some(AtmiException)) else
    var (b1, e1) := if Tight(l, b, f) then Extend(b, answer) else (b, None);
    if e1.Some? then (b1, f, e1)
    else if l.Used(b1.store) + l.Cost(f.Stored()) > b1.size then (b1, f, Some(BufferException(FNOSPACE)))
    else
      var s := Insert(b1.store, f.id, f.Stored());
      var n := |Values(s, f.id)|;
      (b1.(store := s), f.(occ := if n == 0 then 0 else n - 1), None)
  }

  /** get for the fixed-size and string fields; the occurrence moves even when there is none. */
  function GetField(b: Buf, f: Field, occ: int): (Field, Option<Exn>) {
    var f1 := f.(occ := if occ < 0 then 0 else occ);
    var vs := Values(b.store, f.id);
    if f1.occ < |vs| then (f1.(value := if f.kind.Text? then CStr(vs[f1.occ]) else vs[f1.occ]), None)
    else (f1, Some(BufferException(FNOTPRES)))
  }

  function AddMany(s: Store, id: int, vs: seq<Bytes>): Store
    decreases |vs|
  {
    if vs == [] then s else AddMany(Insert(s, id, vs[0]), id, vs[1..])
  }

  /** The store that Fchg32 wants to make: an occurrence past the end is added, with null
      values in between. */
  function Changed(s: Store, f: Field): Store {
    var n := |Values(s, f.id)|;
    if f.occ < n then Replace(s, f.id, f.occ, f.Stored())
    else AddMany(s, f.id, seq(f.occ - n, _ => f.Null()) + [f.Stored()])
  }

  /** set has no guard: it fails when the buffer as it stands has no room. */
  function SetField(l: Layout, b: Buf, f: Field): (Buf, Option<Exn>) {
    var s := Changed(b.store, f);
    if l.Used(s) > b.size then (b, Some(BufferException(FNOSPACE))) else (b.(store := s), None)
  }

  function RemoveField(b: Buf, f: Field): (Buf, Option<Exn>) {
    if f.occ < |Values(b.store, f.id)| then (b.(store := Delete(b.store, f.id, f.occ)), None)
    else (b, Some(BufferException(FNOTPRES)))
  }

  // ---- strings --------------------------------------------------------------------------------

  lemma {:induction false} CStrReadsBack(s: Bytes)
    ensures CStr(CStr(s) + [NUL]) == CStr(s)
    ensures CStr(s) <= s && NUL !in CStr(s)
    ensures CStr(s) != s ==> s[|CStr(s)|] == NUL
    ensures CStr(s) == s <==> NUL !in s
  {
    if s != [] {
      CStrReadsBack(s[1..]);
      assert NUL in s <==> s[0] == NUL || NUL in s[1..];
      if s[0] != NUL {
        assert (CStr(s) + [NUL])[1..] == CStr(s[1..]) + [NUL];
        assert CStr(s) == s <==> CStr(s[1..]) == s[1..] by {
          assert CStr(s)[1..] == CStr(s[1..]);
          assert s == [s[0]] + s[1..];
        }
      }
    }
  }

  /** What the library stores of a string is its bytes up to and with the first NUL, of any other
      value all of it. */
  lemma StoredIsCString(f: Field)
    ensures var s := f.Stored();
            if f.kind.Text? then
              && s != [] && s <= f.value + [NUL]
              && s[|s| - 1] == NUL && NUL !in s[..|s| - 1]
            else s == f.value
  {
    CStrReadsBack(f.value);
  }

  // ---- add ------------------------------------------------------------------------------------

  /** A successful add appends one value to one field and touches nothing else, and the field
      then stands at the occurrence it added. An add that throws stores nothing. */
  lemma AddRefines(l: Layout, b: Buf, f: Field, answer: Option<int>, j: int)
    requires Valid(l, b)
    ensures var (b', f', e) := AddField(l, b, f, answer);
            && Valid(l, b')
            && (e.Some? ==> b'.store == b.store && f' == f)
            && (e.None? ==>
                  && Values(b'.store, j) == Values(b.store, j) + (if j == f.id then [f.Stored()] else [])
                  && |b'.store| == |b.store| + 1
                  && f' == f.(occ := |Values(b.store, f.id)|))
  {
    InsertSorts(b.store, f.id, f.Stored());
    InsertUses(l, b.store, f.id, f.Stored());
    InsertRefines(b.store, f.id, f.Stored(), j);
    InsertRefines(b.store, f.id, f.Stored(), f.id);
    hide Insert;
    hide Values;
  }

  /** What was added is what any field of the same kind and id reads back at the occurrence
      that add reports -- a string exactly when it holds no NUL. */
  lemma AddThenGet(l: Layout, b: Buf, f: Field, answer: Option<int>, g: Field)
    requires Valid(l, b) && g.kind == f.kind && g.id == f.id
    requires AddField(l, b, f, answer).2.None?
    ensures var (b', f', _) := AddField(l, b, f, answer);
            var (g', e) := GetField(b', g, f'.occ);
            && e.None? && g'.occ == f'.occ
            && (g'.value == f.value <==> (f.kind.Text? ==> NUL !in f.value))
  {
    AddRefines(l, b, f, answer, f.id);
    CStrReadsBack(f.value);
    hide AddField;
  }

  /** An add has four outcomes, told apart before it is made. An empty string or carray throws
      the atmi_exception and touches nothing. Otherwise the buffer grows by _extent if and only if
      the guard says so, which throws the library's own error if the reallocation fails; and then
      the value is stored if and only if there is room for it. */
  lemma AddOutcome(l: Layout, b: Buf, f: Field, answer: Option<int>)
    requires Valid(l, b)
    ensures var (b', f', e) := AddField(l, b, f, answer);
            var empty := !f.kind.Fixed? && |f.value| == 0;
            var needed := l.Needed(if f.value == [] then 1 else |f.value|);
            var grows := needed + l.Used(b.store) >= b.size;
            var room := b.size + if grows then b.extent else 0;
            if empty then e == Some(AtmiException) && b' == b && f' == f
            else if grows && answer.Some? then
              && e == Some(TuxedoException(answer.value))
              && b' == b.(extent := room) && f' == f
            else
              && b'.size == room && b'.extent == (if grows then room else b.extent)
              && (e.None? <==> l.Used(b.store) + l.Cost(f.Stored()) <= room)
              && (e.None? ==> |b'.store| == |b.store| + 1 && l.Used(b'.store) == l.Used(b.store) + l.Cost(f.Stored()))
              && (e.Some? ==> e.value == BufferException(FNOSPACE) && b'.store == b.store && f' == f)
  {
    AddRefines(l, b, f, answer, f.id);
    InsertUses(l, b.store, f.id, f.Stored());
    hide Insert;
    hide Values;
  }

  /** When does an add fail for want of space? Only if the guard has extended the buffer and
      the extension was too small. In particular one extension by at least needed() is always
      enough, and an add that the guard lets through always has room -- even for the NUL of a
      string, which needed() does not count. */
  lemma OneExtensionIsEnough(l: Layout, b: Buf, f: Field, answer: Option<int>)
    requires Valid(l, b) && f.Addable()
    ensures var e := AddField(l, b, f, answer).2;
            && (e == Some(BufferException(FNOSPACE))
                <==> answer.None? && Tight(l, b, f) && l.Used(b.store) + l.Cost(f.Stored()) > b.size + b.extent)
            && (f.Needed(l) <= b.extent && answer.None? ==> e.None?)
            && (!Tight(l, b, f) ==> e.None?)
  {
    CStrReadsBack(f.value);
  }

  /** After a successful pack the next add doubles a buffer that is exactly full. It succeeds
      if and only if the field costs no more than everything stored so far. */
  lemma AddAfterPack(l: Layout, b: Buf, f: Field)
    requires Valid(l, b) && f.Addable()
    ensures var p := Pack(l, b, None).0;
            && Valid(l, p) && p.store == b.store && p.size == p.extent == l.Used(b.store)
            && (AddField(l, p, f, None).2.None? <==> l.Cost(f.Stored()) <= l.Used(b.store))
  {
  }

  // ---- set and remove -------------------------------------------------------------------------

  lemma {:induction false} UsedAtLeastHeader(l: Layout, s: Store)
    ensures l.Used(s) >= l.header
  {
    if s != [] {
      UsedAtLeastHeader(l, s[1..]);
    }
  }

  lemma {:induction false} AddManyRefines(s: Store, id: int, vs: seq<Bytes>, j: int)
    requires Sorted(s)
    ensures Sorted(AddMany(s, id, vs))
    ensures |AddMany(s, id, vs)| == |s| + |vs|
    ensures Values(AddMany(s, id, vs), j) == Values(s, j) + if j == id then vs else []
    decreases |vs|
  {
    if vs != [] {
      InsertSorts(s, id, vs[0]);
      InsertRefines(s, id, vs[0], j);
      AddManyRefines(Insert(s, id, vs[0]), id, vs[1..], j);
      assert [vs[0]] + vs[1..] == vs;
    }
  }

  /** The bytes that a set adds: the difference of two values, or the new value and the null
      values before it. */
  function Growth(l: Layout, before: seq<Bytes>, f: Field): int {
    if f.occ < |before| then l.Cost(f.Stored()) - l.Cost(before[f.occ])
    else (f.occ - |before|) * l.Cost(f.Null()) + l.Cost(f.Stored())
  }

  function Costs(l: Layout, vs: seq<Bytes>): nat {
    if vs == [] then 0 else l.Cost(vs[0]) + Costs(l, vs[1..])
  }

  lemma {:induction false} AddManyUses(l: Layout, s: Store, id: int, vs: seq<Bytes>)
    ensures l.Used(AddMany(s, id, vs)) == l.Used(s) + Costs(l, vs)
    decreases |vs|
  {
    if vs != [] {
      InsertUses(l, s, id, vs[0]);
      AddManyUses(l, Insert(s, id, vs[0]), id, vs[1..]);
    }
  }

  lemma {:induction false} CostsOfNulls(l: Layout, v: Bytes, n: nat, last: Bytes)
    ensures Costs(l, seq(n, _ => v) + [last]) == n * l.Cost(v) + l.Cost(last)
  {
    var vs := seq(n, _ => v) + [last];
    if n == 0 {
      assert Costs(l, vs[1..]) == 0;
    } else {
      assert vs[0] == v && vs[1..] == seq(n - 1, _ => v) + [last];
      CostsOfNulls(l, v, n - 1, last);
      OneMore(n, l.Cost(v));
    }
  }

  lemma OneMore(n: nat, c: nat)
    requires n > 0
    ensures n * c == c + (n - 1) * c
  {
  }

  /** A set succeeds if and only if the buffer has room for the bytes it adds, and then adds
      exactly those; it throws for want of room and for nothing else. */
  lemma SetSucceeds(l: Layout, b: Buf, f: Field)
    ensures var (b', e) := SetField(l, b, f);
            var growth := Growth(l, Values(b.store, f.id), f);
            && (e.None? <==> l.Used(b.store) + growth <= b.size)
            && (e.None? ==> l.Used(b'.store) == l.Used(b.store) + growth)
            && (e.Some? ==> e.value == BufferException(FNOSPACE))
  {
    var n := |Values(b.store, f.id)|;
    if f.occ < n {
      ReplaceUses(l, b.store, f.id, f.occ, f.Stored());
    } else {
      AddManyUses(l, b.store, f.id, seq(f.occ - n, _ => f.Null()) + [f.Stored()]);
      CostsOfNulls(l, f.Null(), f.occ - n, f.Stored());
    }
  }

  /** A set on an occurrence that exists changes that occurrence and nothing else; a set past
      the end fills up with null values. It throws if and only if there is no room, and then
      changes nothing. */
  lemma SetFrame(l: Layout, b: Buf, f: Field, j: int)
    requires Valid(l, b)
    ensures var (b', e) := SetField(l, b, f);
            var before, after := Values(b.store, f.id), Values(b'.store, f.id);
            && (e.None? <==> l.Used(b.store) + Growth(l, before, f) <= b.size)
            && (e.Some? ==> e.value == BufferException(FNOSPACE))
            && Valid(l, b') && b'.size == b.size && b'.extent == b.extent
            && (e.Some? ==> b' == b)
            && (j != f.id ==> Values(b'.store, j) == Values(b.store, j))
            && (e.None? && f.occ < |before| ==> after == before[f.occ := f.Stored()] && |b'.store| == |b.store|)
            && (e.None? && f.occ >= |before| ==>
                  && after == before + seq(f.occ - |before|, _ => f.Null()) + [f.Stored()]
                  && |b'.store| == |b.store| + f.occ - |before| + 1)
  {
    SetSucceeds(l, b, f);
    var n := |Values(b.store, f.id)|;
    if f.occ < n {
      ReplaceSorts(b.store, f.id, f.occ, f.Stored());
      ReplaceRefines(b.store, f.id, f.occ, f.Stored(), j);
      ReplaceRefines(b.store, f.id, f.occ, f.Stored(), f.id);
    } else {
      var vs := seq(f.occ - n, _ => f.Null()) + [f.Stored()];
      AddManyRefines(b.store, f.id, vs, j);
      AddManyRefines(b.store, f.id, vs, f.id);
    }
  }

  /** A remove takes out exactly the field's own occurrence, moves the later ones down by one,
      and leaves every other field alone. */
  lemma RemoveFrame(l: Layout, b: Buf, f: Field, j: int)
    requires Valid(l, b)
    ensures var (b', e) := RemoveField(b, f);
            && Valid(l, b') && b'.size == b.size && b'.extent == b.extent
            && (e.Some? <==> f.occ >= |Values(b.store, f.id)|)
            && (e.Some? ==> e.value == BufferException(FNOTPRES) && b' == b)
            && (e.None? ==>
                  && |b'.store| == |b.store| - 1
                  && Values(b'.store, j)
                     == if j == f.id then Without(Values(b.store, f.id), f.occ) else Values(b.store, j))
  {
    if f.occ < |Values(b.store, f.id)| {
      DeleteSorts(b.store, f.id, f.occ);
      DeleteRefines(b.store, f.id, f.occ, j);
      DeleteUses(l, b.store, f.id, f.occ);
    }
  }

  // ---- whole runs refine a map ----------------------------------------------------------------

  datatype Op = Add(f: Field, answer: Option<int>) | Set(f: Field) | Remove(f: Field) | Packing(answer: Option<int>)

  /** One operation; the flag says whether it returned. */
  function Apply(l: Layout, b: Buf, op: Op): (Buf, bool) {
    match op
    case Add(f, a) => var (b', _, e) := AddField(l, b, f, a); (b', e.None?)
    case Set(f) => var (b', e) := SetField(l, b, f); (b', e.None?)
    case Remove(f) => var (b', e) := RemoveField(b, f); (b', e.None?)
    case Packing(a) => var (b', e) := Pack(l, b, a); (b', e.None?)
  }

  function Run(l: Layout, b: Buf, ops: seq<Op>): (Buf, seq<bool>)
    decreases |ops|
  {
    if ops == [] then (b, []) else
    var (b1, ok) := Apply(l, b, ops[0]);
    var (b2, oks) := Run(l, b1, ops[1..]);
    (b2, [ok] + oks)
  }

  type Model = map<int, seq<Bytes>>

  function Lookup(m: Model, id: int): seq<Bytes> {
    if id in m then m[id] else []
  }

  /** The same operations on a plain map, without sizes, order or layout. */
  function ModelApply(m: Model, op: Op): Model {
    match op
    case Add(f, _) => m[f.id := Lookup(m, f.id) + [f.Stored()]]
    case Set(f) =>
      var vs := Lookup(m, f.id);
      m[f.id := if f.occ < |vs| then vs[f.occ := f.Stored()]
                else vs + seq(f.occ - |vs|, _ => f.Null()) + [f.Stored()]]
    case Remove(f) => if f.occ < |Lookup(m, f.id)| then m[f.id := Without(m[f.id], f.occ)] else m
    case Packing(_) => m
  }

  function ModelRun(m: Model, ops: seq<Op>, oks: seq<bool>): Model
    requires |ops| == |oks|
    decreases |ops|
  {
    if ops == [] then m
    else ModelRun(if oks[0] then ModelApply(m, ops[0]) else m, ops[1..], oks[1..])
  }

  ghost predicate Represents(s: Store, m: Model) {
    forall id :: Values(s, id) == Lookup(m, id)
  }

  lemma ApplyRefines(l: Layout, b: Buf, m: Model, op: Op, id: int)
    requires Valid(l, b) && Represents(b.store, m)
    ensures var (b', ok) := Apply(l, b, op);
            && Valid(l, b')
            && Values(b'.store, id) == Lookup(if ok then ModelApply(m, op) else m, id)
  {
    hide Valid;
    hide Values;
    match op
    case Add(f, a) => AddRefines(l, b, f, a, id); hide AddField;
    case Set(f) => SetFrame(l, b, f, id); hide SetField;
    case Remove(f) => RemoveFrame(l, b, f, id); hide RemoveField;
    case Packing(a) => PackKeeps(l, b, a);
  }

  lemma RepresentsAfter(l: Layout, b: Buf, m: Model, op: Op)
    requires Valid(l, b) && Represents(b.store, m)
    ensures var (b', ok) := Apply(l, b, op);
            Represents(b'.store, if ok then ModelApply(m, op) else m)
  {
    hide Valid;
    hide Apply;
    hide ModelApply;
    var (b', ok) := Apply(l, b, op);
    forall id ensures Values(b'.store, id) == Lookup(if ok then ModelApply(m, op) else m, id) {
      ApplyRefines(l, b, m, op, id);
    }
  }

  lemma PackKeeps(l: Layout, b: Buf, answer: Option<int>)
    requires Valid(l, b)
    ensures var (b', e) := Pack(l, b, answer);
            Valid(l, b') && b'.store == b.store
  {
  }

  /** The buffer refines a map: for every interleaving of operations on any fields, with any
      of them failing, each field holds the values that the same operations leave in a map
      from identifiers to value sequences -- with an add appending, so that get(f, i) returns
      the i-th value added to f. */
  lemma {:induction false} BufferRefinesMap(l: Layout, b: Buf, m: Model, ops: seq<Op>)
    requires Valid(l, b) && Represents(b.store, m)
    ensures var (b', oks) := Run(l, b, ops);
            && |oks| == |ops|
            && Valid(l, b')
            && Represents(b'.store, ModelRun(m, ops, oks))
    decreases |ops|
  {
    hide Valid;
    hide Represents;
    hide Apply;
    hide ModelApply;
    if ops != [] {
      var (b1, ok) := Apply(l, b, ops[0]);
      ApplyRefines(l, b, m, ops[0], 0);
      assert Represents(b1.store, if ok then ModelApply(m, ops[0]) else m) by {
        RepresentsAfter(l, b, m, ops[0]);
      }
      BufferRefinesMap(l, b1, if ok then ModelApply(m, ops[0]) else m, ops[1..]);
      var oks := Run(l, b1, ops[1..]).1;
      assert ([ok] + oks)[1..] == oks;
    }
  }

  /** The values that the adds of a run gave to one field, in order. */
  function Added(ops: seq<Op>, oks: seq<bool>, id: int): seq<Bytes>
    requires |ops| == |oks|
    decreases |ops|
  {
    if ops == [] then []
    else (if ops[0].Add? && oks[0] && ops[0].f.id == id then [ops[0].f.Stored()] else [])
         + Added(ops[1..], oks[1..], id)
  }

  /** For any interleaving of adds on any fields, starting from an empty buffer, get(f, i)
      returns the i-th value that was added to f, or the first for a negative i, and throws when
      there was none. */
  lemma GetReturnsIthAdded(l: Layout, b: Buf, ops: seq<Op>, f: Field, occ: int)
    requires Valid(l, b) && b.store == [] && forall k :: 0 <= k < |ops| ==> ops[k].Add? || ops[k].Packing?
    ensures var (b', oks) := Run(l, b, ops);
            && |oks| == |ops|
            && (var (f', e) := GetField(b', f, occ);
                var added, i := Added(ops, oks, f.id), if occ < 0 then 0 else occ;
                && f'.occ == i
                && (e.None? <==> i < |added|)
                && (e.Some? ==> e.value == BufferException(FNOTPRES) && f'.value == f.value)
                && (e.None? ==> f'.value == if f.kind.Text? then CStr(added[i]) else added[i]))
  {
    AddsAppend(l, b, ops, f.id);
    hide Run;
  }

  lemma ApplyAppends(l: Layout, b: Buf, op: Op, id: int)
    requires Valid(l, b) && (op.Add? || op.Packing?)
    ensures var (b', ok) := Apply(l, b, op);
            && Valid(l, b')
            && Values(b'.store, id) == Values(b.store, id)
                                       + if op.Add? && ok && op.f.id == id then [op.f.Stored()] else []
  {
    hide Valid;
    hide Values;
    assert Values(b.store, id) + [] == Values(b.store, id);
    match op
    case Add(f, a) => AddRefines(l, b, f, a, id); hide AddField;
    case Packing(a) => PackKeeps(l, b, a);
  }

  lemma {:induction false} AddsAppend(l: Layout, b: Buf, ops: seq<Op>, id: int)
    requires Valid(l, b) && forall k :: 0 <= k < |ops| ==> ops[k].Add? || ops[k].Packing?
    ensures var (b', oks) := Run(l, b, ops);
            |oks| == |ops| && Values(b'.store, id) == Values(b.store, id) + Added(ops, oks, id)
    decreases |ops|
  {
    hide Valid;
    hide Values;
    hide Apply;
    if ops != [] {
      var (b1, ok) := Apply(l, b, ops[0]);
      ApplyAppends(l, b, ops[0], id);
      AddsAppend(l, b1, ops[1..], id);
      var oks := Run(l, b1, ops[1..]).1;
      assert ([ok] + oks)[1..] == oks;
    }
  }

  // ---- growth -----------------------------------------------------------------------------------

  /** No reallocation fails. */
  predicate Quiet(ops: seq<Op>) {
    forall i :: 0 <= i < |ops| ==> (ops[i].Add? || ops[i].Packing? ==> ops[i].answer.None?)
  }

  /** _extent follows the allocated size through every run in which no reallocation fails. */
  lemma {:induction false} ExtentIsSize(l: Layout, b: Buf, ops: seq<Op>)
    requires Quiet(ops) && b.extent == b.size
    ensures var b' := Run(l, b, ops).0;
            b'.extent == b'.size
    decreases |ops|
  {
    if ops != [] {
      ExtentIsSize(l, Apply(l, b, ops[0]).0, ops[1..]);
    }
  }

  /** Helper, the one step behind ExtentTracksSize: a reallocation that fails throws after
      _extent has been changed, so the two are equal afterwards if and only if it succeeded, or
      had asked for the size already held. */
  lemma FailedResizeSkewsExtent(b: Buf, n: nat, answer: Option<int>)
    ensures var (b', e) := Resize(b, n, answer);
            && b'.store == b.store && b'.extent == n
            && b'.size == (if answer.None? then n else b.size)
            && (if answer.None? then e.None? else e == Some(TuxedoException(answer.value)))
            && (b'.extent == b'.size <==> answer.None? || n == b.size)
  {
  }

  /** One request for memory: the size asked for, the size held, and whether it was granted. */
  datatype Request = Request(asked: nat, held: nat, granted: bool)

  function Asks(l: Layout, b: Buf, op: Op): Option<Request> {
    match op
    case Add(f, a) =>
      if f.Addable() && Tight(l, b, f) then Some(Request(b.size + b.extent, b.size, a.None?)) else None
    case Packing(a) => Some(Request(l.Used(b.store), b.size, a.None?))
    case _ => None
  }

  /** The last request of a run, if it makes any. */
  function LastRequest(l: Layout, b: Buf, ops: seq<Op>): Option<Request>
    decreases |ops|
  {
    if ops == [] then None else
    var later := LastRequest(l, Apply(l, b, ops[0]).0, ops[1..]);
    if later.Some? then later else Asks(l, b, ops[0])
  }

  lemma ApplyTracks(l: Layout, b: Buf, op: Op)
    ensures var b', q := Apply(l, b, op).0, Asks(l, b, op);
            b'.extent == b'.size <==>
              if q.None? then b.extent == b.size else q.value.granted || q.value.asked == q.value.held
  {
  }

  /** After any run, with any reallocations failing, _extent equals the allocated size if and
      only if the last reallocation asked for was granted, or asked for the size already held,
      or none was asked for and the two were equal to begin with. One that is granted heals all
      that failed before. */
  lemma {:induction false} ExtentTracksSize(l: Layout, b: Buf, ops: seq<Op>)
    ensures var b', q := Run(l, b, ops).0, LastRequest(l, b, ops);
            b'.extent == b'.size <==>
              if q.None? then b.extent == b.size else q.value.granted || q.value.asked == q.value.held
    decreases |ops|
  {
    hide Apply;
    hide Asks;
    if ops != [] {
      ApplyTracks(l, b, ops[0]);
      ExtentTracksSize(l, Apply(l, b, ops[0]).0, ops[1..]);
    }
  }

  /** What a run did to the allocation: how often it was extended, how many bytes those
      reallocations moved, and what the last of them was asked to make room for. */
  datatype Extensions = Extensions(k: nat, moved: nat, demand: nat)

  function Grow(l: Layout, b: Buf, ops: seq<Op>): Extensions
    decreases |ops|
  {
    if ops == [] then Extensions(0, 0, 0) else
    var q := Asks(l, b, ops[0]);
    var g := Grow(l, Apply(l, b, ops[0]).0, ops[1..]);
    if q.None? then g
    else Extensions(g.k + 1, q.value.held + g.moved, if g.k > 0 then g.demand else Demand(l, b, ops[0]))
  }

  function Demand(l: Layout, b: Buf, op: Op): nat {
    l.Used(b.store) + if op.Add? then op.f.Needed(l) else 0
  }

  function Pow2(k: nat): nat {
    if k == 0 then 1 else 2 * Pow2(k - 1)
  }

  lemma Doubling(k: nat, n: nat)
    ensures Pow2(k + 1) * n == Pow2(k) * (2 * n)
  {
    assert Pow2(k + 1) == 2 * Pow2(k);
  }

  lemma ApplyGrows(l: Layout, b: Buf, op: Op)
    requires b.extent == b.size && !op.Packing? && (op.Add? ==> op.answer.None?)
    ensures var b', q := Apply(l, b, op).0, Asks(l, b, op);
            && b'.extent == b'.size
            && (q.None? ==> b'.size == b.size)
            && (q.Some? ==> q.value.held == b.size && b'.size == 2 * b.size <= 2 * Demand(l, b, op))
  {
  }

  /** Growth is geometric and its cost is amortised, for every mix of adds, sets and removes
      between two packs, as long as no reallocation fails: k extensions multiply the size by
      2^k, all bytes they moved together are fewer than the buffer now has, and the buffer is at
      most twice as large as what its last extension had to make room for. */
  lemma {:induction false} GrowthIsAmortised(l: Layout, b: Buf, ops: seq<Op>)
    requires b.extent == b.size > 0 && Quiet(ops)
    requires forall i :: 0 <= i < |ops| ==> !ops[i].Packing?
    ensures var b', g := Run(l, b, ops).0, Grow(l, b, ops);
            && b'.extent == b'.size == Pow2(g.k) * b.size
            && g.moved == b'.size - b.size < b'.size
            && (g.k > 0 ==> b'.size <= 2 * g.demand)
    decreases |ops|
  {
    assert Pow2(0) == 1;
    hide Pow2;
    if ops != [] {
      var b1 := Apply(l, b, ops[0]).0;
      ApplyGrows(l, b, ops[0]);
      hide Apply;
      hide Asks;
      GrowthIsAmortised(l, b1, ops[1..]);
      Doubling(Grow(l, b1, ops[1..]).k, b.size);
    }
  }
}
