/** The fielded buffer and the fixed-size and string fields as the objects they are, proved to
    compute what BufferSpec says. */
module FieldedBuffer {
  import opened Atmi
  import opened Fml
  import Spec = BufferSpec

  class Buffer {
    const layout: Layout
    var store: Store
    var size: nat
    var extent: nat

    constructor (layout: Layout, length: nat := 1024)
      requires layout.Valid() && layout.header <= length
      ensures State() == Spec.Buf([], length, length) && Valid() && this.layout == layout
    {
      this.layout := layout;
      store := [];
      size := length;
      extent := length;
    }

    function State(): Spec.Buf
      reads this
    {
      Spec.Buf(store, size, extent)
    }

    ghost predicate Valid()
      reads this
    {
      Spec.Valid(layout, State())
    }

    /** `answer` is the tperrno of a tprealloc that fails. */
    method Resize(n: nat, answer: Option<int>) returns (exn: Option<Exn>)
      modifies this
      ensures (State(), exn) == Spec.Resize(old(State()), n, answer)
    {
      extent := n;
      if answer.Some? {
        return Some(TuxedoException(answer.value));
      }
      size := n;
      exn := None;
    }

    method Pack(answer: Option<int>) returns (exn: Option<Exn>)
      requires Valid()
      modifies this
      ensures (State(), exn) == Spec.Pack(layout, old(State()), answer) && Valid()
    {
      Spec.PackKeeps(layout, State(), answer);
      exn := Resize(layout.Used(store), answer);
    }

    method Extend(answer: Option<int>) returns (exn: Option<Exn>)
      modifies this
      ensures (State(), exn) == Spec.Extend(old(State()), answer)
    {
      exn := Resize(size + extent, answer);
    }

    method SetExtent(n: nat)
      modifies this`extent
      ensures extent == n
    {
      extent := n;
    }

    /** Fadd32; false stands for FNOSPACE. */
    method Fadd32(id: int, v: Bytes) returns (ok: bool)
      modifies this`store
      ensures ok <==> layout.Used(old(store)) + layout.Cost(v) <= size
      ensures store == if ok then Insert(old(store), id, v) else old(store)
    {
      ok := layout.Used(store) + layout.Cost(v) <= size;
      if ok {
        store := Insert(store, id, v);
      }
    }

    /** Fnum32 */
    method FieldCount() returns (n: nat)
      ensures forall ids | Distinct(ids) && Covers(ids, store) :: n == Occurrences(store, ids)
    {
      n := |store|;
      forall ids | Distinct(ids) && Covers(ids, store) ensures n == Occurrences(store, ids) {
        FieldCountIsSum(store, ids);
      }
    }
  }

  class Tfield {
    const kind: Spec.Kind
    const id: int
    var occ: nat
    var value: Bytes

    constructor (kind: Spec.Kind, id: int, value: Bytes)
      ensures State() == Spec.Field(kind, id, 0, value)
    {
      this.kind := kind;
      this.id := id;
      this.value := value;
      occ := 0;
    }

    function State(): Spec.Field
      reads this
    {
      Spec.Field(kind, id, occ, value)
    }

    method SetFieldOccurrence(n: int)
      modifies this`occ
      ensures occ == if n < 0 then 0 else n
    {
      occ := if n < 0 then 0 else n;
    }

    method Add(b: Buffer, answer: Option<int>) returns (exn: Option<Exn>)
      requires b.Valid()
      modifies this`occ, b
      ensures (b.State(), State(), exn) == Spec.AddField(b.layout, old(b.State()), old(State()), answer)
      ensures b.Valid()
    {
      Spec.AddRefines(b.layout, b.State(), State(), answer, id);
      var stored := State().Stored();
      if !kind.Fixed? && |value| == 0 {
        return Some(AtmiException);
      }
      if State().Needed(b.layout) + b.layout.Used(b.store) >= b.size {
        exn := b.Extend(answer);
        if exn.Some? {
          return;
        }
      }
      var ok := b.Fadd32(id, stored);
      if !ok {
        return Some(BufferException(Spec.FNOSPACE));
      }
      var n := |Values(b.store, id)|;
      SetFieldOccurrence(if n == 0 then 0 else n - 1);
      exn := None;
    }

    method Get(b: Buffer, n: int) returns (exn: Option<Exn>)
      modifies this
      ensures (State(), exn) == Spec.GetField(b.State(), old(State()), n)
      ensures occ == if n < 0 then 0 else n
      ensures exn.None? <==> (if n < 0 then 0 else n) < |Values(b.store, id)|
      ensures exn.Some? ==> exn.value == BufferException(Spec.FNOTPRES) && value == old(value)
    {
      SetFieldOccurrence(n);
      var vs := Values(b.store, id);
      if occ >= |vs| {
        return Some(BufferException(Spec.FNOTPRES));
      }
      value := if kind.Text? then Spec.CStr(vs[occ]) else vs[occ];
      exn := None;
    }

    method Set(b: Buffer) returns (exn: Option<Exn>)
      requires b.Valid()
      modifies b`store
      ensures (b.State(), exn) == Spec.SetField(b.layout, old(b.State()), State())
      ensures b.Valid()
      ensures forall j :: j != id ==> Values(b.store, j) == Values(old(b.store), j)
      ensures exn.None? <==> b.layout.Used(old(b.store))
                             + Spec.Growth(b.layout, Values(old(b.store), id), State()) <= b.size
      ensures exn.Some? ==> exn.value == BufferException(Spec.FNOSPACE) && b.store == old(b.store)
      ensures exn.None? ==>
                var f, before := State(), Values(old(b.store), id);
                Values(b.store, id) == if occ < |before| then before[occ := f.Stored()]
                                       else before + seq(occ - |before|, _ => f.Null()) + [f.Stored()]
    {
      forall j {
        Spec.SetFrame(b.layout, b.State(), State(), j);
      }
      var s := Spec.Changed(b.store, State());
      if b.layout.Used(s) > b.size {
        return Some(BufferException(Spec.FNOSPACE));
      }
      b.store := s;
      exn := None;
    }

    method Remove(b: Buffer) returns (exn: Option<Exn>)
      requires b.Valid()
      modifies b`store
      ensures (b.State(), exn) == Spec.RemoveField(old(b.State()), State())
      ensures b.Valid()
      ensures exn.None? <==> occ < |Values(old(b.store), id)|
      ensures exn.Some? ==> exn.value == BufferException(Spec.FNOTPRES) && b.store == old(b.store)
      ensures forall j :: j != id ==> Values(b.store, j) == Values(old(b.store), j)
      ensures exn.None? ==> Values(b.store, id) == Without(Values(old(b.store), id), occ)
    {
      forall j {
        Spec.RemoveFrame(b.layout, b.State(), State(), j);
      }
      if occ >= |Values(b.store, id)| {
        return Some(BufferException(Spec.FNOTPRES));
      }
      b.store := Delete(b.store, id, occ);
      exn := None;
    }
  }
}
