/** The carray field as the object it is: a length, a size, and an array that is filled in
    place or replaced; proved to compute what CarraySpec says. */
module CarrayField {
  import opened Atmi
  import opened Fml
  import opened FieldedBuffer
  import opened CarraySpec
  import Spec = BufferSpec

  class Tcarray {
    const id: int
    var occ: nat
    var length: nat
    var bufferSize: nat
    var value: array?<Byte>

    constructor (id: int)
      ensures Now() == FRESH && value == null && occ == 0 && this.id == id
    {
      this.id := id;
      occ := 0;
      length := 0;
      bufferSize := 0;
      value := null;
    }

    function Now(): State
      reads this, value
    {
      State(if value == null then None else Some(value[..]), length, bufferSize)
    }

    method SetCharArray(v: Bytes)
      requires Now().Valid()
      modifies this`length, this`bufferSize, this`value, value
      ensures Now() == CarraySpec.SetCharArray(old(Now()), v) && Now().Valid()
      ensures value == old(value) || fresh(value)
    {
      ApplyKeepsValid(Now(), SetOp(v));
      if |v| > bufferSize {
        FreeResources();
        bufferSize := |v|;
        value := new Byte[bufferSize](_ => 0);
      }
      length := |v|;
      Copy(v);
      assert v + [] == v;
    }

    /** memcpy ( _value, v, size ) */
    method Copy(v: Bytes)
      requires |v| > 0 ==> value != null && |v| <= value.Length
      requires value != null ==> |v| <= value.Length
      modifies value
      ensures value != null ==> value[..] == v + old(value[..])[|v|..]
    {
      if value != null {
        forall i | 0 <= i < |v| {
          value[i] := v[i];
        }
        assert value[..] == v + old(value[..])[|v|..];
      }
    }

    method GetCharArray(carray: array<Byte>, size: nat)
      requires Now().Valid() && size <= carray.Length && carray != value
      modifies this`length, carray
      ensures var (c, copy) := CarraySpec.GetCharArray(old(Now()), size);
              && Now() == c && Now().Valid()
              && carray[..] == copy + old(carray[..])[|copy|..]
    {
      ApplyKeepsValid(Now(), ReadOp(size));
      length := if size < bufferSize then size else bufferSize;
      if value != null {
        forall i | 0 <= i < length {
          carray[i] := value[i];
        }
        assert value[..] == old(value[..]);
      }
      assert carray[..] == CarraySpec.GetCharArray(old(Now()), size).1 + old(carray[..])[length..];
    }

    method FreeResources()
      modifies this`length, this`bufferSize, this`value
      ensures Now() == Free(old(Now()))
      ensures old(value) != null ==> value == null
      ensures old(value) == null ==> value == null
    {
      if value != null {
        bufferSize := 0;
        length := 0;
        value := null;
      }
    }

    /** Fgetalloc32 into the field, and what every call site makes of a failure. */
    method GetAlloc(vs: seq<Bytes>, n: nat, pad: nat -> Byte) returns (rc: int, exn: Option<Exn>)
      modifies this`length, this`bufferSize, this`value
      ensures (Now(), rc, exn) == CarraySpec.GetAlloc(old(Now()), vs, n, pad)
      ensures value == null || fresh(value)
    {
      if n >= |vs| {
        value := null;
        return -1, Some(BufferException(Spec.FNOTPRES));
      }
      var block := vs[n] + seq(bufferSize, pad);
      value := new Byte[|block|](i requires 0 <= i < |block| => block[i]);
      assert value[..] == block;
      bufferSize := |block|;
      length := bufferSize;
      rc, exn := 0, None;
    }

    method Get(b: Buffer, n: int, pad: nat -> Byte) returns (rc: int, exn: Option<Exn>)
      requires Now().Valid()
      modifies this`length, this`bufferSize, this`value, this`occ, value
      ensures (Now(), rc, exn) == CarraySpec.Get(old(Now()), Values(b.store, id), n, pad)
      ensures occ == (if n < 0 then 0 else n) && Now().Valid()
    {
      var vs := Values(b.store, id);
      ApplyKeepsValid(Now(), GetOp(vs, n, pad));
      SetFieldOccurrence(n);
      if bufferSize == 0 {
        rc, exn := GetAlloc(vs, occ, pad);
      } else if n < 0 || n >= |vs| {
        rc, exn := -1, None;
      } else if |vs[n]| > length {
        FreeResources();
        rc, exn := GetAlloc(vs, occ, pad);
      } else {
        length := |vs[n]|;
        Copy(vs[n]);
        rc, exn := 0, None;
      }
    }

    method SetFieldOccurrence(n: int)
      modifies this`occ
      ensures occ == if n < 0 then 0 else n
    {
      occ := if n < 0 then 0 else n;
    }

    /** The field as add and set present it to the library. */
    function AsField(): Spec.Field
      requires Now().Valid()
      reads this, value
    {
      Spec.Field(Spec.Carray, id, occ, Now().Value())
    }

    method Add(b: Buffer, answer: Option<int>) returns (exn: Option<Exn>)
      requires Now().Valid() && b.Valid()
      modifies this`occ, b
      ensures Now() == old(Now())
      ensures (b.State(), AsField(), exn) == Spec.AddField(b.layout, old(b.State()), old(AsField()), answer)
      ensures b.Valid()
    {
      Spec.AddRefines(b.layout, b.State(), AsField(), answer, id);
      if length == 0 {
        return Some(AtmiException);
      }
      if AsField().Needed(b.layout) + b.layout.Used(b.store) >= b.size {
        exn := b.Extend(answer);
        if exn.Some? {
          return;
        }
      }
      var ok := b.Fadd32(id, Now().Value());
      if !ok {
        return Some(BufferException(Spec.FNOSPACE));
      }
      var n := |Values(b.store, id)|;
      SetFieldOccurrence(if n == 0 then 0 else n - 1);
      exn := None;
    }
  }
}
