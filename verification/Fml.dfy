/** An FML32 fielded buffer as the wrapper sees it: fields kept in order of their identifiers,
    the occurrences of one field in the order they were added. */
module Fml {
  import opened Atmi

  datatype Entry = Entry(id: int, val: Bytes)
  type Store = seq<Entry>

  ghost predicate Sorted(s: Store) {
    forall i, j :: 0 <= i < j < |s| ==> s[i].id <= s[j].id
  }

  /** The occurrences of one field, in order: this is what a reader of the buffer can see. */
  function Values(s: Store, id: int): seq<Bytes> {
    if s == [] then [] else (if s[0].id == id then [s[0].val] else []) + Values(s[1..], id)
  }

  /** Fadd32 appends an occurrence. */
  function Insert(s: Store, id: int, v: Bytes): Store {
    if s == [] || s[0].id > id then [Entry(id, v)] + s else [s[0]] + Insert(s[1..], id, v)
  }

  /** Fchg32 on an occurrence that exists. */
  function Replace(s: Store, id: int, occ: nat, v: Bytes): Store {
    if s == [] then []
    else if s[0].id != id then [s[0]] + Replace(s[1..], id, occ, v)
    else if occ == 0 then [Entry(id, v)] + s[1..]
    else [s[0]] + Replace(s[1..], id, occ - 1, v)
  }

  /** Fdel32. */
  function Delete(s: Store, id: int, occ: nat): Store {
    if s == [] then []
    else if s[0].id != id then [s[0]] + Delete(s[1..], id, occ)
    else if occ == 0 then s[1..]
    else [s[0]] + Delete(s[1..], id, occ - 1)
  }

  // ---- the store refines a map from field identifiers to sequences of values ---------------

  lemma {:induction false} NoneBelow(s: Store, id: int)
    requires Sorted(s) && (s != [] ==> s[0].id > id)
    ensures Values(s, id) == []
  {
    if s != [] {
      NoneBelow(s[1..], id);
    }
  }

  lemma ValuesCons(e: Entry, s: Store, id: int)
    ensures Values([e] + s, id) == if e.id == id then [e.val] + Values(s, id) else Values(s, id)
  {
    assert ([e] + s)[1..] == s;
    assert [] + Values(s, id) == Values(s, id);
  }

  lemma {:induction false} InsertRefines(s: Store, id: int, v: Bytes, j: int)
    requires Sorted(s)
    ensures Values(Insert(s, id, v), j) == Values(s, j) + if j == id then [v] else []
  {
    if s == [] || s[0].id > id {
      NoneBelow(s, id);
      ValuesCons(Entry(id, v), s, j);
    } else {
      InsertRefines(s[1..], id, v, j);
      ValuesCons(s[0], Insert(s[1..], id, v), j);
    }
  }

  lemma {:induction false} InsertSorts(s: Store, id: int, v: Bytes)
    requires Sorted(s)
    ensures Sorted(Insert(s, id, v))
    ensures |Insert(s, id, v)| == |s| + 1
    ensures Insert(s, id, v)[0].id == if s == [] || s[0].id > id then id else s[0].id
  {
    if !(s == [] || s[0].id > id) {
      InsertSorts(s[1..], id, v);
    }
  }

  lemma {:induction false} ReplaceRefines(s: Store, id: int, occ: nat, v: Bytes, j: int)
    requires occ < |Values(s, id)|
    ensures Values(Replace(s, id, occ, v), j) == if j == id then Values(s, id)[occ := v] else Values(s, j)
  {
    ValuesOf(s, id);
    ValuesOf(s, j);
    ReplaceIs(s, id, occ, v, j);
    hide Values;
    hide Replace;
    if !(s[0].id == id && occ == 0) {
      ReplaceRefines(s[1..], id, if s[0].id == id then occ - 1 else occ, v, j);
    }
  }

  lemma ReplaceIs(s: Store, id: int, occ: nat, v: Bytes, j: int)
    requires s != []
    ensures Values(Replace(s, id, occ, v), j)
            == if s[0].id == id && occ == 0 then (if id == j then [v] + Values(s[1..], j) else Values(s[1..], j))
               else
                 var later := Values(Replace(s[1..], id, if s[0].id == id then occ - 1 else occ, v), j);
                 if s[0].id == j then [s[0].val] + later else later
  {
    if s[0].id == id && occ == 0 {
      ValuesCons(Entry(id, v), s[1..], j);
    } else {
      ValuesCons(s[0], Replace(s[1..], id, if s[0].id == id then occ - 1 else occ, v), j);
      hide Values;
    }
  }

  lemma {:induction false} ReplaceSorts(s: Store, id: int, occ: nat, v: Bytes)
    ensures var s' := Replace(s, id, occ, v);
            |s'| == |s| && forall i :: 0 <= i < |s| ==> s'[i].id == s[i].id
  {
    if s != [] && !(s[0].id == id && occ == 0) {
      ReplaceSorts(s[1..], id, if s[0].id == id then occ - 1 else occ, v);
    }
  }

  function Without(vs: seq<Bytes>, occ: nat): seq<Bytes>
    requires occ < |vs|
  {
    vs[..occ] + vs[occ + 1..]
  }

  lemma WithoutCons(v: Bytes, vs: seq<Bytes>, occ: nat)
    requires occ <= |vs|
    ensures Without([v] + vs, occ) == if occ == 0 then vs else [v] + Without(vs, occ - 1)
  {
  }

  lemma {:induction false} DeleteRefines(s: Store, id: int, occ: nat, j: int)
    requires occ < |Values(s, id)|
    ensures Values(Delete(s, id, occ), j) == if j == id then Without(Values(s, id), occ) else Values(s, j)
  {
    ValuesOf(s, id);
    ValuesOf(s, j);
    DeleteIs(s, id, occ, j);
    hide Values;
    hide Delete;
    if s[0].id != id {
      DeleteRefines(s[1..], id, occ, j);
    } else {
      WithoutCons(s[0].val, Values(s[1..], id), occ);
      if occ > 0 {
        DeleteRefines(s[1..], id, occ - 1, j);
      }
    }
  }

  lemma ValuesOf(s: Store, id: int)
    ensures Values(s, id) == if s == [] then []
                             else if s[0].id == id then [s[0].val] + Values(s[1..], id) else Values(s[1..], id)
  {
    if s != [] {
      assert [] + Values(s[1..], id) == Values(s[1..], id);
    }
  }

  /** What Delete leaves, by what it does to the first entry. */
  lemma DeleteIs(s: Store, id: int, occ: nat, j: int)
    requires s != []
    ensures Values(Delete(s, id, occ), j)
            == if s[0].id == id && occ == 0 then Values(s[1..], j)
               else
                 var later := Values(Delete(s[1..], id, if s[0].id == id then occ - 1 else occ), j);
                 if s[0].id == j then [s[0].val] + later else later
  {
    if !(s[0].id == id && occ == 0) {
      ValuesCons(s[0], Delete(s[1..], id, if s[0].id == id then occ - 1 else occ), j);
      hide Values;
    }
  }

  lemma {:induction false} DeleteSorts(s: Store, id: int, occ: nat)
    requires Sorted(s) && occ < |Values(s, id)|
    ensures var s' := Delete(s, id, occ);
            Sorted(s') && |s'| == |s| - 1 && (s' != [] ==> s'[0].id >= s[0].id)
  {
    if !(s[0].id == id && occ == 0) {
      DeleteSorts(s[1..], id, if s[0].id == id then occ - 1 else occ);
    }
  }

  // ---- counting -----------------------------------------------------------------------------

  /** The entries of every field but one. */
  function Drop(s: Store, id: int): Store {
    if s == [] then [] else (if s[0].id == id then [] else [s[0]]) + Drop(s[1..], id)
  }

  predicate Distinct(ids: seq<int>) {
    forall i, j :: 0 <= i < j < |ids| ==> ids[i] != ids[j]
  }

  /** Every field of the buffer is in the list. */
  predicate Covers(ids: seq<int>, s: Store) {
    s == [] || (s[0].id in ids && Covers(ids, s[1..]))
  }

  lemma {:induction false} DropCounts(s: Store, id: int)
    ensures |s| == |Values(s, id)| + |Drop(s, id)|
  {
    if s != [] {
      DropCounts(s[1..], id);
    }
  }

  lemma {:induction false} DropCovers(s: Store, ids: seq<int>)
    requires ids != [] && Covers(ids, s)
    ensures Covers(ids[1..], Drop(s, ids[0]))
  {
    if s != [] {
      DropCovers(s[1..], ids);
      assert Drop(s, ids[0]) == (if s[0].id == ids[0] then [] else [s[0]]) + Drop(s[1..], ids[0]);
      if s[0].id != ids[0] {
        assert Drop(s, ids[0])[1..] == Drop(s[1..], ids[0]);
      } else {
        assert Drop(s, ids[0]) == Drop(s[1..], ids[0]);
      }
    }
  }

  lemma {:induction false} DropKeeps(s: Store, id: int, j: int)
    requires j != id
    ensures Values(Drop(s, id), j) == Values(s, j)
  {
    if s != [] {
      DropKeeps(s[1..], id, j);
      if s[0].id != id {
        ValuesCons(s[0], Drop(s[1..], id), j);
      } else {
        assert Drop(s, id) == Drop(s[1..], id);
      }
    }
  }

  function Occurrences(s: Store, ids: seq<int>): nat {
    if ids == [] then 0 else |Values(s, ids[0])| + Occurrences(s, ids[1..])
  }

  lemma {:induction false} SameOccurrences(s: Store, s': Store, ids: seq<int>)
    requires forall id :: id in ids ==> Values(s, id) == Values(s', id)
    ensures Occurrences(s, ids) == Occurrences(s', ids)
  {
    if ids != [] {
      assert ids[0] in ids;
      SameOccurrences(s, s', ids[1..]);
    }
  }

  /** Fnum32 is the sum of the occurrence counts, over any list of distinct identifiers that
      covers the buffer. */
  lemma {:induction false} FieldCountIsSum(s: Store, ids: seq<int>)
    requires Distinct(ids) && Covers(ids, s)
    ensures |s| == Occurrences(s, ids)
    decreases |ids|
  {
    if ids != [] {
      DropCounts(s, ids[0]);
      DropCovers(s, ids);
      var s' := Drop(s, ids[0]);
      FieldCountIsSum(s', ids[1..]);
      forall id | id in ids[1..] ensures Values(s, id) == Values(s', id) {
        DropKeeps(s, ids[0], id);
      }
      SameOccurrences(s, s', ids[1..]);
    }
  }

  // ---- sizes --------------------------------------------------------------------------------

  /** How the library lays out a buffer: a header, and for each occurrence a prefix and the
      value padded to a multiple of four bytes. */
  datatype Layout = Layout(header: nat, prefix: nat)
  {
    predicate Valid() {
      header >= 4
    }

    function Cost(v: Bytes): nat {
      prefix + Pad(|v|)
    }

    /** Fused32. */
    function Used(s: Store): nat {
      if s == [] then header else Cost(s[0].val) + Used(s[1..])
    }

    /** Fneeded32(1, n): room for a whole buffer that holds one value of n bytes. */
    function Needed(n: nat): nat {
      header + prefix + Pad(n)
    }
  }

  function Pad(n: nat): (p: nat)
    ensures n <= p < n + 4
  {
    (n + 3) / 4 * 4
  }

  lemma {:induction false} InsertUses(l: Layout, s: Store, id: int, v: Bytes)
    ensures l.Used(Insert(s, id, v)) == l.Used(s) + l.Cost(v)
  {
    if !(s == [] || s[0].id > id) {
      InsertUses(l, s[1..], id, v);
      assert Insert(s, id, v)[1..] == Insert(s[1..], id, v);
    } else {
      assert Insert(s, id, v)[1..] == s;
    }
  }

  lemma {:induction false} ReplaceUses(l: Layout, s: Store, id: int, occ: nat, v: Bytes)
    requires occ < |Values(s, id)|
    ensures l.Used(Replace(s, id, occ, v)) == l.Used(s) - l.Cost(Values(s, id)[occ]) + l.Cost(v)
  {
    var s' := Replace(s, id, occ, v);
    if s[0].id == id && occ == 0 {
      assert s'[1..] == s[1..];
    } else {
      var occ' := if s[0].id == id then occ - 1 else occ;
      ReplaceUses(l, s[1..], id, occ', v);
      assert s'[1..] == Replace(s[1..], id, occ', v);
    }
  }

  lemma {:induction false} DeleteUses(l: Layout, s: Store, id: int, occ: nat)
    requires occ < |Values(s, id)|
    ensures l.Used(Delete(s, id, occ)) == l.Used(s) - l.Cost(Values(s, id)[occ])
  {
    var s' := Delete(s, id, occ);
    if !(s[0].id == id && occ == 0) {
      var occ' := if s[0].id == id then occ - 1 else occ;
      DeleteUses(l, s[1..], id, occ');
      assert s'[1..] == Delete(s[1..], id, occ');
    }
  }
}
