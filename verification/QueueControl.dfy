/** The settings of a queue handle, kept as bits of the TPQCTL flags. */
module QueueControl {
  import opened Atmi

  /** A `long`, as the set of its one-bits: 0 to 62, and 63 for the sign. */
  type Flags = set<int>

  ghost const WORD: Flags := set i: int | 0 <= i < 64
  const LONG_MAX: Flags := set i: int | 0 <= i < 63

  function Xor(f: Flags, g: Flags): Flags {
    (f - g) + (g - f)
  }

  const DEFAULTPERSIST := 1
  const PERSISTENT := 2
  const NONPERSISTENT := 4

  /** tuxedo::set */
  function SetBits(f: Flags, sf: Flags): Flags {
    f + sf
  }

  /** tuxedo::unset: the mask is inverted within LONG_MAX. */
  function UnsetBits(f: Flags, uf: Flags): Flags {
    f * Xor(LONG_MAX, uf)
  }

  /** The four flags the handle uses: any non-zero, non-negative and disjoint masks. */
  datatype Masks = Masks(wait: Flags, reply: Flags, delivery: Flags, replyQos: Flags)
  {
    predicate Valid() {
      && wait != {} && reply != {} && delivery != {} && replyQos != {}
      && wait + reply + delivery + replyQos <= LONG_MAX
      && wait !! reply !! delivery !! replyQos
    }
  }

  /** The settings one by one; `other` stands for all flags that are none of the four. */
  datatype Settings = Settings(wait: bool, reply: bool, qos: bool, other: Flags)

  function Encode(m: Masks, s: Settings): Flags {
    s.other
    + (if s.wait then m.wait else {})
    + (if s.reply then m.reply else {})
    + (if s.qos then m.delivery + m.replyQos else {})
  }

  /** No flag of the four in it, and not negative. */
  predicate Foreign(m: Masks, f: Flags) {
    f !! m.wait + m.reply + m.delivery + m.replyQos && f <= LONG_MAX
  }

  // ---- set and unset, one flag at a time --------------------------------------------------------

  lemma EncodeWait(m: Masks, s: Settings, b: bool)
    requires m.Valid() && Foreign(m, s.other)
    ensures Encode(m, s.(wait := b)) == if b then SetBits(Encode(m, s), m.wait) else UnsetBits(Encode(m, s), m.wait)
  {
  }

  lemma EncodeReply(m: Masks, s: Settings, b: bool)
    requires m.Valid() && Foreign(m, s.other)
    ensures Encode(m, s.(reply := b)) == if b then SetBits(Encode(m, s), m.reply) else UnsetBits(Encode(m, s), m.reply)
  {
  }

  lemma EncodeQos(m: Masks, s: Settings, b: bool)
    requires m.Valid() && Foreign(m, s.other)
    ensures var both := m.delivery + m.replyQos;
            Encode(m, s.(qos := b)) == if b then SetBits(Encode(m, s), both) else UnsetBits(Encode(m, s), both)
  {
  }

  /** The flags determine the settings: nothing is lost in the encoding. */
  lemma Decode(m: Masks, s: Settings)
    requires m.Valid() && Foreign(m, s.other)
    ensures var f := Encode(m, s);
            && (f * m.wait == m.wait <==> s.wait)
            && (f * m.reply == m.reply <==> s.reply)
            && (f * (m.delivery + m.replyQos) == m.delivery + m.replyQos <==> s.qos)
            && (f * (m.delivery + m.replyQos) == {} <==> !s.qos)
            && UnsetBits(f, m.wait + m.reply + m.delivery + m.replyQos) == s.other
  {
  }

  // ---- the handle ---------------------------------------------------------------------------------

  datatype Op =
    | MessageWait(on: bool)
    | ReplyQueue(name: Option<string>)
    | QualityOfService(qos: int)
    | NewCorrid
    | UnsetCorrid

  predicate Supported(qos: int) {
    qos == DEFAULTPERSIST || qos == PERSISTENT || qos == NONPERSISTENT
  }

  /** The record that the flags stand for. The correlation id calls are in it for what they do
      not do: they compute new flags and discard them. */
  datatype Record = Record(settings: Settings, level: int)

  function Obey(r: Record, op: Op): Record {
    match op
    case MessageWait(on) => r.(settings := r.settings.(wait := on))
    case ReplyQueue(name) => r.(settings := r.settings.(reply := name.Some?))
    case QualityOfService(q) =>
      Record(r.settings.(qos := Supported(q)), if Supported(q) then q else r.level)
    case NewCorrid => r
    case UnsetCorrid => r
  }

  function ObeyAll(r: Record, ops: seq<Op>): Record
    decreases |ops|
  {
    if ops == [] then r else ObeyAll(Obey(r, ops[0]), ops[1..])
  }

  class Handle {
    const masks: Masks
    var flags: Flags
    var deliveryQos: int
    var replyQos: int

    ghost predicate Shows(r: Record)
      reads this
    {
      && Foreign(masks, r.settings.other)
      && flags == Encode(masks, r.settings)
      && deliveryQos == replyQos == r.level
    }

    /** A new handle waits for messages, asks for the default quality of service, and has a
        reply queue if it was given one. */
    constructor (masks: Masks, reply: Option<string>)
      requires masks.Valid()
      ensures this.masks == masks
      ensures Shows(Record(Settings(true, reply.Some?, true, {}), DEFAULTPERSIST))
    {
      this.masks := masks;
      flags := {};
      deliveryQos := 0;
      replyQos := 0;
      new;
      ghost var s := Settings(false, false, false, {});
      EncodeWait(masks, s, true);
      EncodeQos(masks, s.(wait := true), false);
      EncodeQos(masks, s.(wait := true), true);
      EncodeReply(masks, s.(wait := true, qos := true), reply.Some?);
      SetMessageWait(true);
      var e := SetQualityOfService(DEFAULTPERSIST);
      SetReplyQueue(reply);
    }

    method SetMessageWait(on: bool)
      modifies this`flags
      ensures flags == if on then SetBits(old(flags), masks.wait) else UnsetBits(old(flags), masks.wait)
    {
      if on {
        flags := SetBits(flags, masks.wait);
      } else {
        flags := UnsetBits(flags, masks.wait);
      }
    }

    method SetReplyQueue(name: Option<string>)
      modifies this`flags
      ensures flags == if name.Some? then SetBits(old(flags), masks.reply) else UnsetBits(old(flags), masks.reply)
    {
      if name.Some? {
        flags := SetBits(flags, masks.reply);
      } else {
        flags := UnsetBits(flags, masks.reply);
      }
    }

    /** The bits are cleared first, so a level that is not supported leaves them cleared. */
    method SetQualityOfService(qos: int) returns (exn: Option<Exn>)
      modifies this
      ensures exn.None? <==> qos in {DEFAULTPERSIST, PERSISTENT, NONPERSISTENT}
      ensures exn.Some? ==> exn.value == AtmiException
      ensures var both := masks.delivery + masks.replyQos;
              var cleared := UnsetBits(old(flags), both);
              flags == if Supported(qos) then SetBits(cleared, both) else cleared
      ensures deliveryQos == (if Supported(qos) then qos else old(deliveryQos))
      ensures replyQos == (if Supported(qos) then qos else old(replyQos))
    {
      flags := UnsetBits(flags, masks.delivery + masks.replyQos);
      if qos == DEFAULTPERSIST || qos == PERSISTENT || qos == NONPERSISTENT {
        flags := SetBits(flags, masks.delivery + masks.replyQos);
        deliveryQos := qos;
        replyQos := qos;
        return None;
      }
      exn := Some(AtmiException);
    }

    /** set_new_corrid and unset_corrid, as far as the flags go. */
    method Corrid(corrid: Flags, on: bool) returns (discarded: Flags)
      ensures discarded == if on then SetBits(flags, corrid) else UnsetBits(flags, corrid)
    {
      discarded := if on then SetBits(flags, corrid) else UnsetBits(flags, corrid);
    }

    method IsMessageWaiting() returns (b: bool)
      ensures b <==> flags * masks.wait == masks.wait
    {
      b := flags * masks.wait == masks.wait;
    }

    /** The bitmask refines the record: after any sequence of calls, with any of them rejected,
        the flags are exactly the encoding of the last setting of each kind, every flag that
        is none of the four is as it was, and the two quality levels agree. */
    method Perform(ops: seq<Op>, corrid: Flags, ghost r: Record)
      requires masks.Valid() && Shows(r)
      modifies this
      ensures Shows(ObeyAll(r, ops))
    {
      var i := 0;
      ghost var now := r;
      while i < |ops|
        invariant 0 <= i <= |ops| && Shows(now)
        invariant ObeyAll(now, ops[i..]) == ObeyAll(r, ops)
      {
        ghost var s := now.settings;
        assert ops[i..][1..] == ops[i + 1..];
        match ops[i] {
          case MessageWait(on) =>
            EncodeWait(masks, s, on);
            SetMessageWait(on);
          case ReplyQueue(name) =>
            EncodeReply(masks, s, name.Some?);
            SetReplyQueue(name);
          case QualityOfService(q) =>
            EncodeQos(masks, s, false);
            EncodeQos(masks, s.(qos := false), true);
            var e := SetQualityOfService(q);
          case NewCorrid =>
            var f := Corrid(corrid, true);
          case UnsetCorrid =>
            var f := Corrid(corrid, false);
        }
        now := Obey(now, ops[i]);
        i := i + 1;
      }
    }
  }

  /** A level that set_quality_of_service accepts; any other makes it throw. */
  predicate Accepted(op: Op) {
    op.QualityOfService? && op.qos in {DEFAULTPERSIST, PERSISTENT, NONPERSISTENT}
  }

  /** The last setting of each kind is all that counts; the level is that of the last call that
      was accepted, although a rejected one after it has cleared the bits. */
  lemma {:induction false} LastSettingWins(r: Record, ops: seq<Op>, i: nat)
    requires i < |ops|
    ensures var s := ObeyAll(r, ops).settings;
            && s.other == r.settings.other
            && (ops[i].MessageWait? && (forall k :: i < k < |ops| ==> !ops[k].MessageWait?) ==> s.wait == ops[i].on)
            && (ops[i].ReplyQueue? && (forall k :: i < k < |ops| ==> !ops[k].ReplyQueue?) ==>
                  s.reply == ops[i].name.Some?)
            && (ops[i].QualityOfService? && (forall k :: i < k < |ops| ==> !ops[k].QualityOfService?) ==>
                  (s.qos <==> ops[i].qos in {DEFAULTPERSIST, PERSISTENT, NONPERSISTENT}))
            && (Accepted(ops[i]) && (forall k :: i < k < |ops| ==> !Accepted(ops[k])) ==>
                  ObeyAll(r, ops).level == ops[i].qos)
            && ((forall k :: 0 <= k < |ops| ==> !Accepted(ops[k])) ==> ObeyAll(r, ops).level == r.level)
    decreases |ops|
  {
    if i > 0 {
      LastSettingWins(Obey(r, ops[0]), ops[1..], i - 1);
      assert forall k :: i < k < |ops| ==> ops[1..][k - 1] == ops[k];
    } else {
      Untouched(Obey(r, ops[0]), ops[1..]);
    }
  }

  lemma {:induction false} Untouched(r: Record, ops: seq<Op>)
    ensures var r' := ObeyAll(r, ops);
            && r'.settings.other == r.settings.other
            && ((forall k :: 0 <= k < |ops| ==> !ops[k].MessageWait?) ==> r'.settings.wait == r.settings.wait)
            && ((forall k :: 0 <= k < |ops| ==> !ops[k].ReplyQueue?) ==> r'.settings.reply == r.settings.reply)
            && ((forall k :: 0 <= k < |ops| ==> !ops[k].QualityOfService?) ==>
                  r'.settings.qos == r.settings.qos)
            && ((forall k :: 0 <= k < |ops| ==> !Accepted(ops[k])) ==> r'.level == r.level)
    decreases |ops|
  {
    if ops != [] {
      Untouched(Obey(r, ops[0]), ops[1..]);
    }
  }

  // ---- the call flags of a handle -----------------------------------------------------------------

  datatype FlagOp = SetFlags(mask: Flags) | UnsetFlags(mask: Flags) | ResetFlags(mask: Flags)

  /** What the three calls are documented to do to the flags... */
  function Documented(f: Flags, op: FlagOp): Flags {
    match op
    case SetFlags(mask) => SetBits(f, mask)
    case UnsetFlags(mask) => UnsetBits(f, mask)
    case ResetFlags(mask) => SetBits({}, mask)
  }

  /** ...and what they do: each computes new flags and discards them, and only reset_flags has
      assigned something before, which is TPNOFLAGS. */
  function Done(f: Flags, op: FlagOp): Flags {
    if op.ResetFlags? then {} else f
  }

  function DoneAll(f: Flags, ops: seq<FlagOp>): Flags
    decreases |ops|
  {
    if ops == [] then f else DoneAll(Done(f, ops[0]), ops[1..])
  }

  class Tuxedo {
    var flags: Flags

    constructor ()
      ensures flags == {}
    {
      flags := {};
    }

    method SetFlags(mask: Flags)
      ensures flags == Done(flags, FlagOp.SetFlags(mask))
    {
      var discarded := SetBits(flags, mask);
    }

    method UnsetFlags(mask: Flags)
      ensures flags == Done(flags, FlagOp.UnsetFlags(mask))
    {
      var discarded := UnsetBits(flags, mask);
    }

    method ResetFlags(mask: Flags)
      modifies this
      ensures flags == Done(old(flags), FlagOp.ResetFlags(mask))
    {
      flags := {};
      var discarded := SetBits(flags, mask);
    }

    method Perform(ops: seq<FlagOp>)
      modifies this
      ensures flags == DoneAll(old(flags), ops)
    {
      for i := 0 to |ops|
        invariant DoneAll(flags, ops[i..]) == DoneAll(old(flags), ops)
      {
        assert ops[i..][1..] == ops[i + 1..];
        match ops[i] {
          case SetFlags(mask) => SetFlags(mask);
          case UnsetFlags(mask) => UnsetFlags(mask);
          case ResetFlags(mask) => ResetFlags(mask);
        }
      }
    }
  }

  /** No history of these calls ever puts a flag on a handle: the flags stay what they were until
      the first reset_flags, and are TPNOFLAGS from then on -- always, for the TPNOFLAGS that a
      handle is created with. */
  lemma {:induction false} FlagsAreNeverSet(f: Flags, ops: seq<FlagOp>)
    ensures DoneAll(f, ops) == if exists i :: 0 <= i < |ops| && ops[i].ResetFlags? then {} else f
    ensures DoneAll({}, ops) == {}
    decreases |ops|
  {
    if ops != [] {
      FlagsAreNeverSet(Done(f, ops[0]), ops[1..]);
      var later := ops[1..];
      assert (exists i :: 0 <= i < |ops| && ops[i].ResetFlags?)
             <==> ops[0].ResetFlags? || exists i :: 0 <= i < |later| && later[i].ResetFlags? by {
        if i :| 0 <= i < |ops| && ops[i].ResetFlags? && i > 0 {
          assert later[i - 1].ResetFlags?;
        }
        if i :| 0 <= i < |later| && later[i].ResetFlags? {
          assert ops[i + 1].ResetFlags?;
        }
      }
    }
  }

  /** A call does what it is documented to do if and only if there was nothing to do: the flags
      to set were set, the flags to clear were clear, or none were to be set after the reset. */
  lemma DiscardedFlags(f: Flags, op: FlagOp)
    requires f <= LONG_MAX && op.mask <= LONG_MAX
    ensures Done(f, op) == Documented(f, op)
            <==> match op
                 case SetFlags(mask) => mask <= f
                 case UnsetFlags(mask) => f !! mask
                 case ResetFlags(mask) => mask == {}
  {
  }

  /** unset inverts its mask within LONG_MAX: it clears exactly the bits of the mask if and
      only if the flags are not negative. */
  lemma UnsetIsDifference(f: Flags, mask: Flags)
    requires f <= WORD && mask <= WORD
    ensures UnsetBits(f, mask) == f - mask <==> 63 !in f
  {
    if 63 in f {
      assert 63 in UnsetBits(f, mask) <==> 63 in mask;
    }
  }
}
