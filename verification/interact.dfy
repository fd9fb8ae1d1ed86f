/**
 * The serverbound play-phase "interact" packet: the entity id, the action
 * type, then fields whose presence depends only on the action, then the
 * sneaking flag. An action type outside 0..2 fails closed.
 */
module Interact {
  import opened Wrappers
  import ByteBuf

  type i32 = ByteBuf.i32
  type byte = ByteBuf.byte
  type F32 = ByteBuf.F32

  datatype ActionType = Interact | Attack | InteractAt

  datatype InvalidActionType = InvalidActionType

  datatype Vector3<T> = Vector3(x: T, y: T, z: T)

  /** `rawType` is the VarInt read as `r#type`, kept as read. */
  datatype SInteract = SInteract(
    entityId: i32,
    rawType: i32,
    targetPosition: Option<Vector3<F32>>,
    hand: Option<i32>,
    sneaking: bool)

  const INVALID_ACTION_TYPE: string := "invalid action type"

  /** `TryFrom<i32> for ActionType` */
  function ActionTypeTryFrom(value: i32): Result<ActionType, InvalidActionType> {
    match value
    case 0 => Ok(Interact)
    case 1 => Ok(Attack)
    case 2 => Ok(InteractAt)
    case _ => Err(InvalidActionType)
  }

  /** The wire number of each action, a reference for `ActionTypeTryFrom`. */
  function Discriminant(action: ActionType): i32 {
    match action
    case Interact => 0
    case Attack => 1
    case InteractAt => 2
  }

  /** `target_position`: three f32 values for InteractAt, nothing otherwise. */
  function TargetPositionAt(data: seq<byte>, pos: nat, action: ActionType)
    : (s: ByteBuf.Step<Option<Vector3<F32>>, ByteBuf.ReadingError>)
    ensures s.Read? ==> s.next == if action == InteractAt then pos + 12 else pos
    ensures s.Read? && action == InteractAt ==> s.next <= |data|
  {
    match action
    case Interact => ByteBuf.Read(None, pos)
    case Attack => ByteBuf.Read(None, pos)
    case InteractAt =>
      match ByteBuf.F32At(data, pos)
      case Failed(e, at) => ByteBuf.Failed(e, at)
      case Read(x, p1) =>
        match ByteBuf.F32At(data, p1)
        case Failed(e, at) => ByteBuf.Failed(e, at)
        case Read(y, p2) =>
          match ByteBuf.F32At(data, p2)
          case Failed(e, at) => ByteBuf.Failed(e, at)
          case Read(z, p3) => ByteBuf.Read(Some(Vector3(x, y, z)), p3)
  }

  /** `hand`: a VarInt for Interact and InteractAt, nothing for Attack. */
  function HandAt(data: seq<byte>, pos: nat, action: ActionType)
    : (s: ByteBuf.Step<Option<i32>, ByteBuf.ReadingError>)
    ensures s.Read? ==> if action == Attack then s.next == pos else pos < s.next <= |data|
  {
    match action
    case Attack => ByteBuf.Read(None, pos)
    case _ =>
      match ByteBuf.VarIntAt(data, pos)
      case Failed(e, at) => ByteBuf.Failed(e, at)
      case Read(h, p) => ByteBuf.Read(Some(h), p)
  }

  /**
   * `ServerPacket::read` from `pos`: the packet and the cursor after it, or
   * the first error met and the cursor where reading stopped.
   */
  function ReadAt(data: seq<byte>, pos: nat): (s: ByteBuf.Step<SInteract, ByteBuf.ReadingError>)
    ensures s.Read? ==> pos < s.next <= |data|
  {
    match ByteBuf.VarIntAt(data, pos)
    case Failed(e, at) => ByteBuf.Failed(e, at)
    case Read(entityId, p1) =>
      match ByteBuf.VarIntAt(data, p1)
      case Failed(e, at) => ByteBuf.Failed(e, at)
      case Read(rawType, p2) =>
        match ActionTypeTryFrom(rawType)
        case Err(_) => ByteBuf.Failed(ByteBuf.Message(INVALID_ACTION_TYPE), p2)
        case Ok(action) =>
          match TargetPositionAt(data, p2, action)
          case Failed(e, at) => ByteBuf.Failed(e, at)
          case Read(targetPosition, p3) =>
            match HandAt(data, p3, action)
            case Failed(e, at) => ByteBuf.Failed(e, at)
            case Read(hand, p4) =>
              match ByteBuf.BoolAt(data, p4)
              case Failed(e, at) => ByteBuf.Failed(e, at)
              case Read(sneaking, p5) =>
                ByteBuf.Read(SInteract(entityId, rawType, targetPosition, hand, sneaking), p5)
  }

  /** `ServerPacket::read`, consuming the fields from the reader in order. */
  method Read(bytebuf: ByteBuf.Reader) returns (r: Result<SInteract, ByteBuf.ReadingError>)
    modifies bytebuf
    ensures r == ReadAt(bytebuf.data, old(bytebuf.pos)).ToResult()
    ensures bytebuf.pos == ReadAt(bytebuf.data, old(bytebuf.pos)).Pos()
  {
    var entityId :- bytebuf.TryGetVarInt();
    var rawType :- bytebuf.TryGetVarInt();
    var action := ActionTypeTryFrom(rawType);
    if action.Err? {
      return Err(ByteBuf.Message(INVALID_ACTION_TYPE));
    }
    var targetPosition: Option<Vector3<F32>> := None;
    if action.value == InteractAt {
      var x :- bytebuf.TryGetF32();
      var y :- bytebuf.TryGetF32();
      var z :- bytebuf.TryGetF32();
      targetPosition := Some(Vector3(x, y, z));
    }
    var hand: Option<i32> := None;
    if action.value != Attack {
      var h :- bytebuf.TryGetVarInt();
      hand := Some(h);
    }
    var sneaking :- bytebuf.TryGetBool();
    r := Ok(SInteract(entityId, rawType, targetPosition, hand, sneaking));
  }

  // ------------------------------------------------------------ properties

  /** `ActionTypeTryFrom` maps exactly 0, 1 and 2, each to its own action. */
  lemma ActionTypeMapping(value: i32)
    ensures ActionTypeTryFrom(value).Ok? <==> 0 <= value <= 2
    ensures ActionTypeTryFrom(value).Ok? ==> Discriminant(ActionTypeTryFrom(value).value) == value
    ensures forall action :: ActionTypeTryFrom(Discriminant(action)) == Ok(action)
  {
  }

  /** The presence of the optional fields a successful read must show. */
  predicate WellFormed(p: SInteract) {
    && 0 <= p.rawType <= 2
    && (p.targetPosition.Some? <==> p.rawType == 2)
    && (p.hand.Some? <==> p.rawType != 1)
  }

  /**
   * On success the type is 0, 1 or 2, a position is present iff it is 2 and
   * a hand is present iff it is not 1; each action fixes its layout.
   */
  lemma ReadPresence(data: seq<byte>, pos: nat)
    requires ReadAt(data, pos).Read?
    ensures WellFormed(ReadAt(data, pos).value)
    ensures var p := ReadAt(data, pos).value;
      && (p.rawType == 0 ==> p.targetPosition.None? && p.hand.Some?)
      && (p.rawType == 1 ==> p.targetPosition.None? && p.hand.None?)
      && (p.rawType == 2 ==> p.targetPosition.Some? && p.hand.Some?)
  {
  }

  /**
   * An unmapped type fails with "invalid action type" right after the type,
   * whatever follows it: no later field is read.
   */
  lemma InvalidTypeStops(data: seq<byte>, pos: nat, other: seq<byte>)
    requires ByteBuf.VarIntAt(data, pos).Read?
    requires ByteBuf.VarIntAt(data, ByteBuf.VarIntAt(data, pos).next).Read?
    requires !(0 <= ByteBuf.VarIntAt(data, ByteBuf.VarIntAt(data, pos).next).value <= 2)
    requires var p2 := ByteBuf.VarIntAt(data, ByteBuf.VarIntAt(data, pos).next).next;
      p2 <= |other| && other[..p2] == data[..p2]
    ensures var p2 := ByteBuf.VarIntAt(data, ByteBuf.VarIntAt(data, pos).next).next;
      ReadAt(other, pos) == ByteBuf.Failed(ByteBuf.Message(INVALID_ACTION_TYPE), p2)
  {
    var p1 := ByteBuf.VarIntAt(data, pos).next;
    var p2 := ByteBuf.VarIntAt(data, p1).next;
    assert other[..p1] == other[..p2][..p1] == data[..p1];
    ByteBuf.VarIntPrefix(data, other, pos);
    ByteBuf.VarIntPrefix(data, other, p1);
  }

  /**
   * A failed read reports the error of the field read that failed: the
   * primitive reads fail only as Incomplete or TooLarge, so a Message is
   * always "invalid action type", and it comes exactly when both VarInts
   * read and the type is outside 0..2, right after the type.
   */
  lemma FailureKinds(data: seq<byte>, pos: nat)
    ensures var s := ReadAt(data, pos);
      s.Failed? && s.err.Message? <==>
        && ByteBuf.VarIntAt(data, pos).Read?
        && ByteBuf.VarIntAt(data, ByteBuf.VarIntAt(data, pos).next).Read?
        && !(0 <= ByteBuf.VarIntAt(data, ByteBuf.VarIntAt(data, pos).next).value <= 2)
    ensures var s := ReadAt(data, pos);
      s.Failed? && s.err.Message? ==>
        s == ByteBuf.Failed(ByteBuf.Message(INVALID_ACTION_TYPE), ByteBuf.VarIntAt(data, ByteBuf.VarIntAt(data, pos).next).next)
  {
  }

  /**
   * A failed read of the entity id, the type or one of the three position
   * values aborts the decode with that read's own error, at that read's
   * cursor: nothing after it is read and no packet comes out.
   */
  lemma FailedHeadReadAborts(data: seq<byte>, pos: nat)
    ensures var e := ByteBuf.VarIntAt(data, pos);
      e.Failed? ==> ReadAt(data, pos) == ByteBuf.Failed(e.err, pos)
    ensures var e := ByteBuf.VarIntAt(data, pos);
      e.Read? ==>
        var t := ByteBuf.VarIntAt(data, e.next);
        t.Failed? ==> ReadAt(data, pos) == ByteBuf.Failed(t.err, e.next)
    ensures var e := ByteBuf.VarIntAt(data, pos);
      e.Read? ==>
        var t := ByteBuf.VarIntAt(data, e.next);
        t.Read? && t.value == 2 ==>
          var x := ByteBuf.F32At(data, t.next);
          var y := ByteBuf.F32At(data, t.next + 4);
          var z := ByteBuf.F32At(data, t.next + 8);
          && (x.Failed? ==> ReadAt(data, pos) == ByteBuf.Failed(x.err, t.next))
          && (x.Read? && y.Failed? ==> ReadAt(data, pos) == ByteBuf.Failed(y.err, t.next + 4))
          && (x.Read? && y.Read? && z.Failed? ==> ReadAt(data, pos) == ByteBuf.Failed(z.err, t.next + 8))
  {
  }

  /**
   * Once the position is read, a failed read of the hand (for Interact and
   * InteractAt) or of the sneaking flag aborts the decode with that read's
   * own error, at that read's cursor.
   */
  lemma FailedTailReadAborts(data: seq<byte>, pos: nat)
    ensures var e := ByteBuf.VarIntAt(data, pos);
      e.Read? ==>
        var t := ByteBuf.VarIntAt(data, e.next);
        t.Read? && ActionTypeTryFrom(t.value).Ok? ==>
          var action := ActionTypeTryFrom(t.value).value;
          var tp := TargetPositionAt(data, t.next, action);
          tp.Read? ==>
            var h := ByteBuf.VarIntAt(data, tp.next);
            && (action != Attack && h.Failed? ==> ReadAt(data, pos) == ByteBuf.Failed(h.err, tp.next))
            && (action == Attack && ByteBuf.BoolAt(data, tp.next).Failed? ==>
                  ReadAt(data, pos) == ByteBuf.Failed(ByteBuf.BoolAt(data, tp.next).err, tp.next))
            && (action != Attack && h.Read? && ByteBuf.BoolAt(data, h.next).Failed? ==>
                  ReadAt(data, pos) == ByteBuf.Failed(ByteBuf.BoolAt(data, h.next).err, h.next))
  {
  }

  function TargetPositionBytes(target: Option<Vector3<F32>>): seq<byte> {
    match target
    case Some(v) => ByteBuf.F32Bytes(v.x) + ByteBuf.F32Bytes(v.y) + ByteBuf.F32Bytes(v.z)
    case None => []
  }

  function HandBytes(hand: Option<i32>): seq<byte> {
    match hand
    case Some(h) => ByteBuf.VarIntBytes(h)
    case None => []
  }

  /** The bytes of a packet in field order: entity id, type, [x, y, z], [hand], sneaking. */
  function Layout(p: SInteract): seq<byte> {
    ByteBuf.VarIntBytes(p.entityId)
    + ByteBuf.VarIntBytes(p.rawType)
    + TargetPositionBytes(p.targetPosition)
    + HandBytes(p.hand)
    + ByteBuf.BoolBytes(p.sneaking)
  }

  lemma F32RoundTrip(f: F32, data: seq<byte>, pos: nat)
    requires ByteBuf.At(data, pos, ByteBuf.F32Bytes(f))
    ensures ByteBuf.F32At(data, pos) == ByteBuf.Read(f, pos + 4)
  {
    assert data[pos..pos + 4][0] == data[pos];
    assert data[pos..pos + 4][3] == data[pos + 3];
  }

  lemma TargetPositionRoundTrip(target: Option<Vector3<F32>>, action: ActionType, data: seq<byte>, pos: nat)
    requires target.Some? <==> action == InteractAt
    requires ByteBuf.At(data, pos, TargetPositionBytes(target))
    ensures TargetPositionAt(data, pos, action) == ByteBuf.Read(target, pos + |TargetPositionBytes(target)|)
  {
    if target.Some? {
      var v := target.value;
      var fx, fy, fz := ByteBuf.F32Bytes(v.x), ByteBuf.F32Bytes(v.y), ByteBuf.F32Bytes(v.z);
      ByteBuf.AtSplit(data, pos, fx + fy, fz);
      ByteBuf.AtSplit(data, pos, fx, fy);
      F32RoundTrip(v.x, data, pos);
      F32RoundTrip(v.y, data, pos + 4);
      F32RoundTrip(v.z, data, pos + 8);
    }
  }

  lemma HandRoundTrip(hand: Option<i32>, action: ActionType, data: seq<byte>, pos: nat)
    requires hand.Some? <==> action != Attack
    requires ByteBuf.At(data, pos, HandBytes(hand))
    ensures HandAt(data, pos, action) == ByteBuf.Read(hand, pos + |HandBytes(hand)|)
  {
    if hand.Some? {
      ByteBuf.VarIntRoundTrip(hand.value, data, pos);
    }
  }

  lemma BoolRoundTrip(b: bool, data: seq<byte>, pos: nat)
    requires ByteBuf.At(data, pos, ByteBuf.BoolBytes(b))
    ensures ByteBuf.BoolAt(data, pos) == ByteBuf.Read(b, pos + 1)
  {
    assert data[pos] == data[pos..pos + 1][0];
  }

  /** A read succeeds when each of its field reads succeeds in turn. */
  lemma ReadAtFields(data: seq<byte>, pos: nat, p: SInteract, p1: nat, p2: nat, p3: nat, p4: nat, p5: nat)
    requires ByteBuf.VarIntAt(data, pos) == ByteBuf.Read(p.entityId, p1)
    requires ByteBuf.VarIntAt(data, p1) == ByteBuf.Read(p.rawType, p2)
    requires ActionTypeTryFrom(p.rawType).Ok?
    requires TargetPositionAt(data, p2, ActionTypeTryFrom(p.rawType).value) == ByteBuf.Read(p.targetPosition, p3)
    requires HandAt(data, p3, ActionTypeTryFrom(p.rawType).value) == ByteBuf.Read(p.hand, p4)
    requires ByteBuf.BoolAt(data, p4) == ByteBuf.Read(p.sneaking, p5)
    ensures ReadAt(data, pos) == ByteBuf.Read(p, p5)
  {
  }

  /** Where each field of a laid-out packet starts. */
  lemma LayoutAt(p: SInteract, data: seq<byte>, pos: nat)
    requires ByteBuf.At(data, pos, Layout(p))
    ensures var p1 := pos + |ByteBuf.VarIntBytes(p.entityId)|;
      var p2 := p1 + |ByteBuf.VarIntBytes(p.rawType)|;
      var p3 := p2 + |TargetPositionBytes(p.targetPosition)|;
      var p4 := p3 + |HandBytes(p.hand)|;
      && ByteBuf.At(data, pos, ByteBuf.VarIntBytes(p.entityId))
      && ByteBuf.At(data, p1, ByteBuf.VarIntBytes(p.rawType))
      && ByteBuf.At(data, p2, TargetPositionBytes(p.targetPosition))
      && ByteBuf.At(data, p3, HandBytes(p.hand))
      && ByteBuf.At(data, p4, ByteBuf.BoolBytes(p.sneaking))
      && pos + |Layout(p)| == p4 + 1
  {
    var id := ByteBuf.VarIntBytes(p.entityId);
    var ty := ByteBuf.VarIntBytes(p.rawType);
    var tp := TargetPositionBytes(p.targetPosition);
    var hd := HandBytes(p.hand);
    var sn := ByteBuf.BoolBytes(p.sneaking);
    ByteBuf.AtSplit(data, pos, id + ty + tp + hd, sn);
    ByteBuf.AtSplit(data, pos, id + ty + tp, hd);
    ByteBuf.AtSplit(data, pos, id + ty, tp);
    ByteBuf.AtSplit(data, pos, id, ty);
  }

  /** Fields written one after another read back in order. */
  lemma FieldsRoundTrip(p: SInteract, data: seq<byte>, pos: nat, p1: nat, p2: nat, p3: nat, p4: nat)
    requires WellFormed(p)
    requires ByteBuf.At(data, pos, ByteBuf.VarIntBytes(p.entityId)) && p1 == pos + |ByteBuf.VarIntBytes(p.entityId)|
    requires ByteBuf.At(data, p1, ByteBuf.VarIntBytes(p.rawType)) && p2 == p1 + |ByteBuf.VarIntBytes(p.rawType)|
    requires ByteBuf.At(data, p2, TargetPositionBytes(p.targetPosition))
    requires p3 == p2 + |TargetPositionBytes(p.targetPosition)|
    requires ByteBuf.At(data, p3, HandBytes(p.hand)) && p4 == p3 + |HandBytes(p.hand)|
    requires ByteBuf.At(data, p4, ByteBuf.BoolBytes(p.sneaking))
    ensures ReadAt(data, pos) == ByteBuf.Read(p, p4 + 1)
  {
    var action := ActionTypeTryFrom(p.rawType).value;
    ByteBuf.VarIntRoundTrip(p.entityId, data, pos);
    ByteBuf.VarIntRoundTrip(p.rawType, data, p1);
    TargetPositionRoundTrip(p.targetPosition, action, data, p2);
    HandRoundTrip(p.hand, action, data, p3);
    BoolRoundTrip(p.sneaking, data, p4);
    ReadAtFields(data, pos, p, p1, p2, p3, p4, p4 + 1);
  }

  /**
   * Every well-formed packet is read back from its layout, consuming exactly
   * its bytes: the fields are taken in the fixed order and the stored type is
   * the raw number that was read.
   */
  lemma LayoutRoundTrip(p: SInteract, data: seq<byte>, pos: nat)
    requires WellFormed(p)
    requires ByteBuf.At(data, pos, Layout(p))
    ensures ReadAt(data, pos) == ByteBuf.Read(p, pos + |Layout(p)|)
  {
    LayoutAt(p, data, pos);
    var p1 := pos + |ByteBuf.VarIntBytes(p.entityId)|;
    var p2 := p1 + |ByteBuf.VarIntBytes(p.rawType)|;
    var p3 := p2 + |TargetPositionBytes(p.targetPosition)|;
    var p4 := p3 + |HandBytes(p.hand)|;
    FieldsRoundTrip(p, data, pos, p1, p2, p3, p4);
  }

  /** Agreeing on the first `n` bytes means agreeing on every shorter prefix. */
  lemma PrefixShorter(data: seq<byte>, other: seq<byte>, m: nat, n: nat)
    requires m <= n <= |data| && n <= |other| && other[..n] == data[..n]
    ensures other[..m] == data[..m]
  {
    assert other[..m] == other[..n][..m];
    assert data[..m] == data[..n][..m];
  }

  lemma TargetPositionPrefix(data: seq<byte>, other: seq<byte>, pos: nat, action: ActionType)
    requires TargetPositionAt(data, pos, action).Read?
    requires TargetPositionAt(data, pos, action).next <= |data| && TargetPositionAt(data, pos, action).next <= |other|
    requires other[..TargetPositionAt(data, pos, action).next] == data[..TargetPositionAt(data, pos, action).next]
    ensures TargetPositionAt(other, pos, action) == TargetPositionAt(data, pos, action)
  {
    if action == InteractAt {
      var n := TargetPositionAt(data, pos, action).next;
      assert n == pos + 12;
      forall i | pos <= i < n
        ensures other[i] == data[i]
      {
        assert other[..n][i] == data[..n][i];
      }
    }
  }

  lemma HandPrefix(data: seq<byte>, other: seq<byte>, pos: nat, action: ActionType)
    requires HandAt(data, pos, action).Read?
    requires HandAt(data, pos, action).next <= |data| && HandAt(data, pos, action).next <= |other|
    requires other[..HandAt(data, pos, action).next] == data[..HandAt(data, pos, action).next]
    ensures HandAt(other, pos, action) == HandAt(data, pos, action)
  {
    if action != Attack {
      ByteBuf.VarIntPrefix(data, other, pos);
    }
  }

  lemma BoolPrefix(data: seq<byte>, other: seq<byte>, pos: nat)
    requires ByteBuf.BoolAt(data, pos).Read?
    requires pos + 1 <= |other| && other[..pos + 1] == data[..pos + 1]
    ensures ByteBuf.BoolAt(other, pos) == ByteBuf.BoolAt(data, pos)
  {
    assert other[pos] == other[..pos + 1][pos];
  }

  /**
   * A successful read looks at no byte past the packet: any payload that
   * agrees on the bytes consumed reads the same packet and stops at the same
   * place, whatever follows.
   */
  lemma ReadAtPrefix(data: seq<byte>, other: seq<byte>, pos: nat)
    requires ReadAt(data, pos).Read?
    requires ReadAt(data, pos).next <= |other|
    requires other[..ReadAt(data, pos).next] == data[..ReadAt(data, pos).next]
    ensures ReadAt(other, pos) == ReadAt(data, pos)
  {
    var n := ReadAt(data, pos).next;
    var p1 := ByteBuf.VarIntAt(data, pos).next;
    var p2 := ByteBuf.VarIntAt(data, p1).next;
    var action := ActionTypeTryFrom(ByteBuf.VarIntAt(data, p1).value).value;
    var p3 := TargetPositionAt(data, p2, action).next;
    var p4 := HandAt(data, p3, action).next;
    PrefixShorter(data, other, p1, n);
    ByteBuf.VarIntPrefix(data, other, pos);
    PrefixShorter(data, other, p2, n);
    ByteBuf.VarIntPrefix(data, other, p1);
    PrefixShorter(data, other, p3, n);
    TargetPositionPrefix(data, other, p2, action);
    PrefixShorter(data, other, p4, n);
    HandPrefix(data, other, p3, action);
    PrefixShorter(data, other, p4 + 1, n);
    BoolPrefix(data, other, p4);
  }

  /** A packet cut short anywhere does not read: no value comes out of a truncated payload. */
  lemma TruncatedFails(p: SInteract, k: nat)
    requires WellFormed(p) && k < |Layout(p)|
    ensures ReadAt(Layout(p)[..k], 0).Failed?
  {
    var cut := Layout(p)[..k];
    if ReadAt(cut, 0).Read? {
      var n := ReadAt(cut, 0).next;
      assert Layout(p)[..n] == cut[..n];
      ReadAtPrefix(cut, Layout(p), 0);
      assert ByteBuf.At(Layout(p), 0, Layout(p));
      LayoutRoundTrip(p, Layout(p), 0);
      assert false;
    }
  }
}
