/**
 * Stand-in for the byte-buffer primitives the decoders call
 * (`try_get_var_int`, `try_get_f32`, `try_get_bool`, `try_get_string_len`,
 * `put_string_len`). Their implementation is not part of this model; these
 * definitions follow the Minecraft Java Edition wire layout and are
 * assumptions about the real buffer code, which this model does not contain:
 *  - VarInt: 7-bit groups, least significant first, high bit set on every
 *    byte but the last, at most 5 bytes; the value is the low 32 bits read
 *    as a two's-complement `i32`;
 *  - f32: 4 bytes, kept as an opaque bit pattern;
 *  - bool: one byte, any non-zero byte is true;
 *  - string: a VarInt byte length, bounded by the caller's maximum, then
 *    that many bytes of ASCII text.
 * A failed primitive read leaves the cursor where it was.
 */
module ByteBuf {
  import opened Wrappers

  type byte = b: int | 0 <= b < 0x100
  type i32 = x: int | -0x8000_0000 <= x < 0x8000_0000

  const TWO_32: nat := 0x1_0000_0000

  /** The largest number of bytes a VarInt occupies. */
  const VAR_INT_MAX_SIZE: nat := 5

  datatype ReadingError =
    | Incomplete(what: string)
    | TooLarge(what: string)
    | Message(msg: string)

  /**
   * The outcome of reading at a cursor: a value and the cursor after it, or
   * an error and the cursor where reading stopped.
   */
  datatype Step<+T, +E> = Read(value: T, next: nat) | Failed(err: E, at: nat) {

    function Pos(): nat {
      if Read? then next else at
    }

    function ToResult(): Result<T, E> {
      if Read? then Ok(value) else Err(err)
    }
  }

  /** `data` holds `bytes` starting at `pos`. */
  predicate At(data: seq<byte>, pos: nat, bytes: seq<byte>) {
    pos + |bytes| <= |data| && data[pos..pos + |bytes|] == bytes
  }

  lemma AtSplit(data: seq<byte>, pos: nat, a: seq<byte>, b: seq<byte>)
    requires At(data, pos, a + b)
    ensures At(data, pos, a) && At(data, pos + |a|, b)
  {
    assert data[pos..pos + |a|] == (a + b)[..|a|];
    assert data[pos + |a|..pos + |a| + |b|] == (a + b)[|a|..];
  }

  // ---------------------------------------------------------------- VarInt

  /** The low 32 bits of `u`, read as two's complement. */
  function ToI32(u: nat): i32 {
    var w := u % TWO_32;
    if w < 0x8000_0000 then w else w - TWO_32
  }

  /** The unsigned 32-bit pattern of `v`. */
  function FromI32(v: i32): (u: nat)
    ensures u < TWO_32 && ToI32(u) == v
  {
    if v < 0 then v + TWO_32 else v
  }

  function Pow128(k: nat): (p: nat)
    ensures p >= 1
  {
    if k == 0 then 1 else 0x80 * Pow128(k - 1)
  }

  /**
   * Reads the 7-bit groups of a VarInt starting at `q`, at most `k` of them:
   * the unsigned sum of the groups and the cursor after the last byte.
   * Running out of bytes is Incomplete; a `k`-th byte that still carries the
   * continuation bit is TooLarge.
   */
  function Groups(data: seq<byte>, q: nat, k: nat): (s: Step<nat, ReadingError>)
    ensures s.Read? ==> q < s.next <= q + k && s.next <= |data|
    ensures s.Failed? ==> s.at == q && !s.err.Message?
    decreases k
  {
    if k == 0 then Failed(TooLarge("varint"), q)
    else if q >= |data| then Failed(Incomplete("varint"), q)
    else if data[q] < 0x80 then Read(data[q], q + 1)
    else match Groups(data, q + 1, k - 1)
      case Read(rest, n) => Read(data[q] - 0x80 + 0x80 * rest, n)
      case Failed(e, _) => Failed(e, q)
  }

  /** `try_get_var_int` */
  function VarIntAt(data: seq<byte>, pos: nat): (s: Step<i32, ReadingError>)
    ensures s.Read? ==> pos < s.next <= pos + VAR_INT_MAX_SIZE && s.next <= |data|
    ensures s.Failed? ==> s.at == pos && !s.err.Message?
  {
    match Groups(data, pos, VAR_INT_MAX_SIZE)
    case Read(u, n) => Read(ToI32(u), n)
    case Failed(e, at) => Failed(e, at)
  }

  /** The 7-bit groups of `u`, least significant first. */
  function GroupBytes(u: nat): (b: seq<byte>)
    ensures |b| >= 1
    decreases u
  {
    if u < 0x80 then [u] else [u % 0x80 + 0x80] + GroupBytes(u / 0x80)
  }

  /** `put_var_int` */
  function VarIntBytes(v: i32): seq<byte> {
    GroupBytes(FromI32(v))
  }

  lemma {:induction false} GroupBytesLength(u: nat, k: nat)
    requires 1 <= k && u < Pow128(k)
    ensures |GroupBytes(u)| <= k
    decreases u
  {
    if u >= 0x80 {
      var p := Pow128(k - 1);
      assert 0x80 * (u / 0x80) <= u < 0x80 * p;
      assert u / 0x80 < p;
      GroupBytesLength(u / 0x80, k - 1);
      assert GroupBytes(u) == [u % 0x80 + 0x80] + GroupBytes(u / 0x80);
    }
  }

  /** A VarInt is never longer than five bytes. */
  lemma VarIntBytesLength(v: i32)
    ensures 1 <= |VarIntBytes(v)| <= VAR_INT_MAX_SIZE
  {
    assert Pow128(5) == 0x8_0000_0000;
    GroupBytesLength(FromI32(v), 5);
  }

  lemma {:induction false} GroupsOfGroupBytes(u: nat, data: seq<byte>, q: nat, k: nat)
    requires |GroupBytes(u)| <= k
    requires At(data, q, GroupBytes(u))
    ensures Groups(data, q, k) == Read(u, q + |GroupBytes(u)|)
    decreases u
  {
    var b := GroupBytes(u);
    assert data[q] == b[0];
    if u >= 0x80 {
      assert b == [u % 0x80 + 0x80] + GroupBytes(u / 0x80);
      assert data[q + 1..q + |b|] == b[1..];
      GroupsOfGroupBytes(u / 0x80, data, q + 1, k - 1);
    }
  }

  /** Reading back a written VarInt gives the value and consumes exactly its bytes. */
  lemma VarIntRoundTrip(v: i32, data: seq<byte>, pos: nat)
    requires At(data, pos, VarIntBytes(v))
    ensures VarIntAt(data, pos) == Read(v, pos + |VarIntBytes(v)|)
  {
    VarIntBytesLength(v);
    GroupsOfGroupBytes(FromI32(v), data, pos, VAR_INT_MAX_SIZE);
  }

  /** A VarInt read looks only at the bytes it consumes. */
  lemma {:induction false} GroupsPrefix(data: seq<byte>, other: seq<byte>, q: nat, k: nat)
    requires Groups(data, q, k).Read?
    requires Groups(data, q, k).next <= |other|
    requires other[..Groups(data, q, k).next] == data[..Groups(data, q, k).next]
    ensures Groups(other, q, k) == Groups(data, q, k)
    decreases k
  {
    var n := Groups(data, q, k).next;
    assert other[q] == other[..n][q];
    if data[q] >= 0x80 {
      GroupsPrefix(data, other, q + 1, k - 1);
    }
  }

  lemma VarIntPrefix(data: seq<byte>, other: seq<byte>, pos: nat)
    requires VarIntAt(data, pos).Read?
    requires VarIntAt(data, pos).next <= |other|
    requires other[..VarIntAt(data, pos).next] == data[..VarIntAt(data, pos).next]
    ensures VarIntAt(other, pos) == VarIntAt(data, pos)
  {
    GroupsPrefix(data, other, pos, VAR_INT_MAX_SIZE);
  }

  // ---------------------------------------------------- fixed-width scalars

  /** A 32-bit float as its four wire bytes; its numeric meaning is not modelled. */
  datatype F32 = F32(b0: byte, b1: byte, b2: byte, b3: byte)

  /** `try_get_f32` */
  function F32At(data: seq<byte>, pos: nat): (s: Step<F32, ReadingError>)
    ensures s.Read? ==> s.next == pos + 4 <= |data|
    ensures s.Failed? ==> s.at == pos
  {
    if pos + 4 <= |data| then Read(F32(data[pos], data[pos + 1], data[pos + 2], data[pos + 3]), pos + 4)
    else Failed(Incomplete("f32"), pos)
  }

  function F32Bytes(f: F32): seq<byte> {
    [f.b0, f.b1, f.b2, f.b3]
  }

  /** `try_get_bool` */
  function BoolAt(data: seq<byte>, pos: nat): (s: Step<bool, ReadingError>)
    ensures s.Read? ==> s.next == pos + 1 <= |data|
    ensures s.Failed? ==> s.at == pos
  {
    if pos < |data| then Read(data[pos] != 0, pos + 1)
    else Failed(Incomplete("bool"), pos)
  }

  function BoolBytes(b: bool): seq<byte> {
    [if b then 1 else 0]
  }

  // ------------------------------------------------------------------ text

  predicate IsAscii(s: string) {
    forall i :: 0 <= i < |s| ==> s[i] as int < 0x80
  }

  function TextBytes(s: string): (b: seq<byte>)
    requires IsAscii(s)
    ensures |b| == |s|
  {
    seq(|s|, i requires 0 <= i < |s| => s[i] as int)
  }

  /** The bytes of a length-prefixed string: its VarInt length, then its text. */
  function StringBytes(s: string): seq<byte>
    requires IsAscii(s) && |s| < 0x8000_0000
  {
    VarIntBytes(|s|) + TextBytes(s)
  }

  /**
   * `try_get_string_len(max)`: a VarInt length, rejected as TooLarge when it
   * is negative or above `max`, then that many bytes of ASCII text.
   */
  function StringAt(data: seq<byte>, pos: nat, max: nat): (s: Step<string, ReadingError>)
    ensures s.Read? ==> pos < s.next <= |data| && |s.value| <= max
    ensures s.Failed? ==> s.at == pos
  {
    match VarIntAt(data, pos)
    case Failed(e, _) => Failed(e, pos)
    case Read(len, p) =>
      if len < 0 || len > max then Failed(TooLarge("string"), pos)
      else if p + len > |data| then Failed(Incomplete("string"), pos)
      else if exists i | p <= i < p + len :: data[i] >= 0x80 then Failed(Message("invalid utf-8"), pos)
      else Read(seq(len, i requires 0 <= i < len => data[p + i] as char), p + len)
  }

  /** A written string reads back unchanged, consuming exactly its bytes. */
  lemma StringRoundTrip(s: string, max: nat, data: seq<byte>, pos: nat)
    requires IsAscii(s) && |s| <= max && |s| < 0x8000_0000
    requires At(data, pos, StringBytes(s))
    ensures StringAt(data, pos, max) == Read(s, pos + |StringBytes(s)|)
  {
    AtSplit(data, pos, VarIntBytes(|s|), TextBytes(s));
    VarIntRoundTrip(|s|, data, pos);
    var p := pos + |VarIntBytes(|s|)|;
    forall i | p <= i < p + |s|
      ensures data[i] == s[i - p] as int
    {
      assert data[i] == data[p..p + |s|][i - p];
    }
    assert !exists i | p <= i < p + |s| :: data[i] >= 0x80;
    assert seq(|s|, i requires 0 <= i < |s| => data[p + i] as char) == s;
  }

  // ------------------------------------------------------- cursor and sink

  /** A read cursor over a received payload. */
  class Reader {
    const data: seq<byte>
    var pos: nat

    constructor (data: seq<byte>)
      ensures this.data == data && pos == 0
    {
      this.data := data;
      pos := 0;
    }

    method TryGetVarInt() returns (r: Result<i32, ReadingError>)
      modifies this
      ensures r == VarIntAt(data, old(pos)).ToResult()
      ensures pos == VarIntAt(data, old(pos)).Pos()
    {
      var s := VarIntAt(data, pos);
      r, pos := s.ToResult(), s.Pos();
    }

    method TryGetF32() returns (r: Result<F32, ReadingError>)
      modifies this
      ensures r == F32At(data, old(pos)).ToResult()
      ensures pos == F32At(data, old(pos)).Pos()
    {
      var s := F32At(data, pos);
      r, pos := s.ToResult(), s.Pos();
    }

    method TryGetBool() returns (r: Result<bool, ReadingError>)
      modifies this
      ensures r == BoolAt(data, old(pos)).ToResult()
      ensures pos == BoolAt(data, old(pos)).Pos()
    {
      var s := BoolAt(data, pos);
      r, pos := s.ToResult(), s.Pos();
    }

    method TryGetStringLen(max: nat) returns (r: Result<string, ReadingError>)
      modifies this
      ensures r == StringAt(data, old(pos), max).ToResult()
      ensures pos == StringAt(data, old(pos), max).Pos()
    {
      var s := StringAt(data, pos, max);
      r, pos := s.ToResult(), s.Pos();
    }
  }

  /** An outgoing byte sink that only grows. */
  class Writer {
    var bytes: seq<byte>

    constructor ()
      ensures bytes == []
    {
      bytes := [];
    }

    method PutVarInt(v: i32)
      modifies this
      ensures bytes == old(bytes) + VarIntBytes(v)
    {
      bytes := bytes + VarIntBytes(v);
    }

    /**
     * `put_string_len(s, max)`: writes the length-prefixed string, or refuses
     * (writing nothing) when it is longer than `max`.
     */
    method PutStringLen(s: string, max: nat) returns (ok: bool)
      requires IsAscii(s) && max < 0x8000_0000
      modifies this
      ensures ok <==> |s| <= max
      ensures bytes == if ok then old(bytes) + StringBytes(s) else old(bytes)
    {
      ok := |s| <= max;
      if ok {
        PutVarInt(|s|);
        bytes := bytes + TextBytes(s);
      }
    }
  }
}
