/**
 * The namespaced key `namespace:path`: its canonical text, the `vanilla`
 * helper, the wire codec (a bounded length-prefixed string) and the text
 * parser used when deserialising.
 *
 * Both parsers split at the FIRST ':'; the namespace therefore never holds a
 * ':' while the path may. Either part may be empty. On the wire path a
 * missing ':' is reported as `DecodeError.Incomplete`, the same error that
 * replaces every failure of the string read.
 */
module Identifiers {
  import opened Wrappers
  import opened Text
  import ByteBuf

  datatype Identifier = Identifier(namespace: string, path: string)

  /** The codec's decode errors. */
  datatype DecodeError = Incomplete | TooLarge

  /** The error the text deserialiser reports. */
  datatype SerdeError = Custom(msg: string)

  /** The most bytes an identifier's text may take on the wire: `i16::MAX`. */
  const MAX_SIZE: nat := 32767

  /** `Identifier::vanilla`: the path in the `minecraft` namespace. */
  function Vanilla(path: string): Identifier {
    Identifier("minecraft", path)
  }

  /** `Display`: the canonical text form. */
  function ToText(id: Identifier): string {
    id.namespace + ":" + id.path
  }

  /** The split performed by `Codec::decode` once the string is read. */
  function DecodeText(s: string): Result<Identifier, DecodeError> {
    match SplitOnce(s, ':')
    case Some((namespace, path)) => Ok(Identifier(namespace, path))
    case None => Err(DecodeError.Incomplete)
  }

  /** `IdentifierVisitor::visit_str` */
  function VisitStr(s: string): Result<Identifier, SerdeError> {
    match SplitOnce(s, ':')
    case Some((namespace, path)) => Ok(Identifier(namespace, path))
    case None => Err(Custom("identifier can't be split"))
  }

  /** `Codec::decode` from `pos`: every failure of the string read becomes Incomplete. */
  function DecodeAt(data: seq<ByteBuf.byte>, pos: nat): ByteBuf.Step<Identifier, DecodeError> {
    match ByteBuf.StringAt(data, pos, MAX_SIZE)
    case Failed(_, at) => ByteBuf.Failed(DecodeError.Incomplete, at)
    case Read(s, next) =>
      match DecodeText(s)
      case Ok(id) => ByteBuf.Read(id, next)
      case Err(e) => ByteBuf.Failed(e, next)
  }

  /**
   * The bytes `Codec::encode` appends: the canonical text as a bounded
   * length-prefixed string, or None when the text exceeds MAX_SIZE.
   */
  function EncodeBytes(id: Identifier): Option<seq<ByteBuf.byte>>
    requires ByteBuf.IsAscii(ToText(id))
  {
    if |ToText(id)| <= MAX_SIZE then Some(ByteBuf.StringBytes(ToText(id))) else None
  }

  /** `Codec::encode`; `ok` is false where the string writer refuses an oversized text. */
  method Encode(id: Identifier, write: ByteBuf.Writer) returns (ok: bool)
    requires ByteBuf.IsAscii(ToText(id))
    modifies write
    ensures ok <==> |ToText(id)| <= MAX_SIZE
    ensures write.bytes == if ok then old(write.bytes) + EncodeBytes(id).value else old(write.bytes)
  {
    ok := write.PutStringLen(ToText(id), MAX_SIZE);
  }

  /** `Codec::decode`, advancing the reader's cursor. */
  method Decode(read: ByteBuf.Reader) returns (r: Result<Identifier, DecodeError>)
    modifies read
    ensures r == DecodeAt(read.data, old(read.pos)).ToResult()
    ensures read.pos == DecodeAt(read.data, old(read.pos)).Pos()
  {
    var identifier := read.TryGetStringLen(MAX_SIZE);
    if identifier.Err? {
      return Err(DecodeError.Incomplete);
    }
    match SplitOnce(identifier.value, ':')
    case Some((namespace, path)) =>
      r := Ok(Identifier(namespace, path));
    case None =>
      r := Err(DecodeError.Incomplete);
  }

  // ------------------------------------------------------------ properties

  /** `vanilla(p)` is `minecraft:p`, and parsing that text gives it back. */
  lemma VanillaText(path: string)
    ensures Vanilla(path).namespace == "minecraft" && Vanilla(path).path == path
    ensures ToText(Vanilla(path)) == "minecraft:" + path
    ensures DecodeText(ToText(Vanilla(path))) == Ok(Vanilla(path))
  {
    ValueRoundTrip(Vanilla(path));
  }

  /** Text without ':' is rejected by both parsers, the wire one with Incomplete. */
  lemma MissingColon(s: string)
    ensures DecodeText(s).Err? <==> ':' !in s
    ensures VisitStr(s).Err? <==> ':' !in s
    ensures ':' !in s ==> DecodeText(s) == Err(DecodeError.Incomplete)
    ensures ':' !in s ==> VisitStr(s) == Err(Custom("identifier can't be split"))
  {
  }

  /**
   * A parse splits at the first ':': the namespace holds no ':', and the
   * namespace, a ':' and the path spell the parsed text.
   */
  lemma SplitAtFirstColon(s: string)
    requires ':' in s
    ensures DecodeText(s).Ok?
    ensures ':' !in DecodeText(s).value.namespace
    ensures s == DecodeText(s).value.namespace + ":" + DecodeText(s).value.path
  {
  }

  /** A colon after the first one stays in the path. */
  lemma LaterColonsInPath(namespace: string, path: string)
    requires ':' !in namespace
    ensures DecodeText(namespace + ":" + path) == Ok(Identifier(namespace, path))
  {
    SplitOnceJoin(namespace, ':', path);
  }

  /** Text round trip: formatting a parsed identifier gives back the text. */
  lemma TextRoundTrip(s: string)
    requires ':' in s
    ensures DecodeText(s).Ok? && ToText(DecodeText(s).value) == s
  {
  }

  /**
   * Value round trip: parsing the canonical text returns an equal
   * identifier exactly when the namespace holds no ':'.
   */
  lemma ValueRoundTrip(id: Identifier)
    ensures DecodeText(ToText(id)) == Ok(id) <==> ':' !in id.namespace
  {
    if ':' !in id.namespace {
      SplitOnceJoin(id.namespace, ':', id.path);
    }
  }

  /** Empty parts are accepted: ":" is the identifier with empty namespace and path. */
  lemma EmptyPartsAccepted()
    ensures DecodeText(":") == Ok(Identifier("", ""))
  {
    SplitOnceJoin("", ':', "");
  }

  /** The wire parser and the text deserialiser accept the same strings with the same result. */
  lemma ParsersAgree(s: string)
    ensures DecodeText(s).Ok? <==> VisitStr(s).Ok?
    ensures DecodeText(s).Ok? ==> DecodeText(s).value == VisitStr(s).value
  {
  }

  /**
   * Every wire decode failure, whatever its cause, is Incomplete; and every
   * failed string read, TooLarge included, makes the decode fail with
   * Incomplete at the cursor where it started.
   */
  lemma DecodeFailsOnlyIncomplete(data: seq<ByteBuf.byte>, pos: nat)
    ensures DecodeAt(data, pos).Failed? ==> DecodeAt(data, pos).err == DecodeError.Incomplete
    ensures ByteBuf.StringAt(data, pos, MAX_SIZE).Failed? ==>
      DecodeAt(data, pos) == ByteBuf.Failed(DecodeError.Incomplete, pos)
  {
  }

  /**
   * A well-formed length-prefixed string without ':' is consumed and then
   * rejected as Incomplete, although no byte is missing.
   */
  lemma CompleteTextWithoutColonIsIncomplete(s: string, data: seq<ByteBuf.byte>, pos: nat)
    requires ByteBuf.IsAscii(s) && |s| <= MAX_SIZE && ':' !in s
    requires ByteBuf.At(data, pos, ByteBuf.StringBytes(s))
    ensures DecodeAt(data, pos) == ByteBuf.Failed(DecodeError.Incomplete, pos + |ByteBuf.StringBytes(s)|)
  {
    ByteBuf.StringRoundTrip(s, MAX_SIZE, data, pos);
  }

  /**
   * Wire round trip: the bytes written for an identifier whose namespace has
   * no ':' decode to that identifier, consuming exactly those bytes.
   */
  lemma WireRoundTrip(id: Identifier, data: seq<ByteBuf.byte>, pos: nat)
    requires ByteBuf.IsAscii(ToText(id)) && ':' !in id.namespace
    requires EncodeBytes(id).Some?
    requires ByteBuf.At(data, pos, EncodeBytes(id).value)
    ensures DecodeAt(data, pos) == ByteBuf.Read(id, pos + |EncodeBytes(id).value|)
  {
    ByteBuf.StringRoundTrip(ToText(id), MAX_SIZE, data, pos);
    ValueRoundTrip(id);
  }
}
