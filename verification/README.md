# Pumpkin: identifiers, the interact packet and sign placement

A Dafny model of three pieces of the Pumpkin Minecraft server, with proofs of
their properties.

- **`Identifier`** (`identifier.dfy` module `Identifiers`). This is a namespaced
  key whose canonical text is `namespace:path`.
  - `vanilla` puts a path in the `minecraft` namespace.
  - The wire codec writes the text as a length-prefixed string bounded by
    `MAX_SIZE` = 32767, which is `i16::MAX`.
  - The wire `decode` and the serde `visit_str` both split the text at its
    first `:`.
  - On the wire, a missing `:` is reported as `DecodeError::Incomplete`. That
    is the same error that replaces every failure of the string read, and the
    model keeps it that way.
- **`SInteract`** (`interact.dfy` module `Interact`). This is the serverbound
  "interact" packet.
  - Field order: entity id (VarInt), then action type (VarInt), then three
    `f32` for `InteractAt` only, then a hand (VarInt) except for `Attack`,
    then the `sneaking` bool.
  - An action type outside 0..2 fails with "invalid action type" before any
    later field is read.
  - `read` is a method over a reader object with a cursor, proved equal to the
    pure cursor function `ReadAt`.
- **Sign placement** (`signs.dfy` module `Signs`).
  - `get_wall_block` cuts a sign's name at its last `_`, appends `_wall_sign`
    and looks that key up in the registry.
  - `on_place` picks the wall variant against a horizontal face, facing away
    from it, and the standing sign otherwise. It falls back to the oak wall
    sign, or to the wall block's default state.
  - The generated block tables are the fields of a `BlockTables` value, and
    nothing is assumed about them: the registry lookup, default properties,
    `to_state_id`, `to_horizontal_facing` and `opposite`.

Supporting modules:

- `Wrappers`: `Option` and `Result`.
- `Text`: first and last index of a character, reversal, split at the first
  occurrence.
- `ByteBuf`: the byte-buffer primitives the codecs call.
  - `pumpkin-protocol/src/bytebuf` is not part of this model, so these
    primitives are stand-ins, stated as assumptions.
  - A VarInt is 7-bit groups, least significant first, at most 5 bytes, giving
    the low 32 bits as a two's-complement `i32`. Running out of bytes is
    `Incomplete`; a fifth byte that still continues is `TooLarge`.
  - An `f32` is four opaque bytes.
  - A bool is one byte, true when it is not 0.
  - A bounded string is a VarInt length, `TooLarge` when it is negative or over
    the bound, followed by that many ASCII bytes.
  - A failed primitive read leaves the cursor where it was.
  - The reader and the writer are classes: a fixed byte sequence with a mutable
    cursor, and a mutable byte sequence that grows.

Names and identifier texts are taken to be ASCII. Two consequences:

- In `get_wall_block`, the character count used to compute the cut
  (`signs.rs:112`) and the byte offset used to slice (`signs.rs:113`) coincide.
- The string length on the wire equals the text length.

## Model

| member | source | states |
|---|---|---|
| Identifiers.VanillaText | pumpkin-protocol/src/codec/identifier.rs:17-22 | `vanilla(p)` has namespace `minecraft` and path `p` unchanged; its text is `minecraft:p`, and parsing that text gives it back |
| Identifiers.MissingColon | pumpkin-protocol/src/codec/identifier.rs:40-46 | both parsers fail exactly on text without `:`; the wire parser reports `Incomplete`, the serde parser the custom error "identifier can't be split" |
| Identifiers.SplitAtFirstColon | pumpkin-protocol/src/codec/identifier.rs:40-44 | text with a `:` parses; the namespace holds no `:`, and namespace, `:` and path spell the text |
| Identifiers.LaterColonsInPath | pumpkin-protocol/src/codec/identifier.rs:40-44 | after a namespace without `:`, every further `:` stays in the path |
| Identifiers.TextRoundTrip | pumpkin-protocol/src/codec/identifier.rs:97-101 | formatting the identifier parsed from any text with a `:` gives back exactly that text |
| Identifiers.ValueRoundTrip | pumpkin-protocol/src/codec/identifier.rs:97-101 | parsing an identifier's canonical text returns an equal identifier if and only if its namespace has no `:` |
| Identifiers.EmptyPartsAccepted | pumpkin-protocol/src/codec/identifier.rs:40-44 | `":"` parses as the identifier with empty namespace and empty path |
| Identifiers.ParsersAgree | pumpkin-protocol/src/codec/identifier.rs:84-90 | `visit_str` and the wire split accept the same strings and give the same identifier |
| Identifiers.DecodeFailsOnlyIncomplete | pumpkin-protocol/src/codec/identifier.rs:36-39 | every failure of the wire decode is `Incomplete`, and every failed string read, `TooLarge` included, makes the decode fail with `Incomplete` at its starting cursor |
| Identifiers.CompleteTextWithoutColonIsIncomplete | pumpkin-protocol/src/codec/identifier.rs:45 | a complete, well-formed string without `:` is consumed and then rejected as `Incomplete` |
| Identifiers.WireRoundTrip | pumpkin-protocol/src/codec/identifier.rs:26-47 | the bytes `encode` writes for an identifier whose namespace has no `:` decode to that identifier, consuming exactly those bytes |
| Identifiers.Encode | pumpkin-protocol/src/codec/identifier.rs:32-34 | the canonical text is written as a string bounded by 32767: it is appended when it fits, and nothing is written otherwise |
| Identifiers.Decode | pumpkin-protocol/src/codec/identifier.rs:36-47 | reads a bounded string from the reader's cursor and splits it; the result and the new cursor are those of `DecodeAt` |
| Interact.ActionTypeMapping | pumpkin-protocol/src/server/play/interact.rs:64-71 | `try_from` succeeds exactly on 0, 1 and 2, mapping them to Interact, Attack and InteractAt, and is the inverse of the discriminant |
| Interact.Read | pumpkin-protocol/src/server/play/interact.rs:22-49 | consumes the fields from the reader in order, stopping at the first failed read; the result and the new cursor are those of `ReadAt` |
| Interact.ReadPresence | pumpkin-protocol/src/server/play/interact.rs:27-40 | on success the type is 0..2, a position is present iff the type is 2, and a hand iff the type is not 1; Interact gives no position and a hand, Attack neither, InteractAt both |
| Interact.InvalidTypeStops | pumpkin-protocol/src/server/play/interact.rs:24-26 | an unmapped type fails with "invalid action type" right after the type, whatever bytes follow it |
| Interact.FailureKinds | pumpkin-protocol/src/server/play/interact.rs:24-26 | a `Message` failure is always "invalid action type", right after the type, and it comes exactly when both VarInts read and the type is outside 0..2 |
| Interact.FailedHeadReadAborts | pumpkin-protocol/src/server/play/interact.rs:23-34 | a failed read of the entity id, the type or any of the three position values (type 2) aborts the decode with that read's own error at that read's cursor |
| Interact.FailedTailReadAborts | pumpkin-protocol/src/server/play/interact.rs:36-47 | after the position, a failed hand read (Interact, InteractAt) or sneaking read aborts the decode with that read's own error at that read's cursor |
| Interact.LayoutRoundTrip | pumpkin-protocol/src/server/play/interact.rs:42-48 | the bytes of a well-formed packet, in field order, read back as that packet with the raw type kept, consuming exactly those bytes |
| Interact.TargetPositionRoundTrip | pumpkin-protocol/src/server/play/interact.rs:27-35 | three consecutive 4-byte values read back as the position for InteractAt; nothing is read for the other actions |
| Interact.HandRoundTrip | pumpkin-protocol/src/server/play/interact.rs:36-40 | a VarInt hand is read back for Interact and InteractAt; nothing is read for Attack |
| Interact.ReadAtPrefix | pumpkin-protocol/src/server/play/interact.rs:22-49 | a successful read looks only at the bytes it consumes: any buffer with the same prefix reads the same packet |
| Interact.TruncatedFails | pumpkin-protocol/src/server/play/interact.rs:23-47 | a packet cut short anywhere does not read: a failed primitive read aborts, and no value comes out |
| Signs.CutPointIsLastUnderscore | pumpkin/src/block/blocks/signs.rs:110-112 | the cut `count - rev_index - 1` lies in [0, count) and is the position of the last `_`; there is none exactly when the name has no `_` |
| Signs.WallSignKeyNone | pumpkin/src/block/blocks/signs.rs:110-117 | no key is derived exactly when the name has no `_` |
| Signs.WallSignKeyCutsAtLastUnderscore | pumpkin/src/block/blocks/signs.rs:110-114 | the key is the name before its last `_` followed by `_wall_sign`, and the dropped part after that `_` has no `_` |
| Signs.CutsOnlyLastUnderscore | pumpkin/src/block/blocks/signs.rs:110-114 | earlier underscores survive: `prefix_last` with no `_` in `last` gives `prefix_wall_sign` |
| Signs.DarkOakExample | pumpkin/src/block/blocks/signs.rs:110-114 | `dark_oak_sign` gives the key `dark_oak_wall_sign` |
| Signs.NoUnderscoreNoLookup | pumpkin/src/block/blocks/signs.rs:110-117 | a name without `_` gives no wall block, whatever the registry holds |
| Signs.GetWallBlockIsLookup | pumpkin/src/block/blocks/signs.rs:115 | the wall block is the registry's answer for the derived key, unfiltered |
| Signs.OnPlaceWallSign | pumpkin/src/block/blocks/signs.rs:46-63 | against a horizontal face, with the wall block found and a horizontal facing, the state is that wall block's default properties with `facing` set to the opposite of the facing |
| Signs.OnPlaceFallsBackToOak | pumpkin/src/block/blocks/signs.rs:47-53 | a failed wall lookup falls back to the oak wall sign |
| Signs.OnPlaceNoFacing | pumpkin/src/block/blocks/signs.rs:56-61 | with no horizontal facing, the wall block's default state id is returned |
| Signs.OnPlaceStanding | pumpkin/src/block/blocks/signs.rs:66-68 | against the top or bottom face, the block's own default standing-sign state is placed, and the wall tables are never consulted |

## Left out

- `written_size` for `Identifier` is unimplemented in the source (`todo!()`), so there is nothing to model.
- The serde `Serialize`/`Deserialize` plumbing and `expecting` are left out. Only the split in `visit_str` is modelled.
- The real byte-buffer code is not part of this model. Its primitives are the stand-ins described above, with three gaps:
  - only ASCII text is decoded, and any byte of 0x80 or more is rejected;
  - error payload strings are placeholders;
  - the cursor is left unchanged after a failed read.
- Identifiers.Decode and Identifiers.DecodeAt: a string with a byte of 0x80 or more fails as `Incomplete`. The real decoder returns such text when it is valid UTF-8: `a:é`, whose bytes are `04 61 3a c3 a9`, is an identifier there.
- Identifiers.Encode: requires ASCII text. Writing an oversized text is modelled as `ok == false` with nothing written, not as whatever the real string writer does on overflow.
- Identifiers.EncodeBytes: defined only for ASCII text, for the same reason.
- Floating-point meaning of the target position is not modelled. Each `f32` is four opaque bytes.
- The `#[packet(PLAY_INTERACT)]` macro and the packet id registration are not visible and are left out.
- The async hooks `placed`, `player_placed` and `on_state_replaced` are left out. They send packets and change block entities in the shared world.
- `BlockMetadata::ids` is left out, because it reads the global tag registry.
- The generated block tables are parameters with no properties assumed.
- The `log::error!` calls in `on_place` are left out. They only have side effects.
- Two behaviours of the code are kept as written, although they look unintended:
  - a missing `:` is `Incomplete`, not a malformed-input error;
  - an empty namespace or path is accepted.
