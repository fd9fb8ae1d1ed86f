/**
 * The sign block: deriving the wall-sign variant of a standing sign from its
 * name, and the choice of placed state in `on_place`.
 *
 * The generated block tables (registry lookup by name, default properties,
 * property-to-state conversion, horizontal facing and its opposite) are not
 * part of this model; they are the fields of a `BlockTables` value and
 * nothing is assumed about them. Block names are ASCII, so the character
 * count used to compute the cut and the byte offset used to slice agree.
 */
module Signs {
  import opened Wrappers
  import opened Text

  type u16 = x: int | 0 <= x < 0x1_0000

  datatype Block = Block(name: string, defaultStateId: u16)

  /** The six faces a block can be placed against. */
  datatype BlockDirection = Down | Up | North | South | West | East {
    predicate IsHorizontal() {
      !(Down? || Up?)
    }
  }

  datatype HorizontalFacing = FacingNorth | FacingSouth | FacingWest | FacingEast

  /** The properties of a wall sign; only `facing` is set by `on_place`. */
  datatype WallSignProps = WallSignProps(facing: HorizontalFacing, waterlogged: bool)

  /** The properties of a standing sign, used as their defaults only. */
  datatype SignProps = SignProps(rotation: nat, waterlogged: bool)

  /** The generated data the sign code consults. */
  datatype BlockTables = BlockTables(
    fromRegistryKey: string -> Option<Block>,
    oakWallSign: Block,
    toHorizontalFacing: BlockDirection -> Option<HorizontalFacing>,
    opposite: HorizontalFacing -> HorizontalFacing,
    wallSignDefault: Block -> WallSignProps,
    wallSignStateId: (WallSignProps, Block) -> u16,
    signDefault: Block -> SignProps,
    signStateId: (SignProps, Block) -> u16)

  const WALL_SIGN_SUFFIX: string := "_wall_sign"

  /**
   * Where `get_wall_block` cuts the name: `count - rev_index - 1`, with
   * `rev_index` the position of the first '_' of the reversed name; None
   * when the name holds no '_'.
   */
  function CutPoint(name: string): (r: Option<nat>)
    ensures r.Some? ==> r.value < |name|
  {
    match IndexOf(Reverse(name), '_')
    case None => None
    case Some(revIndex) => Some(|name| - revIndex - 1)
  }

  /**
   * The registry key `get_wall_block` looks up: the name up to the cut
   * followed by "_wall_sign".
   */
  function WallSignKey(name: string): Option<string> {
    match CutPoint(name)
    case None => None
    case Some(index) => Some(name[..index] + WALL_SIGN_SUFFIX)
  }

  /** `get_wall_block` */
  function GetWallBlock(tables: BlockTables, block: Block): Option<Block> {
    match WallSignKey(block.name)
    case None => None
    case Some(key) => tables.fromRegistryKey(key)
  }

  /** `SignBlock::on_place`: the state id placed for `block` against `face`. */
  function OnPlace(tables: BlockTables, block: Block, face: BlockDirection): u16 {
    if face.IsHorizontal() then
      var wallBlock := match GetWallBlock(tables, block)
        case Some(b) => b
        case None => tables.oakWallSign;
      var props := tables.wallSignDefault(wallBlock);
      match tables.toHorizontalFacing(face)
      case Some(f) => tables.wallSignStateId(props.(facing := tables.opposite(f)), wallBlock)
      case None => wallBlock.defaultStateId
    else
      tables.signStateId(tables.signDefault(block), block)
  }

  // ------------------------------------------------------------ properties

  /**
   * The cut `count - rev_index - 1` is the position of the last '_' of the
   * name, and there is one exactly when the name holds a '_'.
   */
  lemma CutPointIsLastUnderscore(name: string)
    ensures CutPoint(name) == LastIndexOf(name, '_')
  {
    RevPositionIsLast(name, '_');
  }

  /** With its last '_' at `i`, the key keeps the name up to `i`. */
  lemma WallSignKeyOfLast(name: string, i: nat)
    requires LastIndexOf(name, '_') == Some(i)
    ensures WallSignKey(name) == Some(name[..i] + WALL_SIGN_SUFFIX)
  {
    CutPointIsLastUnderscore(name);
  }

  /** The derived key is None exactly when the name has no '_'. */
  lemma WallSignKeyNone(name: string)
    ensures WallSignKey(name).None? <==> '_' !in name
  {
    CutPointIsLastUnderscore(name);
  }

  /**
   * With a '_' in the name, the derived key is the name cut before its LAST
   * '_', followed by "_wall_sign": earlier underscores stay in the kept part
   * and the dropped part has none.
   */
  lemma WallSignKeyCutsAtLastUnderscore(name: string)
    requires '_' in name
    ensures var i := LastIndexOf(name, '_').value;
      && WallSignKey(name) == Some(name[..i] + WALL_SIGN_SUFFIX)
      && name == name[..i] + "_" + name[i + 1..]
      && '_' !in name[i + 1..]
  {
    var i := LastIndexOf(name, '_').value;
    WallSignKeyOfLast(name, i);
    SplitAround(name, i);
  }

  /** A name is its part before `i`, the '_' at `i`, and its part after. */
  lemma SplitAround(name: string, i: nat)
    requires i < |name| && name[i] == '_'
    ensures name == name[..i] + "_" + name[i + 1..]
  {
    assert name == name[..i] + [name[i]] + name[i + 1..];
  }

  /** The last '_' of `prefix + "_" + last` is the one after `prefix` when `last` has none. */
  lemma LastUnderscoreAfterPrefix(prefix: string, last: string)
    requires '_' !in last
    ensures LastIndexOf(prefix + "_" + last, '_') == Some(|prefix|)
  {
    var name := prefix + "_" + last;
    forall k | |prefix| < k < |name|
      ensures name[k] != '_'
    {
      assert name[k] == last[k - |prefix| - 1];
    }
    LastIndexOfAt(name, '_', |prefix|);
  }

  /**
   * Only the last '_' is cut: a prefix keeps all its underscores when the
   * part after the last '_' has none.
   */
  lemma CutsOnlyLastUnderscore(prefix: string, last: string)
    requires '_' !in last
    ensures WallSignKey(prefix + "_" + last) == Some(prefix + WALL_SIGN_SUFFIX)
  {
    LastUnderscoreAfterPrefix(prefix, last);
    WallSignKeyOfLast(prefix + "_" + last, |prefix|);
    assert (prefix + "_" + last)[..|prefix|] == prefix;
  }

  /** `dark_oak_sign` becomes `dark_oak_wall_sign`. */
  lemma DarkOakExample()
    ensures WallSignKey("dark_oak" + "_" + "sign") == Some("dark_oak_wall_sign")
  {
    CutsOnlyLastUnderscore("dark_oak", "sign");
    assert "dark_oak" + WALL_SIGN_SUFFIX == "dark_oak_wall_sign";
  }

  /** A name without '_' gives None whatever the registry holds: nothing is looked up. */
  lemma NoUnderscoreNoLookup(tables: BlockTables, other: BlockTables, block: Block)
    requires '_' !in block.name
    ensures GetWallBlock(tables, block) == None
    ensures GetWallBlock(other, block) == None
  {
    WallSignKeyNone(block.name);
  }

  /** `get_wall_block` returns the registry's answer for the derived key, unfiltered. */
  lemma GetWallBlockIsLookup(tables: BlockTables, block: Block)
    requires '_' in block.name
    ensures var i := LastIndexOf(block.name, '_').value;
      GetWallBlock(tables, block) == tables.fromRegistryKey(block.name[..i] + WALL_SIGN_SUFFIX)
  {
    WallSignKeyCutsAtLastUnderscore(block.name);
  }

  /**
   * The main case: against a horizontal face, with the wall block found and
   * a horizontal facing, the placed state is that wall block's default
   * properties turned to face away from the face.
   */
  lemma OnPlaceWallSign(tables: BlockTables, block: Block, face: BlockDirection, wall: Block, f: HorizontalFacing)
    requires face.IsHorizontal()
    requires GetWallBlock(tables, block) == Some(wall) && tables.toHorizontalFacing(face) == Some(f)
    ensures OnPlace(tables, block, face) ==
      tables.wallSignStateId(tables.wallSignDefault(wall).(facing := tables.opposite(f)), wall)
  {
  }

  /** A failed wall lookup against a horizontal face falls back to the oak wall sign. */
  lemma OnPlaceFallsBackToOak(tables: BlockTables, block: Block, face: BlockDirection)
    requires face.IsHorizontal() && GetWallBlock(tables, block).None?
    requires tables.toHorizontalFacing(face).Some?
    ensures OnPlace(tables, block, face) == tables.wallSignStateId(
      tables.wallSignDefault(tables.oakWallSign).(facing := tables.opposite(tables.toHorizontalFacing(face).value)),
      tables.oakWallSign)
  {
  }

  /** With no horizontal facing, the wall block's default state is placed. */
  lemma OnPlaceNoFacing(tables: BlockTables, block: Block, face: BlockDirection)
    requires face.IsHorizontal() && tables.toHorizontalFacing(face).None?
    ensures OnPlace(tables, block, face) ==
      if GetWallBlock(tables, block).Some? then GetWallBlock(tables, block).value.defaultStateId
      else tables.oakWallSign.defaultStateId
  {
  }

  /**
   * Against the top or bottom face the standing sign's default state is
   * placed, and the wall tables are never consulted: any two tables that
   * agree on the standing-sign data give the same state.
   */
  lemma OnPlaceStanding(tables: BlockTables, other: BlockTables, block: Block, face: BlockDirection)
    requires !face.IsHorizontal()
    requires other.signDefault == tables.signDefault && other.signStateId == tables.signStateId
    ensures OnPlace(tables, block, face) == tables.signStateId(tables.signDefault(block), block)
    ensures OnPlace(other, block, face) == OnPlace(tables, block, face)
  {
  }
}
