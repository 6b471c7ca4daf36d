/** Stand-ins for the game objects that the image printer only consumes:
    resource locations, block positions, blocks with their collision boxes,
    the block registry, decoded images and the resource manager. */
module Engine {

  /** A resource location `namespace:path`; both parts are kept opaque. */
  datatype Id = Id(namespace: string, path: string)

  /** The `namespace:path` text form of a resource location. */
  function IdString(id: Id): string
  {
    id.namespace + ":" + id.path
  }

  /** A block position in the world. */
  datatype BlockPos = BlockPos(x: int, y: int, z: int)

  function Offset(p: BlockPos, dx: int, dy: int, dz: int): BlockPos
  {
    BlockPos(p.x + dx, p.y + dy, p.z + dz)
  }

  /** The position one block higher. */
  function Above(p: BlockPos): BlockPos
  {
    Offset(p, 0, 1, 0)
  }

  /** The bounding box of a collision shape. */
  datatype Box = Box(minX: real, minY: real, minZ: real, maxX: real, maxY: real, maxZ: real)

  /** The collision shape of a block's default state: empty, or a shape with bounds. */
  datatype Shape = EmptyShape | Bounds(box: Box)

  /** A block: an identity handle, the collision shape of its default state
      and whether that state is air. */
  datatype Block = Block(handle: nat, collision: Shape, isAir: bool)

  /** The block registry: its blocks in iteration order, the key of each
      registered block, the block registered under each key text, and the
      air block. */
  datatype Registry = Registry(
    blocks: seq<Block>,
    keys: map<Block, Id>,
    byName: map<string, Block>,
    air: Block)

  predicate IsInt32(v: int)
  {
    -0x8000_0000 <= v < 0x8000_0000
  }

  /** A width x height raster of 32-bit ARGB pixels, row-major: `rows[y][x]`. */
  datatype Raster = Raster(width: nat, height: nat, rows: seq<seq<int>>)

  predicate WellFormed(r: Raster)
  {
    && |r.rows| == r.height
    && forall y :: 0 <= y < |r.rows| ==>
         && |r.rows[y]| == r.width
         && forall x :: 0 <= x < |r.rows[y]| ==> IsInt32(r.rows[y][x])
  }

  /** A decoded image: every row has `width` pixels, each a Java `int`. */
  type Image = r: Raster | WellFormed(r) witness Raster(0, 0, [])

  /** The resource manager together with the image decoder: a location that
      is absent stands for a missing resource, an I/O error or an image the
      decoder rejects. */
  type Resources = map<Id, Image>
}
