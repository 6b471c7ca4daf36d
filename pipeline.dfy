/** The path of a picture from the palette and the image file to the packet
    sent to the server: quantised against the palette built from the
    registry, every cell names air or an admitted block; the grid always
    survives the packet codec when it has at least one row, and survives the
    corrected decoder whatever its height. */
module Pipeline {
  import opened Wrappers
  import opened Engine
  import opened ColorUtils
  import opened AllBlocksPalette
  import opened ImageHandler
  import opened PrintImagePacket

  /** The packet a client sends for an image printed at `pos`. */
  function ImagePacket(pos: BlockPos, img: Image, values: seq<Entry>, cs: ColorSpace, reg: Registry): Packet
  {
    Packet(pos, KeyGrid(img, values, cs, reg))
  }

  /** A quantised grid is rectangular, so it can be encoded and every row
      keeps all its key texts on the wire. */
  lemma KeyGridIsRectangular(img: Image, values: seq<Entry>, cs: ColorSpace, reg: Registry)
    ensures Rectangular(KeyGrid(img, values, cs, reg))
    ensures Encodable(Packet(BlockPos(0, 0, 0), KeyGrid(img, values, cs, reg)))
  {
  }

  /** An image with at least one row arrives on the server as it was sent,
      and the decoder stops right after it. */
  lemma ImagePacketRoundTrip(pre: seq<Token>, pos: BlockPos, img: Image, values: seq<Entry>, cs: ColorSpace, reg: Registry, rest: seq<Token>)
    requires img.height > 0
    ensures Encodable(ImagePacket(pos, img, values, cs, reg))
    ensures var p := ImagePacket(pos, img, values, cs, reg);
      DecodeAt(pre + Encoding(p) + rest, |pre|) == Some((p, |pre| + |Encoding(p)|))
  {
    RoundTrip(pre, ImagePacket(pos, img, values, cs, reg), rest);
  }

  /** With the corrected decoder every image round-trips, an image without
      rows included. */
  lemma ImagePacketFixedRoundTrip(pre: seq<Token>, pos: BlockPos, img: Image, values: seq<Entry>, cs: ColorSpace, reg: Registry, rest: seq<Token>)
    ensures Encodable(ImagePacket(pos, img, values, cs, reg))
    ensures var p := ImagePacket(pos, img, values, cs, reg);
      DecodeFixedAt(pre + Encoding(p) + rest, |pre|) == Some((p, |pre| + |Encoding(p)|))
  {
    DecodeFixedRoundTrip(pre, ImagePacket(pos, img, values, cs, reg), rest);
  }

  /** The block a cell names is air, or a registered block that the palette
      build admits. */
  predicate Admitted(reg: Registry, res: Resources, b: Block)
  {
    b == reg.air || (b in reg.blocks && Eligible(reg, res, b))
  }

  /** When the quantiser is handed the entries of the palette built from the
      registry, every pixel is matched to air or to an admitted block, so
      every key text of the grid is that of such a block. */
  lemma KeyGridUsesAdmittedBlocks(img: Image, values: seq<Entry>, cs: ColorSpace, reg: Registry, res: Resources, y: nat, x: nat)
    requires Enumerates(values, Build(map[], reg.blocks, reg, res, cs))
    requires y < img.height && x < img.width
    ensures Admitted(reg, res, Nearest(img.rows[y][x], values, cs, reg.air))
    ensures KeyGrid(img, values, cs, reg)[y][x] == KeyString(reg, Nearest(img.rows[y][x], values, cs, reg.air))
  {
    var b := Nearest(img.rows[y][x], values, cs, reg.air);
    NearestComesFromValues(img.rows[y][x], values, cs, reg.air);
    if b != reg.air {
      var i :| 0 <= i < |values| && values[i].block == b;
      assert b in Build(map[], reg.blocks, reg, res, cs);
      BuildAdmitsOnlyEligible(map[], reg.blocks, reg, res, cs, b);
    }
  }
}
