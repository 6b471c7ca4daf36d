/** The block palette: for every full-cube, non-air block whose texture
    loads, the Lab colour of the average of the texture's opaque pixels. */
module AllBlocksPalette {
  import opened Engine
  import opened Argb
  import opened ColorUtils

  /** One palette entry: a block and the Lab colour of its texture. */
  datatype Entry = Entry(block: Block, lab: Lab)

  // ---------------------------------------------------------------------
  // Full-cube test
  // ---------------------------------------------------------------------

  /** The tolerance on each bound of the collision box. */
  const Eps: real := 0.000001

  function Abs(v: real): real
  {
    if v < 0.0 then -v else v
  }

  /** The full-cube test: the collision shape is not empty and its bounding
      box is [0,0,0]-[1,1,1] within `Eps` on every bound. Only the bounding
      box is looked at, so a shape that does not fill its box passes too. */
  function IsFullCube(shape: Shape): (r: bool)
    ensures r ==> shape.Bounds?
    ensures r ==> var b := shape.box;
      && 1.0 - 2.0 * Eps < b.maxX - b.minX < 1.0 + 2.0 * Eps
      && 1.0 - 2.0 * Eps < b.maxY - b.minY < 1.0 + 2.0 * Eps
      && 1.0 - 2.0 * Eps < b.maxZ - b.minZ < 1.0 + 2.0 * Eps
  {
    match shape
    case EmptyShape => false
    case Bounds(b) =>
      && Abs(b.minX) < Eps && Abs(b.minY) < Eps && Abs(b.minZ) < Eps
      && Abs(b.maxX - 1.0) < Eps && Abs(b.maxY - 1.0) < Eps && Abs(b.maxZ - 1.0) < Eps
  }

  /** The unit cube is admitted; a half slab and an empty shape are not. */
  lemma FullCubeExamples()
    ensures IsFullCube(Bounds(Box(0.0, 0.0, 0.0, 1.0, 1.0, 1.0)))
    ensures !IsFullCube(Bounds(Box(0.0, 0.0, 0.0, 0.5, 1.0, 1.0)))
    ensures !IsFullCube(EmptyShape)
  {
  }

  // ---------------------------------------------------------------------
  // Texture location
  // ---------------------------------------------------------------------

  const TexturePrefix: string := "textures/block/"
  const TextureSuffix: string := ".png"

  /** Where a block's texture lives: same namespace, path
      `textures/block/<path>.png`. */
  function TextureLocation(id: Id): (loc: Id)
    ensures loc.namespace == id.namespace
    ensures |loc.path| == |id.path| + 19
    ensures loc.path[..15] == TexturePrefix
    ensures loc.path[15..15 + |id.path|] == id.path
    ensures loc.path[15 + |id.path|..] == TextureSuffix
  {
    Id(id.namespace, TexturePrefix + id.path + TextureSuffix)
  }

  /** Different blocks' keys never share a texture location. */
  lemma TextureLocationInjective(a: Id, b: Id)
    requires TextureLocation(a) == TextureLocation(b)
    ensures a == b
  {
    var la, lb := TextureLocation(a), TextureLocation(b);
    assert |a.path| == |b.path|;
    assert a.path == la.path[15..15 + |a.path|] == lb.path[15..15 + |b.path|] == b.path;
  }

  // ---------------------------------------------------------------------
  // Texture averaging
  // ---------------------------------------------------------------------

  /** Running totals of the scan: channel sums over the opaque pixels and
      their number. */
  datatype Sums = Sums(r: int, g: int, b: int, count: int)

  /** A pixel is opaque enough to count when its alpha is at least 128. */
  predicate Counts(argb: int)
  {
    Alpha(argb) >= 128
  }

  /** One step of the scan. */
  function Accumulate(s: Sums, argb: int): Sums
  {
    if !Counts(argb) then s
    else Sums(s.r + Red(argb), s.g + Green(argb), s.b + Blue(argb), s.count + 1)
  }

  /** The totals after scanning `ps` in order. */
  function Scan(ps: seq<int>): Sums
    decreases |ps|
  {
    if ps == [] then Sums(0, 0, 0, 0)
    else Accumulate(Scan(ps[..|ps| - 1]), ps[|ps| - 1])
  }

  /** The pixels of the rows, row after row. */
  function Flatten(rows: seq<seq<int>>): (ps: seq<int>)
    decreases |rows|
  {
    if rows == [] then [] else Flatten(rows[..|rows| - 1]) + rows[|rows| - 1]
  }

  /** The pixels of an image in the order of the scan (y outer, x inner). */
  function Pixels(img: Image): seq<int>
  {
    Flatten(img.rows)
  }

  /** The representative colour of a texture: the Lab colour of the
      truncated average of its opaque pixels, or of magenta when no pixel is
      opaque. */
  function AverageLab(img: Image, cs: ColorSpace): Lab
  {
    var s := Scan(Pixels(img));
    if s.count == 0 then cs.toLab(255, 0, 255)
    else cs.toLab(s.r / s.count, s.g / s.count, s.b / s.count)
  }

  /** computeAverageLab: the nested scan over the image with its four
      accumulators, then the average or the magenta fallback. */
  method ComputeAverageLab(img: Image, cs: ColorSpace) returns (lab: Lab)
    ensures lab == AverageLab(img, cs)
  {
    var sr, sg, sb, count := 0, 0, 0, 0;
    var w, h := img.width, img.height;
    for y := 0 to h
      invariant Sums(sr, sg, sb, count) == Scan(Flatten(img.rows[..y]))
    {
      ghost var done := Flatten(img.rows[..y]);
      assert done + img.rows[y][..0] == done;
      for x := 0 to w
        invariant Sums(sr, sg, sb, count) == Scan(done + img.rows[y][..x])
      {
        var argb := img.rows[y][x];
        assert done + img.rows[y][..x + 1] == (done + img.rows[y][..x]) + [argb];
        var a := Alpha(argb);
        if a < 128 {
          continue;
        }
        sr := sr + Red(argb);
        sg := sg + Green(argb);
        sb := sb + Blue(argb);
        count := count + 1;
      }
      assert img.rows[..y + 1][..y] == img.rows[..y];
      assert img.rows[y][..w] == img.rows[y];
    }
    assert img.rows[..h] == img.rows;
    if count == 0 {
      return cs.toLab(255, 0, 255);
    }
    lab := cs.toLab(sr / count, sg / count, sb / count);
  }

  // --- an independent description of the totals: filter, then sum ---

  /** The pixels that pass the alpha test, in order. */
  function Opaque(ps: seq<int>): (qs: seq<int>)
    decreases |ps|
  {
    if ps == [] then []
    else Opaque(ps[..|ps| - 1]) + (if Counts(ps[|ps| - 1]) then [ps[|ps| - 1]] else [])
  }

  /** The sum of one channel over the pixels. */
  function SumOf(ps: seq<int>, channel: int -> int): int
    decreases |ps|
  {
    if ps == [] then 0 else SumOf(ps[..|ps| - 1], channel) + channel(ps[|ps| - 1])
  }

  /** The scan counts exactly the pixels with alpha >= 128 and sums each
      channel over exactly those pixels. */
  lemma {:induction false} ScanIsFilterThenSum(ps: seq<int>)
    ensures Scan(ps) == Sums(SumOf(Opaque(ps), Red), SumOf(Opaque(ps), Green), SumOf(Opaque(ps), Blue), |Opaque(ps)|)
  {
    if ps != [] {
      var init, last := ps[..|ps| - 1], ps[|ps| - 1];
      ScanIsFilterThenSum(init);
      var o := Opaque(init);
      if Counts(last) {
        assert Opaque(ps) == o + [last];
        assert (o + [last])[..|o|] == o;
      } else {
        assert Opaque(ps) == o + [];
        assert o + [] == o;
      }
    }
  }

  /** A pixel with alpha below 128 changes none of the totals. */
  lemma TransparentPixelAddsNothing(ps: seq<int>, argb: int)
    requires Alpha(argb) < 128
    ensures Scan(ps + [argb]) == Scan(ps)
  {
    assert (ps + [argb])[..|ps|] == ps;
  }

  /** Bounds on the totals: at most one count per pixel, and each channel
      sum between 0 and 255 times the count. */
  lemma {:induction false} ScanBounds(ps: seq<int>)
    ensures var s := Scan(ps);
      && 0 <= s.count <= |ps|
      && 0 <= s.r <= 255 * s.count
      && 0 <= s.g <= 255 * s.count
      && 0 <= s.b <= 255 * s.count
  {
    if ps != [] {
      ScanBounds(ps[..|ps| - 1]);
      ChannelsAreBytes(ps[|ps| - 1]);
    }
  }

  /** The number of pixels of a well-formed image is width times height. */
  lemma {:induction false} FlattenLength(rows: seq<seq<int>>, w: nat)
    requires forall y :: 0 <= y < |rows| ==> |rows[y]| == w
    ensures |Flatten(rows)| == |rows| * w
  {
    if rows != [] {
      FlattenLength(rows[..|rows| - 1], w);
    }
  }

  /** After the scan of a texture, the count is at most width times height
      and every channel sum is at most 255 times the count. */
  lemma TextureTotals(img: Image)
    ensures var s := Scan(Pixels(img));
      && 0 <= s.count <= img.width * img.height
      && 0 <= s.r <= 255 * s.count && 0 <= s.g <= 255 * s.count && 0 <= s.b <= 255 * s.count
  {
    ScanBounds(Pixels(img));
    FlattenLength(img.rows, img.width);
  }

  /** A sum of `count` bytes divided by `count` is a byte. */
  lemma AverageIsByte(sum: int, count: int)
    requires 0 < count && 0 <= sum <= 255 * count
    ensures 0 <= sum / count <= 255
  {
  }

  /** When some pixel is opaque, the colour handed to the converter is the
      truncated average of each channel, and each lies in 0..255. */
  lemma AverageChannels(img: Image, cs: ColorSpace)
    requires Scan(Pixels(img)).count != 0
    ensures var s := Scan(Pixels(img));
      && AverageLab(img, cs) == cs.toLab(s.r / s.count, s.g / s.count, s.b / s.count)
      && 0 <= s.r / s.count <= 255 && 0 <= s.g / s.count <= 255 && 0 <= s.b / s.count <= 255
  {
    var s := Scan(Pixels(img));
    TextureTotals(img);
    AverageIsByte(s.r, s.count);
    AverageIsByte(s.g, s.count);
    AverageIsByte(s.b, s.count);
  }

  /** A scan over pixels that are all transparent counts nothing. */
  lemma {:induction false} TransparentScanIsEmpty(ps: seq<int>)
    requires forall i :: 0 <= i < |ps| ==> Alpha(ps[i]) < 128
    ensures Scan(ps) == Sums(0, 0, 0, 0)
  {
    if ps != [] {
      TransparentScanIsEmpty(ps[..|ps| - 1]);
    }
  }

  /** A fully transparent (or empty) texture gets exactly the Lab colour of
      magenta. */
  lemma TransparentTextureIsMagenta(img: Image, cs: ColorSpace)
    requires forall i :: 0 <= i < |Pixels(img)| ==> Alpha(Pixels(img)[i]) < 128
    ensures AverageLab(img, cs) == cs.toLab(255, 0, 255)
  {
    TransparentScanIsEmpty(Pixels(img));
  }

  // ---------------------------------------------------------------------
  // Palette construction
  // ---------------------------------------------------------------------

  /** A block gets an entry when it has a key, passes the full-cube test on
      its bounding box, is not air and its texture loads. */
  predicate Eligible(reg: Registry, res: Resources, b: Block)
  {
    && b in reg.keys
    && IsFullCube(b.collision)
    && !b.isAir
    && TextureLocation(reg.keys[b]) in res
  }

  /** The entry of an eligible block. */
  function EntryFor(reg: Registry, res: Resources, cs: ColorSpace, b: Block): Entry
    requires Eligible(reg, res, b)
  {
    Entry(b, AverageLab(res[TextureLocation(reg.keys[b])], cs))
  }

  /** The palette after visiting `blocks` in order, starting from `pal`. */
  function Build(pal: map<Block, Entry>, blocks: seq<Block>, reg: Registry, res: Resources, cs: ColorSpace): map<Block, Entry>
    decreases |blocks|
  {
    if blocks == [] then pal
    else
      var prev := Build(pal, blocks[..|blocks| - 1], reg, res, cs);
      var b := blocks[|blocks| - 1];
      if Eligible(reg, res, b) then prev[b := EntryFor(reg, res, cs, b)] else prev
  }

  /** The process-wide palette, filled in place by `BuildPalette`. */
  class Palette {
    var entries: map<Block, Entry>

    constructor ()
      ensures entries == map[]
    {
      entries := map[];
    }

    /** buildPalette: visits every registered block and inserts an entry for
        each eligible one; a texture that fails to load is skipped
        silently. */
    method BuildPalette(reg: Registry, res: Resources, cs: ColorSpace)
      modifies this
      ensures entries == Build(old(entries), reg.blocks, reg, res, cs)
    {
      for i := 0 to |reg.blocks|
        invariant entries == Build(old(entries), reg.blocks[..i], reg, res, cs)
      {
        assert reg.blocks[..i + 1][..i] == reg.blocks[..i];
        var block := reg.blocks[i];
        if block !in reg.keys {
          continue;
        }
        var id := reg.keys[block];
        if !IsFullCube(block.collision) {
          continue;
        }
        if block.isAir {
          continue;
        }
        var textureLoc := TextureLocation(id);
        if textureLoc !in res {
          continue;
        }
        var averageLab := ComputeAverageLab(res[textureLoc], cs);
        entries := entries[block := Entry(block, averageLab)];
      }
      assert reg.blocks[..|reg.blocks|] == reg.blocks;
    }
  }

  /** Every key of the built palette was already there or is a visited
      eligible block. */
  lemma {:induction false} BuildAdmitsOnlyEligible(pal: map<Block, Entry>, blocks: seq<Block>, reg: Registry, res: Resources, cs: ColorSpace, k: Block)
    requires k in Build(pal, blocks, reg, res, cs)
    ensures k in pal || (k in blocks && Eligible(reg, res, k))
  {
    if blocks != [] {
      var init := blocks[..|blocks| - 1];
      if k != blocks[|blocks| - 1] || !Eligible(reg, res, k) {
        BuildAdmitsOnlyEligible(pal, init, reg, res, cs, k);
        assert k in init ==> k in blocks;
      }
    }
  }

  /** Every visited eligible block is in the built palette, with the colour
      of its own texture. */
  lemma {:induction false} BuildIncludesEligible(pal: map<Block, Entry>, blocks: seq<Block>, reg: Registry, res: Resources, cs: ColorSpace, k: Block)
    requires k in blocks && Eligible(reg, res, k)
    ensures k in Build(pal, blocks, reg, res, cs)
    ensures Build(pal, blocks, reg, res, cs)[k] == EntryFor(reg, res, cs, k)
  {
    var init := blocks[..|blocks| - 1];
    if k != blocks[|blocks| - 1] {
      assert k in init by {
        var i :| 0 <= i < |blocks| && blocks[i] == k;
        assert init[i] == k;
      }
      BuildIncludesEligible(pal, init, reg, res, cs, k);
    }
  }

  /** Every entry of the built palette is keyed by its own block, provided
      the palette started that way. */
  lemma {:induction false} BuildKeysMatchEntries(pal: map<Block, Entry>, blocks: seq<Block>, reg: Registry, res: Resources, cs: ColorSpace)
    requires forall k :: k in pal ==> pal[k].block == k
    ensures forall k :: k in Build(pal, blocks, reg, res, cs) ==> Build(pal, blocks, reg, res, cs)[k].block == k
  {
    if blocks != [] {
      var init := blocks[..|blocks| - 1];
      BuildKeysMatchEntries(pal, init, reg, res, cs);
      var prev := Build(pal, init, reg, res, cs);
      var b := blocks[|blocks| - 1];
      var p := Build(pal, blocks, reg, res, cs);
      forall k | k in p
        ensures p[k].block == k
      {
        if Eligible(reg, res, b) {
          assert p == prev[b := EntryFor(reg, res, cs, b)];
          if k != b {
            assert k in prev && p[k] == prev[k];
            assert prev[k].block == k;
          } else {
            assert p[k] == EntryFor(reg, res, cs, b);
          }
        } else {
          assert p == prev;
          assert prev[k].block == k;
        }
      }
    }
  }

  /** A block that is not eligible (no key, not a full cube, air, or a
      texture that fails to load) leaves the palette as it was, and the
      blocks after it are processed as if it were absent. */
  lemma {:induction false} BuildSkipsIneligible(pal: map<Block, Entry>, before: seq<Block>, b: Block, after: seq<Block>, reg: Registry, res: Resources, cs: ColorSpace)
    requires !Eligible(reg, res, b)
    ensures Build(pal, before + [b] + after, reg, res, cs) == Build(pal, before + after, reg, res, cs)
    decreases |after|
  {
    if after == [] {
      assert before + [b] + after == before + [b];
      assert (before + [b])[..|before|] == before;
      assert before + after == before;
    } else {
      var init := after[..|after| - 1];
      var last := after[|after| - 1];
      BuildSkipsIneligible(pal, before, b, init, reg, res, cs);
      assert (before + [b] + after)[..|before + [b] + after| - 1] == before + [b] + init;
      assert (before + after)[..|before + after| - 1] == before + init;
    }
  }

  /** `values` lists the entries of the palette map, as an iteration over
      its values does: each element is the entry stored under its block, no
      block occurs twice, and every stored block occurs. */
  predicate Enumerates(values: seq<Entry>, pal: map<Block, Entry>)
  {
    && (forall i :: 0 <= i < |values| ==> values[i].block in pal && pal[values[i].block] == values[i])
    && (forall i, j :: 0 <= i < j < |values| ==> values[i].block != values[j].block)
    && (forall k :: k in pal ==> exists i :: 0 <= i < |values| && values[i].block == k)
  }
}
