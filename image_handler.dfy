/** Quantising an image against the palette: every pixel becomes the block
    whose palette colour is nearest, and the image becomes a grid of block
    key texts. */
module ImageHandler {
  import opened Wrappers
  import opened Engine
  import opened Argb
  import opened ColorUtils
  import opened AllBlocksPalette

  /** Java's `Double.MAX_VALUE`, (2 - 2^-52) * 2^1023, written out exactly:
      the starting best distance of the nearest-colour search. */
  const MaxDouble: real := 179769313486231570814527423731704356798070567525844996598917476803157260780028538760589558632766878171540458953514382464234321326889464182768467546703537516986049910576551282076245490090389328944075868508455133942304583236903222948165808559332123348274797826204144723168738177180919299881250404026184124858368.0

  /** The key text written for a block the registry has no key for. */
  const AirKey: string := "minecraft:air"

  // ---------------------------------------------------------------------
  // Nearest palette entry
  // ---------------------------------------------------------------------

  /** The Lab colour of a pixel, its alpha byte ignored. */
  function PixelLab(argb: int, cs: ColorSpace): Lab
  {
    cs.toLab(Red(argb), Green(argb), Blue(argb))
  }

  /** The distance from a colour to each palette entry, in palette order. */
  function Distances(values: seq<Entry>, lab: Lab, cs: ColorSpace): seq<real>
  {
    seq(|values|, j requires 0 <= j < |values| => cs.dist(lab, values[j].lab))
  }

  /** Entry `i` is the first one of least distance, and that distance is
      below the starting best distance. */
  predicate IsFirstMinimum(ds: seq<real>, i: nat)
  {
    && i < |ds|
    && ds[i] < MaxDouble
    && (forall j :: 0 <= j < |ds| ==> ds[i] <= ds[j])
    && (forall j :: 0 <= j < i ==> ds[i] < ds[j])
  }

  /** The index the search settles on: it moves to a later entry only when
      that entry is strictly closer than the best so far. */
  function BestIndex(ds: seq<real>): (r: Option<nat>)
    decreases |ds|
    ensures r.Some? ==> IsFirstMinimum(ds, r.value)
    ensures r.None? <==> forall j :: 0 <= j < |ds| ==> ds[j] >= MaxDouble
  {
    if ds == [] then None
    else
      var prev := BestIndex(ds[..|ds| - 1]);
      var best := if prev.Some? then ds[prev.value] else MaxDouble;
      if ds[|ds| - 1] < best then Some(|ds| - 1) else prev
  }

  /** The block a pixel is matched to: the block of the first nearest entry,
      or air when no entry is nearer than `MaxDouble`. */
  function Nearest(argb: int, values: seq<Entry>, cs: ColorSpace, air: Block): Block
  {
    match BestIndex(Distances(values, PixelLab(argb, cs), cs))
    case Some(i) => values[i].block
    case None => air
  }

  /** With an empty palette every pixel is matched to air. */
  lemma EmptyPaletteGivesAir(argb: int, cs: ColorSpace, air: Block)
    ensures Nearest(argb, [], cs, air) == air
  {
  }

  /** When some entry is nearer than `MaxDouble`, the match is the block of
      an entry whose distance is at most every entry's distance, and no
      earlier entry is as near: ties go to the first entry. */
  lemma NearestIsFirstArgmin(argb: int, values: seq<Entry>, cs: ColorSpace, air: Block)
    requires exists j :: 0 <= j < |values| && cs.dist(PixelLab(argb, cs), values[j].lab) < MaxDouble
    ensures exists i: nat :: IsFirstMinimum(Distances(values, PixelLab(argb, cs), cs), i)
                     && Nearest(argb, values, cs, air) == values[i].block
  {
    var ds := Distances(values, PixelLab(argb, cs), cs);
    var j :| 0 <= j < |values| && cs.dist(PixelLab(argb, cs), values[j].lab) < MaxDouble;
    assert ds[j] < MaxDouble;
    var i := BestIndex(ds).value;
    assert IsFirstMinimum(ds, i);
  }

  /** Of two entries with the same colour, the later one is never chosen. */
  lemma TieGoesToFirst(argb: int, values: seq<Entry>, cs: ColorSpace, i: nat, j: nat)
    requires i < j < |values| && values[i].lab == values[j].lab
    ensures BestIndex(Distances(values, PixelLab(argb, cs), cs)) != Some(j)
  {
    var ds := Distances(values, PixelLab(argb, cs), cs);
    assert ds[i] == ds[j];
  }

  /** With a one-entry palette at a distance below `MaxDouble`, every pixel
      is matched to that entry's block. */
  lemma SingleEntryPalette(argb: int, e: Entry, cs: ColorSpace, air: Block)
    requires cs.dist(PixelLab(argb, cs), e.lab) < MaxDouble
    ensures Nearest(argb, [e], cs, air) == e.block
  {
    assert Distances([e], PixelLab(argb, cs), cs)[0] < MaxDouble;
  }

  /** Two pixels that differ only in their alpha byte are matched to the
      same block. */
  lemma NearestIgnoresAlpha(p: int, q: int, values: seq<Entry>, cs: ColorSpace, air: Block)
    requires p % 0x100_0000 == q % 0x100_0000
    ensures Nearest(p, values, cs, air) == Nearest(q, values, cs, air)
  {
    ColourIgnoresAlpha(p, q);
  }

  /** The matched block is air or the block of one of the entries. */
  lemma NearestComesFromValues(argb: int, values: seq<Entry>, cs: ColorSpace, air: Block)
    ensures var b := Nearest(argb, values, cs, air);
      b == air || exists i :: 0 <= i < |values| && values[i].block == b
  {
    var ds := Distances(values, PixelLab(argb, cs), cs);
    match BestIndex(ds)
    case Some(i) =>
      assert values[i].block == Nearest(argb, values, cs, air);
    case None =>
  }

  // ---------------------------------------------------------------------
  // Grid of block keys
  // ---------------------------------------------------------------------

  /** The key text of a block, or "minecraft:air" for a block without key. */
  function KeyString(reg: Registry, b: Block): string
  {
    if b in reg.keys then IdString(reg.keys[b]) else AirKey
  }

  /** The grid of key texts of an image: one row per image row and one key
      text per pixel, that of the block the pixel is matched to. */
  function KeyGrid(img: Image, values: seq<Entry>, cs: ColorSpace, reg: Registry): (g: seq<seq<string>>)
    ensures |g| == img.height
    ensures forall y :: 0 <= y < |g| ==> |g[y]| == img.width
  {
    seq(img.height, y requires 0 <= y < img.height =>
      seq(img.width, x requires 0 <= x < img.width =>
        KeyString(reg, Nearest(img.rows[y][x], values, cs, reg.air))))
  }

  /** The resource location of an image file of the mod. */
  function ImageLocation(modId: string, filePath: string): Id
  {
    Id(modId, "images/" + filePath)
  }

  /** A loaded image together with the operations that quantise it. */
  class ImageHandler {
    const image: Image

    constructor FromImage(img: Image)
      ensures image == img
    {
      image := img;
    }

    /** The constructor of the source: loads `images/<filePath>` of the mod
        and fails when the resource is missing, unreadable or not an image,
        so that no handler holds a missing image. */
    static method Load(res: Resources, modId: string, filePath: string) returns (h: Option<ImageHandler>)
      ensures h.Some? <==> ImageLocation(modId, filePath) in res
      ensures h.Some? ==> fresh(h.value) && h.value.image == res[ImageLocation(modId, filePath)]
    {
      var rl := ImageLocation(modId, filePath);
      if rl !in res {
        return None;
      }
      var handler := new ImageHandler.FromImage(res[rl]);
      h := Some(handler);
    }

    /** matchColorToBlock: a linear scan over the palette entries that keeps
        the first strictly nearest one, with air as the fallback. */
    method MatchColorToBlock(rgb: int, values: seq<Entry>, cs: ColorSpace, air: Block) returns (best: Block)
      ensures best == Nearest(rgb, values, cs, air)
    {
      var r := Red(rgb);
      var g := Green(rgb);
      var b := Blue(rgb);
      var pixelLab := cs.toLab(r, g, b);
      ghost var ds := Distances(values, pixelLab, cs);

      var bestBlock: Option<Block> := None;
      var bestDistance := MaxDouble;
      for i := 0 to |values|
        invariant BestIndex(ds[..i]).None? ==> bestBlock == None && bestDistance == MaxDouble
        invariant BestIndex(ds[..i]).Some? ==>
          var k := BestIndex(ds[..i]).value;
          k < i && bestBlock == Some(values[k].block) && bestDistance == ds[k]
      {
        assert ds[..i + 1][..i] == ds[..i];
        var entry := values[i];
        var dist := cs.dist(pixelLab, entry.lab);
        if dist < bestDistance {
          bestDistance := dist;
          bestBlock := Some(entry.block);
        }
      }
      assert ds[..|values|] == ds;
      best := if bestBlock.Some? then bestBlock.value else air;
    }

    /** convertToJson: one row per image row and one key text per pixel,
        filled y outer, x inner. */
    method ConvertToJson(values: seq<Entry>, cs: ColorSpace, reg: Registry) returns (json: seq<seq<string>>)
      ensures |json| == image.height
      ensures forall y :: 0 <= y < |json| ==> |json[y]| == image.width
      ensures forall y, x :: 0 <= y < |json| && 0 <= x < |json[y]| ==>
                json[y][x] == KeyString(reg, Nearest(image.rows[y][x], values, cs, reg.air))
      ensures json == KeyGrid(image, values, cs, reg)
    {
      var outer: seq<seq<string>> := [];
      for y := 0 to image.height
        invariant |outer| == y
        invariant forall y' :: 0 <= y' < y ==> |outer[y']| == image.width
        invariant forall y', x :: 0 <= y' < y && 0 <= x < |outer[y']| ==>
                    outer[y'][x] == KeyString(reg, Nearest(image.rows[y'][x], values, cs, reg.air))
      {
        var row: seq<string> := [];
        for x := 0 to image.width
          invariant |row| == x
          invariant forall x' :: 0 <= x' < x ==>
                      row[x'] == KeyString(reg, Nearest(image.rows[y][x'], values, cs, reg.air))
        {
          var rgb := image.rows[y][x];
          var block := MatchColorToBlock(rgb, values, cs, reg.air);
          var key := if block in reg.keys then Some(reg.keys[block]) else None;
          row := row + [if key.Some? then IdString(key.value) else AirKey];
        }
        outer := outer + [row];
      }
      json := outer;
      ghost var g := KeyGrid(image, values, cs, reg);
      forall y | 0 <= y < |g|
        ensures json[y] == g[y]
      {
        assert forall x :: 0 <= x < |g[y]| ==> json[y][x] == g[y][x];
      }
    }
  }

  /** Every key text in a quantised grid names the block of some palette
      entry, or is the key text of air. */
  lemma GridKeysComeFromPalette(argb: int, values: seq<Entry>, cs: ColorSpace, reg: Registry)
    ensures var k := KeyString(reg, Nearest(argb, values, cs, reg.air));
      k == KeyString(reg, reg.air) || exists i :: 0 <= i < |values| && k == KeyString(reg, values[i].block)
  {
    var ds := Distances(values, PixelLab(argb, cs), cs);
    match BestIndex(ds)
    case Some(i) =>
      assert KeyString(reg, Nearest(argb, values, cs, reg.air)) == KeyString(reg, values[i].block);
    case None =>
  }
}
