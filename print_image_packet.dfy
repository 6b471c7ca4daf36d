/** The packet that carries a quantised image from client to server: its
    encoding into and decoding from the network buffer, and the placement of
    the decoded grid of block keys in the world. */
module PrintImagePacket {
  import opened Wrappers
  import opened Engine

  /** One item of the network buffer: a block position, a variable-length
      integer or a resource location (kept as its key text). */
  datatype Token = PosTok(pos: BlockPos) | VarIntTok(n: int) | IdTok(key: string)

  /** The packet: the origin position and the grid of block key texts,
      `grid[y][x]`. */
  datatype Packet = Packet(pos: BlockPos, grid: seq<seq<string>>)

  /** A network buffer: an append-only sequence of tokens with a read
      cursor. */
  class FriendlyByteBuf {
    var tokens: seq<Token>
    var readIndex: nat

    ghost predicate Valid()
      reads this
    {
      readIndex <= |tokens|
    }

    constructor (ts: seq<Token>)
      ensures Valid() && tokens == ts && readIndex == 0
    {
      tokens := ts;
      readIndex := 0;
    }

    method Write(t: Token)
      requires Valid()
      modifies this
      ensures Valid()
      ensures tokens == old(tokens) + [t] && readIndex == old(readIndex)
    {
      tokens := tokens + [t];
    }

    /** readBlockPos: the next token as a position, or a failure when the
        buffer is exhausted or the next token is not a position. */
    method ReadBlockPos() returns (p: Option<BlockPos>)
      requires Valid()
      modifies this
      ensures Valid() && tokens == old(tokens)
      ensures p == PosAt(tokens, old(readIndex))
      ensures readIndex == if p.Some? then old(readIndex) + 1 else old(readIndex)
    {
      if readIndex < |tokens| && tokens[readIndex].PosTok? {
        p := Some(tokens[readIndex].pos);
        readIndex := readIndex + 1;
      } else {
        p := None;
      }
    }

    /** readVarInt */
    method ReadVarInt() returns (n: Option<int>)
      requires Valid()
      modifies this
      ensures Valid() && tokens == old(tokens)
      ensures n == VarIntAt(tokens, old(readIndex))
      ensures readIndex == if n.Some? then old(readIndex) + 1 else old(readIndex)
    {
      if readIndex < |tokens| && tokens[readIndex].VarIntTok? {
        n := Some(tokens[readIndex].n);
        readIndex := readIndex + 1;
      } else {
        n := None;
      }
    }

    /** readResourceLocation */
    method ReadResourceLocation() returns (s: Option<string>)
      requires Valid()
      modifies this
      ensures Valid() && tokens == old(tokens)
      ensures s == IdAt(tokens, old(readIndex))
      ensures readIndex == if s.Some? then old(readIndex) + 1 else old(readIndex)
    {
      if readIndex < |tokens| && tokens[readIndex].IdTok? {
        s := Some(tokens[readIndex].key);
        readIndex := readIndex + 1;
      } else {
        s := None;
      }
    }
  }

  function PosAt(ts: seq<Token>, c: nat): Option<BlockPos>
  {
    if c < |ts| && ts[c].PosTok? then Some(ts[c].pos) else None
  }

  function VarIntAt(ts: seq<Token>, c: nat): Option<int>
  {
    if c < |ts| && ts[c].VarIntTok? then Some(ts[c].n) else None
  }

  function IdAt(ts: seq<Token>, c: nat): Option<string>
  {
    if c < |ts| && ts[c].IdTok? then Some(ts[c].key) else None
  }

  // ---------------------------------------------------------------------
  // Encoding
  // ---------------------------------------------------------------------

  /** Encoding succeeds unless some row is shorter than row 0 (reading past
      the end of a row throws). */
  predicate Encodable(p: Packet)
  {
    |p.grid| == 0 || forall y :: 0 <= y < |p.grid| ==> |p.grid[y]| >= |p.grid[0]|
  }

  /** Every row has the length of row 0. */
  predicate Rectangular(grid: seq<seq<string>>)
  {
    forall y :: 0 <= y < |grid| ==> |grid[y]| == |grid[0]|
  }

  /** The first `w` keys of a row, as tokens. */
  function RowTokens(row: seq<string>, w: nat): seq<Token>
    requires w <= |row|
  {
    seq(w, x requires 0 <= x < w <= |row| => IdTok(row[x]))
  }

  /** The first `w` keys of every row, row after row. */
  function GridTokens(rows: seq<seq<string>>, w: nat): seq<Token>
    requires forall y :: 0 <= y < |rows| ==> |rows[y]| >= w
    decreases |rows|
  {
    if rows == [] then [] else RowTokens(rows[0], w) + GridTokens(rows[1..], w)
  }

  /** What `encode` writes: the position, the height, and, for a non-empty
      grid, the width (the length of row 0) and then the keys. */
  function Encoding(p: Packet): seq<Token>
    requires Encodable(p)
  {
    [PosTok(p.pos), VarIntTok(|p.grid|)]
      + if |p.grid| == 0 then [] else [VarIntTok(|p.grid[0]|)] + GridTokens(p.grid, |p.grid[0]|)
  }

  lemma {:induction false} GridTokensAppend(rows: seq<seq<string>>, row: seq<string>, w: nat)
    requires forall y :: 0 <= y < |rows| ==> |rows[y]| >= w
    requires |row| >= w
    ensures GridTokens(rows + [row], w) == GridTokens(rows, w) + RowTokens(row, w)
    decreases |rows|
  {
    if rows == [] {
      assert GridTokens([row], w) == RowTokens(row, w) + GridTokens([], w);
    } else {
      assert (rows + [row])[1..] == rows[1..] + [row];
      GridTokensAppend(rows[1..], row, w);
    }
  }

  lemma {:induction false} GridTokensLength(rows: seq<seq<string>>, w: nat)
    requires forall y :: 0 <= y < |rows| ==> |rows[y]| >= w
    ensures |GridTokens(rows, w)| == |rows| * w
    decreases |rows|
  {
    if rows != [] {
      GridTokensLength(rows[1..], w);
    }
  }

  /** encode: writes the position and the height, stops there for an empty
      grid, and otherwise writes the width and the keys y outer, x inner.
      `ok` is false when a row is too short, which throws in the source. */
  method Encode(pkt: Packet, buf: FriendlyByteBuf) returns (ok: bool)
    requires buf.Valid()
    modifies buf
    ensures buf.Valid() && buf.readIndex == old(buf.readIndex)
    ensures ok <==> Encodable(pkt)
    ensures ok ==> buf.tokens == old(buf.tokens) + Encoding(pkt)
    ensures !ok ==> old(buf.tokens) <= buf.tokens
  {
    buf.Write(PosTok(pkt.pos));
    var json := pkt.grid;
    var height := |json|;
    buf.Write(VarIntTok(height));
    if height == 0 {
      return true;
    }
    var width := |json[0]|;
    buf.Write(VarIntTok(width));
    ghost var start := old(buf.tokens) + [PosTok(pkt.pos), VarIntTok(height), VarIntTok(width)];
    for y := 0 to height
      invariant buf.Valid() && buf.readIndex == old(buf.readIndex)
      invariant forall y' :: 0 <= y' < y ==> |json[y']| >= width
      invariant buf.tokens == start + GridTokens(json[..y], width)
    {
      var row := json[y];
      ghost var before := buf.tokens;
      for x := 0 to width
        invariant buf.Valid() && buf.readIndex == old(buf.readIndex)
        invariant x <= |row|
        invariant buf.tokens == before + RowTokens(row, x)
      {
        if x >= |row| {
          assert |json[y]| < |json[0]|;
          return false;
        }
        buf.Write(IdTok(row[x]));
      }
      GridTokensAppend(json[..y], row, width);
      assert json[..y + 1] == json[..y] + [row];
    }
    assert json[..height] == json;
    ok := true;
  }

  // ---------------------------------------------------------------------
  // Decoding
  // ---------------------------------------------------------------------

  /** A count read from the buffer, as the loops use it: a negative count
      runs no iteration. */
  function Clamp(n: int): nat
  {
    if n < 0 then 0 else n
  }

  /** `n` keys read from cursor `c`. */
  function ReadIds(ts: seq<Token>, c: nat, n: nat): Option<seq<string>>
    decreases n
  {
    if n == 0 then Some([])
    else match IdAt(ts, c)
      case None => None
      case Some(s) =>
        match ReadIds(ts, c + 1, n - 1)
        case None => None
        case Some(rest) => Some([s] + rest)
  }

  /** `h` rows of `w` keys read from cursor `c`. */
  function ReadRows(ts: seq<Token>, c: nat, h: nat, w: nat): Option<seq<seq<string>>>
    decreases h
  {
    if h == 0 then Some([])
    else match ReadIds(ts, c, w)
      case None => None
      case Some(row) =>
        match ReadRows(ts, c + w, h - 1, w)
        case None => None
        case Some(rest) => Some([row] + rest)
  }

  /** What `decode` reads from cursor `c`, AS WRITTEN: the position, the
      height, then always a width, then height x width keys; with the
      cursor after them. */
  function DecodeAt(ts: seq<Token>, c: nat): Option<(Packet, nat)>
  {
    match PosAt(ts, c)
    case None => None
    case Some(pos) =>
      match VarIntAt(ts, c + 1)
      case None => None
      case Some(h) =>
        match VarIntAt(ts, c + 2)
        case None => None
        case Some(w) =>
          match ReadRows(ts, c + 3, Clamp(h), Clamp(w))
          case None => None
          case Some(rows) => Some((Packet(pos, rows), c + 3 + Clamp(h) * Clamp(w)))
  }

  /** A read result with the items already read put in front. */
  function Prepend<T>(done: seq<T>, rest: Option<seq<T>>): Option<seq<T>>
  {
    match rest
    case None => None
    case Some(r) => Some(done + r)
  }

  /** The inner loop of decode: `w` keys read one after the other into a
      row; fails as soon as a read fails. */
  method ReadRow(buf: FriendlyByteBuf, w: nat) returns (row: Option<seq<string>>)
    requires buf.Valid()
    modifies buf
    ensures buf.Valid() && buf.tokens == old(buf.tokens)
    ensures row == ReadIds(old(buf.tokens), old(buf.readIndex), w)
    ensures row.Some? ==> buf.readIndex == old(buf.readIndex) + w
  {
    ghost var ts, rowStart := buf.tokens, buf.readIndex;
    var keys: seq<string> := [];
    ghost var whole := ReadIds(ts, rowStart, w);
    if whole.Some? {
      assert [] + whole.value == whole.value;
    }
    for x := 0 to w
      invariant buf.Valid() && buf.tokens == ts
      invariant buf.readIndex == rowStart + x
      invariant ReadIds(ts, rowStart, w) == Prepend(keys, ReadIds(ts, buf.readIndex, w - x))
    {
      var rl := buf.ReadResourceLocation();
      if rl.None? {
        return None;
      }
      var s := rl.value;
      ghost var more := ReadIds(ts, buf.readIndex, w - x - 1);
      if more.Some? {
        assert keys + ([s] + more.value) == (keys + [s]) + more.value;
      }
      keys := keys + [s];
    }
    assert keys + [] == keys;
    row := Some(keys);
  }

  /** decode: reads the position, the height and the width, then builds
      height rows of width keys; fails when the buffer runs out or holds a
      token of the wrong kind. */
  method Decode(buf: FriendlyByteBuf) returns (pkt: Option<Packet>)
    requires buf.Valid()
    modifies buf
    ensures buf.Valid() && buf.tokens == old(buf.tokens)
    ensures pkt.Some? <==> DecodeAt(old(buf.tokens), old(buf.readIndex)).Some?
    ensures pkt.Some? ==> (pkt.value, buf.readIndex) == DecodeAt(old(buf.tokens), old(buf.readIndex)).value
  {
    ghost var ts, c0 := buf.tokens, buf.readIndex;
    var pos := buf.ReadBlockPos();
    if pos.None? {
      return None;
    }
    var height := buf.ReadVarInt();
    if height.None? {
      return None;
    }
    var width := buf.ReadVarInt();
    if width.None? {
      return None;
    }
    var h, w := Clamp(height.value), Clamp(width.value);
    var image: seq<seq<string>> := [];
    ghost var all := ReadRows(ts, c0 + 3, h, w);
    if all.Some? {
      assert [] + all.value == all.value;
    }
    for y := 0 to h
      invariant buf.Valid() && buf.tokens == ts
      invariant |image| == y
      invariant buf.readIndex == c0 + 3 + y * w
      invariant ReadRows(ts, c0 + 3, h, w) == Prepend(image, ReadRows(ts, buf.readIndex, h - y, w))
    {
      ghost var rowStart := buf.readIndex;
      var row := ReadRow(buf, w);
      if row.None? {
        return None;
      }
      ghost var more := ReadRows(ts, rowStart + w, h - y - 1, w);
      if more.Some? {
        assert image + ([row.value] + more.value) == (image + [row.value]) + more.value;
      }
      image := image + [row.value];
      assert (y + 1) * w == y * w + w;
    }
    assert image + [] == image;
    pkt := Some(Packet(pos.value, image));
  }

  // ---------------------------------------------------------------------
  // Round trip
  // ---------------------------------------------------------------------

  /** Every row cut to its first `w` keys. */
  function Truncate(rows: seq<seq<string>>, w: nat): seq<seq<string>>
    requires forall y :: 0 <= y < |rows| ==> |rows[y]| >= w
  {
    seq(|rows|, y requires 0 <= y < |rows| => rows[y][..w])
  }

  lemma {:induction false} ReadIdsOfRow(ts: seq<Token>, c: nat, row: seq<string>, w: nat)
    requires c + w <= |ts| && w <= |row|
    requires forall x :: 0 <= x < w ==> ts[c + x] == IdTok(row[x])
    ensures ReadIds(ts, c, w) == Some(row[..w])
    decreases w
  {
    if w > 0 {
      assert ts[c] == IdTok(row[0]);
      forall x | 0 <= x < w - 1
        ensures ts[c + 1 + x] == IdTok(row[1..][x])
      {
        assert ts[c + (x + 1)] == IdTok(row[x + 1]);
      }
      ReadIdsOfRow(ts, c + 1, row[1..], w - 1);
      assert row[..w] == [row[0]] + row[1..][..w - 1];
    }
  }

  lemma {:induction false} ReadRowsOfGrid(pre: seq<Token>, rows: seq<seq<string>>, w: nat, rest: seq<Token>)
    requires forall y :: 0 <= y < |rows| ==> |rows[y]| >= w
    ensures ReadRows(pre + GridTokens(rows, w) + rest, |pre|, |rows|, w) == Some(Truncate(rows, w))
    decreases |rows|
  {
    if rows != [] {
      var rt := RowTokens(rows[0], w);
      var ts := pre + GridTokens(rows, w) + rest;
      assert ts == (pre + rt) + GridTokens(rows[1..], w) + rest;
      forall x | 0 <= x < w
        ensures ts[|pre| + x] == IdTok(rows[0][x])
      {
        assert ts[|pre| + x] == rt[x];
      }
      ReadIdsOfRow(ts, |pre|, rows[0], w);
      ReadRowsOfGrid(pre + rt, rows[1..], w, rest);
      assert Truncate(rows, w) == [rows[0][..w]] + Truncate(rows[1..], w);
    }
  }

  /** Decoding what `encode` wrote for a non-empty grid gives back the
      position and the grid with every row cut to the width of row 0, and
      leaves the cursor just after the encoding. */
  lemma DecodeOfEncoding(pre: seq<Token>, p: Packet, rest: seq<Token>)
    requires Encodable(p) && |p.grid| > 0
    ensures var w := |p.grid[0]|;
      DecodeAt(pre + Encoding(p) + rest, |pre|)
        == Some((Packet(p.pos, Truncate(p.grid, w)), |pre| + |Encoding(p)|))
  {
    var h, w := |p.grid|, |p.grid[0]|;
    var head := [PosTok(p.pos), VarIntTok(h), VarIntTok(w)];
    var ts := pre + Encoding(p) + rest;
    assert ts == (pre + head) + GridTokens(p.grid, w) + rest;
    assert ts[|pre|] == PosTok(p.pos) && ts[|pre| + 1] == VarIntTok(h) && ts[|pre| + 2] == VarIntTok(w);
    ReadRowsOfGrid(pre + head, p.grid, w, rest);
    GridTokensLength(p.grid, w);
  }

  /** Round trip: a non-empty rectangular grid comes back unchanged. */
  lemma RoundTrip(pre: seq<Token>, p: Packet, rest: seq<Token>)
    requires Rectangular(p.grid) && |p.grid| > 0
    ensures Encodable(p)
    ensures DecodeAt(pre + Encoding(p) + rest, |pre|) == Some((p, |pre| + |Encoding(p)|))
  {
    DecodeOfEncoding(pre, p, rest);
    var w := |p.grid[0]|;
    forall y | 0 <= y < |p.grid|
      ensures Truncate(p.grid, w)[y] == p.grid[y]
    {
      assert p.grid[y][..w] == p.grid[y];
    }
    assert Truncate(p.grid, w) == p.grid;
  }

  /** The encoding of an empty grid is the position and a zero height, and
      decoding it fails: the decoder still reads a width. */
  lemma EmptyGridDoesNotRoundTrip(pos: BlockPos)
    ensures Encoding(Packet(pos, [])) == [PosTok(pos), VarIntTok(0)]
    ensures DecodeAt(Encoding(Packet(pos, [])), 0) == None
  {
  }

  /** When something follows the encoding of an empty grid, the decoder
      takes its first integer as the width and consumes it. */
  lemma EmptyGridSwallowsNextToken(pos: BlockPos, n: int, rest: seq<Token>)
    ensures DecodeAt(Encoding(Packet(pos, [])) + [VarIntTok(n)] + rest, 0) == Some((Packet(pos, []), 3))
  {
    var ts := Encoding(Packet(pos, [])) + [VarIntTok(n)] + rest;
    assert ts[0] == PosTok(pos) && ts[1] == VarIntTok(0) && ts[2] == VarIntTok(n);
  }

  // ---------------------------------------------------------------------
  // What a successful decode consumed
  // ---------------------------------------------------------------------

  lemma {:induction false} ReadIdsShape(ts: seq<Token>, c: nat, n: nat)
    requires c <= |ts| && ReadIds(ts, c, n).Some?
    ensures |ReadIds(ts, c, n).value| == n && c + n <= |ts|
    decreases n
  {
    if n > 0 {
      assert IdAt(ts, c).Some?;
      ReadIdsShape(ts, c + 1, n - 1);
    }
  }

  lemma {:induction false} ReadRowsShape(ts: seq<Token>, c: nat, h: nat, w: nat)
    requires c <= |ts| && ReadRows(ts, c, h, w).Some?
    ensures var rows := ReadRows(ts, c, h, w).value;
      && |rows| == h
      && (forall y :: 0 <= y < h ==> |rows[y]| == w)
      && c + h * w <= |ts|
    decreases h
  {
    if h > 0 {
      ReadIdsShape(ts, c, w);
      ReadRowsShape(ts, c + w, h - 1, w);
      assert h * w == w + (h - 1) * w;
    }
  }

  /** A successful decode read a position and two integers, built as many
      rows as the first integer says, each as long as the second says, and
      consumed exactly that many keys, all of them inside the buffer. */
  lemma DecodeShape(ts: seq<Token>, c: nat)
    requires DecodeAt(ts, c).Some?
    ensures c + 2 < |ts| && ts[c].PosTok? && ts[c + 1].VarIntTok? && ts[c + 2].VarIntTok?
    ensures var (p, e) := DecodeAt(ts, c).value;
      var h, w := Clamp(ts[c + 1].n), Clamp(ts[c + 2].n);
      && p.pos == ts[c].pos
      && |p.grid| == h
      && (forall y :: 0 <= y < h ==> |p.grid[y]| == w)
      && e == c + 3 + h * w
      && e <= |ts|
  {
    ReadRowsShape(ts, c + 3, Clamp(ts[c + 1].n), Clamp(ts[c + 2].n));
  }

  /** A stream cut anywhere inside the encoding of a non-empty rectangular
      grid does not decode. */
  lemma TruncatedEncodingFails(p: Packet, k: nat)
    requires Rectangular(p.grid) && |p.grid| > 0
    requires k < |Encoding(p)|
    ensures DecodeAt(Encoding(p)[..k], 0) == None
  {
    var enc := Encoding(p);
    var ts := enc[..k];
    var h, w := |p.grid|, |p.grid[0]|;
    GridTokensLength(p.grid, w);
    if DecodeAt(ts, 0).Some? {
      DecodeShape(ts, 0);
      assert false;
    }
  }

  // ---------------------------------------------------------------------
  // The decoder as the framing intends it
  // ---------------------------------------------------------------------

  /** Decoding that mirrors `encode`: after a zero height nothing more is
      read. */
  function DecodeFixedAt(ts: seq<Token>, c: nat): Option<(Packet, nat)>
  {
    match PosAt(ts, c)
    case None => None
    case Some(pos) =>
      match VarIntAt(ts, c + 1)
      case None => None
      case Some(h) =>
        if h == 0 then Some((Packet(pos, []), c + 2))
        else
          match VarIntAt(ts, c + 2)
          case None => None
          case Some(w) =>
            match ReadRows(ts, c + 3, Clamp(h), Clamp(w))
            case None => None
            case Some(rows) => Some((Packet(pos, rows), c + 3 + Clamp(h) * Clamp(w)))
  }

  /** The corrected decoder agrees with the one as written whenever the
      height is not zero. */
  lemma DecodeFixedAgrees(ts: seq<Token>, c: nat)
    requires VarIntAt(ts, c + 1) != Some(0)
    ensures DecodeFixedAt(ts, c) == DecodeAt(ts, c)
  {
  }

  /** Round trip for every rectangular grid, the empty one included. */
  lemma DecodeFixedRoundTrip(pre: seq<Token>, p: Packet, rest: seq<Token>)
    requires Rectangular(p.grid)
    ensures Encodable(p)
    ensures DecodeFixedAt(pre + Encoding(p) + rest, |pre|) == Some((p, |pre| + |Encoding(p)|))
  {
    var ts := pre + Encoding(p) + rest;
    if |p.grid| == 0 {
      assert ts[|pre|] == PosTok(p.pos) && ts[|pre| + 1] == VarIntTok(0);
      assert p.grid == [];
    } else {
      RoundTrip(pre, p, rest);
      assert ts[|pre| + 1] == VarIntTok(|p.grid|);
      DecodeFixedAgrees(ts, |pre|);
    }
  }

  // ---------------------------------------------------------------------
  // Placement
  // ---------------------------------------------------------------------

  /** One `setBlock` call: a position and the block put there. */
  datatype Placement = Placement(pos: BlockPos, block: Block)

  /** The `setBlock` calls of one run of `placeImage`, in order, and whether
      it ran to the end (false when it threw). */
  datatype PlaceOutcome = PlaceOutcome(placed: seq<Placement>, completed: bool)

  /** The placements for the cells of row `y`, x ascending: a known key at
      x is placed at origin + (x, 0, y); an unknown key is skipped. */
  function RowPlan(origin: BlockPos, y: int, row: seq<string>, reg: Registry): seq<Placement>
    decreases |row|
  {
    if row == [] then []
    else
      var x := |row| - 1;
      RowPlan(origin, y, row[..x], reg)
        + if row[x] in reg.byName then [Placement(Offset(origin, x, 0, y), reg.byName[row[x]])] else []
  }

  /** The outcome after the first `n` rows, each read up to width `w`; a row
      shorter than `w` throws after its own cells are placed. */
  function PlaceRows(origin: BlockPos, grid: seq<seq<string>>, w: nat, n: nat, reg: Registry): PlaceOutcome
    requires n <= |grid|
    decreases n
  {
    if n == 0 then PlaceOutcome([], true)
    else
      var prev := PlaceRows(origin, grid, w, n - 1, reg);
      var row := grid[n - 1];
      if !prev.completed then prev
      else if |row| < w then PlaceOutcome(prev.placed + RowPlan(origin, n - 1, row, reg), false)
      else PlaceOutcome(prev.placed + RowPlan(origin, n - 1, row[..w], reg), true)
  }

  /** What `placeImage` does with a grid: nothing but a failure for an empty
      grid (reading row 0 throws), otherwise every row up to the width of
      row 0. */
  function PlaceSpec(origin: BlockPos, grid: seq<seq<string>>, reg: Registry): PlaceOutcome
  {
    if grid == [] then PlaceOutcome([], false)
    else PlaceRows(origin, grid, |grid[0]|, |grid|, reg)
  }

  lemma {:induction false} PlaceRowsStops(origin: BlockPos, grid: seq<seq<string>>, w: nat, k: nat, n: nat, reg: Registry)
    requires k <= n <= |grid|
    requires !PlaceRows(origin, grid, w, k, reg).completed
    ensures PlaceRows(origin, grid, w, n, reg) == PlaceRows(origin, grid, w, k, reg)
    decreases n
  {
    if n > k {
      PlaceRowsStops(origin, grid, w, k, n - 1, reg);
    }
  }

  /** placeImage: y outer, x inner up to the width of row 0, placing each
      known key and skipping unknown ones. */
  method PlaceImage(origin: BlockPos, json: seq<seq<string>>, reg: Registry) returns (out: PlaceOutcome)
    ensures out == PlaceSpec(origin, json, reg)
  {
    if |json| == 0 {
      return PlaceOutcome([], false);
    }
    var height := |json|;
    var width := |json[0]|;
    var placed: seq<Placement> := [];
    for y := 0 to height
      invariant PlaceRows(origin, json, width, y, reg) == PlaceOutcome(placed, true)
    {
      var row := json[y];
      ghost var before := placed;
      for x := 0 to width
        invariant x <= |row|
        invariant placed == before + RowPlan(origin, y, row[..x], reg)
      {
        if x >= |row| {
          assert row[..x] == row;
          PlaceRowsStops(origin, json, width, y + 1, height, reg);
          return PlaceOutcome(placed, false);
        }
        assert row[..x + 1][..x] == row[..x];
        var blockId := row[x];
        if blockId !in reg.byName {
          continue;
        }
        var block := reg.byName[blockId];
        var placePos := Offset(origin, x, 0, y);
        placed := placed + [Placement(placePos, block)];
      }
    }
    out := PlaceOutcome(placed, true);
  }

  /** A placement is that of a cell of the grid: at height origin.y, at
      (x, y) = (pos.x - origin.x, pos.z - origin.z) inside the first `w`
      columns of row y, whose key is known and names the placed block. */
  predicate FromCell(origin: BlockPos, grid: seq<seq<string>>, w: nat, reg: Registry, pl: Placement)
  {
    var x, y := pl.pos.x - origin.x, pl.pos.z - origin.z;
    && pl.pos.y == origin.y
    && 0 <= y < |grid| && 0 <= x < w && x < |grid[y]|
    && grid[y][x] in reg.byName
    && pl.block == reg.byName[grid[y][x]]
  }

  lemma {:induction false} RowPlanCells(origin: BlockPos, y: int, row: seq<string>, reg: Registry)
    ensures forall pl :: pl in RowPlan(origin, y, row, reg) ==>
      var x := pl.pos.x - origin.x;
      && pl.pos.y == origin.y && pl.pos.z == origin.z + y
      && 0 <= x < |row| && row[x] in reg.byName && pl.block == reg.byName[row[x]]
    decreases |row|
  {
    if row != [] {
      var x := |row| - 1;
      RowPlanCells(origin, y, row[..x], reg);
    }
  }

  /** Within a row, placements go strictly east. */
  lemma {:induction false} RowPlanOrdered(origin: BlockPos, y: int, row: seq<string>, reg: Registry)
    ensures forall i, j :: 0 <= i < j < |RowPlan(origin, y, row, reg)| ==>
      RowPlan(origin, y, row, reg)[i].pos.x < RowPlan(origin, y, row, reg)[j].pos.x
    decreases |row|
  {
    if row != [] {
      var x := |row| - 1;
      RowPlanOrdered(origin, y, row[..x], reg);
      RowPlanCells(origin, y, row[..x], reg);
      var init := RowPlan(origin, y, row[..x], reg);
      var rp := RowPlan(origin, y, row, reg);
      forall i, j | 0 <= i < j < |rp|
        ensures rp[i].pos.x < rp[j].pos.x
      {
        if j < |init| {
          assert rp[i] == init[i] && rp[j] == init[j];
        } else {
          assert rp[i] == init[i];
          assert init[i] in init;
          assert rp[j].pos.x == origin.x + x;
        }
      }
    }
  }

  lemma {:induction false} RowPlanCovers(origin: BlockPos, y: int, row: seq<string>, reg: Registry, x: nat)
    requires x < |row| && row[x] in reg.byName
    ensures Placement(Offset(origin, x, 0, y), reg.byName[row[x]]) in RowPlan(origin, y, row, reg)
    decreases |row|
  {
    if x < |row| - 1 {
      RowPlanCovers(origin, y, row[..|row| - 1], reg, x);
    }
  }

  /** (pos.z, pos.x) of p comes strictly before that of q. */
  predicate Before(p: BlockPos, q: BlockPos)
  {
    p.z < q.z || (p.z == q.z && p.x < q.x)
  }

  lemma {:induction false} PlaceRowsCells(origin: BlockPos, grid: seq<seq<string>>, w: nat, n: nat, reg: Registry)
    requires n <= |grid|
    ensures forall pl :: pl in PlaceRows(origin, grid, w, n, reg).placed ==>
      FromCell(origin, grid, w, reg, pl) && pl.pos.z - origin.z < n
    decreases n
  {
    if n > 0 {
      var prev := PlaceRows(origin, grid, w, n - 1, reg);
      PlaceRowsCells(origin, grid, w, n - 1, reg);
      if prev.completed {
        var row := grid[n - 1];
        var r := if |row| < w then row else row[..w];
        var rp := RowPlan(origin, n - 1, r, reg);
        RowPlanCells(origin, n - 1, r, reg);
        var ps := PlaceRows(origin, grid, w, n, reg).placed;
        assert ps == prev.placed + rp;
        forall pl | pl in ps
          ensures FromCell(origin, grid, w, reg, pl) && pl.pos.z - origin.z < n
        {
          if pl !in prev.placed {
            assert pl in rp;
            var x := pl.pos.x - origin.x;
            assert r[x] == row[x];
          }
        }
      }
    }
  }

  lemma {:induction false} PlaceRowsOrdered(origin: BlockPos, grid: seq<seq<string>>, w: nat, n: nat, reg: Registry)
    requires n <= |grid|
    ensures forall i, j :: 0 <= i < j < |PlaceRows(origin, grid, w, n, reg).placed| ==>
      Before(PlaceRows(origin, grid, w, n, reg).placed[i].pos, PlaceRows(origin, grid, w, n, reg).placed[j].pos)
    decreases n
  {
    if n > 0 {
      var prev := PlaceRows(origin, grid, w, n - 1, reg);
      if prev.completed {
        PlaceRowsOrdered(origin, grid, w, n - 1, reg);
        PlaceRowsCells(origin, grid, w, n - 1, reg);
        var row := grid[n - 1];
        var r := if |row| < w then row else row[..w];
        var rp := RowPlan(origin, n - 1, r, reg);
        RowPlanOrdered(origin, n - 1, r, reg);
        RowPlanCells(origin, n - 1, r, reg);
        var ps := prev.placed + rp;
        assert PlaceRows(origin, grid, w, n, reg).placed == ps;
        forall i, j | 0 <= i < j < |ps|
          ensures Before(ps[i].pos, ps[j].pos)
        {
          var k := |prev.placed|;
          if j < k {
            assert ps[i] == prev.placed[i] && ps[j] == prev.placed[j];
          } else if i >= k {
            assert ps[i] == rp[i - k] && ps[j] == rp[j - k];
            assert rp[i - k] in rp && rp[j - k] in rp;
          } else {
            assert ps[i] == prev.placed[i] && ps[j] == rp[j - k];
            assert prev.placed[i] in prev.placed;
            assert rp[j - k] in rp;
          }
        }
      } else {
        PlaceRowsOrdered(origin, grid, w, n - 1, reg);
        assert PlaceRows(origin, grid, w, n, reg) == prev;
      }
    }
  }

  lemma {:induction false} PlaceRowsCovers(origin: BlockPos, grid: seq<seq<string>>, w: nat, n: nat, reg: Registry, y: nat, x: nat)
    requires n <= |grid| && PlaceRows(origin, grid, w, n, reg).completed
    requires y < n && x < w && x < |grid[y]| && grid[y][x] in reg.byName
    ensures Placement(Offset(origin, x, 0, y), reg.byName[grid[y][x]]) in PlaceRows(origin, grid, w, n, reg).placed
    decreases n
  {
    var row := grid[n - 1];
    if y < n - 1 {
      PlaceRowsCovers(origin, grid, w, n - 1, reg, y, x);
    } else {
      RowPlanCovers(origin, y, row[..w], reg, x);
    }
  }

  /** Every `setBlock` call of `placeImage` targets a cell of the grid, at
      origin + (x, 0, y), with the block its known key names: unknown keys
      are skipped, columns beyond the width of row 0 are never read, and no
      other position is touched. */
  lemma PlacementsAreCells(origin: BlockPos, grid: seq<seq<string>>, reg: Registry)
    ensures forall pl :: pl in PlaceSpec(origin, grid, reg).placed ==>
      grid != [] && FromCell(origin, grid, |grid[0]|, reg, pl)
  {
    if grid != [] {
      PlaceRowsCells(origin, grid, |grid[0]|, |grid|, reg);
    }
  }

  /** No position is set twice: placements go row by row, west to east. */
  lemma PlacementsDistinct(origin: BlockPos, grid: seq<seq<string>>, reg: Registry)
    ensures forall i, j :: 0 <= i < j < |PlaceSpec(origin, grid, reg).placed| ==>
      && Before(PlaceSpec(origin, grid, reg).placed[i].pos, PlaceSpec(origin, grid, reg).placed[j].pos)
      && PlaceSpec(origin, grid, reg).placed[i].pos != PlaceSpec(origin, grid, reg).placed[j].pos
  {
    if grid != [] {
      PlaceRowsOrdered(origin, grid, |grid[0]|, |grid|, reg);
      var ps := PlaceSpec(origin, grid, reg).placed;
      forall i, j | 0 <= i < j < |ps|
        ensures Before(ps[i].pos, ps[j].pos) && ps[i].pos != ps[j].pos
      {
        assert Before(ps[i].pos, ps[j].pos);
      }
    }
  }

  /** When `placeImage` runs to the end, every cell with a known key inside
      the width of row 0 is placed at origin + (x, 0, y). */
  lemma PlacementsCoverKnownCells(origin: BlockPos, grid: seq<seq<string>>, reg: Registry, y: nat, x: nat)
    requires PlaceSpec(origin, grid, reg).completed
    requires y < |grid| && x < |grid[0]|
    ensures x < |grid[y]|
    ensures grid[y][x] in reg.byName ==>
      Placement(Offset(origin, x, 0, y), reg.byName[grid[y][x]]) in PlaceSpec(origin, grid, reg).placed
  {
    CompletedMeansWideRows(origin, grid, |grid[0]|, |grid|, reg, y);
    if grid[y][x] in reg.byName {
      PlaceRowsCovers(origin, grid, |grid[0]|, |grid|, reg, y, x);
    }
  }

  lemma {:induction false} CompletedMeansWideRows(origin: BlockPos, grid: seq<seq<string>>, w: nat, n: nat, reg: Registry, y: nat)
    requires n <= |grid| && PlaceRows(origin, grid, w, n, reg).completed && y < n
    ensures |grid[y]| >= w
    decreases n
  {
    if y < n - 1 {
      CompletedMeansWideRows(origin, grid, w, n - 1, reg, y);
    }
  }

  /** handle: with a sender present, places the packet's grid with its
      top-left corner one block above the packet's position. */
  method Handle(pkt: Packet, hasSender: bool, reg: Registry) returns (out: Option<PlaceOutcome>)
    ensures !hasSender ==> out == None
    ensures hasSender ==> out == Some(PlaceSpec(Above(pkt.pos), pkt.grid, reg))
  {
    if !hasSender {
      return None;
    }
    var placed := PlaceImage(Above(pkt.pos), pkt.grid, reg);
    out := Some(placed);
  }

  /** Everything `handle` places lies in the layer one above the packet's
      position, within the grid's extent east and south of it. */
  lemma HandlePlacesAbove(pkt: Packet, reg: Registry)
    ensures forall pl :: pl in PlaceSpec(Above(pkt.pos), pkt.grid, reg).placed ==>
      && pl.pos.y == pkt.pos.y + 1
      && 0 <= pl.pos.x - pkt.pos.x < |pkt.grid[0]|
      && 0 <= pl.pos.z - pkt.pos.z < |pkt.grid|
  {
    PlacementsAreCells(Above(pkt.pos), pkt.grid, reg);
  }
}
