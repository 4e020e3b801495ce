/** The deflate format (RFC 1951) as a grammar of bit strings, without regard to how a
decoder works: what a stream consists of, its bits, and the bytes it stands for. */
module StreamGrammar {
  import opened Bits
  import opened Canonical
  import opened BitStream
  import opened Format
  import opened InfTrees
  import opened TreeCodes
  import opened TreeLengths
  import opened BlockOutput

  type LengthCode = c: nat | c < LENGTH_CODES
  type DistCode = c: nat | c < D_CODES

  /** A literal byte, or a length and a distance code, each with its extra bits
      (section 3.2.5). */
  datatype Symbol = Byte(c: nat) | Copy(lc: LengthCode, lx: nat, dc: DistCode, dx: nat)

  /** A dynamic header (section 3.2.7): the bit length code, of which the first ncode
      lengths are sent, and the lengths of both codes as its symbols. */
  datatype Header = Header(ncode: nat, blLens: seq<nat>, ops: seq<Rle>, ls: seq<nat>, ds: seq<nat>)

  datatype Block =
    | Stored(pad: seq<bool>, data: seq<byte>)
    | Fixed(ys: seq<Symbol>)
    | Dynamic(h: Header, ys: seq<Symbol>)

  // ----------------------------------------------------------------- symbols

  function TokenOf(y: Symbol): Token {
    match y
    case Byte(c) => Lit(c)
    case Copy(lc, lx, dc, dx) => Match(LBASE[lc] + lx, DBASE[dc] + dx)
  }

  ghost predicate InCode(lens: seq<nat>, c: nat) {
    c < |lens| && lens[c] != 0
  }

  /** The codes have a word for each part of the symbol, and the extra bits fit. */
  ghost predicate Codable(ls: seq<nat>, ds: seq<nat>, y: Symbol) {
    match y
    case Byte(c) => c < LITERALS && InCode(ls, c)
    case Copy(lc, lx, dc, dx) =>
      && InCode(ls, LITERALS + 1 + lc) && lx < Pow2(EXTRA_LBITS[lc])
      && InCode(ds, dc) && dx < Pow2(EXTRA_DBITS[dc])
  }

  function SymbolBits(ls: seq<nat>, ds: seq<nat>, y: Symbol): seq<bool> {
    match y
    case Byte(c) => CodeBits(ls, c)
    case Copy(lc, lx, dc, dx) =>
      (CodeBits(ls, LITERALS + 1 + lc) + ToBits(lx, EXTRA_LBITS[lc])) + (CodeBits(ds, dc) + ToBits(dx, EXTRA_DBITS[dc]))
  }

  function SymbolsBits(ls: seq<nat>, ds: seq<nat>, ys: seq<Symbol>): seq<bool> {
    if ys == [] then [] else SymbolBits(ls, ds, ys[0]) + SymbolsBits(ls, ds, ys[1..])
  }

  /** No distance reaches back beyond what precedes it. */
  ghost predicate SymbolsOk(ls: seq<nat>, ds: seq<nat>, out: seq<byte>, ys: seq<Symbol>)
    decreases |ys|
  {
    ys == [] ||
    (Codable(ls, ds, ys[0]) && InReach(out, TokenOf(ys[0]))
     && SymbolsOk(ls, ds, ExpandOne(out, TokenOf(ys[0])), ys[1..]))
  }

  /** out with what the symbols stand for appended. */
  function Spelled(out: seq<byte>, ys: seq<Symbol>): (r: seq<byte>)
    ensures out <= r
    decreases |ys|
  {
    if ys == [] then out else Spelled(ExpandOne(out, TokenOf(ys[0])), ys[1..])
  }

  /** The symbols up to the end of a block. */
  function CodedBits(ls: seq<nat>, ds: seq<nat>, ys: seq<Symbol>): seq<bool> {
    SymbolsBits(ls, ds, ys) + CodeBits(ls, END_BLOCK)
  }

  // ------------------------------------------------------------------ blocks

  /** A bit length code that is complete, lengths that fill both codes exactly, an end of
      block code, and codes inflate_table accepts and has the space for. */
  ghost predicate HeaderOk(h: Header) {
    && 4 <= h.ncode <= BL_CODES == |h.blLens| && 257 <= |h.ls| <= 286 && 1 <= |h.ds| <= 30
    && (forall i :: 0 <= i < BL_CODES ==> h.blLens[i] <= 7)
    && (forall i :: h.ncode <= i < BL_CODES ==> h.blLens[BL_ORDER[i]] == 0)
    && Complete(h.blLens) && Sendable(h.blLens, h.ops) && Expands([], h.ops, h.ls + h.ds)
    && h.ls[END_BLOCK] != 0
    && Acceptable(LENS, h.ls) && !TooBig(LENS, h.ls, 9) && Acceptable(DISTS, h.ds) && !TooBig(DISTS, h.ds, 6)
  }

  function CountsBits(h: Header): seq<bool>
    requires 4 <= h.ncode && 257 <= |h.ls| && 1 <= |h.ds|
  {
    ToBits(|h.ls| - 257, 5) + ToBits(|h.ds| - 1, 5) + ToBits(h.ncode - 4, 4)
  }

  ghost function DynamicBits(h: Header): seq<bool>
    requires HeaderOk(h)
  {
    CountsBits(h) + (BlLensBits(h.blLens, h.ncode) + OpsBits(h.blLens, h.ops))
  }

  /** What a block must meet wherever it is. */
  ghost predicate Shaped(b: Block) {
    match b
    case Stored(pad, data) => |pad| < 8 && |data| <= 0xffff
    case Fixed(_) => true
    case Dynamic(h, _) => HeaderOk(h)
  }

  /** What it must meet at bit pos, after the bytes out: stored bytes begin on a byte
      boundary, and no match reaches back too far. */
  ghost predicate BlockOk(b: Block, pos: nat, out: seq<byte>) {
    Shaped(b) &&
    match b
    case Stored(pad, _) => (pos + 3 + |pad|) % 8 == 0
    case Fixed(ys) => SymbolsOk(FixedLitLens(), FixedDistLens(), out, ys)
    case Dynamic(h, ys) => SymbolsOk(h.ls, h.ds, out, ys)
  }

  /** The final bit and the type of a block (section 3.2.3). */
  function KindBits(kind: nat, last: bool): seq<bool> {
    [last] + ToBits(kind, 2)
  }

  ghost function BlockBits(b: Block, last: bool): seq<bool>
    requires Shaped(b)
  {
    match b
    case Stored(pad, data) =>
      KindBits(0, last) + (pad + ((ToBits(|data|, 16) + ToBits(0xffff - |data|, 16)) + BytesToBits(data)))
    case Fixed(ys) => KindBits(1, last) + CodedBits(FixedLitLens(), FixedDistLens(), ys)
    case Dynamic(h, ys) => KindBits(2, last) + (DynamicBits(h) + CodedBits(h.ls, h.ds, ys))
  }

  /** out with what the block stands for appended. */
  function Yield(b: Block, out: seq<byte>): (r: seq<byte>)
    ensures out <= r
  {
    match b
    case Stored(_, data) => out + data
    case Fixed(ys) => Spelled(out, ys)
    case Dynamic(_, ys) => Spelled(out, ys)
  }

  // ------------------------------------------------------------ whole streams

  /** Blocks from bit pos on, after the bytes out, only the final one marked as such. */
  ghost predicate BlocksOk(bs: seq<Block>, pos: nat, out: seq<byte>)
    decreases |bs|
  {
    bs == [] ||
    (BlockOk(bs[0], pos, out) && BlocksOk(bs[1..], pos + |BlockBits(bs[0], |bs| == 1)|, Yield(bs[0], out)))
  }

  ghost function BlocksBits(bs: seq<Block>, pos: nat, out: seq<byte>): seq<bool>
    requires BlocksOk(bs, pos, out)
    decreases |bs|
  {
    hide BlockBits, Shaped, Yield;
    if bs == [] then []
    else
      var b := BlockBits(bs[0], |bs| == 1);
      b + BlocksBits(bs[1..], pos + |b|, Yield(bs[0], out))
  }

  function YieldAll(bs: seq<Block>, out: seq<byte>): (r: seq<byte>)
    ensures out <= r
    decreases |bs|
  {
    if bs == [] then out else YieldAll(bs[1..], Yield(bs[0], out))
  }

  /** t is a deflate stream: one or more blocks, padded to a whole number of bytes. */
  ghost predicate Stream(t: seq<bool>, bs: seq<Block>, pad: seq<bool>) {
    bs != [] && BlocksOk(bs, 0, []) && |pad| < 8 && |t| % 8 == 0 && t == BlocksBits(bs, 0, []) + pad
  }
}
