/**
 * Relative position encoding (Algorithm 3). For every ordered pair of tokens
 * it forms three clipped, sentinel-coded offsets and one-hot encodes each:
 * the residue offset within a chain, the token offset within a residue, and
 * the symmetry-copy offset between chains; a same-entity bit sits between the
 * token block and the chain block.
 */
module RelPos {
  import opened Binning

  /** Per-token identifiers read by the encoding. */
  datatype Token = Token(asymId: int, symId: int, entityId: int, tokenIndex: int, residueIndex: int)

  predicate SameChain(a: Token, b: Token) { a.asymId == b.asymId }

  /** Same residue number counts only inside one chain. */
  predicate SameResidue(a: Token, b: Token) { a.residueIndex == b.residueIndex && SameChain(a, b) }

  predicate SameEntity(a: Token, b: Token) { a.entityId == b.entityId }

  /** The three pair masks are symmetric and reflexive, and a shared residue implies a shared chain. */
  lemma PairRelations(a: Token, b: Token)
    ensures SameChain(a, a) && SameResidue(a, a) && SameEntity(a, a)
    ensures SameChain(a, b) == SameChain(b, a)
    ensures SameResidue(a, b) == SameResidue(b, a)
    ensures SameEntity(a, b) == SameEntity(b, a)
    ensures SameResidue(a, b) ==> SameChain(a, b)
  {
  }

  /** `torch.clip(x, min=lo, max=hi)`. */
  function Clip(x: int, lo: int, hi: int): (r: int)
    requires lo <= hi
    ensures lo <= r <= hi
    ensures lo <= x <= hi ==> r == x
    ensures x < lo ==> r == lo
    ensures hi < x ==> r == hi
  {
    if x < lo then lo else if x > hi then hi else x
  }

  /** An offset shifted by `m` and clipped into `[0, 2m]`. */
  function ClippedOffset(diff: int, m: nat): (r: nat)
    ensures r <= 2 * m
    ensures -(m as int) <= diff <= m ==> r == diff + m
    ensures diff < -(m as int) ==> r == 0
    ensures m < diff ==> r == 2 * m
  {
    Clip(diff + m, 0, 2 * m)
  }

  /** Clipping is symmetric about `m`: opposite offsets land on mirrored bins. */
  lemma ClippedOffsetMirror(diff: int, m: nat)
    ensures ClippedOffset(diff, m) + ClippedOffset(-diff, m) == 2 * m
  {
  }

  function DRes(a: Token, b: Token, rMax: nat): (d: nat)
    ensures d <= 2 * rMax + 1
    ensures d == 2 * rMax + 1 <==> !SameChain(a, b)
    ensures SameChain(a, b) && a.residueIndex - b.residueIndex < -(rMax as int) ==> d == 0
    ensures SameChain(a, b) && rMax < a.residueIndex - b.residueIndex ==> d == 2 * rMax
    ensures SameChain(a, b) && -(rMax as int) <= a.residueIndex - b.residueIndex <= rMax ==>
              d == a.residueIndex - b.residueIndex + rMax
  {
    if SameChain(a, b) then ClippedOffset(a.residueIndex - b.residueIndex, rMax) else 2 * rMax + 1
  }

  function DToken(a: Token, b: Token, rMax: nat): (d: nat)
    ensures d <= 2 * rMax + 1
    ensures d == 2 * rMax + 1 <==> !SameResidue(a, b)
    ensures !SameChain(a, b) ==> d == 2 * rMax + 1
    ensures SameResidue(a, b) && a.tokenIndex - b.tokenIndex < -(rMax as int) ==> d == 0
    ensures SameResidue(a, b) && rMax < a.tokenIndex - b.tokenIndex ==> d == 2 * rMax
    ensures SameResidue(a, b) && -(rMax as int) <= a.tokenIndex - b.tokenIndex <= rMax ==>
              d == a.tokenIndex - b.tokenIndex + rMax
  {
    if SameResidue(a, b) then ClippedOffset(a.tokenIndex - b.tokenIndex, rMax) else 2 * rMax + 1
  }

  function DChain(a: Token, b: Token, sMax: nat): (d: nat)
    ensures d <= 2 * sMax + 1
    ensures d == 2 * sMax + 1 <==> SameChain(a, b)
    ensures !SameChain(a, b) && a.symId - b.symId < -(sMax as int) ==> d == 0
    ensures !SameChain(a, b) && sMax < a.symId - b.symId ==> d == 2 * sMax
    ensures !SameChain(a, b) && -(sMax as int) <= a.symId - b.symId <= sMax ==>
              d == a.symId - b.symId + sMax
  {
    if !SameChain(a, b) then ClippedOffset(a.symId - b.symId, sMax) else 2 * sMax + 1
  }

  /** Within one chain the residue bins of (i, j) and (j, i) mirror about `rMax`. */
  lemma DResAntisymmetric(a: Token, b: Token, rMax: nat)
    requires SameChain(a, b)
    ensures DRes(a, b, rMax) + DRes(b, a, rMax) == 2 * rMax
  {
    ClippedOffsetMirror(a.residueIndex - b.residueIndex, rMax);
  }

  /** Within one residue the token bins of (i, j) and (j, i) mirror about `rMax`. */
  lemma DTokenAntisymmetric(a: Token, b: Token, rMax: nat)
    requires SameResidue(a, b)
    ensures DToken(a, b, rMax) + DToken(b, a, rMax) == 2 * rMax
  {
    ClippedOffsetMirror(a.tokenIndex - b.tokenIndex, rMax);
  }

  /** Across chains the chain bins of (i, j) and (j, i) mirror about `sMax`. */
  lemma DChainAntisymmetric(a: Token, b: Token, sMax: nat)
    requires !SameChain(a, b)
    ensures DChain(a, b, sMax) + DChain(b, a, sMax) == 2 * sMax
  {
    ClippedOffsetMirror(a.symId - b.symId, sMax);
  }

  /** A token paired with itself sits in the centre bin of both offset blocks. */
  lemma DiagonalCentred(a: Token, rMax: nat, sMax: nat)
    ensures DRes(a, a, rMax) == rMax
    ensures DToken(a, a, rMax) == rMax
    ensures DChain(a, a, sMax) == 2 * sMax + 1
  {
  }

  /** Length of one pair's feature vector. */
  function Width(rMax: nat, sMax: nat): nat
  {
    4 * rMax + 2 * sMax + 7
  }

  /** The decoded content of one pair feature. */
  datatype PairBins = PairBins(dRes: nat, dToken: nat, sameEntity: bool, dChain: nat)

  /** One-hot of an integer offset against bins `[0..n-1]`, as `one_hot` is meant to be used. */
  function EncodeOffset(d: nat, n: nat): (p: seq<real>)
    requires d < n
    ensures p == OneHotAt(d, n)
    ensures Ones(p) == 1
  {
    OneHotIntegerBins(d, n);
    OneHot(d as real, Bins(n))
  }

  /** The residue-offset block of a pair feature. */
  function ResBlock(f: seq<real>, rMax: nat, sMax: nat): seq<real>
    requires |f| == Width(rMax, sMax)
  {
    f[..2 * rMax + 2]
  }

  /** The token-offset block of a pair feature. */
  function TokenBlock(f: seq<real>, rMax: nat, sMax: nat): seq<real>
    requires |f| == Width(rMax, sMax)
  {
    f[2 * rMax + 2 .. 4 * rMax + 4]
  }

  /** The same-entity bit of a pair feature. */
  function EntityBit(f: seq<real>, rMax: nat, sMax: nat): real
    requires |f| == Width(rMax, sMax)
  {
    f[4 * rMax + 4]
  }

  /** The chain-offset block of a pair feature. */
  function ChainBlock(f: seq<real>, rMax: nat, sMax: nat): seq<real>
    requires |f| == Width(rMax, sMax)
  {
    f[4 * rMax + 5..]
  }

  /** Concatenating four blocks of the right widths and slicing them back gives the blocks. */
  lemma ConcatBlocks(p: seq<real>, q: seq<real>, x: real, c: seq<real>, rMax: nat, sMax: nat)
    requires |p| == |q| == 2 * rMax + 2 && |c| == 2 * sMax + 2
    ensures |p + q + [x] + c| == Width(rMax, sMax)
    ensures ResBlock(p + q + [x] + c, rMax, sMax) == p
    ensures TokenBlock(p + q + [x] + c, rMax, sMax) == q
    ensures EntityBit(p + q + [x] + c, rMax, sMax) == x
    ensures ChainBlock(p + q + [x] + c, rMax, sMax) == c
  {
    var f := p + q + [x] + c;
    assert f[..|p|] == p;
    assert f[|p|..|p| + |q|] == q;
    assert f[|p| + |q| + 1..] == c;
  }

  /** The bin indices and entity bit of the ordered pair (a, b). */
  function Offsets(a: Token, b: Token, rMax: nat, sMax: nat): PairBins
  {
    PairBins(DRes(a, b, rMax), DToken(a, b, rMax), SameEntity(a, b), DChain(a, b, sMax))
  }

  /** The feature layout of Algorithm 3: three exact one-hots around the entity bit. */
  function Layout(pb: PairBins, rMax: nat, sMax: nat): seq<real>
  {
    OneHotAt(pb.dRes, 2 * rMax + 2) + OneHotAt(pb.dToken, 2 * rMax + 2)
      + [if pb.sameEntity then 1.0 else 0.0] + OneHotAt(pb.dChain, 2 * sMax + 2)
  }

  /** Decoding the layout of in-range bins gives the bins back. */
  lemma LayoutDecodes(pb: PairBins, rMax: nat, sMax: nat)
    requires pb.dRes < 2 * rMax + 2 && pb.dToken < 2 * rMax + 2 && pb.dChain < 2 * sMax + 2
    ensures |Layout(pb, rMax, sMax)| == Width(rMax, sMax)
    ensures DecodePair(Layout(pb, rMax, sMax), rMax, sMax) == pb
  {
    var ent := if pb.sameEntity then 1.0 else 0.0;
    ConcatBlocks(OneHotAt(pb.dRes, 2 * rMax + 2), OneHotAt(pb.dToken, 2 * rMax + 2), ent,
                 OneHotAt(pb.dChain, 2 * sMax + 2), rMax, sMax);
    OneHotAtDecodes(pb.dRes, 2 * rMax + 2);
    OneHotAtDecodes(pb.dToken, 2 * rMax + 2);
    OneHotAtDecodes(pb.dChain, 2 * sMax + 2);
  }

  /** Feature vector of the ordered pair (a, b). */
  function PairFeature(a: Token, b: Token, rMax: nat, sMax: nat): (f: seq<real>)
    ensures |f| == Width(rMax, sMax)
    ensures Ones(ResBlock(f, rMax, sMax)) == 1
    ensures Ones(TokenBlock(f, rMax, sMax)) == 1
    ensures EntityBit(f, rMax, sMax) == (if SameEntity(a, b) then 1.0 else 0.0)
    ensures Ones(ChainBlock(f, rMax, sMax)) == 1
    ensures f == Layout(Offsets(a, b, rMax, sMax), rMax, sMax)
  {
    var rel := EncodeOffset(DRes(a, b, rMax), 2 * rMax + 2);
    var tok := EncodeOffset(DToken(a, b, rMax), 2 * rMax + 2);
    var ent := if SameEntity(a, b) then 1.0 else 0.0;
    var chn := EncodeOffset(DChain(a, b, sMax), 2 * sMax + 2);
    ConcatBlocks(rel, tok, ent, chn, rMax, sMax);
    rel + tok + [ent] + chn
  }

  /** Reads the three bin indices and the entity bit back out of a feature vector. */
  function DecodePair(f: seq<real>, rMax: nat, sMax: nat): PairBins
    requires |f| == Width(rMax, sMax)
  {
    PairBins(FirstOne(ResBlock(f, rMax, sMax)),
             FirstOne(TokenBlock(f, rMax, sMax)),
             EntityBit(f, rMax, sMax) == 1.0,
             FirstOne(ChainBlock(f, rMax, sMax)))
  }

  /** Every block of a pair feature is a one-hot of the corresponding offset. */
  lemma PairFeatureDecodes(a: Token, b: Token, rMax: nat, sMax: nat)
    ensures DecodePair(PairFeature(a, b, rMax, sMax), rMax, sMax)
         == PairBins(DRes(a, b, rMax), DToken(a, b, rMax), SameEntity(a, b), DChain(a, b, sMax))
  {
    LayoutDecodes(Offsets(a, b, rMax, sMax), rMax, sMax);
  }

  /** The features of token `a` paired with every token, in order. */
  function EncodeRow(a: Token, tokens: seq<Token>, rMax: nat, sMax: nat): (row: seq<seq<real>>)
    ensures |row| == |tokens|
    ensures forall j :: 0 <= j < |tokens| ==>
              |row[j]| == Width(rMax, sMax) &&
              DecodePair(row[j], rMax, sMax)
                == PairBins(DRes(a, tokens[j], rMax), DToken(a, tokens[j], rMax),
                            SameEntity(a, tokens[j]), DChain(a, tokens[j], sMax))
    ensures forall j :: 0 <= j < |tokens| ==> row[j] == Layout(Offsets(a, tokens[j], rMax, sMax), rMax, sMax)
  {
    var row := seq(|tokens|, j requires 0 <= j < |tokens| => PairFeature(a, tokens[j], rMax, sMax));
    forall j | 0 <= j < |tokens|
      ensures DecodePair(row[j], rMax, sMax)
                == PairBins(DRes(a, tokens[j], rMax), DToken(a, tokens[j], rMax),
                            SameEntity(a, tokens[j]), DChain(a, tokens[j], sMax))
    {
      PairFeatureDecodes(a, tokens[j], rMax, sMax);
    }
    row
  }

  /** `RelativePositionEncoding.forward`: the `n x n x Width` pair feature tensor. */
  function Encode(tokens: seq<Token>, rMax: nat, sMax: nat): (e: seq<seq<seq<real>>>)
    ensures |e| == |tokens|
    ensures forall i :: 0 <= i < |tokens| ==> |e[i]| == |tokens|
    ensures forall i, j :: 0 <= i < |tokens| && 0 <= j < |tokens| ==>
              |e[i][j]| == Width(rMax, sMax) &&
              DecodePair(e[i][j], rMax, sMax)
                == PairBins(DRes(tokens[i], tokens[j], rMax), DToken(tokens[i], tokens[j], rMax),
                            SameEntity(tokens[i], tokens[j]), DChain(tokens[i], tokens[j], sMax))
    ensures forall i, j :: 0 <= i < |tokens| && 0 <= j < |tokens| ==>
              e[i][j] == Layout(Offsets(tokens[i], tokens[j], rMax, sMax), rMax, sMax)
  {
    seq(|tokens|, i requires 0 <= i < |tokens| => EncodeRow(tokens[i], tokens, rMax, sMax))
  }
}
