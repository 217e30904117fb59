/**
 * Sequence-local atom attention mask (Algorithm 7, `AtomTransformer.forward`).
 * Subset centres split the atom sequence into blocks: a query atom `l` may
 * attend to a key atom `m` when some centre has `l` inside its query window
 * (half-width `nQueries / 2`) and `m` inside its wider key window (half-width
 * `nKeys / 2`). Compatible pairs get bias 0, all others a large negative bias.
 */
module WindowMask {
  import opened Wrappers
  import opened Binning

  /** The configured centres; the half-integer positions sit between atoms. */
  const DefaultCentres: seq<real> := [15.5, 47.5, 79.5]
  const DefaultQueries: nat := 32
  const DefaultKeys: nat := 128

  /** Bias for pairs outside every block: -1e10 rather than negative infinity. */
  const MaskedBias: real := -10000000000.0

  /** Atom `pos` lies strictly within `width / 2` of `centre`. */
  predicate InWindow(pos: nat, centre: real, width: nat)
  {
    Abs(pos as real - centre) < width as real / 2.0
  }

  /** A wider window around the same centre holds everything a narrower one does. */
  lemma InWindowWider(pos: nat, centre: real, narrow: nat, wide: nat)
    requires narrow <= wide && InWindow(pos, centre, narrow)
    ensures InWindow(pos, centre, wide)
  {
  }

  /** Some centre covers query `l` with its query window and key `m` with its key window. */
  ghost predicate Compatible(l: nat, m: nat, centres: seq<real>, nQueries: nat, nKeys: nat)
  {
    exists k :: 0 <= k < |centres| && InWindow(l, centres[k], nQueries) && InWindow(m, centres[k], nKeys)
  }

  /** The first centre whose blocks hold both `l` (as query) and `m` (as key), if any. */
  function SharedCentre(l: nat, m: nat, centres: seq<real>, nQueries: nat, nKeys: nat): (r: Option<nat>)
    ensures r.Some? <==> Compatible(l, m, centres, nQueries, nKeys)
    ensures r.Some? ==> r.value < |centres|
                        && InWindow(l, centres[r.value], nQueries)
                        && InWindow(m, centres[r.value], nKeys)
    decreases |centres|
  {
    if |centres| == 0 then None
    else
      var last := |centres| - 1;
      var front := centres[..last];
      assert forall k :: 0 <= k < last ==> front[k] == centres[k];
      match SharedCentre(l, m, front, nQueries, nKeys)
      case Some(k) => Some(k)
      case None =>
        if InWindow(l, centres[last], nQueries) && InWindow(m, centres[last], nKeys) then Some(last)
        else None
  }

  /** The additive attention bias of the pair (l, m). */
  function Bias(l: nat, m: nat, centres: seq<real>, nQueries: nat, nKeys: nat): (b: real)
    ensures b == 0.0 || b == MaskedBias
    ensures b == 0.0 <==> Compatible(l, m, centres, nQueries, nKeys)
  {
    if SharedCentre(l, m, centres, nQueries, nKeys).Some? then 0.0 else MaskedBias
  }

  /** `beta_lm` for `nAtoms` atoms: row `l` is query `l`, column `m` is key `m`. */
  function BiasMatrix(nAtoms: nat, centres: seq<real>, nQueries: nat, nKeys: nat): (beta: seq<seq<real>>)
    ensures |beta| == nAtoms
    ensures forall l :: 0 <= l < nAtoms ==> |beta[l]| == nAtoms
    ensures forall l, m :: 0 <= l < nAtoms && 0 <= m < nAtoms ==>
              (beta[l][m] == 0.0 || beta[l][m] == MaskedBias) &&
              (beta[l][m] == 0.0 <==> Compatible(l, m, centres, nQueries, nKeys))
  {
    seq(nAtoms, (l: nat) requires l < nAtoms => seq(nAtoms, (m: nat) requires m < nAtoms => Bias(l, m, centres, nQueries, nKeys)))
  }

  /**
   * Because the key window is at least as wide as the query window, a query
   * that some centre covers is a valid key of its own row, so that row is
   * never entirely masked.
   */
  lemma CoveredQuerySeesItself(l: nat, nAtoms: nat, centres: seq<real>, nQueries: nat, nKeys: nat, k: nat)
    requires l < nAtoms
    requires nQueries <= nKeys
    requires k < |centres| && InWindow(l, centres[k], nQueries)
    ensures BiasMatrix(nAtoms, centres, nQueries, nKeys)[l][l] == 0.0
  {
    InWindowWider(l, centres[k], nQueries, nKeys);
  }

  /** How many centres hold `pos` inside their window of the given width. */
  function CoveringCount(pos: nat, centres: seq<real>, width: nat): (c: nat)
    ensures c <= |centres|
  {
    if |centres| == 0 then 0
    else CoveringCount(pos, centres[..|centres| - 1], width)
         + (if InWindow(pos, centres[|centres| - 1], width) then 1 else 0)
  }

  /** A positive covering count means some centre covers the position, and back. */
  lemma {:induction false} CoveringCountPositive(pos: nat, centres: seq<real>, width: nat)
    ensures CoveringCount(pos, centres, width) > 0
            <==> exists k :: 0 <= k < |centres| && InWindow(pos, centres[k], width)
    decreases |centres|
  {
    if |centres| > 0 {
      var last := |centres| - 1;
      var front := centres[..last];
      CoveringCountPositive(pos, front, width);
      assert forall k :: 0 <= k < last ==> front[k] == centres[k];
      if CoveringCount(pos, front, width) > 0 {
        var k :| 0 <= k < last && InWindow(pos, front[k], width);
        assert InWindow(pos, centres[k], width);
      }
    }
  }

  /**
   * With the default centres and 32-atom query windows, atoms 0..95 fall in
   * exactly one query block and atoms from 96 on fall in none.
   */
  lemma DefaultQueryBlocksPartition(pos: nat)
    ensures CoveringCount(pos, DefaultCentres, DefaultQueries) == (if pos < 96 then 1 else 0)
  {
    var c := DefaultCentres;
    assert c[..2] == [15.5, 47.5] && c[..2][..1] == [15.5] && [15.5][..0] == [];
    assert CoveringCount(pos, [15.5], 32) == (if InWindow(pos, 15.5, 32) then 1 else 0);
    assert CoveringCount(pos, [15.5, 47.5], 32)
        == CoveringCount(pos, [15.5], 32) + (if InWindow(pos, 47.5, 32) then 1 else 0);
    assert CoveringCount(pos, c, 32)
        == CoveringCount(pos, [15.5, 47.5], 32) + (if InWindow(pos, 79.5, 32) then 1 else 0);
  }

  /** Under the default configuration every row `l < 96` of the bias has a zero entry. */
  lemma DefaultRowsHaveValidKey(l: nat, nAtoms: nat)
    requires l < nAtoms && l < 96
    ensures BiasMatrix(nAtoms, DefaultCentres, DefaultQueries, DefaultKeys)[l][l] == 0.0
  {
    DefaultQueryBlocksPartition(l);
    CoveringCountPositive(l, DefaultCentres, DefaultQueries);
    var k :| 0 <= k < |DefaultCentres| && InWindow(l, DefaultCentres[k], DefaultQueries);
    CoveredQuerySeesItself(l, nAtoms, DefaultCentres, DefaultQueries, DefaultKeys, k);
  }

  /**
   * Under the default configuration every query row from 96 on is masked
   * entirely: no centre's query window reaches it, so the row has no valid key.
   */
  lemma DefaultRowsFromNinetySixMasked(l: nat, m: nat, nAtoms: nat)
    requires 96 <= l < nAtoms && m < nAtoms
    ensures BiasMatrix(nAtoms, DefaultCentres, DefaultQueries, DefaultKeys)[l][m] == MaskedBias
  {
    DefaultQueryBlocksPartition(l);
    CoveringCountPositive(l, DefaultCentres, DefaultQueries);
  }

  /**
   * Centres for `nAtoms` atoms that continue the default pattern: one every
   * 32 atoms, `15.5 + 32 k`, until every atom lies in a query block.
   */
  function BlockCentres(nAtoms: nat): (cs: seq<real>)
    ensures |cs| == (nAtoms + 31) / 32
  {
    seq((nAtoms + 31) / 32, k => 15.5 + 32.0 * (k as real))
  }

  /** The defaults are the first three of these centres. */
  lemma DefaultCentresAreBlockCentres()
    ensures BlockCentres(96) == DefaultCentres
  {
    var cs := BlockCentres(96);
    assert cs[0] == 15.5 && cs[1] == 47.5 && cs[2] == 79.5;
  }

  /** With `BlockCentres`, atom `l` lies in the query block of centre `l / 32`. */
  lemma BlockCentresCover(l: nat, nAtoms: nat)
    requires l < nAtoms
    ensures l / 32 < |BlockCentres(nAtoms)|
    ensures InWindow(l, BlockCentres(nAtoms)[l / 32], DefaultQueries)
  {
    var k := l / 32;
    var r := l % 32;
    assert l == 32 * k + r;
    assert (l as real) - (15.5 + 32.0 * (k as real)) == (r as real) - 15.5;
  }

  /** With `BlockCentres`, no query row is entirely masked: the diagonal entry is 0. */
  lemma BlockCentresRowsHaveValidKey(l: nat, nAtoms: nat)
    requires l < nAtoms
    ensures BiasMatrix(nAtoms, BlockCentres(nAtoms), DefaultQueries, DefaultKeys)[l][l] == 0.0
  {
    BlockCentresCover(l, nAtoms);
    CoveredQuerySeesItself(l, nAtoms, BlockCentres(nAtoms), DefaultQueries, DefaultKeys, l / 32);
  }
}
