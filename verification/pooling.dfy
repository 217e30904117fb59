/**
 * Atom-to-token pooling and token-to-atom broadcast (Algorithm 5,
 * `AtomToTokenPooler.forward`, and the pooling and broadcast steps of
 * `DiffusionModule.forward`). Atoms are grouped into consecutive windows of
 * `w`; each token is the mean of the valid atoms of its window, and
 * broadcasting copies token `t` to atoms `t*w .. t*w + w - 1`. Features are
 * taken after the learned projection.
 */
module Pooling {
  import opened Wrappers
  import Linalg

  /** One feature vector. */
  type Vec = seq<real>

  /** Every vector in `xs` has `d` channels. */
  predicate HasDim(xs: seq<Vec>, d: nat)
  {
    forall v :: v in xs ==> |v| == d
  }

  /** Why pooling refuses its input. */
  datatype PoolError =
    | WindowShape     // the atom count is not a positive multiple of the window size
    | EmptyWindow     // some window has no valid atom

  lemma MulMono(a: int, b: int, w: nat)
    ensures a <= b ==> a * w <= b * w
  {
    assert b * w - a * w == (b - a) * w;
  }

  lemma DivOfBlock(t: nat, w: nat, i: nat)
    requires i < w
    ensures (t * w + i) / w == t
  {
    var x := t * w + i;
    var q := x / w;
    assert q * w + x % w == x;
    MulMono(t + 1, q, w);
    MulMono(q + 1, t, w);
    assert (t + 1) * w == t * w + w;
    assert (q + 1) * w == q * w + w;
  }

  lemma DivStep(l: nat, w: nat)
    requires w > 0
    ensures l < w ==> l / w == 0
    ensures l >= w ==> (l - w) / w == l / w - 1
  {
    var q, r := l / w, l % w;
    assert l == q * w + r;
    if l < w {
      DivOfBlock(0, w, l);
    } else {
      MulMono(q, 0, w);
      assert q >= 1;
      assert l - w == (q - 1) * w + r by {
        assert q * w == (q - 1) * w + w;
      }
      DivOfBlock(q - 1, w, r);
    }
  }

  /** The consecutive windows of `w` elements (`rearrange(s, '(n w) -> n w')`); a short tail is dropped. */
  function Windows<T>(s: seq<T>, w: nat): (ws: seq<seq<T>>)
    requires w > 0
    ensures |ws| == |s| / w
    ensures forall t :: 0 <= t < |ws| ==> |ws[t]| == w
    ensures forall t, x :: 0 <= t < |ws| && x in ws[t] ==> x in s
    decreases |s|
  {
    DivStep(|s|, w);
    if |s| < w then []
    else
      var rest := Windows(s[w..], w);
      var ws := [s[..w]] + rest;
      forall t, x | 0 <= t < |ws| && x in ws[t]
        ensures x in s
      {
        if t == 0 {
          assert x in s[..w];
        } else {
          assert x in rest[t - 1];
          assert x in s[w..];
        }
      }
      ws
  }

  /** Element `i` of window `t` is element `t * w + i` of the input: the windows cut `s` in order, without gaps or overlap. */
  lemma {:induction false} WindowsAt<T>(s: seq<T>, w: nat, t: nat, i: nat)
    requires w > 0 && t < |s| / w && i < w
    ensures t * w + i < |s| && Windows(s, w)[t][i] == s[t * w + i]
    decreases t
  {
    DivStep(|s|, w);
    var ws := Windows(s, w);
    assert ws == [s[..w]] + Windows(s[w..], w);
    if t == 0 {
      assert ws[0][i] == s[i];
    } else {
      var k := (t - 1) * w + i;
      WindowsAt(s[w..], w, t - 1, i);
      assert k + w == t * w + i by {
        assert (t - 1) * w + w == t * w;
      }
      assert ws[t][i] == Windows(s[w..], w)[t - 1][i];
      assert s[w..][k] == s[k + w];
    }
  }

  /** Number of valid atoms. */
  function ValidCount(mask: seq<bool>): (n: nat)
    ensures n <= |mask|
    ensures n == 0 <==> forall i :: 0 <= i < |mask| ==> !mask[i]
  {
    if |mask| == 0 then 0 else (if mask[0] then 1 else 0) + ValidCount(mask[1..])
  }

  /** Channel `c` of every atom. */
  function Column(xs: seq<Vec>, d: nat, c: nat): (col: seq<real>)
    requires HasDim(xs, d) && c < d
    ensures |col| == |xs|
    ensures forall i :: 0 <= i < |xs| ==> col[i] == xs[i][c]
  {
    seq(|xs|, i requires 0 <= i < |xs| => xs[i][c])
  }

  /** Sum over the valid entries only: masked entries are zero-filled, then everything is added. */
  function MaskedSum(vals: seq<real>, mask: seq<bool>): real
    requires |vals| == |mask|
  {
    if |vals| == 0 then 0.0 else (if mask[0] then vals[0] else 0.0) + MaskedSum(vals[1..], mask[1..])
  }

  /** Mean over the valid atoms, channel by channel. */
  function MaskedMean(xs: seq<Vec>, mask: seq<bool>, d: nat): (m: Vec)
    requires |xs| == |mask| && HasDim(xs, d) && ValidCount(mask) > 0
    ensures |m| == d
  {
    seq(d, c requires 0 <= c < d => MaskedSum(Column(xs, d, c), mask) / (ValidCount(mask) as real))
  }

  /** The conditions the pooler checks: windows tile the atoms and each has a valid atom. */
  predicate Poolable(mask: seq<bool>, w: nat)
  {
    && w > 0
    && |mask| % w == 0
    && forall win :: win in Windows(mask, w) ==> ValidCount(win) > 0
  }

  /** The masked mean of every window, once the window checks have passed. */
  function PoolWindows(feats: seq<Vec>, mask: seq<bool>, w: nat, d: nat): (tokens: seq<Vec>)
    requires |feats| == |mask| && HasDim(feats, d) && Poolable(mask, w)
    ensures |tokens| == |mask| / w && HasDim(tokens, d)
  {
    var fw, mw := Windows(feats, w), Windows(mask, w);
    seq(|mask| / w, t requires 0 <= t < |mask| / w => MaskedMean(fw[t], mw[t], d))
  }

  /** `AtomToTokenPooler.forward` after the projection: masked mean over each window. */
  function Pool(feats: seq<Vec>, mask: seq<bool>, w: nat, d: nat): (r: Result<seq<Vec>, PoolError>)
    requires |feats| == |mask| && HasDim(feats, d)
    ensures r.Success? <==> Poolable(mask, w)
    ensures r.Failure? ==> (r.error == WindowShape <==> w == 0 || |mask| % w != 0)
    ensures r.Success? ==> |r.value| == |mask| / w && HasDim(r.value, d)
  {
    if w == 0 || |mask| % w != 0 then Failure(WindowShape)
    else if !Poolable(mask, w) then Failure(EmptyWindow)
    else Success(PoolWindows(feats, mask, w, d))
  }

  lemma {:induction false} MaskedSumAgree(vals: seq<real>, vals': seq<real>, mask: seq<bool>)
    requires |vals| == |vals'| == |mask|
    requires forall i :: 0 <= i < |mask| && mask[i] ==> vals[i] == vals'[i]
    ensures MaskedSum(vals, mask) == MaskedSum(vals', mask)
    decreases |mask|
  {
    if |mask| > 0 {
      MaskedSumAgree(vals[1..], vals'[1..], mask[1..]);
    }
  }

  /** `x` added to itself `n` times. */
  function Times(n: nat, x: real): real
  {
    if n == 0 then 0.0 else x + Times(n - 1, x)
  }

  lemma {:induction false} TimesIsProduct(n: nat, x: real)
    ensures Times(n, x) == (n as real) * x
  {
    if n > 0 {
      TimesIsProduct(n - 1, x);
      var k := (n - 1) as real;
      assert (k + 1.0) * x == x + k * x;
    }
  }

  /** Dividing `n` copies of `x` by `n` gives `x`. */
  lemma TimesDiv(n: nat, x: real)
    requires n > 0
    ensures Times(n, x) / (n as real) == x
  {
    var m := n as real;
    var t := Times(n, x);
    assert t == m * x by {
      TimesIsProduct(n, x);
    }
    assert m != 0.0;
    assert t / m == x;
  }

  lemma {:induction false} MaskedSumConst(vals: seq<real>, mask: seq<bool>, x: real)
    requires |vals| == |mask|
    requires forall i :: 0 <= i < |vals| ==> vals[i] == x
    ensures MaskedSum(vals, mask) == Times(ValidCount(mask), x)
    decreases |mask|
  {
    if |mask| > 0 {
      MaskedSumConst(vals[1..], mask[1..], x);
    }
  }

  lemma {:induction false} MaskedSumNone(vals: seq<real>, mask: seq<bool>)
    requires |vals| == |mask|
    requires forall j :: 0 <= j < |mask| ==> !mask[j]
    ensures MaskedSum(vals, mask) == 0.0
    decreases |mask|
  {
    if |mask| > 0 {
      MaskedSumNone(vals[1..], mask[1..]);
    }
  }

  lemma {:induction false} MaskedSumSingle(vals: seq<real>, mask: seq<bool>, i: nat)
    requires |vals| == |mask| && i < |mask|
    requires forall j :: 0 <= j < |mask| ==> (mask[j] <==> j == i)
    ensures ValidCount(mask) == 1
    ensures MaskedSum(vals, mask) == vals[i]
    decreases |mask|
  {
    if i == 0 {
      MaskedSumNone(vals[1..], mask[1..]);
    } else {
      MaskedSumSingle(vals[1..], mask[1..], i - 1);
    }
  }

  /** `a` and `b` hold the same value wherever `mask` is set. */
  ghost predicate AgreeOnValid<T>(a: seq<T>, b: seq<T>, mask: seq<bool>)
  {
    |a| == |b| == |mask| && forall i :: 0 <= i < |mask| && mask[i] ==> a[i] == b[i]
  }

  lemma {:induction false} WindowsAgree<T>(a: seq<T>, b: seq<T>, mask: seq<bool>, w: nat)
    requires w > 0 && AgreeOnValid(a, b, mask)
    ensures forall t :: 0 <= t < |mask| / w ==>
              AgreeOnValid(Windows(a, w)[t], Windows(b, w)[t], Windows(mask, w)[t])
    decreases |mask|
  {
    if |mask| >= w {
      WindowsAgree(a[w..], b[w..], mask[w..], w);
      var wa, wb, wm := Windows(a, w), Windows(b, w), Windows(mask, w);
      forall t | 0 <= t < |mask| / w
        ensures AgreeOnValid(wa[t], wb[t], wm[t])
      {
        if t > 0 {
          assert wa[t] == Windows(a[w..], w)[t - 1];
          assert wb[t] == Windows(b[w..], w)[t - 1];
          assert wm[t] == Windows(mask[w..], w)[t - 1];
        }
      }
    }
  }

  /** Changing the features of masked atoms never changes the pooled tokens. */
  lemma PoolIgnoresMaskedAtoms(feats: seq<Vec>, feats': seq<Vec>, mask: seq<bool>, w: nat, d: nat)
    requires |feats| == |mask| && HasDim(feats, d) && HasDim(feats', d)
    requires AgreeOnValid(feats, feats', mask)
    ensures Pool(feats, mask, w, d) == Pool(feats', mask, w, d)
  {
    if Poolable(mask, w) {
      var a, b := PoolWindows(feats, mask, w, d), PoolWindows(feats', mask, w, d);
      WindowsAgree(feats, feats', mask, w);
      forall t | 0 <= t < |mask| / w
        ensures a[t] == b[t]
      {
        var fw, gw, mw := Windows(feats, w)[t], Windows(feats', w)[t], Windows(mask, w)[t];
        forall c | 0 <= c < d
          ensures a[t][c] == b[t][c]
        {
          MaskedSumAgree(Column(fw, d, c), Column(gw, d, c), mw);
        }
      }
      assert a == b;
    }
  }

  /** With a single valid atom, the masked mean is that atom. */
  lemma MaskedMeanSingle(xs: seq<Vec>, mask: seq<bool>, d: nat, i: nat)
    requires |xs| == |mask| && HasDim(xs, d) && i < |mask|
    requires forall j :: 0 <= j < |mask| ==> (mask[j] <==> j == i)
    ensures ValidCount(mask) == 1
    ensures MaskedMean(xs, mask, d) == xs[i]
  {
    MaskedSumSingle(seq(|mask|, _ => 0.0), mask, i);
    var m := MaskedMean(xs, mask, d);
    assert xs[i] in xs;
    forall c | 0 <= c < d
      ensures m[c] == xs[i][c]
    {
      MaskedSumSingle(Column(xs, d, c), mask, i);
    }
  }

  /** Token `t` of a successful pooling is the masked mean of window `t`. */
  lemma PoolEntry(feats: seq<Vec>, mask: seq<bool>, w: nat, d: nat, t: nat)
    requires |feats| == |mask| && HasDim(feats, d) && Poolable(mask, w) && t < |mask| / w
    ensures t < |Windows(feats, w)| && t < |Windows(mask, w)|
    ensures Pool(feats, mask, w, d).Success?
    ensures Pool(feats, mask, w, d).value[t] == MaskedMean(Windows(feats, w)[t], Windows(mask, w)[t], d)
  {
  }

  /** A window whose only valid atom is its `i`-th pools to exactly that atom's features. */
  lemma PoolSingleValidAtom(feats: seq<Vec>, mask: seq<bool>, w: nat, d: nat, t: nat, i: nat)
    requires |feats| == |mask| && HasDim(feats, d) && Poolable(mask, w)
    requires t < |mask| / w && i < w
    requires forall j :: 0 <= j < w ==> (Windows(mask, w)[t][j] <==> j == i)
    ensures Pool(feats, mask, w, d).Success?
    ensures Pool(feats, mask, w, d).value[t] == Windows(feats, w)[t][i]
  {
    PoolEntry(feats, mask, w, d, t);
    var fw, mw := Windows(feats, w)[t], Windows(mask, w)[t];
    assert HasDim(fw, d);
    MaskedMeanSingle(fw, mw, d, i);
  }

  /** The entries whose mask bit is set, in order. */
  function Valid<T>(xs: seq<T>, mask: seq<bool>): (vs: seq<T>)
    requires |xs| == |mask|
    ensures |vs| == ValidCount(mask)
    ensures forall v :: v in vs ==> v in xs
  {
    if |xs| == 0 then []
    else
      var rest := Valid(xs[1..], mask[1..]);
      assert forall v :: v in rest ==> v in xs[1..];
      (if mask[0] then [xs[0]] else []) + rest
  }


  /** Zero-filling the masked entries and summing everything adds up exactly the valid entries. */
  lemma {:induction false} MaskedSumIsSumOfValid(vals: seq<real>, mask: seq<bool>)
    requires |vals| == |mask|
    ensures MaskedSum(vals, mask) == Linalg.Sum(Valid(vals, mask))
    decreases |mask|
  {
    if |vals| > 0 {
      MaskedSumIsSumOfValid(vals[1..], mask[1..]);
      var rest := Valid(vals[1..], mask[1..]);
      if mask[0] {
        assert Valid(vals, mask) == [vals[0]] + rest;
        assert ([vals[0]] + rest)[1..] == rest;
      } else {
        assert Valid(vals, mask) == rest;
      }
    }
  }

  /** Channel `c` of the masked mean is the ordinary mean of channel `c` over the valid atoms. */
  lemma MaskedMeanIsMeanOfValid(xs: seq<Vec>, mask: seq<bool>, d: nat, c: nat)
    requires |xs| == |mask| && HasDim(xs, d) && ValidCount(mask) > 0 && c < d
    ensures var vals := Valid(Column(xs, d, c), mask);
            |vals| > 0 && MaskedMean(xs, mask, d)[c] == Linalg.Sum(vals) / (|vals| as real)
  {
    MaskedSumIsSumOfValid(Column(xs, d, c), mask);
  }

  /** Channel `c` of token `t` is the mean of channel `c` over the valid atoms of window `t`. */
  lemma PoolIsMeanOfValidAtoms(feats: seq<Vec>, mask: seq<bool>, w: nat, d: nat, t: nat, c: nat)
    requires |feats| == |mask| && HasDim(feats, d) && Poolable(mask, w)
    requires t < |mask| / w && c < d
    ensures HasDim(Windows(feats, w)[t], d)
    ensures Pool(feats, mask, w, d).Success?
    ensures var vals := Valid(Column(Windows(feats, w)[t], d, c), Windows(mask, w)[t]);
            |vals| > 0 && Pool(feats, mask, w, d).value[t][c] == Linalg.Sum(vals) / (|vals| as real)
  {
    var fw, mw := Windows(feats, w)[t], Windows(mask, w)[t];
    assert mw in Windows(mask, w);
    assert HasDim(fw, d) by {
      assert forall v :: v in fw ==> v in feats;
    }
    assert Pool(feats, mask, w, d).value[t] == MaskedMean(fw, mw, d);
    MaskedMeanIsMeanOfValid(fw, mw, d, c);
  }

  /** `w` copies of one vector. */
  function Repeat(v: Vec, w: nat): (r: seq<Vec>)
    ensures |r| == w
    ensures forall i :: 0 <= i < w ==> r[i] == v
  {
    seq(w, _ => v)
  }

  /** The token that atom `l` of `n` windows of `w` atoms belongs to. */
  function TokenOf(l: nat, n: nat, w: nat): (k: nat)
    requires w > 0 && l < n * w
    ensures k == l / w && k < n
  {
    var q := l / w;
    assert q * w + l % w == l;
    MulMono(n, q, w);
    q
  }

  /**
   * The token-to-atom broadcast of `DiffusionModule.forward`: each token is
   * repeated `w` times, so atom `l` receives token `l / w`.
   */
  function Broadcast(tokens: seq<Vec>, w: nat): (atoms: seq<Vec>)
    ensures |atoms| == |tokens| * w
    ensures forall l :: 0 <= l < |atoms| ==> w > 0 && l / w < |tokens| && atoms[l] == tokens[l / w]
    ensures forall v :: v in atoms ==> v in tokens
  {
    if w == 0 then []
    else
      var n := |tokens|;
      var atoms := seq(n * w, l requires 0 <= l < n * w => tokens[TokenOf(l, n, w)]);
      forall v | v in atoms
        ensures v in tokens
      {
        var l :| 0 <= l < |atoms| && atoms[l] == v;
        assert tokens[TokenOf(l, n, w)] == v;
      }
      atoms
  }

  /** Window `t` of a broadcast is `w` copies of token `t`. */
  lemma WindowsOfBroadcast(tokens: seq<Vec>, w: nat)
    requires w > 0
    ensures |Windows(Broadcast(tokens, w), w)| == |tokens|
    ensures forall t :: 0 <= t < |tokens| ==> Windows(Broadcast(tokens, w), w)[t] == Repeat(tokens[t], w)
  {
    var atoms := Broadcast(tokens, w);
    DivOfBlock(|tokens|, w, 0);
    forall t | 0 <= t < |tokens|
      ensures Windows(atoms, w)[t] == Repeat(tokens[t], w)
    {
      forall i | 0 <= i < w
        ensures Windows(atoms, w)[t][i] == tokens[t]
      {
        WindowsAt(atoms, w, t, i);
        DivOfBlock(t, w, i);
      }
    }
  }

  /** When window `t` repeats `tokens[t]`, pooling returns `tokens`, whatever the mask keeps. */
  lemma PoolOfRepeatedWindows(atoms: seq<Vec>, tokens: seq<Vec>, mask: seq<bool>, w: nat, d: nat)
    requires |atoms| == |mask| && HasDim(atoms, d) && HasDim(tokens, d) && Poolable(mask, w)
    requires |tokens| == |mask| / w
    requires forall t :: 0 <= t < |tokens| ==> Windows(atoms, w)[t] == Repeat(tokens[t], w)
    ensures PoolWindows(atoms, mask, w, d) == tokens
  {
    var pooled := PoolWindows(atoms, mask, w, d);
    forall t | 0 <= t < |tokens|
      ensures pooled[t] == tokens[t]
    {
      var aw, mw := Windows(atoms, w)[t], Windows(mask, w)[t];
      assert mw in Windows(mask, w);
      assert pooled[t] == MaskedMean(aw, mw, d);
      MaskedMeanConst(aw, mw, d, tokens[t]);
    }
  }

  /** The masked mean of a constant column is that constant. */
  lemma MaskedMeanOfConst(vals: seq<real>, mask: seq<bool>, x: real)
    requires |vals| == |mask| && ValidCount(mask) > 0
    requires forall i :: 0 <= i < |vals| ==> vals[i] == x
    ensures MaskedSum(vals, mask) / (ValidCount(mask) as real) == x
  {
    MaskedSumConst(vals, mask, x);
    TimesDiv(ValidCount(mask), x);
  }

  /** The masked mean of copies of one vector is that vector. */
  lemma MaskedMeanConst(xs: seq<Vec>, mask: seq<bool>, d: nat, v: Vec)
    requires |xs| == |mask| && HasDim(xs, d) && ValidCount(mask) > 0 && |v| == d
    requires forall i :: 0 <= i < |xs| ==> xs[i] == v
    ensures MaskedMean(xs, mask, d) == v
  {
    forall c | 0 <= c < d
      ensures MaskedMean(xs, mask, d)[c] == v[c]
    {
      MaskedMeanConstAt(xs, mask, d, v, c);
    }
  }

  lemma MaskedMeanConstAt(xs: seq<Vec>, mask: seq<bool>, d: nat, v: Vec, c: nat)
    requires |xs| == |mask| && HasDim(xs, d) && ValidCount(mask) > 0 && |v| == d && c < d
    requires forall i :: 0 <= i < |xs| ==> xs[i] == v
    ensures MaskedMean(xs, mask, d)[c] == v[c]
  {
    var col := Column(xs, d, c);
    forall i | 0 <= i < |col|
      ensures col[i] == v[c]
    {
      assert col[i] == xs[i][c];
    }
    MaskedMeanOfConst(col, mask, v[c]);
    assert MaskedMean(xs, mask, d)[c] == MaskedSum(col, mask) / (ValidCount(mask) as real);
  }

  /** Pooling undoes broadcasting, whichever atoms the mask keeps. */
  lemma PoolBroadcastRoundTrip(tokens: seq<Vec>, mask: seq<bool>, w: nat, d: nat)
    requires HasDim(tokens, d)
    requires |mask| == |tokens| * w && Poolable(mask, w)
    ensures Pool(Broadcast(tokens, w), mask, w, d) == Success(tokens)
  {
    WindowsOfBroadcast(tokens, w);
    PoolOfRepeatedWindows(Broadcast(tokens, w), tokens, mask, w, d);
  }

  /** `mask` with every entry flipped. */
  function Invert(mask: seq<bool>): (inv: seq<bool>)
    ensures |inv| == |mask|
    ensures forall i :: 0 <= i < |mask| ==> inv[i] == !mask[i]
  {
    seq(|mask|, i requires 0 <= i < |mask| => !mask[i])
  }

  /**
   * The inline pooling of `DiffusionModule.forward` as written: it zero-fills
   * the atoms the mask marks VALID, so the numerator sums the masked atoms
   * while the denominator still counts the valid ones. The atoms must fill
   * exactly `nTokens` windows.
   */
  function InlinePoolAsWritten(feats: seq<Vec>, mask: seq<bool>, w: nat, nTokens: nat, d: nat)
    : (r: Result<seq<Vec>, PoolError>)
    requires |feats| == |mask| && HasDim(feats, d)
    ensures r.Success? <==> |mask| == nTokens * w && Poolable(mask, w)
    ensures r.Success? ==> |r.value| == nTokens && HasDim(r.value, d)
  {
    if w == 0 || |mask| % w != 0 || |mask| != nTokens * w then Failure(WindowShape)
    else if !Poolable(mask, w) then Failure(EmptyWindow)
    else
      DivOfBlock(nTokens, w, 0);
      var fw, mw := Windows(feats, w), Windows(mask, w);
      Success(seq(nTokens, t requires 0 <= t < nTokens =>
        seq(d, c requires 0 <= c < d =>
          MaskedSum(Column(fw[t], d, c), Invert(mw[t])) / (ValidCount(mw[t]) as real))))
  }

  /** Entry `(t, c)` of the inline pooling, once its checks have passed. */
  lemma InlinePoolEntry(feats: seq<Vec>, mask: seq<bool>, w: nat, nTokens: nat, d: nat, t: nat, c: nat)
    requires |feats| == |mask| && HasDim(feats, d)
    requires |mask| == nTokens * w && Poolable(mask, w) && t < nTokens && c < d
    ensures t < |Windows(feats, w)| && t < |Windows(mask, w)|
    ensures InlinePoolAsWritten(feats, mask, w, nTokens, d).Success?
    ensures InlinePoolAsWritten(feats, mask, w, nTokens, d).value[t][c]
         == MaskedSum(Column(Windows(feats, w)[t], d, c), Invert(Windows(mask, w)[t]))
            / (ValidCount(Windows(mask, w)[t]) as real)
  {
    DivOfBlock(nTokens, w, 0);
  }

  /** `n` whole windows leave no tail. */
  lemma ModOfBlock(n: nat, w: nat)
    requires w > 0
    ensures (n * w) / w == n && (n * w) % w == 0
  {
    DivOfBlock(n, w, 0);
    assert (n * w) / w * w + (n * w) % w == n * w;
  }

  /** A mask of `n` whole windows with every atom valid passes the window checks. */
  lemma AllValidPoolable(mask: seq<bool>, w: nat, n: nat)
    requires w > 0 && |mask| == n * w
    requires forall i :: 0 <= i < |mask| ==> mask[i]
    ensures Poolable(mask, w)
  {
    ModOfBlock(n, w);
    forall win | win in Windows(mask, w)
      ensures ValidCount(win) > 0
    {
      assert win[0] in mask;
    }
  }

  /** One entry of `InlinePoolAllValidIsZero`. */
  lemma InlinePoolAllValidEntry(feats: seq<Vec>, mask: seq<bool>, w: nat, nTokens: nat, d: nat, t: nat, c: nat)
    requires |feats| == |mask| && HasDim(feats, d)
    requires |mask| == nTokens * w && Poolable(mask, w) && t < nTokens && c < d
    requires forall i :: 0 <= i < |mask| ==> mask[i]
    ensures InlinePoolAsWritten(feats, mask, w, nTokens, d).Success?
    ensures InlinePoolAsWritten(feats, mask, w, nTokens, d).value[t][c] == 0.0
  {
    InlinePoolEntry(feats, mask, w, nTokens, d, t, c);
    var fw, mw := Windows(feats, w)[t], Windows(mask, w)[t];
    forall j | 0 <= j < w
      ensures !Invert(mw)[j]
    {
      assert mw[j] in mask;
    }
    MaskedSumNone(Column(fw, d, c), Invert(mw));
    assert 0.0 / (ValidCount(mw) as real) == 0.0;
  }

  /** With every atom valid, the inline pooling yields all-zero tokens. */
  lemma InlinePoolAllValidIsZero(feats: seq<Vec>, mask: seq<bool>, w: nat, nTokens: nat, d: nat)
    requires |feats| == |mask| && HasDim(feats, d)
    requires w > 0 && |mask| == nTokens * w
    requires forall i :: 0 <= i < |mask| ==> mask[i]
    ensures InlinePoolAsWritten(feats, mask, w, nTokens, d).Success?
    ensures forall t, c :: 0 <= t < nTokens && 0 <= c < d ==>
              InlinePoolAsWritten(feats, mask, w, nTokens, d).value[t][c] == 0.0
  {
    AllValidPoolable(mask, w, nTokens);
    forall t, c | 0 <= t < nTokens && 0 <= c < d
      ensures InlinePoolAsWritten(feats, mask, w, nTokens, d).value[t][c] == 0.0
    {
      InlinePoolAllValidEntry(feats, mask, w, nTokens, d, t, c);
    }
  }

  /** One valid atom of value 1: the reference pooler returns 1, the inline pooling 0. */
  lemma InlinePoolDisagreesWithPool()
    ensures Pool([[1.0]], [true], 1, 1) == Success([[1.0]])
    ensures InlinePoolAsWritten([[1.0]], [true], 1, 1, 1) == Success([[0.0]])
  {
    var feats: seq<Vec> := [[1.0]];
    assert [true][..1] == [true] && [true][1..] == [];
    assert feats[..1] == feats && feats[1..] == [];
    assert Windows([true], 1) == [[true]] + Windows([], 1);
    assert Windows(feats, 1) == [feats] + Windows([], 1);
    PoolSingleValidAtom(feats, [true], 1, 1, 0, 0);
    var pooled := Pool(feats, [true], 1, 1).value;
    assert pooled[0] == [1.0];
    assert pooled == [[1.0]];
    InlinePoolAllValidIsZero(feats, [true], 1, 1, 1);
    var inline := InlinePoolAsWritten(feats, [true], 1, 1, 1).value;
    assert inline[0][0] == 0.0 && |inline[0]| == 1;
    assert inline[0] == [0.0];
    assert inline == [[0.0]];
  }

  /**
   * The inline pooling with the mask polarity corrected: the same checks and
   * the same per-window quotient as `InlinePoolAsWritten`, but the numerator
   * keeps the atoms the mask marks valid (`mw[t]` where the code as written
   * has `Invert(mw[t])`). It coincides with the reference pooler.
   */
  function DiffusionPool(feats: seq<Vec>, mask: seq<bool>, w: nat, nTokens: nat, d: nat)
    : (r: Result<seq<Vec>, PoolError>)
    requires |feats| == |mask| && HasDim(feats, d)
    ensures r.Success? <==> |mask| == nTokens * w && Poolable(mask, w)
    ensures r.Success? ==> |r.value| == nTokens && r == Pool(feats, mask, w, d)
  {
    if w == 0 || |mask| % w != 0 || |mask| != nTokens * w then Failure(WindowShape)
    else if !Poolable(mask, w) then Failure(EmptyWindow)
    else
      DivOfBlock(nTokens, w, 0);
      var fw, mw := Windows(feats, w), Windows(mask, w);
      var tokens := seq(nTokens, t requires 0 <= t < nTokens =>
        seq(d, c requires 0 <= c < d =>
          MaskedSum(Column(fw[t], d, c), mw[t]) / (ValidCount(mw[t]) as real)));
      assert tokens == PoolWindows(feats, mask, w, d) by {
        forall t | 0 <= t < nTokens
          ensures tokens[t] == PoolWindows(feats, mask, w, d)[t]
        {
          assert mw[t] in mw;
          assert tokens[t] == MaskedMean(fw[t], mw[t], d);
        }
      }
      Success(tokens)
  }

  /** Broadcasting tokens to atoms and pooling them back returns the tokens. */
  lemma DiffusionPoolBroadcastRoundTrip(tokens: seq<Vec>, mask: seq<bool>, w: nat, d: nat)
    requires HasDim(tokens, d)
    requires |mask| == |tokens| * w && Poolable(mask, w)
    ensures DiffusionPool(Broadcast(tokens, w), mask, w, |tokens|, d) == Success(tokens)
  {
    PoolBroadcastRoundTrip(tokens, mask, w, d);
  }
}
