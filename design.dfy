/** The design of the least-squares problem of cfi: for every recorded pair
    (k, l) one row of Bragg-vector products, one Doppler-product
    observation, and their copies scaled by the pair's diurnal weight. */
module Design {
  import opened Common
  import opened Diurnal

  /** (2 pi)^2 as the double the source computes. */
  const TwoPiSquared: real := 39.47841760435743

  /** The six products of the two Bragg vectors, in the order of the
      correlation-function names uu, vv, ww, uv, uw, vw; the mixed ones
      are symmetrised. */
  function Row(bk: Bragg, bl: Bragg): (r: seq<real>)
    ensures |r| == 6
  {
    [bk.u * bl.u, bk.v * bl.v, bk.w * bl.w,
     bk.u * bl.v + bk.v * bl.u,
     bk.u * bl.w + bk.w * bl.u,
     bk.v * bl.w + bk.w * bl.v]
  }

  /** mo: the product of the two Doppler shifts times (2 pi)^2. */
  function Observation(dk: real, dl: real): real
  {
    TwoPiSquared * dk * dl
  }

  /** The same row scaled by a weight. */
  function Scaled(w: real, row: seq<real>): (r: seq<real>)
    ensures |r| == |row|
    ensures forall c :: 0 <= c < |row| ==> r[c] == w * row[c]
  {
    seq(|row|, c requires 0 <= c < |row| => w * row[c])
  }

  /** Neither the row nor the observation depends on the order of the
      pair. */
  lemma RowSymmetric(bk: Bragg, bl: Bragg, dk: real, dl: real)
    ensures Row(bk, bl) == Row(bl, bk)
    ensures Observation(dk, dl) == Observation(dl, dk)
  {
  }

  // ---------------------------------------------------------------------
  // The row as a bilinear form

  /** The components (u, v, w) of a Bragg vector. */
  function Components(b: Bragg): (c: seq<real>)
    ensures |c| == 3
  {
    [b.u, b.v, b.w]
  }

  /** The symmetric 3x3 wind covariance whose unique entries are x in the
      order uu, vv, ww, uv, uw, vw. */
  function Covariance(x: seq<real>): (c: seq<seq<real>>)
    requires |x| == 6
    ensures |c| == 3 && forall i :: 0 <= i < 3 ==> |c[i]| == 3
    ensures forall i, j :: 0 <= i < 3 && 0 <= j < 3 ==> c[i][j] == c[j][i]
  {
    [[x[0], x[3], x[4]],
     [x[3], x[1], x[5]],
     [x[4], x[5], x[2]]]
  }

  /** sum over a of s[a] * t[a]. */
  function Dot(s: seq<real>, t: seq<real>): real
    requires |s| == |t|
  {
    if s == [] then 0.0 else s[0] * t[0] + Dot(s[1..], t[1..])
  }

  /** p^T c q for a 3x3 matrix c. */
  function Bilinear(p: seq<real>, c: seq<seq<real>>, q: seq<real>): real
    requires |p| == 3 && |q| == 3 && |c| == 3 && forall i :: 0 <= i < 3 ==> |c[i]| == 3
  {
    Dot(p, [Dot(c[0], q), Dot(c[1], q), Dot(c[2], q)])
  }

  /** The dot product splits over concatenation. */
  lemma {:induction false} DotAppend(s1: seq<real>, s2: seq<real>, t1: seq<real>, t2: seq<real>)
    requires |s1| == |t1| && |s2| == |t2|
    ensures Dot(s1 + s2, t1 + t2) == Dot(s1, t1) + Dot(s2, t2)
  {
    if s1 != [] {
      assert (s1 + s2)[1..] == s1[1..] + s2;
      assert (t1 + t2)[1..] == t1[1..] + t2;
      DotAppend(s1[1..], s2, t1[1..], t2);
    } else {
      assert s1 + s2 == s2 && t1 + t2 == t2;
    }
  }

  lemma Dot3(s: seq<real>, t: seq<real>)
    requires |s| == 3 && |t| == 3
    ensures Dot(s, t) == s[0] * t[0] + s[1] * t[1] + s[2] * t[2]
  {
    assert Dot(s[2..], t[2..]) == s[2] * t[2] + Dot(s[3..], t[3..]);
    assert s[1..][1..] == s[2..] && t[1..][1..] == t[2..];
  }

  lemma Dot6(s: seq<real>, t: seq<real>)
    requires |s| == 6 && |t| == 6
    ensures Dot(s, t) == s[0] * t[0] + s[1] * t[1] + s[2] * t[2] + s[3] * t[3] + s[4] * t[4] + s[5] * t[5]
  {
    assert s == s[..3] + s[3..] && t == t[..3] + t[3..];
    DotAppend(s[..3], s[3..], t[..3], t[3..]);
    Dot3(s[..3], t[..3]);
    Dot3(s[3..], t[3..]);
  }

  /** Row(bk, bl) . x is the covariance form bk^T C bl of the wind
      covariance C with entries x: the row is the design of a
      correlation-function observation. */
  lemma RowIsBilinear(bk: Bragg, bl: Bragg, x: seq<real>)
    requires |x| == 6
    ensures Dot(Row(bk, bl), x) == Bilinear(Components(bk), Covariance(x), Components(bl))
  {
    RowDot(bk, bl, x);
    BilinearDot(bk, bl, x);
    Expand(bk.u, bk.v, bk.w, bl.u, bl.v, bl.w, x[0], x[1], x[2], x[3], x[4], x[5]);
  }

  lemma RowDot(bk: Bragg, bl: Bragg, x: seq<real>)
    requires |x| == 6
    ensures Dot(Row(bk, bl), x) == bk.u * bl.u * x[0] + bk.v * bl.v * x[1] + bk.w * bl.w * x[2]
      + (bk.u * bl.v + bk.v * bl.u) * x[3] + (bk.u * bl.w + bk.w * bl.u) * x[4] + (bk.v * bl.w + bk.w * bl.v) * x[5]
  {
    var row := Row(bk, bl);
    Dot6(row, x);
    MulEqual(row[3], bk.u * bl.v + bk.v * bl.u, x[3]);
    MulEqual(row[4], bk.u * bl.w + bk.w * bl.u, x[4]);
    MulEqual(row[5], bk.v * bl.w + bk.w * bl.v, x[5]);
  }

  lemma BilinearDot(bk: Bragg, bl: Bragg, x: seq<real>)
    requires |x| == 6
    ensures Bilinear(Components(bk), Covariance(x), Components(bl))
         == bk.u * (x[0] * bl.u + x[3] * bl.v + x[4] * bl.w)
          + bk.v * (x[3] * bl.u + x[1] * bl.v + x[5] * bl.w)
          + bk.w * (x[4] * bl.u + x[5] * bl.v + x[2] * bl.w)
  {
    var c := Covariance(x);
    var q := Components(bl);
    var r0 := x[0] * bl.u + x[3] * bl.v + x[4] * bl.w;
    var r1 := x[3] * bl.u + x[1] * bl.v + x[5] * bl.w;
    var r2 := x[4] * bl.u + x[5] * bl.v + x[2] * bl.w;
    assert c[0] == [x[0], x[3], x[4]] && c[1] == [x[3], x[1], x[5]] && c[2] == [x[4], x[5], x[2]];
    Dot3(c[0], q);
    Dot3(c[1], q);
    Dot3(c[2], q);
    assert q == [bl.u, bl.v, bl.w];
    assert Dot(c[0], q) == r0 && Dot(c[1], q) == r1 && Dot(c[2], q) == r2;
    assert [Dot(c[0], q), Dot(c[1], q), Dot(c[2], q)] == [r0, r1, r2];
    Dot3(Components(bk), [r0, r1, r2]);
  }

  lemma MulEqual(a: real, b: real, c: real)
    requires a == b
    ensures a * c == b * c
  {
  }

  lemma Expand(ku: real, kv: real, kw: real, lu: real, lv: real, lw: real,
               x0: real, x1: real, x2: real, x3: real, x4: real, x5: real)
    ensures ku * lu * x0 + kv * lv * x1 + kw * lw * x2
            + (ku * lv + kv * lu) * x3 + (ku * lw + kw * lu) * x4 + (kv * lw + kw * lv) * x5
         == ku * (x0 * lu + x3 * lv + x4 * lw)
            + kv * (x3 * lu + x1 * lv + x5 * lw)
            + kw * (x4 * lu + x5 * lv + x2 * lw)
  {
  }

  /** Scaling a row by w scales its product with any x by w. */
  lemma {:induction false} ScaledDot(w: real, row: seq<real>, x: seq<real>)
    requires |row| == |x|
    ensures Dot(Scaled(w, row), x) == w * Dot(row, x)
  {
    if row != [] {
      var tail := Scaled(w, row)[1..];
      assert forall c :: 0 <= c < |tail| ==> tail[c] == Scaled(w, row[1..])[c];
      assert tail == Scaled(w, row[1..]);
      ScaledDot(w, row[1..], x[1..]);
      MulAssoc(w, row[0], x[0], Dot(row[1..], x[1..]));
    }
  }

  lemma MulAssoc(w: real, a: real, b: real, rest: real)
    ensures (w * a) * b + w * rest == w * (a * b + rest)
  {
  }

  /** The weighted equation of a pair is its unweighted equation times its
      weight: for every candidate x, the residual of the row of A against
      m is w times the residual of the row of Ao against mo. */
  lemma WeightedResidual(w: real, bk: Bragg, bl: Bragg, dk: real, dl: real, x: seq<real>)
    requires |x| == 6
    ensures Dot(Scaled(w, Row(bk, bl)), x) - Scaled(w, [Observation(dk, dl)])[0]
         == w * (Dot(Row(bk, bl), x) - Observation(dk, dl))
  {
    ScaledDot(w, Row(bk, bl), x);
  }

  // ---------------------------------------------------------------------
  // The design loop

  /** Row pi of a matrix with six columns set to row; nothing else changes. */
  method SetRow(mat: array2<real>, pi: nat, row: seq<real>)
    requires pi < mat.Length0 && mat.Length1 == 6 && |row| == 6
    modifies mat
    ensures forall c :: 0 <= c < 6 ==> mat[pi, c] == row[c]
    ensures forall p, c :: 0 <= p < mat.Length0 && 0 <= c < 6 && p != pi ==> mat[p, c] == old(mat[p, c])
  {
    mat[pi, 0] := row[0];
    mat[pi, 1] := row[1];
    mat[pi, 2] := row[2];
    mat[pi, 3] := row[3];
    mat[pi, 4] := row[4];
    mat[pi, 5] := row[5];
  }

  /** Row p of the design holds pair p with weight w: w is the diurnal
      weight of the pair's first measurement, row p of Ao holds the six
      Bragg products, mo[p] the Doppler observation, and row p of A and
      m[p] are the same scaled by w. */
  ghost predicate RowOk(table: seq<Measurement>, pairs: seq<(nat, nat)>,
                        centres: seq<real>, counts: seq<int>, t0: real,
                        A: array2<real>, Ao: array2<real>, m: array<real>, mo: array<real>,
                        w: real, p: nat)
    reads A, Ao, m, mo
  {
    p < |pairs| && pairs[p].0 < |table| && pairs[p].1 < |table|
    && DiurnalTable(centres, counts)
    && p < A.Length0 && p < Ao.Length0 && p < m.Length && p < mo.Length
    && A.Length1 == 6 && Ao.Length1 == 6
    && var mk, ml := table[pairs[p].0], table[pairs[p].1];
    && w == Weight(centres, counts, t0, mk.t)
    && (forall c :: 0 <= c < 6 ==> Ao[p, c] == Row(mk.bragg, ml.bragg)[c])
    && (forall c :: 0 <= c < 6 ==> A[p, c] == Scaled(w, Row(mk.bragg, ml.bragg))[c])
    && mo[p] == Observation(mk.dop, ml.dop)
    && m[p] == Scaled(w, [mo[p]])[0]
  }

  /** One pass of the design loop: row pi of Ao, A, mo and m for pair pi
      with its weight w; the rows done before stay done. */
  method FillRow(table: seq<Measurement>, pairs: seq<(nat, nat)>,
                 centres: seq<real>, counts: seq<int>, t0: real,
                 A: array2<real>, Ao: array2<real>, m: array<real>, mo: array<real>,
                 ws: seq<real>, pi: nat)
    returns (w: real)
    requires pi < |pairs| && pairs[pi].0 < |table| && pairs[pi].1 < |table|
    requires DiurnalTable(centres, counts)
    requires A != Ao && m != mo
    requires A.Length0 == Ao.Length0 == m.Length == mo.Length == |pairs|
    requires A.Length1 == 6 && Ao.Length1 == 6
    requires |ws| == pi
    requires forall p :: 0 <= p < pi ==> RowOk(table, pairs, centres, counts, t0, A, Ao, m, mo, ws[p], p)
    modifies A, Ao, m, mo
    ensures forall p :: 0 <= p <= pi ==>
      RowOk(table, pairs, centres, counts, t0, A, Ao, m, mo, (ws + [w])[p], p)
  {
    var k, l := pairs[pi].0, pairs[pi].1;
    w := Weight(centres, counts, t0, table[k].t);
    var row := Row(table[k].bragg, table[l].bragg);
    SetRow(A, pi, Scaled(w, row));
    SetRow(Ao, pi, row);
    m[pi] := w * Observation(table[k].dop, table[l].dop);
    mo[pi] := Observation(table[k].dop, table[l].dop);
    assert m[pi] == Scaled(w, [mo[pi]])[0];
    forall p | 0 <= p <= pi
      ensures RowOk(table, pairs, centres, counts, t0, A, Ao, m, mo, (ws + [w])[p], p)
    {
      if p < pi {
        assert old(RowOk(table, pairs, centres, counts, t0, A, Ao, m, mo, ws[p], p));
      }
    }
  }

  /** The loop over the recorded pairs: row pi of Ao holds the Bragg
      products of pair pi, mo[pi] its Doppler observation, ws[pi] its
      diurnal weight, and A and m are Ao and mo scaled row by row by that
      weight. */
  method BuildDesign(table: seq<Measurement>, pairs: seq<(nat, nat)>,
                     centres: seq<real>, counts: seq<int>, t0: real)
    returns (A: array2<real>, Ao: array2<real>, m: array<real>, mo: array<real>, ws: seq<real>)
    requires forall j :: 0 <= j < |pairs| ==> pairs[j].0 < |table| && pairs[j].1 < |table|
    requires DiurnalTable(centres, counts)
    ensures fresh(A) && fresh(Ao) && fresh(m) && fresh(mo)
    ensures A.Length0 == |pairs| && Ao.Length0 == |pairs| && m.Length == |pairs| && mo.Length == |pairs|
    ensures |ws| == |pairs|
    ensures forall pi :: 0 <= pi < |pairs| ==> RowOk(table, pairs, centres, counts, t0, A, Ao, m, mo, ws[pi], pi)
  {
    var n := |pairs|;
    A := new real[n, 6];
    Ao := new real[n, 6];
    m := new real[n];
    mo := new real[n];
    ws := [];
    for pi := 0 to n
      invariant |ws| == pi
      invariant forall p :: 0 <= p < pi ==> RowOk(table, pairs, centres, counts, t0, A, Ao, m, mo, ws[p], p)
    {
      var w := FillRow(table, pairs, centres, counts, t0, A, Ao, m, mo, ws, pi);
      ws := ws + [w];
    }
  }
}
