/**
 * Ordinary least-squares fit of a straight line `y = m*x + b` to a list of
 * points, with its coefficient of determination R² (the function
 * `regresionLineal` of the analysis pipeline).
 */
module Regresion {

  datatype Punto = Punto(x: real, y: real)

  /** Slope `m`, coefficient of determination `r2` and intercept `b`. */
  datatype Ajuste = Ajuste(m: real, r2: real, b: real)

  /** The value returned for a window whose x values are all equal. */
  const AjusteNulo := Ajuste(0.0, 0.0, 0.0)

  // ---------------------------------------------------------------------
  // The running sums, accumulated from the first point to the last.

  function SumX(p: seq<Punto>): real
  {
    if p == [] then 0.0 else SumX(p[..|p| - 1]) + p[|p| - 1].x
  }

  function SumY(p: seq<Punto>): real
  {
    if p == [] then 0.0 else SumY(p[..|p| - 1]) + p[|p| - 1].y
  }

  function SumXY(p: seq<Punto>): real
  {
    if p == [] then 0.0 else SumXY(p[..|p| - 1]) + p[|p| - 1].x * p[|p| - 1].y
  }

  function SumX2(p: seq<Punto>): real
  {
    if p == [] then 0.0 else SumX2(p[..|p| - 1]) + p[|p| - 1].x * p[|p| - 1].x
  }

  /** Σy², used only in proofs. */
  ghost function SumY2(p: seq<Punto>): real
  {
    if p == [] then 0.0 else SumY2(p[..|p| - 1]) + p[|p| - 1].y * p[|p| - 1].y
  }

  /** Residual sum of squares of the line `m*x + b`. */
  function SSRes(p: seq<Punto>, m: real, b: real): real
  {
    if p == [] then 0.0
    else
      var e := p[|p| - 1].y - (m * p[|p| - 1].x + b);
      SSRes(p[..|p| - 1], m, b) + e * e
  }

  /** Total sum of squares of the y values about `media`. */
  function SSTot(p: seq<Punto>, media: real): real
  {
    if p == [] then 0.0
    else
      var e := p[|p| - 1].y - media;
      SSTot(p[..|p| - 1], media) + e * e
  }

  /** Sum of squared deviations of the x values from `c`, used only in proofs. */
  ghost function SSX(p: seq<Punto>, c: real): real
  {
    if p == [] then 0.0
    else
      var e := p[|p| - 1].x - c;
      SSX(p[..|p| - 1], c) + e * e
  }

  /** `n·Σx² − (Σx)²`, the denominator of the slope. */
  function Denominador(p: seq<Punto>): real
  {
    DenominadorDe(|p| as real, SumX(p), SumX2(p))
  }

  /** The slope's denominator from the count and the sums of x and x². */
  function DenominadorDe(n: real, sumX: real, sumX2: real): real
  {
    n * sumX2 - sumX * sumX
  }

  /** The least-squares slope from the sums. */
  function PendienteDe(n: real, sumX: real, sumY: real, sumXY: real, den: real): real
    requires den != 0.0
  {
    (n * sumXY - sumX * sumY) / den
  }

  /** The intercept that puts the line through the mean point. */
  function InterceptoDe(n: real, sumX: real, sumY: real, m: real): real
    requires n != 0.0
  {
    (sumY - m * sumX) / n
  }

  /** `1 − SS_res / SS_tot`, or 0 when the y values do not vary. */
  function R2De(ssRes: real, ssTot: real): real
  {
    if ssTot == 0.0 then 0.0 else 1.0 - ssRes / ssTot
  }

  /** Every point has the same x. */
  ghost predicate MismaX(p: seq<Punto>)
  {
    forall i, j :: 0 <= i < |p| && 0 <= j < |p| ==> p[i].x == p[j].x
  }

  // ---------------------------------------------------------------------
  // The fit

  /**
   * The least-squares fit of `p`: slope `(n·Σxy − Σx·Σy) / den`, intercept
   * `(Σy − m·Σx) / n` and `R² = 1 − SS_res / SS_tot` about the mean of y.
   * Its properties are stated in `PuntoMedio` and `R2Acotado`.
   */
  function MinimosCuadrados(p: seq<Punto>): Ajuste
  {
    var n := |p| as real;
    var den := Denominador(p);
    if den == 0.0 then AjusteNulo
    else
      var m := PendienteDe(n, SumX(p), SumY(p), SumXY(p), den);
      var b := InterceptoDe(n, SumX(p), SumY(p), m);
      Ajuste(m, R2De(SSRes(p, m, b), SSTot(p, SumY(p) / n)), b)
  }

  /** The accumulation loop of `regresionLineal`: the four running sums in one pass. */
  method Sumas(puntos: seq<Punto>) returns (sumX: real, sumY: real, sumXY: real, sumX2: real)
    ensures sumX == SumX(puntos) && sumY == SumY(puntos)
    ensures sumXY == SumXY(puntos) && sumX2 == SumX2(puntos)
  {
    sumX, sumY, sumXY, sumX2 := 0.0, 0.0, 0.0, 0.0;
    for i := 0 to |puntos|
      invariant sumX == SumX(puntos[..i]) && sumY == SumY(puntos[..i])
      invariant sumXY == SumXY(puntos[..i]) && sumX2 == SumX2(puntos[..i])
    {
      var p := puntos[i];
      assert puntos[..i + 1][..i] == puntos[..i];
      sumX := sumX + p.x;
      sumY := sumY + p.y;
      sumXY := sumXY + p.x * p.y;
      sumX2 := sumX2 + p.x * p.x;
    }
    assert puntos[..|puntos|] == puntos;
  }

  /** `regresionLineal`: the sums, the zero-denominator guard, then the fit. */
  method RegresionLineal(puntos: seq<Punto>) returns (a: Ajuste)
    ensures a == MinimosCuadrados(puntos)
  {
    var n := |puntos| as real;
    var sumX, sumY, sumXY, sumX2 := Sumas(puntos);
    var denominador := DenominadorDe(n, sumX, sumX2);
    if denominador == 0.0 {
      return AjusteNulo;
    }
    var m := PendienteDe(n, sumX, sumY, sumXY, denominador);
    var mediaY := sumY / n;
    var b := InterceptoDe(n, sumX, sumY, m);
    var ssRes := SSRes(puntos, m, b);
    var ssTot := SSTot(puntos, mediaY);
    a := Ajuste(m, R2De(ssRes, ssTot), b);
  }

  // ---------------------------------------------------------------------
  // Properties of the fit

  /**
   * Otherwise the fitted line passes through the mean point: `m·Σx + n·b = Σy`,
   * and the slope solves the normal equation `m·den = n·Σxy − Σx·Σy`.
   */
  lemma PuntoMedio(p: seq<Punto>)
    requires Denominador(p) != 0.0
    ensures |p| > 0
    ensures MinimosCuadrados(p).m * Denominador(p) == (|p| as real) * SumXY(p) - SumX(p) * SumY(p)
    ensures MinimosCuadrados(p).m * SumX(p) + (|p| as real) * MinimosCuadrados(p).b == SumY(p)
  {
    var n := |p| as real;
    assert p != [];
    var a := MinimosCuadrados(p);
    Cociente(n * SumXY(p) - SumX(p) * SumY(p), Denominador(p));
    Cociente(SumY(p) - a.m * SumX(p), n);
  }

  /**
   * A zero denominator gives the all-zero fit; otherwise R² is 0 when the
   * y values do not vary. In every case R² lies in [0, 1].
   */
  lemma R2Acotado(p: seq<Punto>)
    ensures Denominador(p) == 0.0 ==> MinimosCuadrados(p) == AjusteNulo
    ensures Denominador(p) != 0.0 && SSTot(p, SumY(p) / (|p| as real)) == 0.0 ==> MinimosCuadrados(p).r2 == 0.0
    ensures 0.0 <= MinimosCuadrados(p).r2 <= 1.0
  {
    var den := Denominador(p);
    if den != 0.0 {
      var n := |p| as real;
      PuntoMedio(p);
      var a := MinimosCuadrados(p);
      ResiduoAcotado(p, a.m, a.b);
      SSResNoNegativo(p, a.m, a.b);
      var t := SSTot(p, SumY(p) / n);
      if t != 0.0 {
        Fraccion(SSRes(p, a.m, a.b), t);
      }
    }
  }

  /** Every point lies on the line `y = m0·x + b0`. */
  ghost predicate EnRecta(p: seq<Punto>, m0: real, b0: real)
  {
    forall i :: 0 <= i < |p| ==> p[i].y == m0 * p[i].x + b0
  }

  /**
   * Points on an exact line give that line back: the fitted slope and
   * intercept are the line's.
   */
  lemma RectaExacta(p: seq<Punto>, m0: real, b0: real)
    requires Denominador(p) != 0.0 && EnRecta(p, m0, b0)
    ensures MinimosCuadrados(p).m == m0 && MinimosCuadrados(p).b == b0
  {
    var a := MinimosCuadrados(p);
    PuntoMedio(p);
    SumasRecta(p, m0, b0);
    AlgebraRecta(|p| as real, SumX(p), SumY(p), SumX2(p), SumXY(p), m0, b0, Denominador(p), a.m, a.b);
  }

  /** The algebraic core of `RectaExacta`, on the sums alone. */
  lemma AlgebraRecta(n: real, sx: real, sy: real, sxx: real, sxy: real,
                     m0: real, b0: real, d: real, m: real, b: real)
    requires n > 0.0 && d != 0.0 && d == DenominadorDe(n, sx, sxx)
    requires sy == Lin(sx, n, m0, b0) && sxy == Lin(sxx, sx, m0, b0)
    requires m * d == n * sxy - sx * sy
    requires m * sx + n * b == sy
    ensures m == m0 && b == b0
  {
    assert n * sxy == m0 * (n * sxx) + n * sx * b0;
    assert sx * sy == m0 * (sx * sx) + n * sx * b0;
    assert m * d == m0 * d;
    Cancelar(m, m0, d);
    assert b * n == b0 * n;
    Cancelar(b, b0, n);
  }

  /** The line itself leaves no residual on points that lie on it. */
  lemma {:induction false} SinResiduo(p: seq<Punto>, m0: real, b0: real)
    requires EnRecta(p, m0, b0)
    ensures SSRes(p, m0, b0) == 0.0
  {
    if p != [] {
      var q := p[..|p| - 1];
      assert EnRecta(q, m0, b0) by {
        forall i | 0 <= i < |q| ensures q[i].y == m0 * q[i].x + b0 { assert q[i] == p[i]; }
      }
      SinResiduo(q, m0, b0);
      assert p[|p| - 1].y - (m0 * p[|p| - 1].x + b0) == 0.0;
    }
  }

  /** Points on an exact line whose y values vary are fitted with R² = 1. */
  lemma RectaR2(p: seq<Punto>, m0: real, b0: real)
    requires Denominador(p) != 0.0 && EnRecta(p, m0, b0)
    requires SSTot(p, SumY(p) / (|p| as real)) != 0.0
    ensures MinimosCuadrados(p).r2 == 1.0
  {
    RectaExacta(p, m0, b0);
    SinResiduo(p, m0, b0);
  }

  /** `m0·s + n·b0`: a sum of line values from the sum of abscissae. */
  ghost function Lin(s: real, n: real, m0: real, b0: real): real
  {
    m0 * s + n * b0
  }

  /** One point on the line keeps Σy and Σxy linear in Σx and Σx². */
  lemma PasoRecta(sx: real, sy: real, sxx: real, sxy: real, n: real, x: real, y: real, m0: real, b0: real,
                   sx': real, sy': real, sxx': real, sxy': real, n': real)
    requires y == Lin(x, 1.0, m0, b0)
    requires sy == Lin(sx, n, m0, b0) && sxy == Lin(sxx, sx, m0, b0)
    requires sx' == sx + x && sy' == sy + y && sxx' == sxx + x * x && sxy' == sxy + x * y && n' == n + 1.0
    ensures sy' == Lin(sx', n', m0, b0)
    ensures sxy' == Lin(sxx', sx', m0, b0)
  {
    assert x * y == m0 * (x * x) + x * b0;
  }

  /** On an exact line, Σy = m0·Σx + n·b0 and Σxy = m0·Σx² + Σx·b0. */
  lemma {:induction false} SumasRecta(p: seq<Punto>, m0: real, b0: real)
    requires EnRecta(p, m0, b0)
    ensures SumY(p) == Lin(SumX(p), |p| as real, m0, b0)
    ensures SumXY(p) == Lin(SumX2(p), SumX(p), m0, b0)
  {
    if p != [] {
      var q := p[..|p| - 1];
      assert EnRecta(q, m0, b0) by {
        forall i | 0 <= i < |q| ensures q[i].y == m0 * q[i].x + b0 { assert q[i] == p[i]; }
      }
      SumasRecta(q, m0, b0);
      assert p[|p| - 1].y == Lin(p[|p| - 1].x, 1.0, m0, b0);
      UltimoRecta(p, m0, b0);
    }
  }

  /** The last point's step of `SumasRecta`. */
  lemma UltimoRecta(p: seq<Punto>, m0: real, b0: real)
    requires p != [] && p[|p| - 1].y == Lin(p[|p| - 1].x, 1.0, m0, b0)
    requires SumY(p[..|p| - 1]) == Lin(SumX(p[..|p| - 1]), (|p| - 1) as real, m0, b0)
    requires SumXY(p[..|p| - 1]) == Lin(SumX2(p[..|p| - 1]), SumX(p[..|p| - 1]), m0, b0)
    ensures SumY(p) == Lin(SumX(p), |p| as real, m0, b0)
    ensures SumXY(p) == Lin(SumX2(p), SumX(p), m0, b0)
  {
    var q := p[..|p| - 1];
    UltimasSumas(p);
    PasoRecta(SumX(q), SumY(q), SumX2(q), SumXY(q), |q| as real, p[|p| - 1].x, p[|p| - 1].y, m0, b0,
              SumX(p), SumY(p), SumX2(p), SumXY(p), |p| as real);
  }

  /** The last point's contribution to each running sum. */
  lemma UltimasSumas(p: seq<Punto>)
    requires p != []
    ensures var q, x, y := p[..|p| - 1], p[|p| - 1].x, p[|p| - 1].y;
      SumX(p) == SumX(q) + x && SumY(p) == SumY(q) + y
      && SumX2(p) == SumX2(q) + x * x && SumXY(p) == SumXY(q) + x * y
  {
  }

  /** Cancelling a non-zero factor. */
  lemma Cancelar(a: real, b: real, d: real)
    requires d != 0.0 && a * d == b * d
    ensures a == b
  {
    assert (a - b) * d == 0.0;
  }

  // ---------------------------------------------------------------------
  // Algebra of the sums

  /** Multiplying back a quotient. */
  lemma Cociente(a: real, n: real)
    requires n != 0.0
    ensures n * (a / n) == a
  {
  }

  /** The sign rule for a product of non-negative factors. */
  lemma ProductoNoNegativo(x: real, y: real)
    requires x >= 0.0 && y >= 0.0
    ensures x * y >= 0.0
  {
  }

  /** The sign rule for a product of positive factors. */
  lemma ProductoPositivo(x: real, y: real)
    requires x > 0.0 && y > 0.0
    ensures x * y > 0.0
  {
  }

  /** A square is never negative. */
  lemma Cuadrado(e: real)
    ensures e * e >= 0.0
  {
    if e > 0.0 {
      ProductoPositivo(e, e);
    } else if e < 0.0 {
      ProductoPositivo(-e, -e);
      Opuesto(e);
    }
  }

  lemma Opuesto(e: real)
    ensures (-e) * (-e) == e * e
  {
  }

  /** Adding a square keeps a running total non-negative. */
  lemma SumarCuadrado(acc: real, e: real, acc': real)
    requires acc >= 0.0 && acc' == acc + e * e
    ensures acc' >= 0.0
  {
    Cuadrado(e);
  }

  /** The residual sum of squares is never negative. */
  lemma {:induction false} SSResNoNegativo(p: seq<Punto>, m: real, b: real)
    ensures SSRes(p, m, b) >= 0.0
  {
    if p != [] {
      var q := p[..|p| - 1];
      SSResNoNegativo(q, m, b);
      var e := p[|p| - 1].y - (m * p[|p| - 1].x + b);
      SumarCuadrado(SSRes(q, m, b), e, SSRes(p, m, b));
    }
  }

  /** The spread of the x values about `c` is never negative. */
  lemma {:induction false} SSXNoNegativo(p: seq<Punto>, c: real)
    ensures SSX(p, c) >= 0.0
  {
    if p != [] {
      var q := p[..|p| - 1];
      SSXNoNegativo(q, c);
      var e := p[|p| - 1].x - c;
      SumarCuadrado(SSX(q, c), e, SSX(p, c));
    }
  }

  /** `1 − r/t` lies in [0, 1] when `0 ≤ r ≤ t`. */
  lemma Fraccion(r: real, t: real)
    requires 0.0 <= r <= t && t != 0.0
    ensures 0.0 <= 1.0 - r / t <= 1.0
  {
    assert r / t <= 1.0;
  }

  /** Dividing by a positive `n` keeps the sign: `n·t = v ≥ 0` gives `t ≥ 0`. */
  lemma SignoCociente(n: real, t: real, v: real)
    requires n > 0.0 && n * t == v && v >= 0.0
    ensures t >= 0.0
  {
    if t < 0.0 {
      ProductoPositivo(n, -t);
    }
  }

  /** `n·t = a·(a·d)` with `n > 0` and `d ≥ 0` makes `t` non-negative. */
  lemma Signo(n: real, t: real, a: real, d: real)
    requires n > 0.0 && d >= 0.0 && n * t == a * (a * d)
    ensures t >= 0.0
  {
    if a >= 0.0 {
      ProductoNoNegativo(a, d);
      ProductoNoNegativo(a, a * d);
    } else {
      ProductoNoNegativo(-a, d);
      ProductoNoNegativo(-a, (-a) * d);
      assert (-a) * ((-a) * d) == a * (a * d);
    }
    SignoCociente(n, t, a * (a * d));
  }

  /** `Σv² − 2c·Σv + n·c²`, the expansion of `Σ(v − c)²`. */
  ghost function Cuadratica(s2: real, s: real, n: real, c: real): real
  {
    s2 - 2.0 * c * s + n * c * c
  }

  /** The expansion of `Σ(y − (m·x + b))²` into the raw sums. */
  ghost function Residual(syy: real, sxy: real, sy: real, sxx: real, sx: real, n: real, m: real, b: real): real
  {
    syy - 2.0 * m * sxy - 2.0 * b * sy + m * m * sxx + 2.0 * m * b * sx + n * b * b
  }

  /** One step of `ExpandirSSTot` and `ExpandirSSX`. */
  lemma PasoCuadratica(s2: real, s: real, n: real, v: real, c: real, s2': real, s': real, n': real)
    requires s2' == s2 + v * v && s' == s + v && n' == n + 1.0
    ensures Cuadratica(s2', s', n', c) == Cuadratica(s2, s, n, c) + (v - c) * (v - c)
  {
  }

  /** One step of `ExpandirSSRes`. */
  lemma PasoResidual(syy: real, sxy: real, sy: real, sxx: real, sx: real, n: real,
                     x: real, y: real, m: real, b: real,
                     syy': real, sxy': real, sy': real, sxx': real, sx': real, n': real)
    requires syy' == syy + y * y && sxy' == sxy + x * y && sy' == sy + y
    requires sxx' == sxx + x * x && sx' == sx + x && n' == n + 1.0
    ensures Residual(syy', sxy', sy', sxx', sx', n', m, b)
         == Residual(syy, sxy, sy, sxx, sx, n, m, b) + (y - (m * x + b)) * (y - (m * x + b))
  {
  }

  /** The last point's contribution to the expansion of `SSRes`. */
  lemma UltimoResidual(p: seq<Punto>, m: real, b: real)
    requires p != []
    ensures var q, x, y := p[..|p| - 1], p[|p| - 1].x, p[|p| - 1].y;
      Residual(SumY2(p), SumXY(p), SumY(p), SumX2(p), SumX(p), |p| as real, m, b)
      == Residual(SumY2(q), SumXY(q), SumY(q), SumX2(q), SumX(q), |q| as real, m, b)
         + (y - (m * x + b)) * (y - (m * x + b))
  {
    var q := p[..|p| - 1];
    PasoResidual(SumY2(q), SumXY(q), SumY(q), SumX2(q), SumX(q), |q| as real,
                 p[|p| - 1].x, p[|p| - 1].y, m, b,
                 SumY2(p), SumXY(p), SumY(p), SumX2(p), SumX(p), |p| as real);
  }

  /** Σ(y − (m·x + b))² expanded into the raw sums. */
  lemma {:induction false} ExpandirSSRes(p: seq<Punto>, m: real, b: real)
    ensures SSRes(p, m, b) == Residual(SumY2(p), SumXY(p), SumY(p), SumX2(p), SumX(p), |p| as real, m, b)
  {
    if p != [] {
      ExpandirSSRes(p[..|p| - 1], m, b);
      UltimoResidual(p, m, b);
    }
  }

  /** The last point's contribution to the expansion of `SSTot`. */
  lemma UltimoSSTot(p: seq<Punto>, c: real)
    requires p != []
    ensures var q, y := p[..|p| - 1], p[|p| - 1].y;
      Cuadratica(SumY2(p), SumY(p), |p| as real, c)
      == Cuadratica(SumY2(q), SumY(q), |q| as real, c) + (y - c) * (y - c)
  {
    var q := p[..|p| - 1];
    PasoCuadratica(SumY2(q), SumY(q), |q| as real, p[|p| - 1].y, c, SumY2(p), SumY(p), |p| as real);
  }

  /** The last point's contribution to the expansion of `SSX`. */
  lemma UltimoSSX(p: seq<Punto>, c: real)
    requires p != []
    ensures var q, x := p[..|p| - 1], p[|p| - 1].x;
      Cuadratica(SumX2(p), SumX(p), |p| as real, c)
      == Cuadratica(SumX2(q), SumX(q), |q| as real, c) + (x - c) * (x - c)
  {
    var q := p[..|p| - 1];
    PasoCuadratica(SumX2(q), SumX(q), |q| as real, p[|p| - 1].x, c, SumX2(p), SumX(p), |p| as real);
  }

  /** Σ(y − c)² expanded into the raw sums. */
  lemma {:induction false} ExpandirSSTot(p: seq<Punto>, c: real)
    ensures SSTot(p, c) == Cuadratica(SumY2(p), SumY(p), |p| as real, c)
  {
    if p != [] {
      ExpandirSSTot(p[..|p| - 1], c);
      UltimoSSTot(p, c);
    }
  }

  /** Σ(x − c)² expanded into the raw sums. */
  lemma {:induction false} ExpandirSSX(p: seq<Punto>, c: real)
    ensures SSX(p, c) == Cuadratica(SumX2(p), SumX(p), |p| as real, c)
  {
    if p != [] {
      ExpandirSSX(p[..|p| - 1], c);
      UltimoSSX(p, c);
    }
  }

  /** The deviations from `c` vanish when every x equals `c`. */
  lemma {:induction false} SSXCero(p: seq<Punto>, c: real)
    requires forall i :: 0 <= i < |p| ==> p[i].x == c
    ensures SSX(p, c) == 0.0
  {
    if p != [] {
      var q := p[..|p| - 1];
      forall i | 0 <= i < |q| ensures q[i].x == c { assert q[i] == p[i]; }
      SSXCero(q, c);
      assert p[|p| - 1].x - c == 0.0;
    }
  }

  /** One step of `UltimoDenominador`, on the sums alone. */
  lemma PasoDenominador(n: real, s: real, s2: real, x: real, n': real, s': real, s2': real)
    requires n' == n + 1.0 && s' == s + x && s2' == s2 + x * x
    ensures DenominadorDe(n', s', s2') == DenominadorDe(n, s, s2) + Cuadratica(s2, s, n, x)
  {
  }

  /**
   * Adding a point with abscissa `x` raises the denominator by the spread of
   * the earlier x values about `x`.
   */
  lemma UltimoDenominador(p: seq<Punto>)
    requires p != []
    ensures Denominador(p) == Denominador(p[..|p| - 1]) + SSX(p[..|p| - 1], p[|p| - 1].x)
  {
    var q, x := p[..|p| - 1], p[|p| - 1].x;
    ExpandirSSX(q, x);
    PasoDenominador(|q| as real, SumX(q), SumX2(q), x, |p| as real, SumX(p), SumX2(p));
  }

  /**
   * The denominator is never negative, and it is zero when every x value is
   * the same (the degenerate window the fit refuses).
   */
  lemma {:induction false} DenominadorCero(p: seq<Punto>)
    ensures Denominador(p) >= 0.0
    ensures MismaX(p) ==> Denominador(p) == 0.0
  {
    if p != [] {
      var q, x := p[..|p| - 1], p[|p| - 1].x;
      DenominadorCero(q);
      UltimoDenominador(p);
      SSXNoNegativo(q, x);
      if MismaX(p) {
        forall i, j | 0 <= i < |q| && 0 <= j < |q| ensures q[i].x == q[j].x {
          assert q[i] == p[i] && q[j] == p[j];
        }
        forall i | 0 <= i < |q| ensures q[i].x == x { assert q[i] == p[i]; }
        SSXCero(q, x);
      }
    }
  }

  /** The algebraic core of `ResiduoAcotado`, on the sums alone. */
  lemma AlgebraResiduo(n: real, sx: real, sy: real, sxx: real, sxy: real, syy: real,
                       m: real, b: real, c: real, d: real, t: real, r: real)
    requires n > 0.0 && d == DenominadorDe(n, sx, sxx)
    requires m * d == n * sxy - sx * sy
    requires n * b == sy - m * sx
    requires n * c == sy
    requires t == Cuadratica(syy, sy, n, c)
    requires r == Residual(syy, sxy, sy, sxx, sx, n, m, b)
    ensures n * (t - r) == m * (m * d)
    ensures d >= 0.0 ==> r <= t
  {
    assert n * (2.0 * c * sy) == 2.0 * sy * sy by { assert n * c == sy; }
    assert n * (n * c * c) == sy * sy by { assert (n * c) * (n * c) == sy * sy; }
    assert n * (2.0 * b * sy) == 2.0 * sy * sy - 2.0 * m * sx * sy by {
      assert (n * b) * sy == (sy - m * sx) * sy;
    }
    assert n * (2.0 * m * b * sx) == 2.0 * m * sx * sy - 2.0 * m * m * sx * sx by {
      assert (n * b) * (m * sx) == (sy - m * sx) * (m * sx);
    }
    assert n * (n * b * b) == sy * sy - 2.0 * m * sx * sy + m * m * sx * sx by {
      assert (n * b) * (n * b) == (sy - m * sx) * (sy - m * sx);
    }
    assert n * (2.0 * m * sxy) == 2.0 * m * (m * d) + 2.0 * m * sx * sy by {
      assert n * sxy == m * d + sx * sy;
    }
    assert n * (m * m * sxx) == m * m * d + m * m * sx * sx by {
      assert n * sxx == d + sx * sx;
    }
    if d >= 0.0 {
      Signo(n, t - r, m, d);
    }
  }

  /**
   * For the least-squares slope and intercept, the residual sum of squares
   * is at most the total sum of squares (their difference is `m²·den / n`).
   */
  lemma ResiduoAcotado(p: seq<Punto>, m: real, b: real)
    requires Denominador(p) != 0.0
    requires m * Denominador(p) == (|p| as real) * SumXY(p) - SumX(p) * SumY(p)
    requires (|p| as real) * b == SumY(p) - m * SumX(p)
    ensures p != []
    ensures SSRes(p, m, b) <= SSTot(p, SumY(p) / (|p| as real))
  {
    assert p != [];
    var n := |p| as real;
    var c := SumY(p) / n;
    var t := SSTot(p, c);
    var r := SSRes(p, m, b);
    Cociente(SumY(p), n);
    ExpandirSSRes(p, m, b);
    ExpandirSSTot(p, c);
    DenominadorCero(p);
    AlgebraResiduo(n, SumX(p), SumY(p), SumX2(p), SumXY(p), SumY2(p), m, b, c, Denominador(p), t, r);
  }
}
