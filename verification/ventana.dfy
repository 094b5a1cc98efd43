/**
 * The sliding-window search for Young's modulus: the steepest six-point
 * window whose least-squares fit is straight enough, first over the
 * 10–60 % band of peak stress and, when that finds nothing, a relaxed pass
 * over every other start below 90 % of peak stress.
 */
module Ventana {
  import opened Regresion
  import opened Traccion

  /** Points per window. */
  const TamanoVentana: nat := 6

  /** The best-so-far variables `max_pendiente`, `mejor_r2` and `mejor_b`. */
  datatype Busqueda = Busqueda(pendiente: real, r2: real, b: real)

  /** Their initial values. */
  const SinVentana := Busqueda(0.0, 0.0, 0.0)

  /** The two passes over the windows. */
  datatype Pasada = Primaria | Relajada

  /** Distance between consecutive window starts. */
  function Paso(p: Pasada): nat
  {
    if p.Primaria? then 1 else 2
  }

  /** R² a window must exceed to be accepted. */
  function UmbralR2(p: Pasada): real
  {
    if p.Primaria? then 0.96 else 0.90
  }

  /** The start is skipped (`continue`): below 10 % of peak stress, primary pass only. */
  predicate Salta(p: Pasada, t: real, tmax: real)
  {
    p.Primaria? && t < tmax * 0.10
  }

  /**
   * The pass stops (`break`) at this start: above 60 % of peak stress in the
   * primary pass (tested after the skip), at or above 90 % in the relaxed one.
   */
  predicate Corta(p: Pasada, t: real, tmax: real)
  {
    if p.Primaria? then !(t < tmax * 0.10) && t > tmax * 0.60 else t >= tmax * 0.9
  }

  /** Starts must lie below `|aj| − 6`. */
  function Limite(aj: seq<Ajustada>): int
  {
    |aj| - TamanoVentana
  }

  /** A start the pass's step lands on. */
  predicate Visita(p: Pasada, i: nat)
  {
    i % Paso(p) == 0
  }

  /** The window starting at `i` as (strain, stress) points; like `slice`, it stops at the end. */
  function Puntos(aj: seq<Ajustada>, i: nat): (ps: seq<Punto>)
    requires i <= |aj|
    ensures |ps| == if i + TamanoVentana <= |aj| then TamanoVentana else |aj| - i
    ensures forall k :: 0 <= k < |ps| ==> ps[k] == Punto(aj[i + k].deformacion, aj[i + k].tension)
  {
    var fin := if i + TamanoVentana <= |aj| then i + TamanoVentana else |aj|;
    seq(fin - i, k requires 0 <= k < fin - i => Punto(aj[i + k].deformacion, aj[i + k].tension))
  }

  /** The fit of the window starting at `i`. */
  function AjusteEn(aj: seq<Ajustada>, i: nat): Ajuste
    requires i <= |aj|
  {
    MinimosCuadrados(Puntos(aj, i))
  }

  /** The new best-so-far when a window is accepted: the relaxed pass does not touch `mejor_r2`. */
  function Elegida(p: Pasada, e: Busqueda, f: Ajuste): Busqueda
  {
    if p.Primaria? then Busqueda(f.m, f.r2, f.b) else Busqueda(f.m, e.r2, f.b)
  }

  /** A window replaces the best so far when its R² passes and its slope is strictly larger. */
  function Actualizar(p: Pasada, e: Busqueda, f: Ajuste): (r: Busqueda)
    ensures r.pendiente >= e.pendiente
    ensures r != e ==> f.r2 > UmbralR2(p) && f.m > e.pendiente
    ensures f.r2 > UmbralR2(p) && f.m > e.pendiente ==>
      r.pendiente == f.m && r.b == f.b && r.r2 == (if p.Primaria? then f.r2 else e.r2)
    ensures p.Relajada? ==> r.r2 == e.r2
  {
    if f.r2 > UmbralR2(p) && f.m > e.pendiente then Elegida(p, e, f) else e
  }

  /** A start that is visited, not skipped, and whose window passes the R² test. */
  predicate Candidata(p: Pasada, aj: seq<Ajustada>, tmax: real, i: nat)
    requires i < |aj|
  {
    Visita(p, i) && !Salta(p, aj[i].tension, tmax) && AjusteEn(aj, i).r2 > UmbralR2(p)
  }

  /** The best-so-far after offering the starts `0..k-1` to the pass, from `e0`. */
  function Escaneo(p: Pasada, aj: seq<Ajustada>, tmax: real, e0: Busqueda, k: nat): Busqueda
    requires k <= |aj|
  {
    if k == 0 then e0
    else
      var e := Escaneo(p, aj, tmax, e0, k - 1);
      var i := k - 1;
      if Visita(p, i) && !Salta(p, aj[i].tension, tmax) then Actualizar(p, e, AjusteEn(aj, i)) else e
  }

  /**
   * Where a pass that reached start `i` stops: the first visited start at or
   * after `i` that is not below the limit or that breaks the loop.
   */
  function FinDesde(p: Pasada, aj: seq<Ajustada>, tmax: real, i: nat): (r: nat)
    requires i <= |aj| && Visita(p, i)
    ensures i <= r <= |aj| && Visita(p, r)
    ensures r < Limite(aj) ==> Corta(p, aj[r].tension, tmax)
    ensures forall j :: i <= j < r && Visita(p, j) ==> j < Limite(aj) && !Corta(p, aj[j].tension, tmax)
    decreases |aj| - i
  {
    if i >= Limite(aj) || Corta(p, aj[i].tension, tmax) then i
    else
      var r := FinDesde(p, aj, tmax, i + Paso(p));
      assert forall j :: i < j < i + Paso(p) ==> !Visita(p, j);
      r
  }

  /** Where the pass stops. */
  function Fin(p: Pasada, aj: seq<Ajustada>, tmax: real): (r: nat)
    ensures r <= |aj| && Visita(p, r)
    ensures r < Limite(aj) ==> Corta(p, aj[r].tension, tmax)
    ensures forall j :: 0 <= j < r && Visita(p, j) ==> j < Limite(aj) && !Corta(p, aj[j].tension, tmax)
  {
    FinDesde(p, aj, tmax, 0)
  }

  /** What a pass starting from `e0` leaves in the best-so-far variables. */
  function ResultadoPasada(p: Pasada, aj: seq<Ajustada>, tmax: real, e0: Busqueda): Busqueda
  {
    Escaneo(p, aj, tmax, e0, Fin(p, aj, tmax))
  }

  /** The window points of `procesarArchivoEnsayo`: the slice's (strain, stress) pairs. */
  method PuntosVentana(aj: seq<Ajustada>, i: nat) returns (puntos: seq<Punto>)
    requires i + TamanoVentana <= |aj|
    ensures puntos == Puntos(aj, i)
  {
    var ventana := aj[i..i + TamanoVentana];
    puntos := seq(|ventana|, k requires 0 <= k < |ventana| => Punto(ventana[k].deformacion, ventana[k].tension));
  }

  /**
   * The primary loop: starts `0, 1, 2, …` below `|aj| − 6`, skipping those
   * under 10 % of peak stress and stopping at the first above 60 %.
   */
  method BusquedaPrimaria(aj: seq<Ajustada>, tmax: real) returns (e: Busqueda)
    ensures e == ResultadoPasada(Primaria, aj, tmax, SinVentana)
  {
    var limiteInferior := tmax * 0.10;
    var limiteSuperior := tmax * 0.60;
    var maxPendiente, mejorR2, mejorB := 0.0, 0.0, 0.0;
    var i := 0;
    while i < |aj| - TamanoVentana
      invariant 0 <= i <= |aj|
      invariant FinDesde(Primaria, aj, tmax, i) == Fin(Primaria, aj, tmax)
      invariant Busqueda(maxPendiente, mejorR2, mejorB) == Escaneo(Primaria, aj, tmax, SinVentana, i)
    {
      var punto := aj[i];
      if punto.tension < limiteInferior {
        i := i + 1;
        continue;
      }
      if punto.tension > limiteSuperior {
        break;
      }
      var puntos := PuntosVentana(aj, i);
      var ajuste := RegresionLineal(puntos);
      if ajuste.r2 > 0.96 && ajuste.m > maxPendiente {
        maxPendiente := ajuste.m;
        mejorR2 := ajuste.r2;
        mejorB := ajuste.b;
      }
      i := i + 1;
    }
    e := Busqueda(maxPendiente, mejorR2, mejorB);
  }

  /**
   * The relaxed loop: even starts below `|aj| − 6`, stopping at the first at
   * or above 90 % of peak stress; `mejor_r2` is left as it was.
   */
  method BusquedaRelajada(aj: seq<Ajustada>, tmax: real, inicial: Busqueda) returns (e: Busqueda)
    ensures e == ResultadoPasada(Relajada, aj, tmax, inicial)
  {
    var maxPendiente, mejorR2, mejorB := inicial.pendiente, inicial.r2, inicial.b;
    var i := 0;
    while i < |aj| - TamanoVentana
      invariant 0 <= i <= |aj| && Visita(Relajada, i)
      invariant FinDesde(Relajada, aj, tmax, i) == Fin(Relajada, aj, tmax)
      invariant Busqueda(maxPendiente, mejorR2, mejorB) == Escaneo(Relajada, aj, tmax, inicial, i)
    {
      if aj[i].tension >= tmax * 0.9 {
        break;
      }
      var puntos := PuntosVentana(aj, i);
      var ajuste := RegresionLineal(puntos);
      if ajuste.r2 > 0.90 && ajuste.m > maxPendiente {
        maxPendiente := ajuste.m;
        mejorB := ajuste.b;
      }
      PasoRelajado(aj, tmax, inicial, i);
      i := i + 2;
    }
    e := Busqueda(maxPendiente, mejorR2, mejorB);
  }

  /** One step of the relaxed loop: the odd start after `i` is not visited. */
  lemma PasoRelajado(aj: seq<Ajustada>, tmax: real, e0: Busqueda, i: nat)
    requires i + 2 <= |aj| && Visita(Relajada, i)
    ensures Visita(Relajada, i + 2)
    ensures Escaneo(Relajada, aj, tmax, e0, i + 2) ==
      Actualizar(Relajada, Escaneo(Relajada, aj, tmax, e0, i), AjusteEn(aj, i))
  {
    assert !Visita(Relajada, i + 1);
  }

  // ---------------------------------------------------------------------
  // What the passes select

  /**
   * The best-so-far `e` is the window at `i` chosen over the start `e0`: a
   * candidate steeper than `e0` and strictly steeper than every earlier
   * candidate.
   */
  predicate EligeEn(p: Pasada, aj: seq<Ajustada>, tmax: real, e0: Busqueda, e: Busqueda, i: nat)
  {
    i < |aj| && Candidata(p, aj, tmax, i)
    && AjusteEn(aj, i).m > e0.pendiente && e == Elegida(p, e0, AjusteEn(aj, i))
    && forall j :: 0 <= j < i && Candidata(p, aj, tmax, j) ==> AjusteEn(aj, j).m < AjusteEn(aj, i).m
  }

  /**
   * The bounds a pass keeps: the best slope never drops below its start and
   * bounds every candidate's slope; the relaxed pass never changes `r2`.
   */
  lemma {:induction false} EscaneoCota(p: Pasada, aj: seq<Ajustada>, tmax: real, e0: Busqueda, k: nat)
    requires k <= |aj|
    ensures var e := Escaneo(p, aj, tmax, e0, k);
      e.pendiente >= e0.pendiente
      && (p.Relajada? ==> e.r2 == e0.r2)
      && (forall i :: 0 <= i < k && Candidata(p, aj, tmax, i) ==> AjusteEn(aj, i).m <= e.pendiente)
  {
    if k > 0 {
      EscaneoCota(p, aj, tmax, e0, k - 1);
    }
  }

  /** A window accepted at the last start `k − 1` is the one chosen there. */
  lemma EligeUltima(p: Pasada, aj: seq<Ajustada>, tmax: real, e0: Busqueda, k: nat)
    requires 0 < k <= |aj|
    requires Candidata(p, aj, tmax, k - 1)
    requires AjusteEn(aj, k - 1).m > Escaneo(p, aj, tmax, e0, k - 1).pendiente
    ensures EligeEn(p, aj, tmax, e0, Escaneo(p, aj, tmax, e0, k), k - 1)
  {
    EscaneoCota(p, aj, tmax, e0, k - 1);
  }

  /** Unless nothing changed, the best-so-far is the window chosen at some start. */
  lemma {:induction false} EscaneoTestigo(p: Pasada, aj: seq<Ajustada>, tmax: real, e0: Busqueda, k: nat)
    requires k <= |aj|
    ensures Escaneo(p, aj, tmax, e0, k) == e0
      || exists i: nat :: i < k && EligeEn(p, aj, tmax, e0, Escaneo(p, aj, tmax, e0, k), i)
  {
    if k > 0 {
      EscaneoTestigo(p, aj, tmax, e0, k - 1);
      var prev := Escaneo(p, aj, tmax, e0, k - 1);
      var f := AjusteEn(aj, k - 1);
      if Candidata(p, aj, tmax, k - 1) && f.m > prev.pendiente {
        EligeUltima(p, aj, tmax, e0, k);
      } else {
        assert Escaneo(p, aj, tmax, e0, k) == prev;
        if prev != e0 {
          var i: nat :| i < k - 1 && EligeEn(p, aj, tmax, e0, prev, i);
        }
      }
    }
  }

  /**
   * A pass keeps the steepest accepted window, the first one on ties: the
   * best slope never drops below its start, bounds every candidate's slope,
   * and unless nothing changed it is the slope of a candidate that beat
   * every earlier candidate strictly. The relaxed pass never changes `r2`.
   */
  lemma EscaneoElige(p: Pasada, aj: seq<Ajustada>, tmax: real, e0: Busqueda, k: nat)
    requires k <= |aj|
    ensures var e := Escaneo(p, aj, tmax, e0, k);
      e.pendiente >= e0.pendiente
      && (p.Relajada? ==> e.r2 == e0.r2)
      && (forall i :: 0 <= i < k && Candidata(p, aj, tmax, i) ==> AjusteEn(aj, i).m <= e.pendiente)
      && (e == e0 || exists i: nat :: i < k && EligeEn(p, aj, tmax, e0, e, i))
  {
    EscaneoCota(p, aj, tmax, e0, k);
    EscaneoTestigo(p, aj, tmax, e0, k);
  }

  /** A pass from the initial values that ends with slope 0 accepted no window at all. */
  lemma SinPendiente(p: Pasada, aj: seq<Ajustada>, tmax: real, k: nat)
    requires k <= |aj|
    requires Escaneo(p, aj, tmax, SinVentana, k).pendiente == 0.0
    ensures Escaneo(p, aj, tmax, SinVentana, k) == SinVentana
    ensures forall i :: 0 <= i < k && Candidata(p, aj, tmax, i) ==> AjusteEn(aj, i).m <= 0.0
  {
    EscaneoElige(p, aj, tmax, SinVentana, k);
  }

  /**
   * The windows a pass looks at: visited starts below `|aj| − 6`, never one
   * that breaks the loop; in the primary pass every looked-at start carries
   * between 10 % and 60 % of peak stress.
   */
  lemma VentanasConsideradas(p: Pasada, aj: seq<Ajustada>, tmax: real, i: nat)
    requires i < Fin(p, aj, tmax) && Visita(p, i) && !Salta(p, aj[i].tension, tmax)
    ensures i + TamanoVentana < |aj|
    ensures p.Primaria? ==> tmax * 0.10 <= aj[i].tension <= tmax * 0.60
    ensures p.Relajada? ==> aj[i].tension < tmax * 0.9
  {
  }

  /** With `|aj| ≤ 6` no window is ever fitted and the pass returns its start unchanged. */
  lemma PocasMuestras(p: Pasada, aj: seq<Ajustada>, tmax: real, e0: Busqueda)
    requires |aj| <= TamanoVentana
    ensures ResultadoPasada(p, aj, tmax, e0) == e0
  {
  }
}
