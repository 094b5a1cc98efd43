/**
 * From raw samples to stress and strain: the peak force, the start of the
 * toe region, the zero-referenced transform into `datos_ajustados`, the
 * projection that is stored, and the re-derivation done when an analysis
 * is read back.
 */
module Traccion {
  import opened Lectura

  /** A sample after the transform: displacement from the toe start, force, stress, strain. */
  datatype Ajustada = Ajustada(desplazamiento: real, fuerza: real, tension: real, deformacion: real)

  /** Fraction of the peak force below which a sample counts as static noise (0.5 %). */
  const FraccionRuido: real := 0.005

  // ---------------------------------------------------------------------
  // Maxima

  /** `Math.max(...s)` of a non-empty list. */
  function Maximo(s: seq<real>): (m: real)
    requires |s| > 0
    ensures m in s
    ensures forall x :: x in s ==> x <= m
  {
    if |s| == 1 then s[0]
    else
      var r := Maximo(s[..|s| - 1]);
      assert forall x :: x in s ==> x in s[..|s| - 1] || x == s[|s| - 1];
      if s[|s| - 1] > r then s[|s| - 1] else r
  }

  function Fuerzas(datos: seq<Muestra>): (f: seq<real>)
    ensures |f| == |datos|
  {
    seq(|datos|, i requires 0 <= i < |datos| => datos[i].fuerza)
  }

  function Tensiones(aj: seq<Ajustada>): (t: seq<real>)
    ensures |t| == |aj|
  {
    seq(|aj|, i requires 0 <= i < |aj| => aj[i].tension)
  }

  function Deformaciones(aj: seq<Ajustada>): (d: seq<real>)
    ensures |d| == |aj|
  {
    seq(|aj|, i requires 0 <= i < |aj| => aj[i].deformacion)
  }

  /** The noise threshold: 0.5 % of the largest force. */
  function UmbralRuido(datos: seq<Muestra>): real
    requires |datos| > 0
  {
    Maximo(Fuerzas(datos)) * FraccionRuido
  }

  // ---------------------------------------------------------------------
  // Toe region

  /** The first index at or after `desde` whose force exceeds `umbral`, or `|datos|`. */
  function PrimeraSobre(datos: seq<Muestra>, umbral: real, desde: nat): (i: nat)
    requires desde <= |datos|
    ensures desde <= i <= |datos|
    ensures i < |datos| ==> datos[i].fuerza > umbral
    ensures forall j :: desde <= j < i ==> datos[j].fuerza <= umbral
    decreases |datos| - desde
  {
    if desde == |datos| || datos[desde].fuerza > umbral then desde
    else PrimeraSobre(datos, umbral, desde + 1)
  }

  /**
   * `inicio_traccion`: the least index whose force exceeds `umbral`, or 0
   * when no force does. Every earlier force is at most `umbral`.
   */
  function InicioTraccion(datos: seq<Muestra>, umbral: real): (inicio: nat)
    ensures inicio == 0 || inicio < |datos|
    ensures forall j :: 0 <= j < inicio ==> datos[j].fuerza <= umbral
    ensures (exists j :: 0 <= j < |datos| && datos[j].fuerza > umbral) ==>
      inicio < |datos| && datos[inicio].fuerza > umbral
    ensures (forall j :: 0 <= j < |datos| ==> datos[j].fuerza <= umbral) ==> inicio == 0
  {
    var i := PrimeraSobre(datos, umbral, 0);
    if i < |datos| then i else 0
  }

  /** The toe scan of `procesarArchivoEnsayo`: stops at the first force above the threshold. */
  method BuscarInicio(datos: seq<Muestra>, umbral: real) returns (inicio: nat)
    ensures inicio == InicioTraccion(datos, umbral)
  {
    inicio := 0;
    var i := 0;
    while i < |datos|
      invariant 0 <= i <= |datos|
      invariant PrimeraSobre(datos, umbral, i) == PrimeraSobre(datos, umbral, 0)
    {
      if datos[i].fuerza > umbral {
        inicio := i;
        return;
      }
      i := i + 1;
    }
  }

  /**
   * A higher threshold never moves the toe start earlier, provided some
   * force exceeds the higher one (otherwise it falls back to index 0).
   */
  lemma InicioMonotono(datos: seq<Muestra>, u1: real, u2: real)
    requires u1 <= u2
    requires exists j :: 0 <= j < |datos| && datos[j].fuerza > u2
    ensures InicioTraccion(datos, u1) <= InicioTraccion(datos, u2)
  {
    var i2 := InicioTraccion(datos, u2);
    assert datos[i2].fuerza > u1;
  }

  /** With a positive peak force the toe start is a sample above the noise threshold. */
  lemma InicioSobreRuido(datos: seq<Muestra>)
    requires |datos| > 0 && Maximo(Fuerzas(datos)) > 0.0
    ensures var inicio := InicioTraccion(datos, UmbralRuido(datos));
      inicio < |datos| && datos[inicio].fuerza > UmbralRuido(datos)
  {
    var f := Fuerzas(datos);
    var m := Maximo(f);
    var k :| 0 <= k < |f| && f[k] == m;
    assert datos[k].fuerza > UmbralRuido(datos);
  }

  // ---------------------------------------------------------------------
  // Stress and strain

  /** One sample, zero-referenced at `d0` and converted to stress and strain. */
  function Convertir(m: Muestra, d0: real, area: real, distancia: real, constante: real): (a: Ajustada)
    requires area != 0.0 && distancia != 0.0
    ensures a.desplazamiento == m.desplazamiento - d0 && a.fuerza == m.fuerza
    ensures a.tension * area == m.fuerza * constante
    ensures a.deformacion * distancia == a.desplazamiento
  {
    var d := m.desplazamiento - d0;
    Ajustada(d, m.fuerza, (m.fuerza * constante) / area, d / distancia)
  }

  /**
   * `datos_ajustados`: the samples from the toe start on, in order, with
   * displacement measured from the toe start's, stress `fuerza·constante/area`
   * and strain `displacement/distancia`.
   */
  function Ajustar(datos: seq<Muestra>, inicio: nat, area: real, distancia: real, constante: real): (aj: seq<Ajustada>)
    requires inicio < |datos| && area != 0.0 && distancia != 0.0
    ensures |aj| == |datos| - inicio
    ensures aj[0].desplazamiento == 0.0
    ensures forall k :: 0 <= k < |aj| ==>
      aj[k].fuerza == datos[inicio + k].fuerza
      && aj[k].desplazamiento == datos[inicio + k].desplazamiento - datos[inicio].desplazamiento
      && aj[k].tension * area == datos[inicio + k].fuerza * constante
      && aj[k].deformacion * distancia == aj[k].desplazamiento
  {
    var d0 := datos[inicio].desplazamiento;
    var aj := seq(|datos| - inicio, k requires 0 <= k < |datos| - inicio =>
      Convertir(datos[inicio + k], d0, area, distancia, constante));
    assert forall k :: 0 <= k < |aj| ==> aj[k] == Convertir(datos[inicio + k], d0, area, distancia, constante);
    aj
  }

  /** `datos_procesados`: only displacement and force are kept, in order. */
  function Proyectar(aj: seq<Ajustada>): (ps: seq<Muestra>)
    ensures |ps| == |aj|
    ensures forall k :: 0 <= k < |aj| ==> ps[k].desplazamiento == aj[k].desplazamiento && ps[k].fuerza == aj[k].fuerza
  {
    seq(|aj|, k requires 0 <= k < |aj| => Muestra(aj[k].desplazamiento, aj[k].fuerza))
  }

  /** The stress and strain recomputed from stored pairs when an analysis is read back. */
  function Rederivar(guardados: seq<Muestra>, area: real, distancia: real, constante: real): (aj: seq<Ajustada>)
    requires area != 0.0 && distancia != 0.0
    ensures |aj| == |guardados|
    ensures forall k :: 0 <= k < |aj| ==>
      aj[k].desplazamiento == guardados[k].desplazamiento && aj[k].fuerza == guardados[k].fuerza
      && aj[k].tension * area == guardados[k].fuerza * constante
      && aj[k].deformacion * distancia == guardados[k].desplazamiento
  {
    seq(|guardados|, k requires 0 <= k < |guardados| =>
      Ajustada(guardados[k].desplazamiento, guardados[k].fuerza,
               (guardados[k].fuerza * constante) / area, guardados[k].desplazamiento / distancia))
  }

  /**
   * Storing only displacement and force loses nothing: re-deriving with the
   * same area, gauge length and constant gives back `datos_ajustados`.
   */
  lemma RederivarProyeccion(datos: seq<Muestra>, inicio: nat, area: real, distancia: real, constante: real)
    requires inicio < |datos| && area != 0.0 && distancia != 0.0
    ensures var aj := Ajustar(datos, inicio, area, distancia, constante);
      Rederivar(Proyectar(aj), area, distancia, constante) == aj
  {
    var aj := Ajustar(datos, inicio, area, distancia, constante);
    var r := Rederivar(Proyectar(aj), area, distancia, constante);
    assert |r| == |aj|;
    forall k | 0 <= k < |aj| ensures r[k] == aj[k] {
      var d0 := datos[inicio].desplazamiento;
      assert aj[k] == Convertir(datos[inicio + k], d0, area, distancia, constante);
    }
  }
}
