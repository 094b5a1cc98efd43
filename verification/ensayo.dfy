/**
 * `procesarArchivoEnsayo`: the whole analysis of one tensile-test file,
 * from its text to peak stress, elongation at break, Young's modulus and
 * the stored (displacement, force) curve.
 */
module Ensayo {
  import opened Wrappers
  import opened Regresion
  import opened Lectura
  import opened Traccion
  import opened Ventana

  /** Fewest valid samples a file must yield. */
  const MinimoMuestras: nat := 5

  /** The machine constant used when none is given (the parameter's default). */
  const ConstantePorDefecto: real := 0.949

  /** What a successful analysis returns. */
  datatype Analisis = Analisis(
    tensionMaxima: real,
    elongacionRuptura: real,
    moduloYoung: real,
    datosProcesados: seq<Muestra>,
    areaArchivo: Option<real>,
    r2: real)

  /** The one error the analysis raises: too few valid samples. */
  datatype Falla = DatosInsuficientes

  /**
   * `area_usuario || area_archivo`: the user's area unless it is missing,
   * not a number or zero, in which case the file's.
   */
  function AreaEfectiva(areaUsuario: Option<real>, areaArchivo: Option<real>): (area: Option<real>)
    ensures areaUsuario.Some? && areaUsuario.value != 0.0 ==> area == areaUsuario
    ensures !(areaUsuario.Some? && areaUsuario.value != 0.0) ==> area == areaArchivo
    ensures (area.Some? && area.value != 0.0)
        <==> (areaUsuario.Some? && areaUsuario.value != 0.0) || (areaArchivo.Some? && areaArchivo.value != 0.0)
  {
    if areaUsuario.Some? && areaUsuario.value != 0.0 then areaUsuario else areaArchivo
  }

  /**
   * The zero-offset correction: with a positive modulus and a negative
   * intercept, the strain at which the fitted line crosses zero stress
   * (positive); otherwise 0.
   */
  function OffsetDeformacion(e: Busqueda): (offset: real)
    ensures e.pendiente > 0.0 && e.b < 0.0 ==> offset > 0.0 && e.pendiente * offset + e.b == 0.0
    ensures !(e.pendiente > 0.0 && e.b < 0.0) ==> offset == 0.0
  {
    if e.pendiente > 0.0 && e.b < 0.0 then -e.b / e.pendiente else 0.0
  }

  /** Elongation at break in percent: the corrected peak strain, clamped at 0. */
  function Elongacion(maxDeformacion: real, offset: real): (r: real)
    ensures r >= 0.0
    ensures maxDeformacion >= offset ==> r == 100.0 * (maxDeformacion - offset)
    ensures maxDeformacion < offset ==> r == 0.0
  {
    (if maxDeformacion - offset > 0.0 then maxDeformacion - offset else 0.0) * 100.0
  }

  /**
   * The best-so-far after both passes: the relaxed pass runs only when the
   * primary one found no slope. The slope is never negative, and a slope of
   * 0 means no window was accepted at all, so every result is 0.
   */
  function Busquedas(aj: seq<Ajustada>, tmax: real): (e: Busqueda)
    ensures e.pendiente >= 0.0
    ensures e.pendiente == 0.0 ==> e == SinVentana
  {
    var primaria := ResultadoPasada(Primaria, aj, tmax, SinVentana);
    EscaneoCota(Primaria, aj, tmax, SinVentana, Fin(Primaria, aj, tmax));
    if primaria.pendiente == 0.0 then
      SinPendiente(Primaria, aj, tmax, Fin(Primaria, aj, tmax));
      var relajada := ResultadoPasada(Relajada, aj, tmax, primaria);
      EscaneoCota(Relajada, aj, tmax, SinVentana, Fin(Relajada, aj, tmax));
      if relajada.pendiente == 0.0 then SinPendiente(Relajada, aj, tmax, Fin(Relajada, aj, tmax)); relajada
      else relajada
    else primaria
  }

  /** What the analysis needs of its numeric inputs once the file has enough samples. */
  predicate Parametros(contenido: string, parse: string -> Option<real>, areaUsuario: Option<real>, distancia: real)
  {
    var lineas := Lineas(contenido);
    |Muestras(lineas, parse)| >= MinimoMuestras ==>
      var area := AreaEfectiva(areaUsuario, AreaArchivo(lineas, parse));
      area.Some? && area.value != 0.0 && distancia != 0.0
  }

  /** The analysis of a file, stage by stage. */
  function Procesar(contenido: string, parse: string -> Option<real>, areaUsuario: Option<real>,
                    distancia: real, constante: real): Result<Analisis, Falla>
    requires Parametros(contenido, parse, areaUsuario, distancia)
  {
    var lineas := Lineas(contenido);
    var areaArchivo := AreaArchivo(lineas, parse);
    var datos := Muestras(lineas, parse);
    if |datos| < MinimoMuestras then Failure(DatosInsuficientes)
    else Success(Analizar(datos, AreaEfectiva(areaUsuario, areaArchivo).value, distancia, constante, areaArchivo))
  }

  /** The toe start of the samples. */
  function Inicio(datos: seq<Muestra>): (inicio: nat)
    requires |datos| > 0
    ensures inicio < |datos|
  {
    InicioTraccion(datos, UmbralRuido(datos))
  }

  /** `datos_ajustados`. */
  function Curva(datos: seq<Muestra>, area: real, distancia: real, constante: real): seq<Ajustada>
    requires |datos| > 0 && area != 0.0 && distancia != 0.0
  {
    Ajustar(datos, Inicio(datos), area, distancia, constante)
  }

  /** The stages after reading: toe start, transform, window search, offset and result. */
  function Analizar(datos: seq<Muestra>, area: real, distancia: real, constante: real,
                    areaArchivo: Option<real>): Analisis
    requires |datos| >= MinimoMuestras && area != 0.0 && distancia != 0.0
  {
    var aj := Curva(datos, area, distancia, constante);
    var tmax := Maximo(Tensiones(aj));
    var busqueda := Busquedas(aj, tmax);
    var elongacion := Elongacion(Maximo(Deformaciones(aj)), OffsetDeformacion(busqueda));
    Analisis(tmax, elongacion, busqueda.pendiente, Proyectar(aj), areaArchivo, busqueda.r2)
  }

  /** `procesarArchivoEnsayo`, statement by statement. */
  method ProcesarArchivoEnsayo(contenido: string, parse: string -> Option<real>, areaUsuario: Option<real>,
                               distancia: real, constante: real) returns (r: Result<Analisis, Falla>)
    requires Parametros(contenido, parse, areaUsuario, distancia)
    ensures r == Procesar(contenido, parse, areaUsuario, distancia, constante)
  {
    var lineas := Lineas(contenido);
    var areaArchivo := LeerAreaArchivo(lineas, parse);
    var area := AreaEfectiva(areaUsuario, areaArchivo);
    var datos := ExtraerMuestras(lineas, parse);
    if |datos| < MinimoMuestras {
      return Failure(DatosInsuficientes);
    }
    var fuerzaMaxima := Maximo(Fuerzas(datos));
    var umbralRuido := fuerzaMaxima * FraccionRuido;
    var inicio := BuscarInicio(datos, umbralRuido);
    assert inicio == Inicio(datos);
    var aj := Ajustar(datos, inicio, area.value, distancia, constante);
    assert aj == Curva(datos, area.value, distancia, constante);
    var tensionMaxima := Maximo(Tensiones(aj));
    var busqueda := BusquedaPrimaria(aj, tensionMaxima);
    if busqueda.pendiente == 0.0 {
      busqueda := BusquedaRelajada(aj, tensionMaxima, busqueda);
    }
    assert busqueda == Busquedas(aj, tensionMaxima);
    var offset := OffsetDeformacion(busqueda);
    var maxDeformacion := Maximo(Deformaciones(aj));
    var elongacion := Elongacion(maxDeformacion, offset);
    r := Success(Analisis(tensionMaxima, elongacion, busqueda.pendiente, Proyectar(aj), areaArchivo, busqueda.r2));
    assert r.value == Analizar(datos, area.value, distancia, constante, areaArchivo);
  }

  // ---------------------------------------------------------------------
  // Properties of the analysis

  /** The analysis fails exactly when the file yields fewer than five samples. */
  lemma FallaSiPocasMuestras(contenido: string, parse: string -> Option<real>, areaUsuario: Option<real>,
                             distancia: real, constante: real)
    requires Parametros(contenido, parse, areaUsuario, distancia)
    ensures Procesar(contenido, parse, areaUsuario, distancia, constante).Failure?
        <==> |Muestras(Lineas(contenido), parse)| < MinimoMuestras
  {
  }

  /**
   * The relaxed pass runs only after a primary pass that accepted no window,
   * so it starts from the initial values and the reported R² stays 0: the
   * result's R² is either 0 or that of a primary window (above 0.96).
   */
  lemma RespaldoSinR2(aj: seq<Ajustada>, tmax: real)
    ensures var primaria := ResultadoPasada(Primaria, aj, tmax, SinVentana);
      primaria.pendiente == 0.0 ==>
        primaria == SinVentana && Busquedas(aj, tmax) == ResultadoPasada(Relajada, aj, tmax, SinVentana)
        && Busquedas(aj, tmax).r2 == 0.0
    ensures Busquedas(aj, tmax).pendiente >= 0.0
    ensures Busquedas(aj, tmax).r2 == 0.0 || (Busquedas(aj, tmax).r2 > 0.96 && Busquedas(aj, tmax).pendiente > 0.0)
  {
    var fin := Fin(Primaria, aj, tmax);
    var primaria := ResultadoPasada(Primaria, aj, tmax, SinVentana);
    EscaneoElige(Primaria, aj, tmax, SinVentana, fin);
    if primaria.pendiente == 0.0 {
      SinPendiente(Primaria, aj, tmax, fin);
      EscaneoElige(Relajada, aj, tmax, SinVentana, Fin(Relajada, aj, tmax));
    } else {
      var i: nat :| i < fin && EligeEn(Primaria, aj, tmax, SinVentana, primaria, i);
    }
  }

  /**
   * A positive modulus is the slope of a six-point window of the curve whose
   * fit has R² above 0.90 (above 0.96 when the primary pass found it).
   */
  lemma ModuloDeVentana(aj: seq<Ajustada>, tmax: real)
    ensures var e := Busquedas(aj, tmax);
      e.pendiente > 0.0 ==>
        exists i: nat :: i + TamanoVentana < |aj| && AjusteEn(aj, i).m == e.pendiente && AjusteEn(aj, i).r2 > 0.90
    ensures ResultadoPasada(Primaria, aj, tmax, SinVentana).pendiente != 0.0 ==>
      exists i: nat :: i + TamanoVentana < |aj| && AjusteEn(aj, i).m == Busquedas(aj, tmax).pendiente
        && AjusteEn(aj, i).r2 > 0.96
  {
    var e := Busquedas(aj, tmax);
    var primaria := ResultadoPasada(Primaria, aj, tmax, SinVentana);
    var fin1 := Fin(Primaria, aj, tmax);
    EscaneoElige(Primaria, aj, tmax, SinVentana, fin1);
    if primaria.pendiente == 0.0 {
      SinPendiente(Primaria, aj, tmax, fin1);
      var fin2 := Fin(Relajada, aj, tmax);
      EscaneoElige(Relajada, aj, tmax, SinVentana, fin2);
      if e.pendiente > 0.0 {
        var i: nat :| i < fin2 && EligeEn(Relajada, aj, tmax, SinVentana, e, i);
        assert i + TamanoVentana < |aj|;
      }
    } else {
      var i: nat :| i < fin1 && EligeEn(Primaria, aj, tmax, SinVentana, primaria, i);
      assert i + TamanoVentana < |aj|;
    }
  }

  /** A curve of at most six points yields no window: modulus 0 and R² 0. */
  lemma SinVentanas(aj: seq<Ajustada>, tmax: real)
    requires |aj| <= TamanoVentana
    ensures Busquedas(aj, tmax) == SinVentana
  {
    PocasMuestras(Primaria, aj, tmax, SinVentana);
    PocasMuestras(Relajada, aj, tmax, SinVentana);
  }

  /**
   * The stored curve: the samples from the toe start on, in file order,
   * holding displacement from the toe start and the force; the first
   * displacement is 0.
   */
  lemma DatosProcesados(datos: seq<Muestra>, area: real, distancia: real, constante: real, areaArchivo: Option<real>)
    requires |datos| >= MinimoMuestras && area != 0.0 && distancia != 0.0
    ensures var r, inicio := Analizar(datos, area, distancia, constante, areaArchivo), Inicio(datos);
      |r.datosProcesados| == |datos| - inicio
      && r.datosProcesados[0].desplazamiento == 0.0
      && forall k :: 0 <= k < |r.datosProcesados| ==>
           r.datosProcesados[k] == Muestra(datos[inicio + k].desplazamiento - datos[inicio].desplazamiento,
                                           datos[inicio + k].fuerza)
  {
  }

  /**
   * Reading the stored curve back with the same area, gauge length and
   * constant re-derives stresses whose maximum is the reported peak stress.
   */
  lemma TensionMaxima(datos: seq<Muestra>, area: real, distancia: real, constante: real, areaArchivo: Option<real>)
    requires |datos| >= MinimoMuestras && area != 0.0 && distancia != 0.0
    ensures var r := Analizar(datos, area, distancia, constante, areaArchivo);
      var t := Tensiones(Rederivar(r.datosProcesados, area, distancia, constante));
      r.tensionMaxima in t && forall x :: x in t ==> x <= r.tensionMaxima
  {
    RederivarProyeccion(datos, Inicio(datos), area, distancia, constante);
  }

  /**
   * The reported results: modulus at least 0; R² either 0 or above 0.96;
   * elongation at least 0 and at most the uncorrected peak strain in
   * percent, equal to it when there is no modulus; and with at most six
   * samples past the toe start (in particular with exactly five samples)
   * the modulus and R² are 0.
   */
  lemma Resultados(datos: seq<Muestra>, area: real, distancia: real, constante: real, areaArchivo: Option<real>)
    requires |datos| >= MinimoMuestras && area != 0.0 && distancia != 0.0
    ensures var r := Analizar(datos, area, distancia, constante, areaArchivo);
      var maxDef := Maximo(Deformaciones(Curva(datos, area, distancia, constante)));
      var bruta := if maxDef > 0.0 then 100.0 * maxDef else 0.0;
      r.moduloYoung >= 0.0
      && (r.r2 == 0.0 || r.r2 > 0.96)
      && 0.0 <= r.elongacionRuptura <= bruta
      && (r.moduloYoung == 0.0 ==> r.elongacionRuptura == bruta)
      && (|datos| - Inicio(datos) <= TamanoVentana ==> r.moduloYoung == 0.0 && r.r2 == 0.0)
  {
    var aj := Curva(datos, area, distancia, constante);
    var tmax := Maximo(Tensiones(aj));
    RespaldoSinR2(aj, tmax);
    if |aj| <= TamanoVentana {
      SinVentanas(aj, tmax);
    }
  }

  /** The five-sample file: the analysis succeeds but finds no window, so the modulus is 0. */
  lemma CincoMuestras(datos: seq<Muestra>, area: real, distancia: real, constante: real, areaArchivo: Option<real>)
    requires |datos| == MinimoMuestras && area != 0.0 && distancia != 0.0
    ensures Analizar(datos, area, distancia, constante, areaArchivo).moduloYoung == 0.0
  {
    Resultados(datos, area, distancia, constante, areaArchivo);
  }
}
