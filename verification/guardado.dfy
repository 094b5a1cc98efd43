/**
 * The analysis route around `procesarArchivoEnsayo`: how the form's area and
 * machine constant reach the analysis, what is stored with the result, and
 * the stress/strain curve re-derived when a stored analysis is read back.
 *
 * A form field is text; the empty text stands for a missing field (falsy in
 * the route). Numbers are read with the same `parse` as the file, whose
 * `None` stands for `NaN`, and the stored REAL columns are read back as the
 * number `parse` gives for the stored text.
 */
module Guardado {
  import opened Wrappers
  import opened Lectura
  import opened Traccion
  import opened Ensayo

  /**
   * `area ? parseFloat(area) : null`: the user's area handed to the analysis,
   * absent exactly when the field is empty or not a number.
   */
  function AreaUsuario(area: string, parse: string -> Option<real>): (a: Option<real>)
    ensures a.None? <==> area == [] || parse(area).None?
    ensures a.Some? ==> a.value == parse(area).value
  {
    if area == [] then None else parse(area)
  }

  /** `parseFloat(constante) || 0.949`: the constant the analysis uses, never 0. */
  function ConstanteUsada(constante: string, parse: string -> Option<real>): (c: real)
    ensures c != 0.0
    ensures !(constante != [] && parse(constante).Some? && parse(constante).value != 0.0) ==> c == ConstantePorDefecto
    ensures constante != [] && parse(constante).Some? && parse(constante).value != 0.0 ==> c == parse(constante).value
  {
    if constante != [] && parse(constante).Some? && parse(constante).value != 0.0 then parse(constante).value
    else ConstantePorDefecto
  }

  /**
   * The area the analysis uses, from the form field and the file's area: the
   * file's when the field is empty, not a number or 0, the field's number
   * otherwise; it is a usable (non-zero) area exactly when one of the two is.
   */
  lemma AreaDelFormulario(area: string, parse: string -> Option<real>, areaArchivo: Option<real>)
    ensures area == [] || parse(area).None? || parse(area).value == 0.0 ==>
      AreaEfectiva(AreaUsuario(area, parse), areaArchivo) == areaArchivo
    ensures area != [] && parse(area).Some? && parse(area).value != 0.0 ==>
      AreaEfectiva(AreaUsuario(area, parse), areaArchivo) == parse(area)
    ensures var usada := AreaEfectiva(AreaUsuario(area, parse), areaArchivo);
      (usada.Some? && usada.value != 0.0)
      <==> (area != [] && parse(area).Some? && parse(area).value != 0.0) || (areaArchivo.Some? && areaArchivo.value != 0.0)
  {
  }

  // ---------------------------------------------------------------------
  // What the route stores, as written

  /**
   * `area ? parseFloat(area) : area_archivo`: the stored area, as written. It
   * differs from the area the analysis used only when the field is present
   * but not a number or 0.
   */
  function AreaGuardadaComoEscrita(area: string, parse: string -> Option<real>, areaArchivo: Option<real>): (a: Option<real>)
    ensures a != AreaEfectiva(AreaUsuario(area, parse), areaArchivo) ==>
      area != [] && (parse(area).None? || parse(area).value == 0.0)
  {
    if area != [] then parse(area) else areaArchivo
  }

  /**
   * `constante || 0.949`: the stored constant, as written (the raw text, read
   * back as a number). It differs from the constant the analysis used only
   * when the field is present but not a number or 0.
   */
  function ConstanteGuardadaComoEscrita(constante: string, parse: string -> Option<real>): (c: Option<real>)
    ensures c != Some(ConstanteUsada(constante, parse)) ==>
      constante != [] && (parse(constante).None? || parse(constante).value == 0.0)
  {
    if constante == [] then Some(ConstantePorDefecto) else parse(constante)
  }

  /**
   * An area field of "0" is passed over by the analysis, which uses the
   * file's area, but it is stored as 0: reading the analysis back divides
   * by a zero area.
   */
  lemma AreaComoEscritaDifiere(parse: string -> Option<real>, areaArchivo: real)
    requires parse("0") == Some(0.0) && areaArchivo != 0.0
    ensures AreaEfectiva(AreaUsuario("0", parse), Some(areaArchivo)) == Some(areaArchivo)
    ensures AreaGuardadaComoEscrita("0", parse, Some(areaArchivo)) == Some(0.0)
  {
  }

  /**
   * A constant field of "0" is replaced by 0.949 in the analysis but stored
   * as 0: once the peak force is positive, the curve re-derived from the
   * stored pairs differs from the one the analysis computed (its stresses
   * are all 0).
   */
  lemma ConstanteComoEscritaDifiere(datos: seq<Muestra>, area: real, distancia: real, parse: string -> Option<real>)
    requires parse("0") == Some(0.0)
    requires |datos| >= MinimoMuestras && area != 0.0 && distancia != 0.0 && Maximo(Fuerzas(datos)) > 0.0
    ensures ConstanteUsada("0", parse) == ConstantePorDefecto
    ensures ConstanteGuardadaComoEscrita("0", parse) == Some(0.0)
    ensures var aj := Curva(datos, area, distancia, ConstanteUsada("0", parse));
      Rederivar(Proyectar(aj), area, distancia, 0.0) != aj
  {
    var aj := Curva(datos, area, distancia, ConstantePorDefecto);
    var r := Rederivar(Proyectar(aj), area, distancia, 0.0);
    InicioSobreRuido(datos);
    var f := datos[Inicio(datos)].fuerza;
    assert aj[0].fuerza == f && f > 0.0;
    assert aj[0].tension * area == f * ConstantePorDefecto;
    assert aj[0].tension != 0.0;
    assert r[0].tension == (f * 0.0) / area == 0.0;
  }

  // ---------------------------------------------------------------------
  // What the route should store

  /** The stored area: the one the analysis used. */
  function AreaGuardada(area: string, parse: string -> Option<real>, areaArchivo: Option<real>): (a: Option<real>)
    ensures area != [] && parse(area).Some? && parse(area).value != 0.0 ==> a == parse(area)
    ensures !(area != [] && parse(area).Some? && parse(area).value != 0.0) ==> a == areaArchivo
  {
    AreaEfectiva(AreaUsuario(area, parse), areaArchivo)
  }

  /** The stored constant: the one the analysis used. */
  function ConstanteGuardada(constante: string, parse: string -> Option<real>): (c: Option<real>)
    ensures c.Some? && c.value != 0.0
  {
    Some(ConstanteUsada(constante, parse))
  }

  /**
   * Reading back an analysis stored with the area and constant it used
   * reproduces the stress/strain curve the analysis computed.
   */
  lemma ReabrirReproduce(contenido: string, parse: string -> Option<real>, area: string,
                         distancia: real, constante: string)
    requires Parametros(contenido, parse, AreaUsuario(area, parse), distancia)
    ensures var r := Procesar(contenido, parse, AreaUsuario(area, parse), distancia, ConstanteUsada(constante, parse));
      var lineas := Lineas(contenido);
      var guardada := AreaGuardada(area, parse, AreaArchivo(lineas, parse));
      r.Success? ==>
        guardada.Some? && guardada.value != 0.0 && distancia != 0.0
        && Rederivar(r.value.datosProcesados, guardada.value, distancia, ConstanteGuardada(constante, parse).value)
           == Curva(Muestras(lineas, parse), guardada.value, distancia, ConstanteUsada(constante, parse))
  {
    var lineas := Lineas(contenido);
    var datos := Muestras(lineas, parse);
    if |datos| >= MinimoMuestras {
      var guardada := AreaGuardada(area, parse, AreaArchivo(lineas, parse));
      RederivarProyeccion(datos, Inicio(datos), guardada.value, distancia, ConstanteUsada(constante, parse));
    }
  }
}
