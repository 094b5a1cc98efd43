/**
 * Reading an exported test file: the `Area;` metadata in the header and the
 * data rows below it (the first two stages of `procesarArchivoEnsayo`).
 *
 * The file is split into lines on '\n'. Lines 0..22 form the header; data
 * rows start at line 23. `parseFloat` is not modelled: every reader takes
 * it as a parameter `parse`, whose `None` stands for `NaN`.
 */
module Lectura {
  import opened Wrappers
  import opened Texto

  /** One accepted data row: crosshead displacement and force. */
  datatype Muestra = Muestra(desplazamiento: real, fuerza: real)

  /** Number of header lines; the first data row is line 23. */
  const LineasEncabezado: nat := 23

  /** The lines of the file's contents, as `split('\n')` gives them. */
  function Lineas(contenido: string): (lineas: seq<string>)
    ensures |lineas| >= 1
  {
    Split(contenido, '\n')
  }

  // ---------------------------------------------------------------------
  // Header metadata

  /** A header line sets the area when it contains `Area;` and its second `;`-field is not empty. */
  predicate FijaArea(linea: string)
  {
    Contiene(linea, "Area;") && |Split(linea, ';')| > 1 && Split(linea, ';')[1] != []
  }

  /** The area such a line sets: its second field with the decimal comma made a point. */
  function ValorArea(linea: string, parse: string -> Option<real>): Option<real>
    requires FijaArea(linea)
  {
    parse(Decimal(Split(linea, ';')[1]))
  }

  /**
   * `area_archivo` after the header loop has seen lines `0..k-1` (lines past
   * the end of the file are skipped): the value set by the last line that
   * sets one, or `None` (`null`) when none does. `None` also stands for the
   * `NaN` of an unparsable value.
   */
  function AreaHasta(lineas: seq<string>, k: nat, parse: string -> Option<real>): Option<real>
    requires k <= |lineas|
  {
    if k == 0 then None
    else if FijaArea(lineas[k - 1]) then ValorArea(lineas[k - 1], parse)
    else AreaHasta(lineas, k - 1, parse)
  }

  /** The number of header lines the file actually has. */
  function Encabezado(lineas: seq<string>): (k: nat)
    ensures k <= |lineas| && k <= LineasEncabezado
    ensures k == LineasEncabezado || k == |lineas|
  {
    if |lineas| < LineasEncabezado then |lineas| else LineasEncabezado
  }

  /** `area_archivo` as read from the whole header. */
  function AreaArchivo(lineas: seq<string>, parse: string -> Option<real>): Option<real>
  {
    AreaHasta(lineas, Encabezado(lineas), parse)
  }

  /** The header loop of `procesarArchivoEnsayo`: a later `Area;` line overwrites an earlier one. */
  method LeerAreaArchivo(lineas: seq<string>, parse: string -> Option<real>) returns (area: Option<real>)
    ensures area == AreaArchivo(lineas, parse)
  {
    area := None;
    for i := 0 to LineasEncabezado
      invariant area == AreaHasta(lineas, if i < |lineas| then i else |lineas|, parse)
    {
      if i < |lineas| {
        var linea := lineas[i];
        if linea != [] && Contiene(linea, "Area;") {
          var partes := Split(linea, ';');
          if |partes| > 1 && partes[1] != [] {
            area := parse(Decimal(partes[1]));
          }
        }
      }
    }
  }

  /** With no line that sets an area the area is `None`. */
  lemma {:induction false} SinAreaNula(lineas: seq<string>, k: nat, parse: string -> Option<real>)
    requires k <= |lineas| && forall j :: 0 <= j < k ==> !FijaArea(lineas[j])
    ensures AreaHasta(lineas, k, parse) == None
  {
    if k > 0 {
      SinAreaNula(lineas, k - 1, parse);
    }
  }

  /** The line `j` decides the area when no later line before `k` sets one. */
  lemma {:induction false} UltimaArea(lineas: seq<string>, k: nat, j: nat, parse: string -> Option<real>)
    requires j < k <= |lineas| && FijaArea(lineas[j])
    requires forall j' :: j < j' < k ==> !FijaArea(lineas[j'])
    ensures AreaHasta(lineas, k, parse) == ValorArea(lineas[j], parse)
  {
    if j < k - 1 {
      assert !FijaArea(lineas[k - 1]);
      UltimaArea(lineas, k - 1, j, parse);
    }
  }

  /**
   * The last line that sets an area decides it, and with no such line the
   * area is `None`.
   */
  lemma {:induction false} UltimaAreaGana(lineas: seq<string>, k: nat, parse: string -> Option<real>)
    requires k <= |lineas|
    ensures (forall j :: 0 <= j < k ==> !FijaArea(lineas[j])) ==> AreaHasta(lineas, k, parse) == None
    ensures forall j :: 0 <= j < k && FijaArea(lineas[j]) && (forall j' :: j < j' < k ==> !FijaArea(lineas[j'])) ==>
      AreaHasta(lineas, k, parse) == ValorArea(lineas[j], parse)
  {
    if forall j :: 0 <= j < k ==> !FijaArea(lineas[j]) {
      SinAreaNula(lineas, k, parse);
    }
    forall j | 0 <= j < k && FijaArea(lineas[j]) && (forall j' :: j < j' < k ==> !FijaArea(lineas[j']))
      ensures AreaHasta(lineas, k, parse) == ValorArea(lineas[j], parse)
    {
      UltimaArea(lineas, k, j, parse);
    }
  }

  /** Only the first 23 lines matter: files agreeing on them give the same area. */
  lemma {:induction false} AreaSoloEncabezado(l1: seq<string>, l2: seq<string>, k: nat, parse: string -> Option<real>)
    requires k <= |l1| && k <= |l2| && l1[..k] == l2[..k]
    ensures AreaHasta(l1, k, parse) == AreaHasta(l2, k, parse)
  {
    if k > 0 {
      assert l1[k - 1] == l1[..k][k - 1] == l2[..k][k - 1] == l2[k - 1];
      assert l1[..k - 1] == l1[..k][..k - 1];
      assert l2[..k - 1] == l2[..k][..k - 1];
      AreaSoloEncabezado(l1, l2, k - 1, parse);
    }
  }

  // ---------------------------------------------------------------------
  // Data rows

  /**
   * The sample a data line yields: after trimming it must be non-empty and
   * have at least four `;`-fields, and fields 1 (displacement) and 3
   * (force) must both parse once their first comma is made a point.
   */
  function MuestraDeLinea(linea: string, parse: string -> Option<real>): (r: Option<Muestra>)
    ensures r.Some? <==>
      Trim(linea) != [] && |Split(Trim(linea), ';')| >= 4
      && parse(Decimal(Split(Trim(linea), ';')[1])).Some? && parse(Decimal(Split(Trim(linea), ';')[3])).Some?
    ensures r.Some? ==>
      parse(Decimal(Split(Trim(linea), ';')[1])) == Some(r.value.desplazamiento)
      && parse(Decimal(Split(Trim(linea), ';')[3])) == Some(r.value.fuerza)
  {
    var l := Trim(linea);
    if l == [] then None
    else
      var partes := Split(l, ';');
      if |partes| < 4 then None
      else
        var d := parse(Decimal(partes[1]));
        var f := parse(Decimal(partes[3]));
        if d.Some? && f.Some? then Some(Muestra(d.value, f.value)) else None
  }

  /** A blank line, whitespace only, yields no sample. */
  lemma LineaEnBlanco(linea: string, parse: string -> Option<real>)
    requires forall i :: 0 <= i < |linea| ==> EsEspacio(linea[i])
    ensures MuestraDeLinea(linea, parse) == None
  {
    TrimVacio(linea);
  }

  /** The samples of the data lines `23..k-1`, in file order. */
  function MuestrasHasta(lineas: seq<string>, k: nat, parse: string -> Option<real>): seq<Muestra>
    requires k <= |lineas|
  {
    if k <= LineasEncabezado then []
    else
      var previas := MuestrasHasta(lineas, k - 1, parse);
      match MuestraDeLinea(lineas[k - 1], parse)
      case Some(m) => previas + [m]
      case None => previas
  }

  /** The indices of the data lines `23..k-1` that yield a sample, in file order. */
  function AceptadasHasta(lineas: seq<string>, k: nat, parse: string -> Option<real>): seq<nat>
    requires k <= |lineas|
  {
    if k <= LineasEncabezado then []
    else
      var previas := AceptadasHasta(lineas, k - 1, parse);
      if MuestraDeLinea(lineas[k - 1], parse).Some? then previas + [k - 1] else previas
  }

  /** All the samples of the file. */
  function Muestras(lineas: seq<string>, parse: string -> Option<real>): seq<Muestra>
  {
    MuestrasHasta(lineas, |lineas|, parse)
  }

  /** The row loop of `procesarArchivoEnsayo`: pushes each accepted row's sample. */
  method ExtraerMuestras(lineas: seq<string>, parse: string -> Option<real>) returns (datos: seq<Muestra>)
    ensures datos == Muestras(lineas, parse)
  {
    datos := [];
    var i := LineasEncabezado;
    while i < |lineas|
      invariant LineasEncabezado <= i
      invariant i <= |lineas| ==> datos == MuestrasHasta(lineas, i, parse)
      invariant |lineas| < i ==> i == LineasEncabezado && datos == []
    {
      var linea := Trim(lineas[i]);
      if linea != [] {
        var partes := Split(linea, ';');
        if |partes| >= 4 {
          var desplazamiento := parse(Decimal(partes[1]));
          var fuerza := parse(Decimal(partes[3]));
          if desplazamiento.Some? && fuerza.Some? {
            datos := datos + [Muestra(desplazamiento.value, fuerza.value)];
          }
        }
      }
      i := i + 1;
    }
  }

  /** The `t`-th sample is the one yielded by line `AceptadasHasta[t]`, a data line before `k`. */
  lemma {:induction false} MuestraDeAceptada(lineas: seq<string>, k: nat, parse: string -> Option<real>)
    requires k <= |lineas|
    ensures |AceptadasHasta(lineas, k, parse)| == |MuestrasHasta(lineas, k, parse)|
    ensures forall t :: 0 <= t < |AceptadasHasta(lineas, k, parse)| ==>
      LineasEncabezado <= AceptadasHasta(lineas, k, parse)[t] < k
      && MuestraDeLinea(lineas[AceptadasHasta(lineas, k, parse)[t]], parse) == Some(MuestrasHasta(lineas, k, parse)[t])
  {
    if k > LineasEncabezado {
      MuestraDeAceptada(lineas, k - 1, parse);
      var ms0, ix0 := MuestrasHasta(lineas, k - 1, parse), AceptadasHasta(lineas, k - 1, parse);
      var ms, ix := MuestrasHasta(lineas, k, parse), AceptadasHasta(lineas, k, parse);
      match MuestraDeLinea(lineas[k - 1], parse)
      case Some(m) =>
        assert ms == ms0 + [m] && ix == ix0 + [k - 1];
        forall t | 0 <= t < |ix|
          ensures LineasEncabezado <= ix[t] < k && MuestraDeLinea(lineas[ix[t]], parse) == Some(ms[t])
        {
          if t < |ix0| {
            assert ix[t] == ix0[t] && ms[t] == ms0[t];
          }
        }
      case None =>
        assert ms == ms0 && ix == ix0;
    }
  }

  /** The accepted lines are listed in strictly increasing order. */
  lemma {:induction false} AceptadasOrdenadas(lineas: seq<string>, k: nat, parse: string -> Option<real>)
    requires k <= |lineas|
    ensures forall t :: 0 <= t < |AceptadasHasta(lineas, k, parse)| ==> AceptadasHasta(lineas, k, parse)[t] < k
    ensures forall t, u :: 0 <= t < u < |AceptadasHasta(lineas, k, parse)| ==>
      AceptadasHasta(lineas, k, parse)[t] < AceptadasHasta(lineas, k, parse)[u]
  {
    if k > LineasEncabezado {
      AceptadasOrdenadas(lineas, k - 1, parse);
    }
  }

  /** Every data line before `k` that yields a sample is listed. */
  lemma {:induction false} AceptadasCompletas(lineas: seq<string>, k: nat, parse: string -> Option<real>)
    requires k <= |lineas|
    ensures forall i :: LineasEncabezado <= i < k && MuestraDeLinea(lineas[i], parse).Some? ==>
      i in AceptadasHasta(lineas, k, parse)
  {
    if k > LineasEncabezado {
      AceptadasCompletas(lineas, k - 1, parse);
    }
  }

  /**
   * Where the samples come from: the `k`-th sample is the one yielded by
   * line `AceptadasHasta[k]`; those lines are data lines in strictly
   * increasing order (file order), and every data line that yields a sample
   * is among them.
   */
  lemma {:induction false} OrigenMuestras(lineas: seq<string>, k: nat, parse: string -> Option<real>)
    requires k <= |lineas|
    ensures var ms, ix := MuestrasHasta(lineas, k, parse), AceptadasHasta(lineas, k, parse);
      |ix| == |ms|
      && (forall t :: 0 <= t < |ix| ==>
            LineasEncabezado <= ix[t] < k && MuestraDeLinea(lineas[ix[t]], parse) == Some(ms[t]))
      && (forall t, u :: 0 <= t < u < |ix| ==> ix[t] < ix[u])
      && (forall i :: LineasEncabezado <= i < k && MuestraDeLinea(lineas[i], parse).Some? ==> i in ix)
  {
    MuestraDeAceptada(lineas, k, parse);
    AceptadasOrdenadas(lineas, k, parse);
    AceptadasCompletas(lineas, k, parse);
  }

  /** The samples depend on the data lines alone: header lines never yield one. */
  lemma {:induction false} SoloLineasDeDatos(l1: seq<string>, l2: seq<string>, k: nat, parse: string -> Option<real>)
    requires k <= |l1| && k <= |l2| && forall i :: LineasEncabezado <= i < k ==> l1[i] == l2[i]
    ensures MuestrasHasta(l1, k, parse) == MuestrasHasta(l2, k, parse)
  {
    if k > LineasEncabezado {
      SoloLineasDeDatos(l1, l2, k - 1, parse);
    }
  }
}
