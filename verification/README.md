# Tensile-test analysis, modelled in Dafny

The backend of this system turns the text export of a tensile-test machine
into the three results of a test: peak stress, elongation at break and
Young's modulus. `procesarArchivoEnsayo` does the work:

- it reads the `Area;` metadata from the 23 header lines;
- it parses the `;`-separated data rows into (displacement, force) samples;
- it rejects files with fewer than five samples;
- it cuts off the toe region below 0.5 % of the peak force;
- it converts the samples to stress and strain;
- it fits a least-squares line (`regresionLineal`) to every six-point window,
  first in the 10–60 % band of peak stress and then, if that finds nothing,
  in a relaxed pass below 90 %;
- it corrects the zero offset and returns the results together with the
  (displacement, force) curve that is stored.

When a stored analysis is read back, stress and strain are re-derived from
that curve.

The model is organised as follows:

- `wrappers.dfy`: `Option` and `Result`.
- `texto.dfy`: the JavaScript string operations the reader relies on
  (`split`, `trim`, `replace` of the first occurrence, `includes`).
- `regresion.dfy`: `regresionLineal`. It has a specification function
  (`MinimosCuadrados`), the method with its summing loop, and the algebra
  that bounds R².
- `lectura.dfy`: the header and row loops, as methods proved against
  functions over the line list.
- `traccion.dfy`: the peak force, the toe scan (with its `break`), the
  stress/strain transform, and the projection stored and re-derived later.
- `ventana.dfy`: the two window passes, as methods with `continue`/`break`.
  Each is proved equal to a fold (`Escaneo`) up to the stopping index
  (`Fin`); the lemmas characterise the window each pass picks.
- `ensayo.dfy`: `procesarArchivoEnsayo` itself, as a method proved equal to
  the staged function `Procesar`, with lemmas on the results.
- `guardado.dfy`: the analysis route's handling of the area and constant
  fields, what it stores, and the re-derivation in the read route.

Numbers are `real`. `parseFloat` is a parameter `parse: string -> Option<real>`,
where `None` stands for `NaN`. The file's `area_archivo` is an `Option<real>`,
where `None` stands for `null` or `NaN`.

## Model

| member | source | states |
|---|---|---|
| Texto.Split | BACKEND/server.js:118 | `split` on one character never returns an empty list, and no piece contains the separator |
| Texto.JoinSplit | BACKEND/server.js:118 | joining the pieces of a split with the separator gives back the original text |
| Texto.SplitJoin | BACKEND/server.js:125 | splitting a join of separator-free pieces gives back the pieces |
| Texto.SplitSinSeparador | BACKEND/server.js:136 | a text without the separator splits into itself alone |
| Texto.TrimStartSufijo | BACKEND/server.js:134 | dropping leading whitespace leaves a suffix that starts with a non-space, and everything dropped was whitespace |
| Texto.TrimEndPrefijo | BACKEND/server.js:134 | dropping trailing whitespace leaves a prefix that ends with a non-space, and everything dropped was whitespace |
| Texto.TrimVacio | BACKEND/server.js:134-135 | a line trims to empty (and is skipped) exactly when all its characters are whitespace |
| Texto.ReemplazarPrimero | BACKEND/server.js:126 | `replace` with a one-character pattern changes only the first occurrence and keeps the length |
| Texto.Decimal | BACKEND/server.js:138-139 | a field without a comma is handed to the parser unchanged |
| Texto.Contiene | BACKEND/server.js:124 | `includes` holds exactly when the pattern occurs at some index |
| Regresion.Sumas | BACKEND/server.js:95-100 | the loop leaves Σx, Σy, Σxy and Σx² of all the points |
| Regresion.RegresionLineal | BACKEND/server.js:91-115 | the result is the least-squares fit: the all-zero fit on a zero denominator, otherwise the slope and intercept from the sums and R² = 1 − SS_res/SS_tot (0 when SS_tot is 0) |
| Regresion.PuntoMedio | BACKEND/server.js:102-109 | with a non-zero denominator there is at least one point, the slope solves the normal equation, and the line passes through the mean point |
| Regresion.R2Acotado | BACKEND/server.js:102-112 | a zero denominator gives the all-zero fit, constant y gives R² = 0, and R² always lies in [0, 1] |
| Regresion.SumasRecta | BACKEND/server.js:95-100 | for points on a line y = m0·x + b0 the accumulated sums satisfy Σy = m0·Σx + n·b0 and Σxy = m0·Σx² + Σx·b0 |
| Regresion.RectaExacta | BACKEND/server.js:102-109 | points on a line with a non-zero denominator are fitted with exactly that line's slope and intercept |
| Regresion.SinResiduo | BACKEND/server.js:110 | the residual sum of squares about the line the points lie on is 0 |
| Regresion.RectaR2 | BACKEND/server.js:102-112 | points on a line, not all with the same y, are fitted with R² = 1 |
| Regresion.ResiduoAcotado | BACKEND/server.js:105-112 | for the least-squares slope and intercept, SS_res never exceeds SS_tot |
| Regresion.DenominadorCero | BACKEND/server.js:102-103 | the denominator n·Σx² − (Σx)² is never negative and is 0 when every x is the same |
| Lectura.Lineas | BACKEND/server.js:118 | the file always has at least one line |
| Lectura.LeerAreaArchivo | BACKEND/server.js:119-128 | the header loop yields the area of the function `AreaArchivo` over the first 23 lines |
| Lectura.SinAreaNula | BACKEND/server.js:119-127 | with no line that sets an area, the area stays null |
| Lectura.UltimaArea | BACKEND/server.js:122-127 | a line that sets an area decides it when no later header line sets one |
| Lectura.UltimaAreaGana | BACKEND/server.js:122-127 | with no `Area;` line the area is null; otherwise the last such line decides it |
| Lectura.AreaSoloEncabezado | BACKEND/server.js:122 | files that agree on the header lines read the same area |
| Lectura.MuestraDeLinea | BACKEND/server.js:134-140 | a line yields a sample exactly when, trimmed, it is non-empty, has at least four `;`-fields and fields 1 and 3 parse after the comma fix; the sample holds those two numbers |
| Lectura.LineaEnBlanco | BACKEND/server.js:134-135 | a whitespace-only line yields no sample |
| Lectura.ExtraerMuestras | BACKEND/server.js:132-142 | the row loop yields exactly the samples of the function `Muestras` |
| Lectura.OrigenMuestras | BACKEND/server.js:133-141 | each sample comes from an accepted data line (index ≥ 23), in file order, and every accepted line contributes one |
| Lectura.MuestraDeAceptada | BACKEND/server.js:133-141 | there are as many samples as accepted lines, and the `t`-th sample is the one the `t`-th accepted data line yields |
| Lectura.AceptadasOrdenadas | BACKEND/server.js:133 | the accepted lines come in strictly increasing (file) order |
| Lectura.AceptadasCompletas | BACKEND/server.js:133-140 | every data line that yields a sample is accepted |
| Lectura.SoloLineasDeDatos | BACKEND/server.js:133 | the samples do not depend on the header lines |
| Traccion.Maximo | BACKEND/server.js:147 | `Math.max` of a non-empty list is an element of it and bounds every element |
| Traccion.PrimeraSobre | BACKEND/server.js:151-153 | the first index from a start whose force exceeds the threshold; all forces before it are at most the threshold |
| Traccion.InicioTraccion | BACKEND/server.js:150-153 | the toe start is the first force above the threshold, or 0 when none exceeds it |
| Traccion.BuscarInicio | BACKEND/server.js:150-153 | the scan with `break` yields `InicioTraccion` |
| Traccion.InicioMonotono | BACKEND/server.js:148-152 | a higher threshold never moves the toe start earlier, as long as some force exceeds it |
| Traccion.InicioSobreRuido | BACKEND/server.js:147-153 | with a positive peak force the toe start is a sample above 0.5 % of it |
| Traccion.Convertir | BACKEND/server.js:158-165 | each sample gets displacement from the toe start, stress·area = force·constant and strain·gauge length = displacement |
| Traccion.Ajustar | BACKEND/server.js:155-166 | `datos_ajustados` has one entry per sample from the toe start on, in order, with the first displacement 0 and the per-sample relations |
| Traccion.Proyectar | BACKEND/server.js:231-234 | `datos_procesados` keeps displacement and force of every entry, in order |
| Traccion.Rederivar | BACKEND/server.js:423-428 | each stored pair is re-derived with stress·area = force·constant and strain·gauge length = displacement, in order |
| Traccion.RederivarProyeccion | BACKEND/server.js:231-234 | storing only (displacement, force) and re-deriving with the same area, gauge length and constant gives back `datos_ajustados` |
| Ventana.Puntos | BACKEND/server.js:189-190 | a window holds six consecutive (strain, stress) points, fewer at the end of the curve |
| Ventana.PuntosVentana | BACKEND/server.js:189-190 | the window built by the loop equals `Puntos` |
| Ventana.FinDesde | BACKEND/server.js:182-187 | a pass stops at the first visited start that is past the limit or breaks the loop |
| Ventana.Fin | BACKEND/server.js:182-187 | every start a pass reaches is below `length − 6` and does not break the loop |
| Ventana.BusquedaPrimaria | BACKEND/server.js:178-200 | the primary loop with `continue`/`break` leaves the best-so-far of the fold `Escaneo` up to `Fin` |
| Ventana.BusquedaRelajada | BACKEND/server.js:203-215 | the relaxed loop with step 2 leaves the best-so-far of the same fold for the relaxed pass |
| Ventana.Actualizar | BACKEND/server.js:195-199 | a window replaces the best so far only when its R² passes and its slope is strictly larger; then slope and intercept are the window's, and R² too in the primary pass only |
| Ventana.PasoRelajado | BACKEND/server.js:204 | the relaxed loop's step of 2 skips no visited start: two steps of the fold are one window update |
| Ventana.EscaneoCota | BACKEND/server.js:195-199 | the best slope never drops below its start and bounds every candidate's slope; the relaxed pass never changes R² |
| Ventana.EscaneoTestigo | BACKEND/server.js:195-199 | unless nothing changed, the best so far is the window of a candidate strictly steeper than every earlier candidate |
| Ventana.EligeUltima | BACKEND/server.js:195-199 | a candidate steeper than the best so far becomes the chosen window |
| Ventana.EscaneoElige | BACKEND/server.js:195-199 | the steepest accepted window wins (the first one on ties), its slope bounds every candidate's, and the relaxed pass never changes R² |
| Ventana.SinPendiente | BACKEND/server.js:203 | a pass that ends with slope 0 accepted no window with a positive slope and changed nothing |
| Ventana.VentanasConsideradas | BACKEND/server.js:182-187 | the windows a pass fits start below `length − 6`; in the primary pass their first stress lies in 10–60 % of the peak, in the relaxed pass below 90 % |
| Ventana.PocasMuestras | BACKEND/server.js:182 | with at most six points no window is fitted |
| Ensayo.AreaEfectiva | BACKEND/server.js:129 | `area_usuario \|\| area_archivo` is a usable non-zero area exactly when the user's area or the file's is one, and the user's wins when it is |
| Ensayo.OffsetDeformacion | BACKEND/server.js:218-221 | with a positive modulus and a negative intercept, the positive strain where the line crosses zero stress; otherwise 0 |
| Ensayo.Elongacion | BACKEND/server.js:224-229 | the corrected peak strain in percent, clamped at 0 |
| Ensayo.Inicio | BACKEND/server.js:147-153 | the toe start of a non-empty sample list is a valid index |
| Ensayo.Busquedas | BACKEND/server.js:203 | the modulus after both passes is never negative, and a modulus of 0 means no window was accepted, so intercept and R² are 0 too |
| Ensayo.ProcesarArchivoEnsayo | BACKEND/server.js:117-237 | the whole procedure yields the staged analysis `Procesar` |
| Ensayo.FallaSiPocasMuestras | BACKEND/server.js:144 | the analysis fails exactly when the file yields fewer than five samples |
| Ensayo.RespaldoSinR2 | BACKEND/server.js:202-215 | the fallback starts from the initial values and leaves R² at 0; the reported R² is 0 or above 0.96 with a positive modulus |
| Ensayo.ModuloDeVentana | BACKEND/server.js:182-215 | a positive modulus is the slope of a six-point window of the curve whose R² exceeds 0.90, and exceeds 0.96 when the primary pass found a window |
| Ensayo.SinVentanas | BACKEND/server.js:182-215 | a curve of at most six points gives modulus 0 and R² 0 |
| Ensayo.DatosProcesados | BACKEND/server.js:155-234 | the stored curve has one pair per sample from the toe start on, in order, with displacement relative to the toe start and the first displacement 0 |
| Ensayo.TensionMaxima | BACKEND/server.js:423-428 | the peak stress is the maximum of the stresses re-derived from the stored curve |
| Ensayo.Resultados | BACKEND/server.js:169-236 | modulus ≥ 0, R² is 0 or > 0.96, elongation between 0 and the uncorrected peak strain in percent (equal to it without a modulus), and no modulus with at most six points past the toe |
| Ensayo.CincoMuestras | BACKEND/server.js:144-215 | a file with exactly five samples is accepted but gets modulus 0 |
| Guardado.AreaUsuario | BACKEND/server.js:366 | the area handed to the analysis is absent exactly when the field is empty or not a number, and is the field's number otherwise |
| Guardado.AreaDelFormulario | BACKEND/server.js:366 | the analysis uses the file's area when the area field is empty, not a number or 0, and the field's number otherwise; it gets a usable non-zero area exactly when the field or the file supplies one |
| Guardado.ConstanteUsada | BACKEND/server.js:368 | the constant the analysis uses is the parsed field when it is a non-zero number, otherwise 0.949; never 0 |
| Guardado.AreaGuardadaComoEscrita | BACKEND/server.js:371 | as written, the stored area differs from the area the analysis used only when the field is present but not a number or 0 |
| Guardado.ConstanteGuardadaComoEscrita | BACKEND/server.js:383 | as written, the stored constant differs from the one the analysis used only when the field is present but not a number or 0 |
| Guardado.AreaComoEscritaDifiere | BACKEND/server.js:371 | as written, an area field "0" is ignored by the analysis but stored as 0 |
| Guardado.ConstanteComoEscritaDifiere | BACKEND/server.js:383 | as written, a constant field "0" is replaced by 0.949 in the analysis but stored as 0, so the re-derived curve differs from the analysed one |
| Guardado.AreaGuardada | BACKEND/server.js:371 | the stored area is the one the analysis used |
| Guardado.ConstanteGuardada | BACKEND/server.js:383 | the stored constant is the one the analysis used, never 0 |
| Guardado.ReabrirReproduce | BACKEND/server.js:365-428 | with the area and constant the analysis used stored, re-deriving the stored curve reproduces the analysed stress/strain curve |

## Left out

- Express routes, authentication, the database, and the other routes are
  left out. So are the `try`/`catch` around `JSON.parse` in the read route
  and the route's 400 response for missing fields. These are I/O with no
  local logic.
- IEEE-754 arithmetic is left out: numbers are exact reals, with no
  rounding, `NaN` or `Infinity`. Division by a zero area or gauge length,
  which yields `Infinity` or `NaN` in the source, is excluded by
  preconditions instead.
- `parseFloat` is left out: it is a parameter, so its lenient prefix
  parsing is not modelled.
- Ensayo.Procesar: requires (`Parametros`) a non-zero effective area and
  gauge length once the file has five samples. The source goes on and
  computes with `Infinity`/`NaN`.
- Ensayo.Analizar: requires a non-zero area and gauge length, for the same
  reason.
- `Math.max(...)` argument-count limits on very long files are left out.
- The `|| 0` fallback on `desplazamiento_inicial` is not modelled: the
  index always exists, and the displacement there has passed the `isNaN`
  filter, so `d || 0` equals `d`.
- Regresion.DenominadorCero: proves only that equal x values give a zero
  denominator, not the converse.
- Ensayo.CincoMuestras: a five-sample file gets modulus 0, even one that
  rises linearly such as (0,0), (1,10), (2,20), (3,30), (4,5). No window is
  fitted unless the curve has more than six points.
- Guardado.ConstanteGuardadaComoEscrita: the stored text is read back
  through the same `parse`. SQLite's conversion of a non-numeric text in a
  REAL column is not modelled. The stored gauge length is likewise taken
  to be the parsed one.

## Findings

| source | as written | input that shows it | evidently intended | confidence | as-written member | corrected member |
|---|---|---|---|---|---|---|
| BACKEND/server.js:371 | the stored area is `area ? parseFloat(area) : area_archivo` | the area sent as the text "0" (an urlencoded form field, or a JSON string) with an `Area;` line in the file: the analysis uses the file's area, the stored area is 0; a JSON number 0 is falsy in both expressions and is stored consistently | store the area the analysis used, `parseFloat(area) \|\| area_archivo` | not executed | Guardado.AreaComoEscritaDifiere | Guardado.ReabrirReproduce |
| BACKEND/server.js:383 | the stored constant is `constante \|\| 0.949`, the raw field | the constant sent as the text "0" (an urlencoded form field, or a JSON string): the analysis uses 0.949, the stored constant 0 makes every re-derived stress 0; a JSON number 0 is falsy in both expressions and is stored consistently as 0.949 | store `parseFloat(constante) \|\| 0.949`, the constant the analysis used | not executed | Guardado.ConstanteComoEscritaDifiere | Guardado.ReabrirReproduce |
