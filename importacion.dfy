/**
 * `ImportService` (js/services/import.service.js): a CSV or HTML-table (`.xls`) file is
 * read into candidate rows, and each row is validated on its own and, when accepted,
 * appended to the store under a fresh id. Reading the file, the DOM parser of the HTML
 * table, `JSON.parse` of the comments and `crypto.randomUUID` are parameters.
 */
module ImportService {
  import opened Wrappers
  import opened Strings
  import opened Numbers
  import opened Tareas
  import opened Listas
  import opened Storage
  import opened CsvTokens

  /** A candidate row before validation; `None` is `null` or `undefined`. */
  datatype FilaCruda = FilaCruda(
    titulo: Option<string>, detalle: Option<string>, proyecto: Option<string>,
    prioridad: Option<string>, plazoHoras: Option<string>, estado: Option<string>,
    fechaCreacion: Option<string>, fechaActivacion: Option<string>,
    fechaFinalizacion: Option<string>, comentarios: string)

  /** `values[i]`: `undefined` past the end. */
  function En(vs: seq<string>, i: nat): (r: Option<string>)
    ensures r.Some? <==> i < |vs|
    ensures r.Some? ==> r.value == vs[i]
  {
    if i < |vs| then Some(vs[i]) else None
  }

  /** `v || null` on a text: the empty text counts as absent. */
  function NoVacio(v: Option<string>): (r: Option<string>)
    ensures r.Some? <==> v.Some? && v.value != ""
    ensures r.Some? ==> r == v
  {
    if v.Some? && v.value != "" then v else None
  }

  // --- _parseCSV ---

  /** The row of the cleaned values of a line: position 0, the id in the file, is not read. */
  function CrudaDeValores(vs: seq<string>): FilaCruda {
    FilaCruda(En(vs, 1), En(vs, 2), En(vs, 3), En(vs, 4), En(vs, 5), En(vs, 6), En(vs, 7),
              NoVacio(En(vs, 8)), NoVacio(En(vs, 9)), NoVacio(En(vs, 10)).GetOr("[]"))
  }

  /** One data line: `None` (the `null` later filtered out) when nothing matches. */
  function LeerLinea(linea: string): (r: Option<FilaCruda>)
    ensures r.None? <==> Tokens(linea) == []
  {
    var toks := Tokens(linea);
    if toks == [] then None else Some(CrudaDeValores(Limpios(toks)))
  }

  /** `fila` is the row the line is read as. */
  predicate LineaLeida(linea: string, fila: FilaCruda) {
    LeerLinea(linea) == Some(fila)
  }

  /** A line the expression matches somewhere: one that `map` does not turn into `null`. */
  predicate Coincide(linea: string) {
    Tokens(linea) != []
  }

  /**
   * The candidate rows of the data lines: the lines with a match, in order, each read
   * as its row; the lines without a match are dropped.
   */
  function CrudasCsv(lineas: seq<string>): (r: seq<FilaCruda>)
    ensures |r| <= |lineas|
    ensures |r| == |lineas| <==> forall i :: 0 <= i < |lineas| ==> Coincide(lineas[i])
  {
    if lineas == [] then []
    else
      var resto := CrudasCsv(lineas[1..]);
      assert forall i :: 1 <= i < |lineas| ==> lineas[1..][i - 1] == lineas[i];
      match LeerLinea(lineas[0])
      case Some(f) => [f] + resto
      case None => resto
  }

  /** The rows of `CrudasCsv` are the rows of the lines with a match, one each, in order. */
  lemma {:induction false} CrudasCsvCoinciden(lineas: seq<string>)
    ensures |CrudasCsv(lineas)| == |Filtrar(lineas, Coincide)|
    ensures forall k :: 0 <= k < |CrudasCsv(lineas)| ==> LineaLeida(Filtrar(lineas, Coincide)[k], CrudasCsv(lineas)[k])
  {
    CrudasFiltradas(lineas, Coincide);
  }

  /** `CrudasCsv` against a filter by any test that holds exactly of the lines read as a row. */
  lemma {:induction false} CrudasFiltradas(lineas: seq<string>, p: string -> bool)
    requires forall l :: p(l) == LeerLinea(l).Some?
    ensures |CrudasCsv(lineas)| == |Filtrar(lineas, p)|
    ensures forall k :: 0 <= k < |CrudasCsv(lineas)| ==> LineaLeida(Filtrar(lineas, p)[k], CrudasCsv(lineas)[k])
  {
    if lineas != [] {
      CrudasFiltradas(lineas[1..], p);
      var resto := CrudasCsv(lineas[1..]);
      var quedan := Filtrar(lineas[1..], p);
      var todas := Filtrar(lineas, p);
      assert todas == (if p(lineas[0]) then [lineas[0]] else []) + quedan;
      if p(lineas[0]) {
        var f := LeerLinea(lineas[0]).value;
        assert CrudasCsv(lineas) == [f] + resto;
        assert todas == [lineas[0]] + quedan;
        LineasLeidasTrasUna(lineas[0], f, quedan, resto);
      } else {
        assert CrudasCsv(lineas) == resto;
        assert todas == quedan;
      }
    }
  }

  lemma {:induction false} LineasLeidasTrasUna(linea: string, f: FilaCruda, quedan: seq<string>, resto: seq<FilaCruda>)
    requires LineaLeida(linea, f) && |resto| == |quedan|
    requires forall k :: 0 <= k < |resto| ==> LineaLeida(quedan[k], resto[k])
    ensures forall k :: 0 <= k < 1 + |resto| ==> LineaLeida(([linea] + quedan)[k], ([f] + resto)[k])
  {
  }

  predicate NoBlanca(l: string) {
    !IsBlank(l)
  }

  /** The non-blank lines of the text. */
  function Lineas(texto: string): seq<string> {
    Filtrar(Split(texto, '\n'), NoBlanca)
  }

  /**
   * `_parseCSV`: nothing when there are fewer than two non-blank lines; otherwise the first
   * line (the header) is dropped and each other line with a match gives its row, in order.
   */
  function ParseCsv(texto: string): (r: seq<FilaCruda>)
    ensures |Lineas(texto)| < 2 ==> r == []
    ensures |Lineas(texto)| >= 2 ==> |r| <= |Lineas(texto)| - 1
    ensures |Lineas(texto)| >= 2 ==>
      |r| == |Filtrar(Lineas(texto)[1..], Coincide)|
      && forall k :: 0 <= k < |r| ==> LineaLeida(Filtrar(Lineas(texto)[1..], Coincide)[k], r[k])
  {
    var lineas := Lineas(texto);
    if |lineas| < 2 then []
    else
      CrudasCsvCoinciden(lineas[1..]);
      CrudasCsv(lineas[1..])
  }

  // --- _parseXLS ---

  /** The row of the ten cells of a table row; cell 9 empty reads as no comments. */
  function CrudaDeCeldas(celdas: seq<string>): (r: FilaCruda)
    requires |celdas| >= 10
    ensures r.titulo == Some(celdas[1]) && r.detalle == Some(celdas[2]) && r.proyecto == Some(celdas[3])
    ensures r.prioridad == Some(celdas[4]) && r.plazoHoras == Some(celdas[5]) && r.estado == Some(celdas[6])
    ensures r.fechaCreacion == Some(celdas[7])
    ensures r.fechaFinalizacion.None?
    ensures r.fechaActivacion.None? <==> celdas[8] == "null"
    ensures r.fechaActivacion.Some? ==> r.fechaActivacion.value == celdas[8]
    ensures celdas[9] == "" ==> r.comentarios == "[]"
    ensures celdas[9] != "" ==> r.comentarios == celdas[9]
  {
    FilaCruda(Some(celdas[1]), Some(celdas[2]), Some(celdas[3]), Some(celdas[4]), Some(celdas[5]),
              Some(celdas[6]), Some(celdas[7]), if celdas[8] == "null" then None else Some(celdas[8]),
              None, if celdas[9] == "" then "[]" else celdas[9])
  }

  /** A table row with at least the ten cells the parser reads. */
  predicate DiezCeldas(celdas: seq<string>) {
    |celdas| >= 10
  }

  /**
   * `_parseXLS`, over the cell texts of the body rows: the rows with at least ten cells,
   * in order, each read as its row; the rows with fewer are dropped.
   */
  function ParseXls(filas: seq<seq<string>>): (r: seq<FilaCruda>)
    ensures |r| <= |filas|
    ensures |r| == |filas| <==> forall i :: 0 <= i < |filas| ==> |filas[i]| >= 10
    ensures forall k :: 0 <= k < |r| ==> r[k].fechaFinalizacion.None?
  {
    if filas == [] then []
    else
      var resto := ParseXls(filas[1..]);
      assert forall i :: 1 <= i < |filas| ==> filas[1..][i - 1] == filas[i];
      if |filas[0]| < 10 then resto else [CrudaDeCeldas(filas[0])] + resto
  }

  /** The rows of `ParseXls` are the table rows with ten cells, each read as its row, in order. */
  lemma {:induction false} ParseXlsFiltradas(filas: seq<seq<string>>)
    ensures |ParseXls(filas)| == |Filtrar(filas, DiezCeldas)|
    ensures forall k :: 0 <= k < |ParseXls(filas)| ==>
      |Filtrar(filas, DiezCeldas)[k]| >= 10 && ParseXls(filas)[k] == CrudaDeCeldas(Filtrar(filas, DiezCeldas)[k])
  {
    if filas != [] {
      ParseXlsFiltradas(filas[1..]);
      var resto := ParseXls(filas[1..]);
      var quedan := Filtrar(filas[1..], DiezCeldas);
      var todas := Filtrar(filas, DiezCeldas);
      assert todas == (if DiezCeldas(filas[0]) then [filas[0]] else []) + quedan;
      if DiezCeldas(filas[0]) {
        assert ParseXls(filas) == [CrudaDeCeldas(filas[0])] + resto;
        assert todas == [filas[0]] + quedan;
        CeldasLeidasTrasUna(filas[0], quedan, resto);
      } else {
        assert ParseXls(filas) == resto;
        assert todas == quedan;
      }
    }
  }

  lemma {:induction false} CeldasLeidasTrasUna(celdas: seq<string>, quedan: seq<seq<string>>, resto: seq<FilaCruda>)
    requires |celdas| >= 10 && |resto| == |quedan|
    requires forall k :: 0 <= k < |resto| ==> |quedan[k]| >= 10 && resto[k] == CrudaDeCeldas(quedan[k])
    ensures forall k :: 0 <= k < 1 + |resto| ==>
      |([celdas] + quedan)[k]| >= 10 && ([CrudaDeCeldas(celdas)] + resto)[k] == CrudaDeCeldas(([celdas] + quedan)[k])
  {
    forall k | 1 <= k < 1 + |resto|
      ensures ([celdas] + quedan)[k] == quedan[k - 1] && ([CrudaDeCeldas(celdas)] + resto)[k] == resto[k - 1]
    {
    }
  }

  // --- _validarYGuardar ---

  /** What `JSON.parse` makes of the comments text: a syntax error, another value, or an array. */
  datatype JsonLeido = Invalido | NoArreglo | Arreglo(comentarios: seq<Comentario>)

  /** `!raw.campo`: missing or empty. */
  predicate Falta(v: Option<string>) {
    v.None? || v.value == ""
  }

  /** The comments to store: the parsed array, `[]` when the text is not a JSON array. */
  function ComentariosLeidos(leido: JsonLeido): seq<Comentario> {
    if leido.Arreglo? then leido.comentarios else []
  }

  /**
   * The record an accepted row is stored as, or `None` when the row is rejected: a
   * required field missing or empty, a `plazoHoras` that `parseInt` reads as `NaN` or as
   * at most 0, a `prioridad` or an `estado` that is not one of the known words once
   * lower-cased (a missing `estado` throws on `toLowerCase`, which also rejects the row).
   */
  function Validar(raw: FilaCruda, id: string, leer: string -> JsonLeido): (r: Option<Tarea>)
    ensures (Falta(raw.titulo) || Falta(raw.proyecto) || Falta(raw.detalle)
             || Falta(raw.prioridad) || Falta(raw.plazoHoras)) ==> r.None?
    ensures (raw.plazoHoras.Some? && (ParseInt(raw.plazoHoras.value).None? || ParseInt(raw.plazoHoras.value).value <= 0))
            ==> r.None?
    ensures raw.prioridad.Some? && PrioridadDeTexto(ToLowerAscii(raw.prioridad.value)).None? ==> r.None?
    ensures raw.estado.None? || EstadoDeTexto(ToLowerAscii(raw.estado.value)).None? ==> r.None?
    ensures r.Some? ==> (
      raw.titulo.Some? && raw.detalle.Some? && raw.proyecto.Some?
      && raw.prioridad.Some? && raw.plazoHoras.Some? && raw.estado.Some?
      && r.value.id == id
      && r.value.titulo == raw.titulo.value && r.value.titulo != ""
      && r.value.detalle == raw.detalle.value && r.value.detalle != ""
      && r.value.proyecto == raw.proyecto.value && r.value.proyecto != ""
      && ParseInt(raw.plazoHoras.value) == Some(r.value.plazoHoras) && r.value.plazoHoras > 0
      && r.value.prioridad.Texto() == ToLowerAscii(raw.prioridad.value)
      && r.value.estado.Texto() == ToLowerAscii(raw.estado.value)
      && r.value.fechaCreacion == raw.fechaCreacion.GetOr("")
      && r.value.fechaActivacion == NoVacio(raw.fechaActivacion)
      && r.value.fechaFinalizacion == NoVacio(raw.fechaFinalizacion)
      && r.value.tiempoRealHoras.None?
      && r.value.comentarios == ComentariosLeidos(leer(raw.comentarios)))
    ensures (!Falta(raw.titulo) && !Falta(raw.proyecto) && !Falta(raw.detalle)
             && !Falta(raw.prioridad) && !Falta(raw.plazoHoras) && raw.estado.Some?
             && ParseInt(raw.plazoHoras.value).Some? && ParseInt(raw.plazoHoras.value).value > 0
             && PrioridadDeTexto(ToLowerAscii(raw.prioridad.value)).Some?
             && EstadoDeTexto(ToLowerAscii(raw.estado.value)).Some?) ==> r.Some?
  {
    if Falta(raw.titulo) || Falta(raw.proyecto) || Falta(raw.detalle) || Falta(raw.prioridad) || Falta(raw.plazoHoras) then None
    else
      var plazo := ParseInt(raw.plazoHoras.value);
      if plazo.None? || plazo.value <= 0 then None
      else
        var prioridad := PrioridadDeTexto(ToLowerAscii(raw.prioridad.value));
        if prioridad.None? || raw.estado.None? then None
        else
          var estado := EstadoDeTexto(ToLowerAscii(raw.estado.value));
          if estado.None? then None
          else
            Some(Tarea(id, raw.titulo.value, raw.detalle.value, raw.proyecto.value, prioridad.value,
                       plazo.value, estado.value, raw.fechaCreacion.GetOr(""), NoVacio(raw.fechaActivacion),
                       NoVacio(raw.fechaFinalizacion), None, ComentariosLeidos(leer(raw.comentarios))))
  }

  /** `_persistirDirecto`: the record is appended to the stored list. */
  method PersistirDirecto(store: StorageService, t: Tarea)
    modifies store
    ensures store.pendientes == old(store.pendientes) + [t]
  {
    var lista := store.GetPendientes();
    lista := lista + [t];
    store.SavePendientes(lista);
  }

  /** `_validarYGuardar`: the checks in the order `_validarYGuardar` makes them, then the append. */
  method ValidarYGuardar(store: StorageService, raw: FilaCruda, id: string, leer: string -> JsonLeido)
    returns (ok: bool)
    modifies store
    ensures ok == Validar(raw, id, leer).Some?
    ensures ok ==> store.pendientes == old(store.pendientes) + [Validar(raw, id, leer).value]
    ensures !ok ==> store.pendientes == old(store.pendientes)
  {
    if Falta(raw.titulo) || Falta(raw.proyecto) || Falta(raw.detalle) || Falta(raw.prioridad) || Falta(raw.plazoHoras) {
      return false;
    }
    var plazo := ParseInt(raw.plazoHoras.value);
    if plazo.None? || plazo.value <= 0 {
      return false;
    }
    var prioridad := PrioridadDeTexto(ToLowerAscii(raw.prioridad.value));
    if prioridad.None? {
      return false;
    }
    if raw.estado.None? {
      return false;
    }
    var estado := EstadoDeTexto(ToLowerAscii(raw.estado.value));
    if estado.None? {
      return false;
    }
    var comentarios := ComentariosLeidos(leer(raw.comentarios));
    var importada := Tarea(id, raw.titulo.value, raw.detalle.value, raw.proyecto.value, prioridad.value,
                           plazo.value, estado.value, raw.fechaCreacion.GetOr(""), NoVacio(raw.fechaActivacion),
                           NoVacio(raw.fechaFinalizacion), None, comentarios);
    PersistirDirecto(store, importada);
    ok := true;
  }

  // --- importarArchivo ---

  /** The rows of the file by its extension; `None` for an unsupported name (the thrown error). */
  function Candidatas(nombre: string, contenido: string, celdasXls: string -> seq<seq<string>>): Option<seq<FilaCruda>> {
    if EndsWith(nombre, ".csv") then Some(ParseCsv(contenido))
    else if EndsWith(nombre, ".xls") then Some(ParseXls(celdasXls(contenido)))
    else None
  }

  /** The outcome of every row, row `i` offered the id `uuid(i)`. */
  function Validaciones(filas: seq<FilaCruda>, uuid: nat -> string, leer: string -> JsonLeido): (r: seq<Option<Tarea>>)
    ensures |r| == |filas|
  {
    seq(|filas|, i requires 0 <= i < |filas| => Validar(filas[i], uuid(i), leer))
  }

  /** The accepted records, in row order. */
  function Aceptadas(rs: seq<Option<Tarea>>): (r: seq<Tarea>)
    ensures |r| <= |rs|
  {
    if rs == [] then []
    else
      var u := rs[|rs| - 1];
      Aceptadas(rs[..|rs| - 1]) + (if u.Some? then [u.value] else [])
  }

  /** Every row is validated and stored on its own; the counters split the rows. */
  method GuardarFilas(store: StorageService, filas: seq<FilaCruda>, uuid: nat -> string, leer: string -> JsonLeido)
    returns (importados: nat, errores: nat)
    modifies store
    ensures importados + errores == |filas|
    ensures importados == |Aceptadas(Validaciones(filas, uuid, leer))|
    ensures store.pendientes == old(store.pendientes) + Aceptadas(Validaciones(filas, uuid, leer))
  {
    importados, errores := 0, 0;
    ghost var rs := Validaciones(filas, uuid, leer);
    for i := 0 to |filas|
      invariant importados + errores == i
      invariant importados == |Aceptadas(rs[..i])|
      invariant store.pendientes == old(store.pendientes) + Aceptadas(rs[..i])
    {
      ghost var antes := store.pendientes;
      var guardada := ValidarYGuardar(store, filas[i], uuid(i), leer);
      assert rs[i] == Validar(filas[i], uuid(i), leer);
      assert guardada == rs[i].Some?;
      assert store.pendientes == antes + (if rs[i].Some? then [rs[i].value] else []);
      AceptadasPaso(rs, i);
      if guardada {
        importados := importados + 1;
      } else {
        errores := errores + 1;
      }
    }
    assert rs[..|filas|] == rs;
  }

  lemma AceptadasPaso(rs: seq<Option<Tarea>>, i: nat)
    requires i < |rs|
    ensures Aceptadas(rs[..i + 1]) == Aceptadas(rs[..i]) + (if rs[i].Some? then [rs[i].value] else [])
  {
    assert rs[..i + 1][..i] == rs[..i];
  }

  /**
   * `importarArchivo`: `false` and nothing stored for an unsupported name or a file with no
   * rows; otherwise every row is validated and stored on its own, the two counters add up
   * to the number of rows, and the answer is `true`.
   */
  method ImportarArchivo(store: StorageService, nombre: string, contenido: string,
                         celdasXls: string -> seq<seq<string>>, leer: string -> JsonLeido, uuid: nat -> string)
    returns (ok: bool, importados: nat, errores: nat)
    modifies store
    ensures var filas := Candidatas(nombre, contenido, celdasXls);
      (filas.None? || filas.value == []) ==> !ok && store.pendientes == old(store.pendientes)
    ensures var filas := Candidatas(nombre, contenido, celdasXls);
      (filas.Some? && filas.value != []) ==> (
        ok && importados + errores == |filas.value|
        && importados == |Aceptadas(Validaciones(filas.value, uuid, leer))|
        && store.pendientes == old(store.pendientes) + Aceptadas(Validaciones(filas.value, uuid, leer)))
  {
    var filas: seq<FilaCruda>;
    if EndsWith(nombre, ".csv") {
      filas := ParseCsv(contenido);
    } else if EndsWith(nombre, ".xls") {
      filas := ParseXls(celdasXls(contenido));
    } else {
      return false, 0, 0;
    }
    if |filas| == 0 {
      return false, 0, 0;
    }
    importados, errores := GuardarFilas(store, filas, uuid, leer);
    ok := importados > 0 || errores > 0;
  }

  /** Row `i`, when accepted, is stored under `uuid(i)`. */
  lemma ValidacionesIds(filas: seq<FilaCruda>, uuid: nat -> string, leer: string -> JsonLeido)
    ensures var rs := Validaciones(filas, uuid, leer);
      forall i :: 0 <= i < |rs| && rs[i].Some? ==> rs[i].value.id == uuid(i)
  {
  }

  /** An id offered to a later row is carried by none of the records accepted before it. */
  lemma {:induction false} IdPosteriorLibre(rs: seq<Option<Tarea>>, m: nat, uuid: nat -> string)
    requires |rs| <= m
    requires forall i :: 0 <= i < |rs| && rs[i].Some? ==> rs[i].value.id == uuid(i)
    requires forall i :: 0 <= i < m ==> uuid(i) != uuid(m)
    ensures forall k :: 0 <= k < |Aceptadas(rs)| ==> Aceptadas(rs)[k].id != uuid(m)
  {
    if rs != [] {
      var previas := rs[..|rs| - 1];
      assert forall i :: 0 <= i < |previas| ==> previas[i] == rs[i];
      IdPosteriorLibre(previas, m, uuid);
    }
  }

  /**
   * With ids offered that differ from each other and from the stored ones, the store keeps
   * unique ids: the id in the file is never reused.
   */
  lemma {:induction false} ImportarConservaUnicos(ts: seq<Tarea>, rs: seq<Option<Tarea>>, uuid: nat -> string)
    requires IdsUnicos(ts)
    requires forall i :: 0 <= i < |rs| && rs[i].Some? ==> rs[i].value.id == uuid(i)
    requires forall i, j :: 0 <= i < j < |rs| ==> uuid(i) != uuid(j)
    requires forall i, k :: 0 <= i < |rs| && 0 <= k < |ts| ==> ts[k].id != uuid(i)
    ensures IdsUnicos(ts + Aceptadas(rs))
  {
    if rs != [] {
      var n := |rs| - 1;
      var previas := rs[..n];
      assert forall i :: 0 <= i < |previas| ==> previas[i] == rs[i];
      ImportarConservaUnicos(ts, previas, uuid);
      if rs[n].Some? {
        IdPosteriorLibre(previas, n, uuid);
        AnexarIdNuevo(ts, Aceptadas(previas), rs[n].value);
      } else {
        assert ts + Aceptadas(rs) == ts + Aceptadas(previas);
      }
    }
  }

  lemma AnexarIdNuevo(ts: seq<Tarea>, previas: seq<Tarea>, t: Tarea)
    requires IdsUnicos(ts + previas)
    requires forall k :: 0 <= k < |ts| ==> ts[k].id != t.id
    requires forall k :: 0 <= k < |previas| ==> previas[k].id != t.id
    ensures IdsUnicos(ts + (previas + [t]))
  {
    var u := ts + previas;
    assert ts + (previas + [t]) == u + [t];
    forall k | 0 <= k < |u|
      ensures u[k].id != t.id
    {
      if k >= |ts| {
        assert u[k] == previas[k - |ts|];
      }
    }
    forall i, j | 0 <= i < j < |u + [t]|
      ensures (u + [t])[i].id != (u + [t])[j].id
    {
      assert (u + [t])[i] == u[i];
      if j < |u| {
        assert (u + [t])[j] == u[j];
      }
    }
  }
}
