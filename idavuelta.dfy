/**
 * What the import makes of the files the export writes. For records whose texts hold no
 * quote and no line terminator and whose comment list is empty, both formats come back
 * as the same records under fresh ids (the table from the cell texts it was written with,
 * taken as what the host parser returns). A non-empty comment list never does: the CSV
 * tokenizer ends the comments cell early, and the HTML table hands `JSON.parse` the text
 * with its quotes doubled.
 */
module IdaYVuelta {
  import opened Wrappers
  import opened Strings
  import opened Numbers
  import opened Tareas
  import opened Listas
  import opened CsvTokens
  import opened ExportService
  import opened ImportService

  // --- Doubled quotes ---

  /** A text with a quote grows when its quotes are doubled. */
  lemma {:induction false} DoblarAlarga(s: string)
    requires '"' in s
    ensures |DoblarComillas(s)| > |s|
  {
    if s[0] != '"' {
      assert '"' in s[1..] by {
        var i :| 0 <= i < |s| && s[i] == '"';
        assert s[1..][i - 1] == '"';
      }
      DoblarAlarga(s[1..]);
    }
  }

  // --- CSV rows ---

  /** The texts of the cells, before quoting. */
  function DatosCsv(vs: seq<Valor>): (r: seq<string>)
    ensures |r| == |vs|
    ensures forall i :: 0 <= i < |r| ==> r[i] == DatoCsv(vs[i])
  {
    if vs == [] then [] else [DatoCsv(vs[0])] + DatosCsv(vs[1..])
  }

  /** The texts of the eleven cells of an exported row. */
  function Datos(f: FilaExportada): (r: seq<string>)
    ensures |r| == 11
  {
    DatosCsv(Valores(f))
  }

  /** Each CSV cell is its text between quotes. */
  lemma {:induction false} CeldasEntreComillas(vs: seq<Valor>)
    ensures CeldasCsv(vs) == Entres(DatosCsv(vs))
  {
  }

  /** A line of readable quoted cells is read back cell by cell. */
  lemma {:induction false} LeerLineaCeldas(ds: seq<string>)
    requires |ds| >= 1 && TodasLegibles(ds)
    ensures LeerLinea(Join(Entres(ds), ',')) == Some(CrudaDeValores(ds))
  {
    var linea := Join(Entres(ds), ',');
    var vacia: string := [];
    TokensCeldas(ds, vacia);
    assert linea + vacia == linea;
    assert Tokens(vacia) == [];
    var toks := Tokens(linea);
    assert toks == Entres(ds);
    LimpiosEntres(ds);
    assert Limpios(toks) == ds;
  }

  /** A line written by the export whose cells are all readable is read back cell by cell. */
  lemma {:induction false} LeerLineaExportada(f: FilaExportada)
    requires TodasLegibles(Datos(f))
    ensures LeerLinea(FilaCsv(f)) == Some(CrudaDeValores(Datos(f)))
  {
    CeldasEntreComillas(Valores(f));
    LeerLineaCeldas(Datos(f));
  }

  /** The first character of a join is the first character of its first part. */
  lemma {:induction false} JoinPrimero(parts: seq<string>, sep: char)
    requires |parts| >= 1 && |parts[0]| >= 1
    ensures |Join(parts, sep)| >= 1 && Join(parts, sep)[0] == parts[0][0]
  {
  }

  lemma {:induction false} EncabezadoNoBlanco()
    ensures NoBlanca(Join(EncabezadosCsv, ','))
  {
    var h := Join(EncabezadosCsv, ',');
    JoinPrimero(EncabezadosCsv, ',');
    assert EncabezadosCsv[0][0] == 'i';
  }

  lemma {:induction false} FilasNoBlancas(datos: seq<FilaExportada>)
    ensures forall k :: 0 <= k < |FilasCsv(datos)| ==> NoBlanca(FilasCsv(datos)[k])
  {
    forall k | 0 <= k < |datos|
      ensures NoBlanca(FilaCsv(datos[k]))
    {
      var cs := CeldasCsv(Valores(datos[k]));
      JoinPrimero(cs, ',');
    }
  }

  /** Lines each read as one row give those rows, in order. */
  lemma {:induction false} CrudasLeidas(lineas: seq<string>, crudas: seq<FilaCruda>)
    requires |lineas| == |crudas|
    requires forall k :: 0 <= k < |lineas| ==> LeerLinea(lineas[k]) == Some(crudas[k])
    ensures CrudasCsv(lineas) == crudas
  {
    if lineas != [] {
      CrudasLeidas(lineas[1..], crudas[1..]);
      assert crudas == [crudas[0]] + crudas[1..];
    }
  }

  /** The rows the import reads from exported lines: the cell texts of each. */
  function CrudasExportadas(datos: seq<FilaExportada>): (r: seq<FilaCruda>)
    ensures |r| == |datos|
    ensures forall k :: 0 <= k < |r| ==> r[k] == CrudaDeValores(Datos(datos[k]))
  {
    if datos == [] then [] else [CrudaDeValores(Datos(datos[0]))] + CrudasExportadas(datos[1..])
  }

  /** Every cell of every row is read back whole. */
  predicate FilasLegibles(datos: seq<FilaExportada>) {
    forall k :: 0 <= k < |datos| ==> TodasLegibles(Datos(datos[k]))
  }

  /** The data lines are read one row each, in order. */
  lemma {:induction false} CrudasDeFilas(datos: seq<FilaExportada>)
    requires FilasLegibles(datos)
    ensures CrudasCsv(FilasCsv(datos)) == CrudasExportadas(datos)
  {
    var crudas := CrudasExportadas(datos);
    forall k | 0 <= k < |datos|
      ensures LeerLinea(FilasCsv(datos)[k]) == Some(crudas[k])
    {
      LeerLineaExportada(datos[k]);
    }
    CrudasLeidas(FilasCsv(datos), crudas);
  }

  /** The data lines of the CSV written for `datos`, header dropped, all non-blank. */
  lemma {:induction false} LineasExportadas(datos: seq<FilaExportada>)
    ensures Lineas(ContenidoCsv(datos)) == [Join(EncabezadosCsv, ',')] + FilasCsv(datos)
  {
    var h := Join(EncabezadosCsv, ',');
    var lineas := [h] + FilasCsv(datos);
    ContenidoCsvLineas(datos);
    EncabezadoNoBlanco();
    FilasNoBlancas(datos);
    forall k | 0 <= k < |lineas|
      ensures NoBlanca(lineas[k])
    {
      if k > 0 {
        assert lineas[k] == FilasCsv(datos)[k - 1];
      }
    }
    FiltrarTodos(lineas, NoBlanca);
  }

  /**
   * The CSV the export writes, with readable cells, parses into one row per exported row,
   * in order, each holding the cell texts; with no rows it parses into nothing.
   */
  lemma {:induction false} ParseCsvExportado(datos: seq<FilaExportada>)
    requires FilasLegibles(datos)
    ensures ParseCsv(ContenidoCsv(datos)) == CrudasExportadas(datos)
  {
    var lineas := [Join(EncabezadosCsv, ',')] + FilasCsv(datos);
    LineasExportadas(datos);
    assert lineas[1..] == FilasCsv(datos);
    CrudasDeFilas(datos);
  }

  // --- Records ---

  /**
   * A record whose CSV row comes back: importable, with texts that hold no quote and no
   * line terminator.
   */
  predicate Exportable(t: Tarea) {
    Importable(t)
    && Legible(t.id) && Legible(t.titulo) && Legible(t.detalle) && Legible(t.proyecto)
    && Legible(t.fechaCreacion) && Legible(t.fechaActivacion.GetOr("")) && Legible(t.fechaFinalizacion.GetOr(""))
  }

  lemma {:induction false} TextoSinSaltos(s: string)
    requires Legible(s)
    ensures DatoCsv(Texto(s)) == s
  {
    if s != "" {
      assert !IsLineTerminator('\r') ==> '\r' !in s;
      assert '\r' !in s && '\n' !in s;
    }
  }

  lemma {:induction false} NumeralLegible(n: int)
    requires n > 0
    ensures DatoCsv(Numero(n)) == IntToString(n) && Legible(IntToString(n))
  {
    var r := IntToString(n);
    assert AllDigits(r);
  }

  /** Lower-case ASCII letters only. */
  predicate Minusculas(s: string) {
    forall i :: 0 <= i < |s| ==> 'a' <= s[i] <= 'z'
  }

  lemma {:induction false} MinusculasLegibles(s: string)
    requires Minusculas(s)
    ensures Legible(s) && ToLowerAscii(s) == s && DatoCsv(Texto(s)) == s
  {
    TextoSinSaltos(s);
  }

  lemma {:induction false} PalabrasMinusculas(p: Prioridad, e: Estado)
    ensures Minusculas(p.Texto()) && Minusculas(e.Texto())
  {
  }

  lemma {:induction false} ComentariosVacios()
    ensures DoblarComillas(ComentariosJson([])) == "[]"
    ensures Legible("[]") && DatoCsv(Texto("[]")) == "[]"
  {
    assert ComentariosJson([]) == "[]";
    TextoSinSaltos("[]");
  }

  /**
   * The required texts not empty, a positive `plazoHoras`, no comments and no date that
   * is the empty text: what the validation needs to take the record back as it was.
   */
  predicate Importable(t: Tarea) {
    t.titulo != "" && t.detalle != "" && t.proyecto != ""
    && t.plazoHoras > 0 && t.comentarios == []
    && t.fechaActivacion != Some("") && t.fechaFinalizacion != Some("")
  }

  /** `raw` is what the import reads from the row the export writes for `t`. */
  predicate LeidaDe(raw: FilaCruda, t: Tarea) {
    raw.titulo == Some(t.titulo) && raw.detalle == Some(t.detalle) && raw.proyecto == Some(t.proyecto)
    && raw.prioridad == Some(t.prioridad.Texto()) && raw.plazoHoras == Some(IntToString(t.plazoHoras))
    && raw.estado == Some(t.estado.Texto()) && raw.fechaCreacion == Some(t.fechaCreacion)
    && NoVacio(raw.fechaActivacion) == t.fechaActivacion
    && NoVacio(raw.fechaFinalizacion) == t.fechaFinalizacion
    && raw.comentarios == "[]"
  }

  /** A value whose cell the CSV tokenizer reads back whole. */
  predicate ValorLegible(v: Valor) {
    match v
    case Texto(s) => Legible(s)
    case Numero(n) => n > 0
  }

  lemma {:induction false} DatoLegible(v: Valor)
    requires ValorLegible(v)
    ensures Legible(DatoCsv(v))
    ensures v.Texto? ==> DatoCsv(v) == v.s
    ensures v.Numero? ==> DatoCsv(v) == IntToString(v.n)
  {
    match v
    case Texto(s) => TextoSinSaltos(s);
    case Numero(n) => NumeralLegible(n);
  }

  /** An exported row whose every cell the tokenizer reads back whole. */
  predicate FilaLegible(f: FilaExportada) {
    Legible(f.id) && Legible(f.titulo) && Legible(f.detalle) && Legible(f.proyecto)
    && Legible(f.prioridad) && f.plazoHoras > 0 && Legible(f.estado) && Legible(f.fechaCreacion)
    && Legible(f.fechaActivacion) && Legible(f.fechaFinalizacion) && Legible(f.comentarios)
  }

  /** The cell texts of a readable row are its fields, the number written in decimal. */
  lemma {:induction false} DatosDeFila(f: FilaExportada)
    requires FilaLegible(f)
    ensures TodasLegibles(Datos(f))
    ensures CrudaDeValores(Datos(f))
            == FilaCruda(Some(f.titulo), Some(f.detalle), Some(f.proyecto), Some(f.prioridad),
                         Some(IntToString(f.plazoHoras)), Some(f.estado), Some(f.fechaCreacion),
                         NoVacio(Some(f.fechaActivacion)), NoVacio(Some(f.fechaFinalizacion)),
                         NoVacio(Some(f.comentarios)).GetOr("[]"))
  {
    var vs := Valores(f);
    var ds := Datos(f);
    assert forall i :: 0 <= i < 11 ==> ValorLegible(vs[i]);
    forall i | 0 <= i < 11
      ensures Legible(ds[i])
      ensures vs[i].Texto? ==> ds[i] == vs[i].s
    {
      DatoLegible(vs[i]);
    }
    DatoLegible(vs[5]);
  }

  /** The texts of the cells of an exportable record are its fields as they are, all readable. */
  lemma {:induction false} DatosExportables(t: Tarea)
    requires Exportable(t)
    ensures TodasLegibles(Datos(Preparada(t)))
    ensures LeidaDe(CrudaDeValores(Datos(Preparada(t))), t)
  {
    var f := Preparada(t);
    PalabrasMinusculas(t.prioridad, t.estado);
    MinusculasLegibles(t.prioridad.Texto());
    MinusculasLegibles(t.estado.Texto());
    ComentariosVacios();
    DatosDeFila(f);
    FechaOpcional(t.fechaActivacion);
    FechaOpcional(t.fechaFinalizacion);
  }

  /** An optional date that is never the empty text is what its non-empty cell reads as. */
  lemma {:induction false} FechaOpcional(d: Option<string>)
    requires d != Some("")
    ensures NoVacio(Some(d.GetOr(""))) == d
  {
  }

  /** The lower-case words of the enumerations are their own lower case. */
  lemma {:induction false} PalabrasEnMinusculas(p: Prioridad, e: Estado)
    ensures ToLowerAscii(p.Texto()) == p.Texto() && ToLowerAscii(e.Texto()) == e.Texto()
  {
    PalabrasMinusculas(p, e);
    MinusculasLegibles(p.Texto());
    MinusculasLegibles(e.Texto());
  }

  /** A row read back from a record the validation accepts gives the record under the new id. */
  lemma {:induction false} ValidarLeida(raw: FilaCruda, t: Tarea, id: string, leer: string -> JsonLeido)
    requires Importable(t) && LeidaDe(raw, t) && leer("[]") == Arreglo([])
    ensures Validar(raw, id, leer) == Some(t.(id := id, tiempoRealHoras := None))
  {
    ParseIntOfNatToString(t.plazoHoras);
    PalabrasEnMinusculas(t.prioridad, t.estado);
    assert PrioridadDeTexto(ToLowerAscii(raw.prioridad.value)) == Some(t.prioridad);
    assert EstadoDeTexto(ToLowerAscii(raw.estado.value)) == Some(t.estado);
    var r := Validar(raw, id, leer);
    assert r.Some?;
    assert r.value.comentarios == [];
    assert r.value.prioridad == t.prioridad && r.value.estado == t.estado;
  }

  /** The row of an exportable record validates into that record under the new id. */
  lemma {:induction false} ValidarExportable(t: Tarea, id: string, leer: string -> JsonLeido)
    requires Exportable(t) && leer("[]") == Arreglo([])
    ensures Validar(CrudaDeValores(Datos(Preparada(t))), id, leer) == Some(t.(id := id, tiempoRealHoras := None))
  {
    DatosExportables(t);
    ValidarLeida(CrudaDeValores(Datos(Preparada(t))), t, id, leer);
  }

  /** The unfinished records of a store whose unfinished records are all exportable. */
  lemma {:induction false} ExportablesFiltradas(ts: seq<Tarea>)
    requires forall i :: 0 <= i < |ts| && NoFinalizada(ts[i]) ==> Exportable(ts[i])
    ensures var v := Filtrar(ts, NoFinalizada); forall k :: 0 <= k < |v| ==> Exportable(v[k])
  {
    var v := Filtrar(ts, NoFinalizada);
    forall k | 0 <= k < |v|
      ensures Exportable(v[k])
    {
      assert v[k] in v;
    }
  }

  /** The exported rows are the rows of the unfinished records, in order. */
  lemma {:induction false} FilasPreparadas(ts: seq<Tarea>)
    ensures var v := Filtrar(ts, NoFinalizada);
      |PrepararDatos(ts)| == |v| && forall k :: 0 <= k < |v| ==> PrepararDatos(ts)[k] == Preparada(v[k])
  {
  }

  /** The rows of exportable records are read back as those records. */
  lemma {:induction false} PreparadasLeidas(v: seq<Tarea>, datos: seq<FilaExportada>)
    requires |datos| == |v|
    requires forall k :: 0 <= k < |v| ==> Exportable(v[k]) && datos[k] == Preparada(v[k])
    ensures FilasLegibles(datos)
    ensures forall k :: 0 <= k < |v| ==> LeidaDe(CrudasExportadas(datos)[k], v[k])
  {
    forall k | 0 <= k < |v|
      ensures TodasLegibles(Datos(datos[k])) && LeidaDe(CrudasExportadas(datos)[k], v[k])
    {
      DatosExportables(v[k]);
    }
  }

  /** Rows read back from importable records validate into those records under their ids. */
  lemma {:induction false} ValidacionesLeidas(crudas: seq<FilaCruda>, v: seq<Tarea>, uuid: nat -> string, leer: string -> JsonLeido)
    requires |crudas| == |v| && leer("[]") == Arreglo([])
    requires forall k :: 0 <= k < |v| ==> Importable(v[k]) && LeidaDe(crudas[k], v[k])
    ensures var rs := Validaciones(crudas, uuid, leer);
      |rs| == |v| && forall k :: 0 <= k < |v| ==> rs[k] == Some(v[k].(id := uuid(k), tiempoRealHoras := None))
  {
    forall k | 0 <= k < |v|
      ensures Validaciones(crudas, uuid, leer)[k] == Some(v[k].(id := uuid(k), tiempoRealHoras := None))
    {
      ValidarLeida(crudas[k], v[k], uuid(k), leer);
    }
  }

  /**
   * Exporting to CSV and importing the file back stores each exported (unfinished) record,
   * in order, with the id offered to its row and no `tiempoRealHoras`.
   */
  lemma {:induction false} CsvIdaYVuelta(ts: seq<Tarea>, uuid: nat -> string, leer: string -> JsonLeido)
    requires forall i :: 0 <= i < |ts| && NoFinalizada(ts[i]) ==> Exportable(ts[i])
    requires leer("[]") == Arreglo([])
    ensures var v := Filtrar(ts, NoFinalizada);
      var rs := Validaciones(ParseCsv(ContenidoCsv(PrepararDatos(ts))), uuid, leer);
      |rs| == |v| && forall k :: 0 <= k < |v| ==> rs[k] == Some(v[k].(id := uuid(k), tiempoRealHoras := None))
  {
    var v := Filtrar(ts, NoFinalizada);
    var datos := PrepararDatos(ts);
    ExportablesFiltradas(ts);
    FilasPreparadas(ts);
    PreparadasLeidas(v, datos);
    ParseCsvExportado(datos);
    ValidacionesLeidas(CrudasExportadas(datos), v, uuid, leer);
  }

  // --- XLS rows ---

  /**
   * The cells of a record's table row validate into that record under the new id, without
   * `fechaFinalizacion` (the table has no such column) and without `tiempoRealHoras`, when
   * its required texts are not empty, `plazoHoras` is positive, it has no comments and its
   * activation date is neither empty nor the text `null`.
   */
  lemma {:induction false} XlsIdaYVuelta(t: Tarea, id: string, leer: string -> JsonLeido)
    requires Importable(t.(fechaFinalizacion := None)) && t.fechaActivacion != Some("null")
    requires leer("[]") == Arreglo([])
    ensures ParseXls([CeldasXls(Preparada(t))]) == [CrudaDeCeldas(CeldasXls(Preparada(t)))]
    ensures Validar(CrudaDeCeldas(CeldasXls(Preparada(t))), id, leer)
            == Some(t.(id := id, fechaFinalizacion := None, tiempoRealHoras := None))
  {
    var celdas := CeldasXls(Preparada(t));
    var filas: seq<seq<string>> := [celdas];
    assert |filas| == 1 && filas[1..] == [];
    CeldasXlsLeidas(t);
    ValidarLeida(CrudaDeCeldas(celdas), t.(fechaFinalizacion := None), id, leer);
  }

  /** The cell texts of the table rows written for the prepared rows, one row each, in order. */
  function FilasXls(datos: seq<FilaExportada>): seq<seq<string>> {
    seq(|datos|, k requires 0 <= k < |datos| => CeldasXls(datos[k]))
  }

  /**
   * Exporting a store to the table and importing every row of it back stores each
   * unfinished record, in order, with the id offered to its row, without
   * `fechaFinalizacion` and without `tiempoRealHoras`, when each such record is as in
   * `XlsIdaYVuelta`. The cell texts are those the export wrote.
   */
  lemma {:induction false} XlsIdaYVueltaTodas(ts: seq<Tarea>, uuid: nat -> string, leer: string -> JsonLeido)
    requires forall i :: 0 <= i < |ts| && NoFinalizada(ts[i]) ==>
      Importable(ts[i].(fechaFinalizacion := None)) && ts[i].fechaActivacion != Some("null")
    requires leer("[]") == Arreglo([])
    ensures var v := Filtrar(ts, NoFinalizada);
      var rs := Validaciones(ParseXls(FilasXls(PrepararDatos(ts))), uuid, leer);
      |rs| == |v| && forall k :: 0 <= k < |v| ==>
        rs[k] == Some(v[k].(id := uuid(k), fechaFinalizacion := None, tiempoRealHoras := None))
  {
    var v := Filtrar(ts, NoFinalizada);
    var datos := PrepararDatos(ts);
    var filas := FilasXls(datos);
    FilasPreparadas(ts);
    assert forall k :: 0 <= k < |filas| ==> DiezCeldas(filas[k]);
    FiltrarTodos(filas, DiezCeldas);
    ParseXlsFiltradas(filas);
    var crudas := ParseXls(filas);
    forall k | 0 <= k < |v|
      ensures Validaciones(crudas, uuid, leer)[k] == Some(v[k].(id := uuid(k), fechaFinalizacion := None, tiempoRealHoras := None))
    {
      assert v[k] in v;
      assert crudas[k] == CrudaDeCeldas(CeldasXls(Preparada(v[k])));
      XlsIdaYVuelta(v[k], uuid(k), leer);
    }
  }

  /** The table row of a record is read back as its fields, with no `fechaFinalizacion`. */
  lemma {:induction false} CeldasXlsLeidas(t: Tarea)
    requires t.comentarios == [] && t.fechaActivacion != Some("") && t.fechaActivacion != Some("null")
    ensures LeidaDe(CrudaDeCeldas(CeldasXls(Preparada(t))), t.(fechaFinalizacion := None))
  {
    var celdas := CeldasXls(Preparada(t));
    ComentariosVacios();
    assert celdas[8] == t.fechaActivacion.GetOr("") && celdas[9] == "[]";
    FechaOpcional(t.fechaActivacion);
  }

  /** A JSON list of comments that is not empty holds a quote. */
  lemma {:induction false} ComillaEnComentarios(cs: seq<Comentario>)
    requires cs != []
    ensures '"' in ComentariosJson(cs)
  {
    var partes := ComentariosJsonPartes(cs);
    var uno := ComentarioJson(cs[0]);
    assert partes[0] == uno;
    assert uno[..2] == "{\"";
    JoinSegundo(partes, ',');
    var j := ComentariosJson(cs);
    assert j[2] == Join(partes, ',')[1] == '"';
  }

  /** The first two characters of a join come from its first part when it has two. */
  lemma {:induction false} JoinSegundo(parts: seq<string>, sep: char)
    requires |parts| >= 1 && |parts[0]| >= 2
    ensures |Join(parts, sep)| >= 2 && Join(parts, sep)[..2] == parts[0][..2]
  {
  }

  /**
   * The comments cell of the table holds the JSON with its quotes doubled, so the text the
   * import hands to `JSON.parse` is not the JSON of the comments when there are any.
   */
  lemma {:induction false} XlsComentariosDoblados(t: Tarea)
    requires t.comentarios != []
    ensures CrudaDeCeldas(CeldasXls(Preparada(t))).comentarios == DoblarComillas(ComentariosJson(t.comentarios))
    ensures CrudaDeCeldas(CeldasXls(Preparada(t))).comentarios != ComentariosJson(t.comentarios)
  {
    var j := ComentariosJson(t.comentarios);
    ComillaEnComentarios(t.comentarios);
    DoblarAlarga(j);
  }

  // --- Comments through CSV ---

  /** No line terminator: the lazy `.*?` can run over the whole text. */
  predicate SinTerminadores(s: string) {
    forall i :: 0 <= i < |s| ==> !IsLineTerminator(s[i])
  }

  /** Doubling quotes distributes over concatenation. */
  lemma {:induction false} DoblarConcat(a: string, b: string)
    ensures DoblarComillas(a + b) == DoblarComillas(a) + DoblarComillas(b)
  {
    if a == [] {
      assert a + b == b;
    } else {
      assert (a + b)[0] == a[0] && (a + b)[1..] == a[1..] + b;
      DoblarConcat(a[1..], b);
    }
  }

  /** Doubling quotes adds no line terminator. */
  lemma {:induction false} DoblarSinTerminadores(s: string)
    requires SinTerminadores(s)
    ensures SinTerminadores(DoblarComillas(s))
  {
    if s != [] {
      assert SinTerminadores(s[1..]) by {
        forall i | 0 <= i < |s[1..]|
          ensures !IsLineTerminator(s[1..][i])
        {
          assert s[1..][i] == s[i + 1];
        }
      }
      DoblarSinTerminadores(s[1..]);
    }
  }

  /**
   * In a text with its quotes doubled, a quote not followed by another closes a pair:
   * the text up to it undoubles into a proper prefix of the original that ends with a quote.
   */
  lemma {:induction false} SegundaDelPar(x: string, i: nat) returns (q: nat)
    requires i + 1 < |DoblarComillas(x)|
    requires DoblarComillas(x)[i] == '"' && DoblarComillas(x)[i + 1] != '"'
    ensures q + 1 < |x| && x[q] == '"'
    ensures Desdoblar(DoblarComillas(x)[..i]) == x[..q + 1]
    decreases |x|, 1
  {
    if x[0] == '"' {
      q := ParTrasComilla(x, i);
    } else {
      q := ParTrasOtro(x, i);
    }
  }

  lemma {:induction false} ParTrasComilla(x: string, i: nat) returns (q: nat)
    requires |x| >= 1 && x[0] == '"'
    requires i + 1 < |DoblarComillas(x)|
    requires DoblarComillas(x)[i] == '"' && DoblarComillas(x)[i + 1] != '"'
    ensures q + 1 < |x| && x[q] == '"'
    ensures Desdoblar(DoblarComillas(x)[..i]) == x[..q + 1]
    decreases |x|, 0
  {
    var d := DoblarComillas(x[1..]);
    var dx := DoblarComillas(x);
    assert dx == "\"\"" + d;
    if i == 1 {
      q := 0;
      assert dx[..1] == "\"" == x[..1];
    } else {
      var q1 := SegundaDelPar(x[1..], i - 2);
      q := q1 + 1;
      assert dx[..i] == "\"\"" + d[..i - 2];
      DesdoblarDoble(d[..i - 2]);
      PrefijoCola(x, q + 1);
    }
  }

  lemma {:induction false} ParTrasOtro(x: string, i: nat) returns (q: nat)
    requires |x| >= 1 && x[0] != '"'
    requires i + 1 < |DoblarComillas(x)|
    requires DoblarComillas(x)[i] == '"' && DoblarComillas(x)[i + 1] != '"'
    ensures q + 1 < |x| && x[q] == '"'
    ensures Desdoblar(DoblarComillas(x)[..i]) == x[..q + 1]
    decreases |x|, 0
  {
    var d := DoblarComillas(x[1..]);
    var dx := DoblarComillas(x);
    assert dx == [x[0]] + d;
    var q1 := SegundaDelPar(x[1..], i - 1);
    q := q1 + 1;
    assert dx[..i] == [x[0]] + d[..i - 1];
    DesdoblarOtro(x[0], d[..i - 1]);
    PrefijoCola(x, q + 1);
  }

  lemma {:induction false} PrefijoCola(x: string, n: nat)
    requires 1 <= n <= |x|
    ensures x[..n] == [x[0]] + x[1..][..n - 1]
  {
  }

  lemma {:induction false} DesdoblarDoble(rest: string)
    ensures Desdoblar("\"\"" + rest) == "\"" + Desdoblar(rest)
  {
    assert ("\"\"" + rest)[2..] == rest;
  }

  lemma {:induction false} DesdoblarOtro(c: char, rest: string)
    requires c != '"'
    ensures Desdoblar([c] + rest) == [c] + Desdoblar(rest)
  {
    assert ([c] + rest)[1..] == rest;
  }

  /**
   * The quoted CSV cell of a text with its quotes doubled, when the text has a quote
   * followed by a comma with no line terminator before it: the first match ends at the
   * latest at that quote, and its value is a proper prefix of the text.
   */
  lemma {:induction false} CorteEnComa(x: string, a: nat)
    requires 1 <= a < |x| && x[a - 1] == '"' && x[a] == ',' && SinTerminadores(x[..a])
    ensures Tokens(Entre(DoblarComillas(x))) != []
    ensures Limpiar(Tokens(Entre(DoblarComillas(x)))[0]) != []
    ensures Limpiar(Tokens(Entre(DoblarComillas(x)))[0]) < x
  {
    var d := DoblarComillas(x);
    var r := PrimerTokenDoblado(x, a);
    var q := SegundaDelPar(x, r - 1);
    PrefijoPropio(x, q + 1);
  }

  lemma {:induction false} PrefijoPropio(x: string, n: nat)
    requires n < |x|
    ensures x[..n] < x
  {
  }

  /** The first match in that cell: up to a quote of the doubled text not followed by another. */
  lemma {:induction false} PrimerTokenDoblado(x: string, a: nat) returns (r: nat)
    requires 1 <= a < |x| && x[a - 1] == '"' && x[a] == ',' && SinTerminadores(x[..a])
    ensures var d := DoblarComillas(x); var cell := Entre(d);
      1 <= r < |d| && d[r - 1] == '"' && d[r] != '"'
      && Tokens(cell) != [] && Limpiar(Tokens(cell)[0]) == Desdoblar(d[..r - 1])
  {
    var d := DoblarComillas(x);
    var cell := Entre(d);
    r := CierreDoblado(x, a);
    TokensPasoCitado(cell, r);
    EntreCaracteres(d);
    assert d[r] == cell[r + 1] && d[r - 1] == cell[r];
    LimpiarPrefijo(d, r);
  }

  /** The value of a match that stops at a quote inside the cell. */
  lemma {:induction false} LimpiarPrefijo(d: string, r: nat)
    requires 1 <= r <= |d| && d[r - 1] == '"'
    ensures Limpiar(Entre(d)[..r + 1]) == Desdoblar(d[..r - 1])
  {
    var tok := Entre(d)[..r + 1];
    EntreCaracteres(d);
    EntreInterior(d, r - 1);
    assert Citado(tok) && tok[1..|tok| - 1] == d[..r - 1];
  }

  /** Where the first match in that cell closes: a quote the look-ahead accepts, before the end. */
  lemma {:induction false} CierreDoblado(x: string, a: nat) returns (r: nat)
    requires 1 <= a < |x| && x[a - 1] == '"' && x[a] == ',' && SinTerminadores(x[..a])
    ensures var cell := Entre(DoblarComillas(x));
      Cierre(cell, 1) == Some(r) && 1 <= r < |DoblarComillas(x)| && cell[r] == '"' && Sigue(cell[r + 1..])
  {
    var d := DoblarComillas(x);
    var cell := Entre(d);
    var da := DoblarComillas(x[..a]);
    var db := DoblarComillas(x[a..]);
    DobladoPartido(x, a);
    EntreCaracteres(d);
    var p := |da|;
    assert d[p - 1] == da[p - 1] && d[p] == db[0];
    assert cell[p] == '"' && cell[p + 1] == ',';
    SigueComa(cell[p + 1..]);
    forall i | 1 <= i < p
      ensures !IsLineTerminator(cell[i])
    {
      assert cell[i] == d[i - 1] == da[i - 1];
    }
    CierreAntes(cell, 1, p);
    r := Cierre(cell, 1).value;
  }

  /** The doubled text splits at the comma: a part ending in a doubled quote, then the comma. */
  lemma {:induction false} DobladoPartido(x: string, a: nat)
    requires 1 <= a < |x| && x[a - 1] == '"' && x[a] == ',' && SinTerminadores(x[..a])
    ensures var da := DoblarComillas(x[..a]); var db := DoblarComillas(x[a..]);
      DoblarComillas(x) == da + db && |da| >= 2 && da[|da| - 1] == '"' && |db| >= 1 && db[0] == ','
      && SinTerminadores(da)
  {
    DoblarConcat(x[..a], x[a..]);
    assert x[..a] + x[a..] == x;
    DoblarConcat(x[..a - 1], [x[a - 1]]);
    assert x[..a - 1] + [x[a - 1]] == x[..a];
    assert DoblarComillas([x[a - 1]]) == "\"\"";
    assert x[a..][0] == ',';
    DoblarSinTerminadores(x[..a]);
  }

  lemma {:induction false} EntreCaracteres(d: string)
    ensures |Entre(d)| == |d| + 2 && Entre(d)[0] == '"' && Entre(d)[|d| + 1] == '"'
    ensures forall i :: 1 <= i <= |d| ==> Entre(d)[i] == d[i - 1]
  {
  }

  /** Inside the quotes of a cell come the characters of its text. */
  lemma {:induction false} EntreInterior(d: string, j: nat)
    requires j <= |d|
    ensures Entre(d)[1..j + 1] == d[..j]
  {
  }

  lemma {:induction false} SinTerminadoresConcat(a: string, b: string)
    requires SinTerminadores(a) && SinTerminadores(b)
    ensures SinTerminadores(a + b)
  {
    forall i | 0 <= i < |a + b|
      ensures !IsLineTerminator((a + b)[i])
    {
      if i >= |a| {
        assert (a + b)[i] == b[i - |a|];
      }
    }
  }

  /** `JSON.stringify` escapes line feeds and carriage returns and adds no other terminator. */
  lemma {:induction false} JsonCaracterSinTerminadores(c: char)
    requires !IsLineTerminator(c)
    ensures SinTerminadores(JsonCaracter(c))
  {
    if c < ' ' && c != '\U{0008}' && c != '\t' && c != '\n' && c != '\U{000C}' && c != '\r' {
      var h := [Hexadecimales[c as int / 16], Hexadecimales[c as int % 16]];
      assert forall k :: 0 <= k < |Hexadecimales| ==> '0' <= Hexadecimales[k] <= 'f';
      assert SinTerminadores(h);
      SinTerminadoresConcat("\\u00", h);
    }
  }

  lemma {:induction false} JsonEscapadoSinTerminadores(s: string)
    requires SinTerminadores(s)
    ensures SinTerminadores(JsonEscapado(s))
  {
    if s != [] {
      assert SinTerminadores(s[1..]) by {
        forall i | 0 <= i < |s[1..]|
          ensures !IsLineTerminator(s[1..][i])
        {
          assert s[1..][i] == s[i + 1];
        }
      }
      JsonEscapadoSinTerminadores(s[1..]);
      JsonCaracterSinTerminadores(s[0]);
      SinTerminadoresConcat(JsonCaracter(s[0]), JsonEscapado(s[1..]));
    }
  }

  /** The first part of a join starts it. */
  lemma {:induction false} JoinEmpiezaPorPrimero(parts: seq<string>, sep: char)
    requires |parts| >= 1
    ensures |parts[0]| <= |Join(parts, sep)| && Join(parts, sep)[..|parts[0]|] == parts[0]
  {
  }

  /**
   * In the JSON of a non-empty comment list, the closing quote of the first date is
   * followed by a comma, and no line terminator comes before it when the date has none.
   */
  lemma {:induction false} JsonCorte(cs: seq<Comentario>) returns (a: nat)
    requires cs != [] && SinTerminadores(cs[0].fecha)
    ensures var x := ComentariosJson(cs);
      1 <= a < |x| && x[a - 1] == '"' && x[a] == ',' && SinTerminadores(x[..a])
  {
    var x := ComentariosJson(cs);
    var parts := ComentariosJsonPartes(cs);
    var p0 := CabezaJson(cs[0].fecha);
    CabezaDeComentario(cs[0]);
    assert parts[0] == ComentarioJson(cs[0]);
    JoinEmpiezaPorPrimero(parts, ',');
    var j := Join(parts, ',');
    var m := |p0|;
    assert j[..m] == p0 && j[m] == ',';
    a := m + 1;
    CorchetePrefijo(j, m);
    CabezaSinTerminadores(cs[0].fecha);
  }

  /** The JSON of a comment up to the closing quote of its date. */
  function CabezaJson(fecha: string): string {
    "{\"fecha\":" + JsonTexto(fecha)
  }

  lemma {:induction false} CabezaDeComentario(c: Comentario)
    ensures var p0 := CabezaJson(c.fecha);
      |p0| < |ComentarioJson(c)| && ComentarioJson(c)[..|p0|] == p0 && ComentarioJson(c)[|p0|] == ','
      && p0[|p0| - 1] == '"'
  {
    var p0 := CabezaJson(c.fecha);
    assert ComentarioJson(c) == p0 + (",\"comentario\":" + JsonTexto(c.comentario) + "}");
  }

  lemma {:induction false} CorchetePrefijo(j: string, m: nat)
    requires m < |j|
    ensures var x := "[" + j + "]"; x[..m + 1] == "[" + j[..m] && x[m + 1] == j[m]
  {
  }

  lemma {:induction false} CabezaSinTerminadores(fecha: string)
    requires SinTerminadores(fecha)
    ensures SinTerminadores("[" + CabezaJson(fecha))
  {
    var e := JsonEscapado(fecha);
    JsonEscapadoSinTerminadores(fecha);
    assert SinTerminadores("\"");
    SinTerminadoresConcat("\"", e);
    SinTerminadoresConcat("\"" + e, "\"");
    assert SinTerminadores("{\"fecha\":");
    SinTerminadoresConcat("{\"fecha\":", JsonTexto(fecha));
    assert SinTerminadores("[");
    SinTerminadoresConcat("[", CabezaJson(fecha));
  }

  /** No carriage return and no line feed: `SinSaltos` leaves the text as it is. */
  predicate SinCrLf(s: string) {
    '\r' !in s && '\n' !in s
  }

  lemma {:induction false} JsonCaracterSinCrLf(c: char)
    ensures SinCrLf(JsonCaracter(c))
  {
    if c < ' ' && c != '\U{0008}' && c != '\t' && c != '\n' && c != '\U{000C}' && c != '\r' {
      assert forall k :: 0 <= k < |Hexadecimales| ==> '0' <= Hexadecimales[k] <= 'f';
    }
  }

  lemma {:induction false} JsonEscapadoSinCrLf(s: string)
    ensures SinCrLf(JsonEscapado(s))
  {
    if s != [] {
      JsonCaracterSinCrLf(s[0]);
      JsonEscapadoSinCrLf(s[1..]);
    }
  }

  lemma {:induction false} PartesSinCrLf(cs: seq<Comentario>)
    ensures forall i :: 0 <= i < |cs| ==> SinCrLf(ComentariosJsonPartes(cs)[i])
  {
    if cs != [] {
      PartesSinCrLf(cs[1..]);
      ComentarioSinCrLf(cs[0]);
    }
  }

  lemma {:induction false} ComentarioSinCrLf(c: Comentario)
    ensures SinCrLf(ComentarioJson(c))
  {
    JsonTextoSinCrLf(c.fecha);
    JsonTextoSinCrLf(c.comentario);
    var a := "{\"fecha\":";
    var b := ",\"comentario\":";
    assert SinCrLf(a) && SinCrLf(b) && SinCrLf("}");
    SinCrLfConcat(a, JsonTexto(c.fecha));
    SinCrLfConcat(a + JsonTexto(c.fecha), b);
    SinCrLfConcat(a + JsonTexto(c.fecha) + b, JsonTexto(c.comentario));
    SinCrLfConcat(a + JsonTexto(c.fecha) + b + JsonTexto(c.comentario), "}");
  }

  lemma {:induction false} JsonTextoSinCrLf(s: string)
    ensures SinCrLf(JsonTexto(s))
  {
    JsonEscapadoSinCrLf(s);
    SinCrLfConcat("\"", JsonEscapado(s));
    SinCrLfConcat("\"" + JsonEscapado(s), "\"");
  }

  lemma {:induction false} SinCrLfConcat(a: string, b: string)
    requires SinCrLf(a) && SinCrLf(b)
    ensures SinCrLf(a + b)
  {
  }

  /** The JSON of any comment list holds no carriage return and no line feed. */
  lemma {:induction false} ComentariosSinCrLf(cs: seq<Comentario>)
    ensures SinCrLf(ComentariosJson(cs))
  {
    var parts := ComentariosJsonPartes(cs);
    PartesSinCrLf(cs);
    NotInJoin('\r', parts, ',');
    NotInJoin('\n', parts, ',');
  }

  lemma {:induction false} DoblarSinCrLf(s: string)
    requires SinCrLf(s)
    ensures SinCrLf(DoblarComillas(s))
  {
    if s != [] {
      assert SinCrLf(s[1..]);
      DoblarSinCrLf(s[1..]);
    }
  }

  /** The last cell of a line is its last quoted text. */
  lemma {:induction false} EntresUltimo(ds: seq<string>)
    requires |ds| >= 1
    ensures Entres(ds) == Entres(ds[..|ds| - 1]) + [Entre(ds[|ds| - 1])]
  {
  }

  lemma {:induction false} JoinUltimo(ps: seq<string>, z: string, sep: char)
    requires |ps| >= 1
    ensures Join(ps + [z], sep) == Join(ps, sep) + [sep] + z
    decreases |ps|
  {
    if |ps| == 1 {
      assert (ps + [z])[1..] == [z];
    } else {
      assert (ps + [z])[1..] == ps[1..] + [z];
      JoinUltimo(ps[1..], z, sep);
    }
  }

  /** Changing the comments of a row changes only its last cell text. */
  lemma {:induction false} DatosOtrosComentarios(f: FilaExportada, c: string)
    ensures Datos(f.(comentarios := c))[..10] == Datos(f)[..10]
    ensures Datos(f.(comentarios := c))[10] == DatoCsv(Texto(c))
  {
    var g := f.(comentarios := c);
    var vf := Valores(f);
    var vg := Valores(g);
    assert vg[..10] == vf[..10];
    assert vg[10] == Texto(c);
    forall i | 0 <= i < 10
      ensures Datos(g)[i] == Datos(f)[i]
    {
      assert vg[i] == vf[i];
    }
  }

  /**
   * The tokens of the CSV line of a record with comments: its first ten cells, then the
   * tokens of the quoted comments cell.
   */
  lemma {:induction false} TokensConComentarios(t: Tarea)
    requires Exportable(t.(comentarios := [])) && t.comentarios != []
    ensures var ds := Datos(Preparada(t)); var d := DoblarComillas(ComentariosJson(t.comentarios));
      Tokens(FilaCsv(Preparada(t))) == Entres(ds[..10]) + Tokens(Entre(d))
  {
    var f := Preparada(t);
    CeldasConComentarios(t);
    CeldasEntreComillas(Valores(f));
    TokensUltimaCelda(Datos(f));
  }

  /** The cell texts of such a record: ten readable ones, then its comments with quotes doubled. */
  lemma {:induction false} CeldasConComentarios(t: Tarea)
    requires Exportable(t.(comentarios := [])) && t.comentarios != []
    ensures var ds := Datos(Preparada(t));
      TodasLegibles(ds[..10]) && ds[10] == DoblarComillas(ComentariosJson(t.comentarios))
  {
    var t0 := t.(comentarios := []);
    var f0 := Preparada(t0);
    var x := ComentariosJson(t.comentarios);
    var d := DoblarComillas(x);
    var f := Preparada(t);
    assert f == f0.(comentarios := d);
    DatosExportables(t0);
    DatosOtrosComentarios(f0, d);
    var ds := Datos(f);
    ComentariosSinCrLf(t.comentarios);
    DoblarSinCrLf(x);
    assert d != "" by {
      assert x[0] == '[';
    }
    var ds10 := ds[..10];
    forall i | 0 <= i < 10
      ensures Legible(ds10[i])
    {
      assert ds10[i] == Datos(f0)[i];
    }
  }

  /** A line of cells whose first ten are readable: those ten, then the tokens of the last. */
  lemma {:induction false} TokensUltimaCelda(ds: seq<string>)
    requires |ds| == 11 && TodasLegibles(ds[..10])
    ensures Tokens(Join(Entres(ds), ',')) == Entres(ds[..10]) + Tokens(Entre(ds[10]))
  {
    var ds10 := ds[..10];
    var e10 := Entres(ds10);
    var ultima := Entre(ds[10]);
    EntresUltimo(ds);
    JoinUltimo(e10, ultima, ',');
    assert Join(e10, ',') + [','] + ultima == Join(e10, ',') + ("," + ultima);
    TokensCeldas(ds10, "," + ultima);
    SaltaComa(ultima);
  }

  /**
   * A record with comments whose CSV row is otherwise exportable: the import reads its row,
   * but hands `JSON.parse` a proper prefix of the JSON of its comments, never the whole of it.
   */
  lemma {:induction false} CsvComentariosCortados(t: Tarea)
    requires Exportable(t.(comentarios := [])) && t.comentarios != []
    requires SinTerminadores(t.comentarios[0].fecha)
    ensures LeerLinea(FilaCsv(Preparada(t))).Some?
    ensures var raw := LeerLinea(FilaCsv(Preparada(t))).value;
      raw.comentarios != [] && raw.comentarios < ComentariosJson(t.comentarios)
  {
    var x := ComentariosJson(t.comentarios);
    var d := DoblarComillas(x);
    var ds := Datos(Preparada(t));
    TokensConComentarios(t);
    var a := JsonCorte(t.comentarios);
    CorteEnComa(x, a);
    var toks := Tokens(FilaCsv(Preparada(t)));
    assert |Entres(ds[..10])| == 10;
    assert toks[10] == Tokens(Entre(d))[0];
    var vals := Limpios(toks);
    assert vals[10] == Limpiar(Tokens(Entre(d))[0]);
  }
}
