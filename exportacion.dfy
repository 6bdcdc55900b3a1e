/**
 * `ExportService` (js/services/export.service.js): the records that are not finished,
 * written as a fully quoted CSV or as an HTML table saved with an `.xls` name. The clock
 * is a `Reloj` parameter; the download itself (`Blob`, anchor, click) is not modelled,
 * the content, file name and MIME type it would receive are returned instead.
 */
module ExportService {
  import opened Wrappers
  import opened Strings
  import opened Numbers
  import opened Tareas
  import opened Listas
  import opened DatesUtils
  import CsvTokens

  // --- JSON.stringify of the comments ---

  const Hexadecimales: string := "0123456789abcdef"

  /** One character inside a JSON string literal, escaped as `JSON.stringify` does. */
  function JsonCaracter(c: char): string {
    if c == '"' then "\\\""
    else if c == '\\' then "\\\\"
    else if c == '\U{0008}' then "\\b"
    else if c == '\t' then "\\t"
    else if c == '\n' then "\\n"
    else if c == '\U{000C}' then "\\f"
    else if c == '\r' then "\\r"
    else if c < ' ' then "\\u00" + [Hexadecimales[c as int / 16], Hexadecimales[c as int % 16]]
    else [c]
  }

  function JsonEscapado(s: string): string {
    if s == [] then "" else JsonCaracter(s[0]) + JsonEscapado(s[1..])
  }

  /** `JSON.stringify` of a string: quoted and escaped. */
  function JsonTexto(s: string): string {
    "\"" + JsonEscapado(s) + "\""
  }

  function ComentarioJson(c: Comentario): string {
    "{\"fecha\":" + JsonTexto(c.fecha) + ",\"comentario\":" + JsonTexto(c.comentario) + "}"
  }

  function ComentariosJsonPartes(cs: seq<Comentario>): (r: seq<string>)
    ensures |r| == |cs|
  {
    if cs == [] then [] else [ComentarioJson(cs[0])] + ComentariosJsonPartes(cs[1..])
  }

  /** `JSON.stringify(comentarios)`. */
  function ComentariosJson(cs: seq<Comentario>): string {
    "[" + Join(ComentariosJsonPartes(cs), ',') + "]"
  }

  /** `s.replace(/"/g, '""')` */
  function DoblarComillas(s: string): (r: string)
    ensures |r| >= |s|
    ensures '"' !in s ==> r == s
  {
    if s == [] then "" else (if s[0] == '"' then "\"\"" else [s[0]]) + DoblarComillas(s[1..])
  }

  /** Undoing the doubling of quotes gives the text back. */
  lemma {:induction false} DesdoblarDoblar(s: string)
    ensures CsvTokens.Desdoblar(DoblarComillas(s)) == s
  {
    if s != [] {
      DesdoblarDoblar(s[1..]);
      var d := DoblarComillas(s[1..]);
      if s[0] == '"' {
        assert DoblarComillas(s) == "\"\"" + d;
        assert ("\"\"" + d)[2..] == d;
      } else {
        assert DoblarComillas(s) == [s[0]] + d;
        assert ([s[0]] + d)[1..] == d;
      }
    }
  }

  // --- _prepararDatos ---

  /** One exported row: every value as the export writes it. */
  datatype FilaExportada = FilaExportada(
    id: string, titulo: string, detalle: string, proyecto: string, prioridad: string,
    plazoHoras: int, estado: string, fechaCreacion: string, fechaActivacion: string,
    fechaFinalizacion: string, comentarios: string)

  /** The row of one record: absent dates as `''`, comments as JSON with every `"` doubled. */
  function Preparada(t: Tarea): FilaExportada {
    FilaExportada(t.id, t.titulo, t.detalle, t.proyecto, t.prioridad.Texto(), t.plazoHoras,
                  t.estado.Texto(), t.fechaCreacion, t.fechaActivacion.GetOr(""),
                  t.fechaFinalizacion.GetOr(""), DoblarComillas(ComentariosJson(t.comentarios)))
  }

  predicate NoFinalizada(t: Tarea) {
    t.estado != Finalizado
  }

  /**
   * The row exported for a record: the same id, texts, `plazoHoras` and `fechaCreacion`,
   * the words of its prioridad and estado, each absent date as `''`, and comments as
   * `JSON.stringify` of the list with every quote doubled, which undoubling gives back.
   */
  predicate ExportadaDe(f: FilaExportada, t: Tarea) {
    f.id == t.id && f.titulo == t.titulo && f.detalle == t.detalle && f.proyecto == t.proyecto
    && f.prioridad == t.prioridad.Texto() && f.plazoHoras == t.plazoHoras && f.estado == t.estado.Texto()
    && f.fechaCreacion == t.fechaCreacion
    && (t.fechaActivacion.None? ==> f.fechaActivacion == "")
    && (t.fechaActivacion.Some? ==> f.fechaActivacion == t.fechaActivacion.value)
    && (t.fechaFinalizacion.None? ==> f.fechaFinalizacion == "")
    && (t.fechaFinalizacion.Some? ==> f.fechaFinalizacion == t.fechaFinalizacion.value)
    && f.comentarios == DoblarComillas(ComentariosJson(t.comentarios))
    && CsvTokens.Desdoblar(f.comentarios) == ComentariosJson(t.comentarios)
  }

  /**
   * `_prepararDatos`: one row per record that is not finished, in store order, each the
   * exported form of its record.
   */
  function PrepararDatos(ts: seq<Tarea>): (r: seq<FilaExportada>)
    ensures r == [] <==> forall i :: 0 <= i < |ts| ==> ts[i].estado == Finalizado
    ensures forall k :: 0 <= k < |r| ==> r[k].estado != "finalizado"
    ensures |r| == |Filtrar(ts, NoFinalizada)|
    ensures forall k :: 0 <= k < |r| ==> ExportadaDe(r[k], Filtrar(ts, NoFinalizada)[k])
  {
    var v := Filtrar(ts, NoFinalizada);
    QuedanSinFinalizar(ts);
    PreparadasSinFinalizar(v);
    PreparadasExportadas(v);
    seq(|v|, k requires 0 <= k < |v| => Preparada(v[k]))
  }

  lemma PreparadasExportadas(v: seq<Tarea>)
    ensures forall k :: 0 <= k < |v| ==> ExportadaDe(Preparada(v[k]), v[k])
  {
    forall k | 0 <= k < |v|
      ensures ExportadaDe(Preparada(v[k]), v[k])
    {
      DesdoblarDoblar(ComentariosJson(v[k].comentarios));
    }
  }

  lemma QuedanSinFinalizar(ts: seq<Tarea>)
    ensures var v := Filtrar(ts, NoFinalizada);
      (v == [] <==> forall i :: 0 <= i < |ts| ==> ts[i].estado == Finalizado)
      && forall k :: 0 <= k < |v| ==> v[k].estado != Finalizado
  {
    var v := Filtrar(ts, NoFinalizada);
    if v != [] {
      assert v[0] in v;
    }
    if exists i :: 0 <= i < |ts| && ts[i].estado != Finalizado {
      var i :| 0 <= i < |ts| && ts[i].estado != Finalizado;
      assert ts[i] in v;
    }
    assert forall k :: 0 <= k < |v| ==> v[k] in v;
  }

  lemma PreparadasSinFinalizar(v: seq<Tarea>)
    requires forall k :: 0 <= k < |v| ==> v[k].estado != Finalizado
    ensures forall k :: 0 <= k < |v| ==> Preparada(v[k]).estado != "finalizado"
  {
    forall k | 0 <= k < |v|
      ensures Preparada(v[k]).estado != "finalizado"
    {
      TextoFinalizado(v[k].estado);
    }
  }

  lemma TextoFinalizado(e: Estado)
    requires e != Finalizado
    ensures e.Texto() != "finalizado"
  {
  }

  // --- _generarContenidoCSV ---

  const EncabezadosCsv: seq<string> := ["id", "titulo", "detalle", "proyecto", "prioridad", "plazoHoras",
                                        "estado", "fechaCreacion", "fechaActivacion", "fechaFinalizacion", "comentarios"]

  /** A value as the CSV sees it: text, or the number `plazoHoras`. */
  datatype Valor = Texto(s: string) | Numero(n: int)

  /** The values of a row in header order. */
  function Valores(f: FilaExportada): (r: seq<Valor>)
    ensures |r| == |EncabezadosCsv|
  {
    [Texto(f.id), Texto(f.titulo), Texto(f.detalle), Texto(f.proyecto), Texto(f.prioridad),
     Numero(f.plazoHoras), Texto(f.estado), Texto(f.fechaCreacion), Texto(f.fechaActivacion),
     Texto(f.fechaFinalizacion), Texto(f.comentarios)]
  }

  /** `replace(/(\r\n|\n|\r)/gm, " ")`: every line break, CRLF included, becomes one space. */
  function SinSaltos(s: string): (r: string)
    ensures '\r' !in r && '\n' !in r
    ensures '\r' !in s && '\n' !in s ==> r == s
  {
    if s == [] then ""
    else if |s| >= 2 && s[0] == '\r' && s[1] == '\n' then " " + SinSaltos(s[2..])
    else if s[0] == '\r' || s[0] == '\n' then " " + SinSaltos(s[1..])
    else
      assert '\r' !in s && '\n' !in s ==> '\r' !in s[1..] && '\n' !in s[1..] && [s[0]] + s[1..] == s;
      [s[0]] + SinSaltos(s[1..])
  }

  /** The text of one CSV cell: falsy values (`''`, `0`) empty, text without line breaks. */
  function DatoCsv(v: Valor): (r: string)
    ensures '\r' !in r && '\n' !in r
    ensures v.Texto? ==> r == SinSaltos(v.s)
    ensures v.Numero? ==> (r == "" <==> v.n == 0)
    ensures v.Numero? && v.n != 0 ==> r == IntToString(v.n)
  {
    match v
    case Texto(s) => if s == "" then "" else SinSaltos(s)
    case Numero(n) =>
      if n == 0 then ""
      else
        NumeralSinSaltos(n);
        IntToString(n)
  }

  /** One CSV cell: its text, always quoted. */
  function CeldaCsv(v: Valor): (r: string)
    ensures |r| >= 2 && r[0] == '"' && r[|r| - 1] == '"'
    ensures '\r' !in r && '\n' !in r
  {
    "\"" + DatoCsv(v) + "\""
  }

  lemma NumeralSinSaltos(n: int)
    ensures '\n' !in IntToString(n) && '\r' !in IntToString(n)
  {
    var r := IntToString(n);
    if n >= 0 {
      assert AllDigits(r);
    } else {
      assert AllDigits(r[1..]) && r == [r[0]] + r[1..];
    }
  }

  function CeldasCsv(vs: seq<Valor>): (r: seq<string>)
    ensures |r| == |vs|
    ensures forall i :: 0 <= i < |r| ==> r[i] == CeldaCsv(vs[i])
  {
    if vs == [] then [] else [CeldaCsv(vs[0])] + CeldasCsv(vs[1..])
  }

  /** One data line: the eleven cells joined by `,`. */
  function FilaCsv(f: FilaExportada): string {
    Join(CeldasCsv(Valores(f)), ',')
  }

  function FilasCsv(datos: seq<FilaExportada>): (r: seq<string>)
    ensures |r| == |datos|
    ensures forall k :: 0 <= k < |r| ==> r[k] == FilaCsv(datos[k])
  {
    if datos == [] then [] else [FilaCsv(datos[0])] + FilasCsv(datos[1..])
  }

  /** `_generarContenidoCSV`: the header line, then one line per row, joined by `\n`. */
  function ContenidoCsv(datos: seq<FilaExportada>): string {
    Join([Join(EncabezadosCsv, ',')] + FilasCsv(datos), '\n')
  }

  /** No data line contains a line break. */
  lemma FilaCsvSinSaltos(f: FilaExportada)
    ensures '\n' !in FilaCsv(f) && '\r' !in FilaCsv(f)
  {
    var cs := CeldasCsv(Valores(f));
    NotInJoin('\n', cs, ',');
    NotInJoin('\r', cs, ',');
  }

  lemma FilasCsvSinSaltos(datos: seq<FilaExportada>)
    ensures forall k :: 0 <= k < |FilasCsv(datos)| ==> '\n' !in FilasCsv(datos)[k]
  {
    forall k | 0 <= k < |datos|
      ensures '\n' !in FilasCsv(datos)[k]
    {
      FilaCsvSinSaltos(datos[k]);
    }
  }

  lemma EncabezadoSinSalto()
    ensures '\n' !in Join(EncabezadosCsv, ',')
  {
    NotInJoin('\n', EncabezadosCsv, ',');
  }

  lemma LineasCsv(h: string, filas: seq<string>, datos: seq<FilaExportada>)
    requires h == Join(EncabezadosCsv, ',') && filas == FilasCsv(datos)
    ensures Split(Join([h] + filas, '\n'), '\n') == [h] + filas
  {
    EncabezadoSinSalto();
    FilasCsvSinSaltos(datos);
    LineasSinSaltos(h, filas);
    SplitJoin([h] + filas, '\n');
  }

  lemma LineasSinSaltos(h: string, filas: seq<string>)
    requires '\n' !in h && forall k :: 0 <= k < |filas| ==> '\n' !in filas[k]
    ensures forall k :: 0 <= k < |[h] + filas| ==> '\n' !in ([h] + filas)[k]
  {
    forall k | 0 <= k < |[h] + filas|
      ensures '\n' !in ([h] + filas)[k]
    {
      if k > 0 {
        assert ([h] + filas)[k] == filas[k - 1];
      }
    }
  }

  /** Splitting the CSV on `\n` gives back the header line and then exactly one line per row. */
  lemma ContenidoCsvLineas(datos: seq<FilaExportada>)
    ensures Split(ContenidoCsv(datos), '\n') == [Join(EncabezadosCsv, ',')] + FilasCsv(datos)
    ensures |Split(ContenidoCsv(datos), '\n')| == |datos| + 1
  {
    LineasCsv(Join(EncabezadosCsv, ','), FilasCsv(datos), datos);
    assert |[Join(EncabezadosCsv, ',')] + FilasCsv(datos)| == |datos| + 1;
  }

  // --- _generarContenidoXLS ---

  const EncabezadosXls: seq<string> := ["ID", "T\U{00ED}tulo", "Detalle", "Proyecto", "Prioridad", "Plazo (h)",
                                        "Estado", "Fecha Creaci\U{00F3}n", "Fecha Activaci\U{00F3}n", "Comentarios"]

  /** The ten cell texts of a row, in column order (no `fechaFinalizacion`). */
  function CeldasXls(f: FilaExportada): (r: seq<string>)
    ensures |r| == |EncabezadosXls|
  {
    [f.id, f.titulo, f.detalle, f.proyecto, f.prioridad, IntToString(f.plazoHoras), f.estado,
     f.fechaCreacion, f.fechaActivacion, f.comentarios]
  }

  /** One header cell appended to the table text. */
  function AnexarTh(tabla: string, h: string): string {
    tabla + "<th>" + h + "</th>"
  }

  /** One data cell appended to the table text. */
  function AnexarTd(tabla: string, c: string): string {
    tabla + "<td>" + c + "</td>"
  }

  /** The table text after appending a `<th>` for each header, in order. */
  function ConTh(tabla: string, hs: seq<string>): string {
    if hs == [] then tabla else AnexarTh(ConTh(tabla, hs[..|hs| - 1]), hs[|hs| - 1])
  }

  /** The table text after appending a `<td>` for each cell, in order. */
  function ConTd(tabla: string, cs: seq<string>): string {
    if cs == [] then tabla else AnexarTd(ConTd(tabla, cs[..|cs| - 1]), cs[|cs| - 1])
  }

  /** The table text after appending one `<tr>` row, cell by cell, in the order of `CeldasXls`. */
  function AnexarFila(tabla: string, p: FilaExportada): string {
    var t := AnexarTd(AnexarTd(AnexarTd(AnexarTd(AnexarTd(tabla + "<tr>", p.id), p.titulo), p.detalle), p.proyecto), p.prioridad);
    AnexarTd(AnexarTd(AnexarTd(AnexarTd(AnexarTd(t, IntToString(p.plazoHoras)), p.estado), p.fechaCreacion), p.fechaActivacion), p.comentarios)
    + "</tr>"
  }

  /** The table text after appending a row for each record, in order. */
  function ConFilas(tabla: string, datos: seq<FilaExportada>): string {
    if datos == [] then tabla else AnexarFila(ConFilas(tabla, datos[..|datos| - 1]), datos[|datos| - 1])
  }

  const CabeceraTabla: string := "<table><thead><tr>"

  const InicioDocumento: string :=
    "\U{FEFF}<html xmlns:o=\"urn:schemas-microsoft-com:office:office\" xmlns:x=\"urn:schemas-microsoft-com:office:excel\" xmlns=\"http://www.w3.org/TR/REC-html40\"><head><meta charset=\"UTF-8\"></head><body>"

  /** The table: the ten `<th>` headers, then one `<tr>` per row, in order. */
  function TablaXls(datos: seq<FilaExportada>): string {
    ConFilas(ConTh(CabeceraTabla, EncabezadosXls) + "</tr></thead><tbody>", datos) + "</tbody></table>"
  }

  /** The whole `.xls` text: a byte-order mark and an HTML page declaring UTF-8 around the table. */
  function DocumentoXls(datos: seq<FilaExportada>): string {
    InicioDocumento + TablaXls(datos) + "</body></html>"
  }

  /** `_generarContenidoXLS`: the table head, then the rows, then the closing tags around the page. */
  method GenerarContenidoXls(datos: seq<FilaExportada>) returns (s: string)
    ensures s == DocumentoXls(datos)
  {
    var tabla := EncabezadoXls();
    tabla := AnexarFilasXls(tabla, datos);
    tabla := tabla + "</tbody></table>";
    s := InicioDocumento + tabla + "</body></html>";
  }

  /** The first loop of `_generarContenidoXLS`: one `<th>` appended per header, then the head closed. */
  method EncabezadoXls() returns (tabla: string)
    ensures tabla == ConTh(CabeceraTabla, EncabezadosXls) + "</tr></thead><tbody>"
  {
    tabla := "<table><thead><tr>";
    var headers := EncabezadosXls;
    for k := 0 to |headers|
      invariant tabla == ConTh(CabeceraTabla, headers[..k])
    {
      ConThSiguiente(CabeceraTabla, headers, k);
      tabla := tabla + "<th>" + headers[k] + "</th>";
    }
    assert headers[..|headers|] == headers;
    tabla := tabla + "</tr></thead><tbody>";
  }

  /** The second loop of `_generarContenidoXLS`: for each record, `<tr>`, its ten cells, `</tr>`. */
  method AnexarFilasXls(inicio: string, datos: seq<FilaExportada>) returns (tabla: string)
    ensures tabla == ConFilas(inicio, datos)
  {
    tabla := inicio;
    for k := 0 to |datos|
      invariant tabla == ConFilas(inicio, datos[..k])
    {
      var p := datos[k];
      ConFilasSiguiente(inicio, datos, k);
      ghost var antes := tabla;
      tabla := tabla + "<tr>";
      tabla := tabla + "<td>" + p.id + "</td>";
      tabla := tabla + "<td>" + p.titulo + "</td>";
      tabla := tabla + "<td>" + p.detalle + "</td>";
      tabla := tabla + "<td>" + p.proyecto + "</td>";
      tabla := tabla + "<td>" + p.prioridad + "</td>";
      tabla := tabla + "<td>" + IntToString(p.plazoHoras) + "</td>";
      tabla := tabla + "<td>" + p.estado + "</td>";
      tabla := tabla + "<td>" + p.fechaCreacion + "</td>";
      tabla := tabla + "<td>" + p.fechaActivacion + "</td>";
      tabla := tabla + "<td>" + p.comentarios + "</td>";
      tabla := tabla + "</tr>";
      assert tabla == AnexarFila(antes, p);
    }
    assert datos[..|datos|] == datos;
  }

  lemma ConThSiguiente(tabla: string, hs: seq<string>, k: nat)
    requires k < |hs|
    ensures ConTh(tabla, hs[..k + 1]) == AnexarTh(ConTh(tabla, hs[..k]), hs[k])
  {
    assert hs[..k + 1][..k] == hs[..k];
  }

  lemma ConFilasSiguiente(tabla: string, datos: seq<FilaExportada>, k: nat)
    requires k < |datos|
    ensures ConFilas(tabla, datos[..k + 1]) == AnexarFila(ConFilas(tabla, datos[..k]), datos[k])
  {
    assert datos[..k + 1][..k] == datos[..k];
  }

  lemma ConTdSnoc(tabla: string, cs: seq<string>, c: string)
    ensures ConTd(tabla, cs + [c]) == AnexarTd(ConTd(tabla, cs), c)
  {
    assert (cs + [c])[..|cs|] == cs;
  }

  /** Each row is `<tr>`, then exactly the ten cells of `CeldasXls` each in its own `<td>`, then `</tr>`. */
  lemma FilaXlsDiezCeldas(tabla: string, p: FilaExportada)
    ensures AnexarFila(tabla, p) == ConTd(tabla + "<tr>", CeldasXls(p)) + "</tr>"
  {
    var t := tabla + "<tr>";
    var c0: seq<string> := [];
    var c1 := c0 + [p.id];
    var c2 := c1 + [p.titulo];
    var c3 := c2 + [p.detalle];
    var c4 := c3 + [p.proyecto];
    var c5 := c4 + [p.prioridad];
    var c6 := c5 + [IntToString(p.plazoHoras)];
    var c7 := c6 + [p.estado];
    var c8 := c7 + [p.fechaCreacion];
    var c9 := c8 + [p.fechaActivacion];
    var c10 := c9 + [p.comentarios];
    ConTdSnoc(t, c0, p.id);
    ConTdSnoc(t, c1, p.titulo);
    ConTdSnoc(t, c2, p.detalle);
    ConTdSnoc(t, c3, p.proyecto);
    ConTdSnoc(t, c4, p.prioridad);
    ConTdSnoc(t, c5, IntToString(p.plazoHoras));
    ConTdSnoc(t, c6, p.estado);
    ConTdSnoc(t, c7, p.fechaCreacion);
    ConTdSnoc(t, c8, p.fechaActivacion);
    ConTdSnoc(t, c9, p.comentarios);
    assert c10 == CeldasXls(p);
  }

  /** Appending cells never rewrites what is already in the table: the old text stays a prefix. */
  lemma {:induction false} ConTdPrefijo(tabla: string, cs: seq<string>)
    ensures ConTd(tabla, cs) == tabla + ConTd("", cs)
  {
    if cs != [] {
      var init := cs[..|cs| - 1];
      var c := cs[|cs| - 1];
      ConTdPrefijo(tabla, init);
      var a := ConTd("", init);
      calc {
        ConTd(tabla, cs);
        AnexarTd(tabla + a, c);
        (tabla + a) + "<td>" + c + "</td>";
        { assert (tabla + a) + "<td>" == tabla + (a + "<td>"); }
        tabla + (a + "<td>") + c + "</td>";
        { assert tabla + (a + "<td>") + c == tabla + (a + "<td>" + c); }
        tabla + (a + "<td>" + c) + "</td>";
        tabla + AnexarTd(a, c);
        tabla + ConTd("", cs);
      }
    }
  }

  // --- _generarNombreArchivo ---

  /** `_generarNombreArchivo`: `pendientes_DD-MM-YYYY.<ext>`, month 1-based, day and month padded. */
  function GenerarNombreArchivo(hoy: Reloj, ext: string): string {
    "pendientes_" + Pad2(hoy.dia) + "-" + Pad2(hoy.mes + 1) + "-" + IntToString(hoy.anio) + "." + ext
  }

  /** The file name carries the fields of the day's date stamp, in reverse order and separated by `-`. */
  lemma NombreArchivoFechaDeHoy(hoy: Reloj, ext: string)
    requires hoy.anio >= 0
    ensures var p := Split(GetTodayDateString(hoy), '/');
      |p| == 3 && GenerarNombreArchivo(hoy, ext) == "pendientes_" + p[2] + "-" + p[1] + "-" + p[0] + "." + ext
  {
    TodayDateStringParts(hoy);
  }

  // --- exportarCSV / exportarExcel ---

  /** What `_descargarArchivo` receives. */
  datatype Descarga = Descarga(contenido: string, nombre: string, tipo: string)

  /** `exportarCSV` over the stored list: nothing when no record is left to export. */
  function ExportarCsv(ts: seq<Tarea>, hoy: Reloj): (r: Option<Descarga>)
    ensures r.None? <==> forall i :: 0 <= i < |ts| ==> ts[i].estado == Finalizado
    ensures r.Some? ==> (r.value.nombre == GenerarNombreArchivo(hoy, "csv")
                         && r.value.tipo == "text/csv;charset=utf-8;"
                         && |Split(r.value.contenido, '\n')| == |PrepararDatos(ts)| + 1)
    ensures r.Some? ==> r.value == Descarga(ContenidoCsv(PrepararDatos(ts)), GenerarNombreArchivo(hoy, "csv"), "text/csv;charset=utf-8;")
  {
    var datos := PrepararDatos(ts);
    if |datos| == 0 then None
    else
      ContenidoCsvLineas(datos);
      Some(Descarga(ContenidoCsv(datos), GenerarNombreArchivo(hoy, "csv"), "text/csv;charset=utf-8;"))
  }

  /** `exportarExcel` over the stored list: nothing when no record is left to export. */
  method ExportarExcel(ts: seq<Tarea>, hoy: Reloj) returns (r: Option<Descarga>)
    ensures r.None? <==> forall i :: 0 <= i < |ts| ==> ts[i].estado == Finalizado
    ensures r.Some? ==> r.value == Descarga(DocumentoXls(PrepararDatos(ts)), GenerarNombreArchivo(hoy, "xls"), "application/vnd.ms-excel")
  {
    var datos := PrepararDatos(ts);
    if |datos| == 0 {
      return None;
    }
    var xlsContent := GenerarContenidoXls(datos);
    var filename := GenerarNombreArchivo(hoy, "xls");
    return Some(Descarga(xlsContent, filename, "application/vnd.ms-excel"));
  }
}
