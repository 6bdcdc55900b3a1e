# task-manager-mvc: a Dafny model of the task store and its CSV/XLS pipeline

This project models the browser application's core:

- **The task store.** Each stored record is a "pendiente" (`Tarea` here). Its lifecycle is `pendiente -> activo -> finalizado`, plus comments. The domain class `PendientesDomain` implements it, and every mutation is a read-modify-write of one stored list.
- **Exporting the unfinished records.** They are written as a fully quoted CSV file or as an HTML table saved under an `.xls` name (`ExportService`).
- **Importing either file.** Each candidate row is validated on its own and stored under a fresh id (`ImportService`).
- **The helpers those depend on.** These are the date stamps and deadline countdown of `DatesUtils`, and the date reshaping of `FormatUtils`.

Module layout:

| module | file | models |
|---|---|---|
| `Tareas` | tareas.dfy | the record, its `estado`/`prioridad` words, unique ids, date coherence |
| `Storage` | storage.dfy | `StorageService`: one list read whole and written whole |
| `PendientesDomain` | pendientes.dfy | reads, `crear`, `editar`, `eliminar`, `activar`, `finalizar`, `agregarComentario` |
| `ImportService` | importacion.dfy | `_parseCSV`, `_parseXLS`, `_validarYGuardar`, `_persistirDirecto`, `importarArchivo` |
| `CsvTokens` | csv.dfy | the CSV line tokenizer: the regular expression of `_parseCSV` and the clean-up of each match |
| `ExportService` | exportacion.dfy | `_prepararDatos`, `_generarContenidoCSV`, `_generarContenidoXLS`, `_generarNombreArchivo`, the two exports |
| `IdaYVuelta` | idavuelta.dfy | what the import makes of the files the export writes |
| `DatesUtils` | dates.dfy | `getTodayDateString`, `getNowDateTimeString`, `calcularTiempoRestante` |
| `FormatUtils` | format.dfy | `formatDate`, `formatDateTime` |
| `Strings`, `Numbers`, `Listas`, `Ordenacion`, `Wrappers` | strings.dfy, numbers.dfy, listas.dfy, ordenacion.dfy, wrappers.dfy | the JavaScript built-ins the core relies on: `split`/`join`, `\s`, `toLowerCase`, `String(n)`, `padStart`, `parseInt`, `filter`, `new Set`, a stable `sort`; `Option`/`Result` |

How the model is built:

- **Domain writes.**
  - The store is a `StorageService` object whose `pendientes` field is the stored list.
  - Each domain write is a method that takes that object, and its `ensures` ties the saved list to a pure function of the old list (`TrasEditar`, `TrasActivar`, ...).
  - Each function returns the list to save, or the `Error` the source throws. A failed operation saves nothing.
  - Lemmas about these functions state what each write keeps: unique ids, and dates that agree with the `estado`.
- **Import.** `GuardarFilas` is the `forEach` loop with its two counters.
- **Export.** The two loops of `_generarContenidoXLS` are methods with loop invariants, proved against `DocumentoXls`.
- **Parameters.**
  - The clock is a `Reloj` value.
  - `crypto.randomUUID()` is an id argument.
  - `new Date(...)` applied to a stored stamp is the `parseMinutos` argument.
  - `JSON.parse` of the comments is the `leer` argument, which may answer `Invalido`.
  - The `DOMParser` extraction of the table cells is the `celdasXls` argument.

**Export and import round trip.** `IdaYVuelta` states what the source actually does:

- **Clean records.** Some records have no quote or line terminator in their texts, no comments, and no date that is the empty text. These come back from the CSV file as the same records, in order, each under the id offered to its row and without `tiempoRealHoras` (`CsvIdaYVuelta`). From the cell texts the table was written with, they also come back without `fechaFinalizacion` (`XlsIdaYVuelta`, `XlsIdaYVueltaTodas`). That step assumes the host parser hands back each cell's text as written, which the unescaped table does not guarantee (see "## Left out").
- **Comments never come back.**
  - In the CSV, the lazy `".*?"` alternative of the tokenizer ends the comments cell at the first doubled quote that is followed by a comma. The text handed to `JSON.parse` is then a proper prefix of the comment JSON (`CsvComentariosCortados`).
  - In the table, the cell carries the JSON with every quote doubled (`XlsComentariosDoblados`).
  - Either way, the import stores `[]` unless `JSON.parse` accepts the damaged text.

**Where the code and its design description disagree, this model follows the code:**

- `crear` and `finalizar` validate nothing: there is no `ValidationError`.
- `editar` works in any `estado`.
- A negative `plazoHoras` still gets a countdown: only `0` gives `00:00`.
- Only the comments have their quotes doubled by the export.
- An absent `fechaActivacion` is written to the table as `''`, not as `null`.
- A CSV line with fewer than eleven values is not dropped by the parser: its missing fields are `undefined`, and validation then rejects the row when a required one is missing.
- The round trip holds only as stated above.

## Model

| member | source | states |
|---|---|---|
| Tareas.EstadoDeTexto | js/services/import.service.js:158-159 | a lower-cased text names an estado exactly when it is one of `pendiente`/`activo`/`finalizado`, and then names that one |
| Tareas.PrioridadDeTexto | js/services/import.service.js:155-156 | a lower-cased text names a prioridad exactly when it is one of `alta`/`media`/`baja`, and then names that one |
| Storage.StorageService.GetPendientes | js/services/storage.service.js:10-21 | returns the stored list |
| Storage.StorageService.SavePendientes | js/services/storage.service.js:27-35 | the stored list becomes the given list |
| PendientesDomain.IndiceDe | js/domain/pendientes.domain.js:76 | `findIndex`: `None` exactly when no record has the id, otherwise the first position holding it |
| PendientesDomain.ObtenerPorId | js/domain/pendientes.domain.js:12-15 | `None` exactly when no record has the id; otherwise the first stored record with that id, as `find` returns |
| PendientesDomain.ObtenerPorIdUnico | js/domain/pendientes.domain.js:12-15 | with unique ids, looking up a record's id gives that record |
| PendientesDomain.ObtenerActivos | js/domain/pendientes.domain.js:17-19 | exactly the stored records whose estado is `activo` |
| PendientesDomain.ProyectosDisponiblesExactos | js/domain/pendientes.domain.js:21-25 | a project is offered exactly when some pending record has it (both directions) |
| PendientesDomain.ProyectosDisponiblesOrdenados | js/domain/pendientes.domain.js:23-24 | the offered projects are strictly increasing: sorted, and without duplicates |
| PendientesDomain.CompararPorOrdena | js/domain/pendientes.domain.js:37-44 | both comparators of the filtered list are total and transitive, and their ties are an equivalence |
| PendientesDomain.PendientesFiltradosSeleccion | js/domain/pendientes.domain.js:27-35 | the result is a permutation of the pending records that pass the project and prioridad filters, `""` meaning no filter |
| PendientesDomain.PendientesFiltradosOrden | js/domain/pendientes.domain.js:37-44 | `prioridad_desc` gives non-increasing weights (alta 3, media 2, baja 1); any other order gives non-decreasing `fechaCreacion` |
| PendientesDomain.PendientesFiltradosEstable | js/domain/pendientes.domain.js:37-44 | records the order ranks equal keep their store order |
| PendientesDomain.Crear | js/domain/pendientes.domain.js:51-72 | appends exactly the new record at the end and returns it: pending, created today, no dates, no elapsed time, no comments |
| PendientesDomain.CrearLuegoObtener | js/domain/pendientes.domain.js:51-72 | after `crear`, looking up the new id gives a pending record created today with no comments |
| PendientesDomain.CrearConserva | js/domain/pendientes.domain.js:51-72 | `crear` with a fresh id keeps ids unique and every record coherent |
| PendientesDomain.TrasEditar | js/domain/pendientes.domain.js:74-91 | fails with not-found exactly for an unknown id; otherwise only the first record with the id changes, only in the form's fields and `fechaCreacion` (today), and id, estado, dates and comments stay |
| PendientesDomain.Editar | js/domain/pendientes.domain.js:74-91 | saves the list `TrasEditar` gives, or saves nothing and reports its error |
| PendientesDomain.EditarConserva | js/domain/pendientes.domain.js:74-91 | `editar` keeps every record coherent |
| PendientesDomain.TrasEliminar | js/domain/pendientes.domain.js:93-102 | fails exactly for an unknown id; otherwise the list is shorter, no record has the id, and the result is exactly the `filter` of the records with another id: every other record stays, in order and with its multiplicity, whatever its estado |
| PendientesDomain.Eliminar | js/domain/pendientes.domain.js:93-102 | saves the list `TrasEliminar` gives, or saves nothing and reports its error |
| PendientesDomain.EliminarQuitaSoloEsa | js/domain/pendientes.domain.js:97 | with unique ids, deleting a record leaves exactly the others, in order |
| PendientesDomain.FiltrarConservaUnicos | js/domain/pendientes.domain.js:97 | filtering a list with unique ids keeps them unique |
| PendientesDomain.EliminarConserva | js/domain/pendientes.domain.js:93-102 | `eliminar` keeps ids unique and every remaining record coherent |
| PendientesDomain.TrasActivar | js/domain/pendientes.domain.js:106-117 | unknown id: not found; a record that is not pending: that error; otherwise only that record changes, to `activo` with `fechaActivacion` now |
| PendientesDomain.Activar | js/domain/pendientes.domain.js:106-117 | saves the list `TrasActivar` gives, or saves nothing and reports its error |
| PendientesDomain.ActivarConserva | js/domain/pendientes.domain.js:106-117 | `activar` moves the record one step along the lifecycle and keeps ids unique and records coherent |
| PendientesDomain.TiempoRealCentesimas | js/domain/pendientes.domain.js:139-140 | hundredths of an hour for whole minutes: the nearest value to `m/60` hours (within a third of a hundredth), negative exactly for negative `m` |
| PendientesDomain.TiempoRealDosHorasYMedia | js/domain/pendientes.domain.js:139-140 | 150 minutes give 2.50 hours |
| PendientesDomain.TiempoReal | js/domain/pendientes.domain.js:129-141 | 0 without an activation stamp; otherwise defined exactly when both stamps parse, and then the rounded difference |
| PendientesDomain.TrasFinalizar | js/domain/pendientes.domain.js:119-153 | unknown id: not found; not active: that error; otherwise only that record changes: `finalizado`, `fechaFinalizacion` now, its elapsed time, and exactly one comment dated with that stamp appended after the earlier ones |
| PendientesDomain.Finalizar | js/domain/pendientes.domain.js:119-153 | saves the list `TrasFinalizar` gives, or saves nothing and reports its error |
| PendientesDomain.FinalizarConserva | js/domain/pendientes.domain.js:119-153 | `finalizar` moves the record one step along the lifecycle and keeps ids unique and records coherent |
| PendientesDomain.TrasComentar | js/domain/pendientes.domain.js:155-167 | fails exactly for an unknown id; in any estado appends exactly one comment dated now to that record and changes nothing else |
| PendientesDomain.AgregarComentario | js/domain/pendientes.domain.js:155-167 | saves the list `TrasComentar` gives, or saves nothing and reports its error |
| PendientesDomain.ComentarConserva | js/domain/pendientes.domain.js:155-167 | a comment keeps ids unique and records coherent |
| PendientesDomain.CicloCompleto | js/domain/pendientes.domain.js:51-153 | create, activate at `t1`, finish at `t2`: both steps succeed, and the record ends finished with both stamps, one closing comment and the elapsed time between them |
| PendientesDomain.MismosIdsConservaUnicos | js/domain/pendientes.domain.js:80-88 | a write that keeps every position's id keeps ids unique |
| ImportService.En | js/services/import.service.js:98-107 | `values[i]` is `undefined` exactly past the end |
| ImportService.NoVacio | js/services/import.service.js:105-106 | the `null` default of an optional value: absent exactly when missing or empty, otherwise unchanged |
| ImportService.LeerLinea | js/services/import.service.js:85-108 | a line gives no row exactly when the expression matches nothing |
| ImportService.CrudasCsv | js/services/import.service.js:85-109 | at most one row per line, and one per line exactly when every line has a match |
| ImportService.CrudasCsvCoinciden | js/services/import.service.js:85-109 | the rows are exactly those of the lines with a match, one per line, in order, each the row that line is read as; lines without a match are dropped |
| ImportService.ParseCsv | js/services/import.service.js:74-110 | nothing for fewer than two non-blank lines; otherwise the header is dropped and the rows are those of the other non-blank lines with a match, in order, one each |
| ImportService.CrudaDeCeldas | js/services/import.service.js:126-138 | cells 1 to 7 as the texts of the fields in column order; no `fechaFinalizacion`; `fechaActivacion` absent exactly when cell 8 is the text `null`, else cell 8; comments `'[]'` when cell 9 is empty, else cell 9 |
| ImportService.ParseXls | js/services/import.service.js:112-140 | one row per table row exactly when every table row has ten cells; no row has a `fechaFinalizacion` |
| ImportService.ParseXlsFiltradas | js/services/import.service.js:112-140 | the rows are exactly those of the table rows with at least ten cells, in order, each read by `CrudaDeCeldas`; shorter rows are dropped |
| ImportService.Validar | js/services/import.service.js:144-188 | rejects a missing or empty required field, a `plazoHoras` that is `NaN` or at most 0, an unknown prioridad, and a missing or unknown estado. It accepts every other row (both directions), storing the new id, the texts verbatim, the parsed `plazoHoras`, the lower-cased words, empty dates as absent, and the parsed comments or `[]` |
| ImportService.PersistirDirecto | js/services/import.service.js:226-241 | appends the record at the end of the stored list |
| ImportService.ValidarYGuardar | js/services/import.service.js:144-224 | answers whether `Validar` accepts the row, and then appends exactly that record; otherwise stores nothing |
| ImportService.GuardarFilas | js/services/import.service.js:39-45 | the counters add up to the number of rows, `importados` counts the accepted ones, and the store gains exactly the accepted records in row order |
| ImportService.AceptadasPaso | js/services/import.service.js:39-45 | one more row adds its record exactly when it is accepted |
| ImportService.ImportarArchivo | js/services/import.service.js:10-70 | an unsupported name or no rows: `false` and nothing stored; otherwise `true`, the counters add up to the rows, and the store gains the accepted records in order |
| ImportService.ValidacionesIds | js/services/import.service.js:166-177 | an accepted row is stored under the id offered to it, never the file's |
| ImportService.IdPosteriorLibre | js/services/import.service.js:166-177 | an id offered to a later row is carried by no earlier accepted record |
| ImportService.ImportarConservaUnicos | js/services/import.service.js:166-177 | with fresh distinct ids, importing keeps the store's ids unique |
| CsvTokens.Cierre | js/services/import.service.js:87 | the lazy `.*?"`: the first quote the look-ahead accepts, with no line terminator before it |
| CsvTokens.Corrida | js/services/import.service.js:87 | `[^",\s]+` is greedy: the run is maximal |
| CsvTokens.Tokens | js/services/import.service.js:87 | every match is a quoted value or a run of unquoted characters |
| CsvTokens.SinExtremos | js/services/import.service.js:91 | a quoted match loses exactly its first and last quote |
| CsvTokens.Desdoblar | js/services/import.service.js:91 | `""` becomes `"`; a text with no quote is unchanged |
| CsvTokens.TokensCeldas | js/services/import.service.js:87 | a line of quoted cells without quotes or line terminators is matched cell by cell |
| CsvTokens.LimpiosEntres | js/services/import.service.js:91 | cleaning the quoted cells gives their contents back |
| CsvTokens.CierreAntes | js/services/import.service.js:87 | a quote followed by a comma, with no line terminator before it, closes the quoted match at the latest there |
| ExportService.PrepararDatos | js/services/export.service.js:34-54 | one row per unfinished record, in store order, none `finalizado`, empty exactly when every record is finished; each row carries its record's id, texts, `plazoHoras`, `fechaCreacion` and words, an absent date as `''`, and comments as the list's JSON with every quote doubled, which undoubles back to that JSON |
| ExportService.QuedanSinFinalizar | js/services/export.service.js:37 | the filter keeps only unfinished records, and is empty exactly when all are finished |
| ExportService.DoblarComillas | js/services/export.service.js:52 | never shortens, and leaves a text without quotes unchanged |
| ExportService.DesdoblarDoblar | js/services/import.service.js:91 | undoubling quotes inverts the export's doubling |
| ExportService.SinSaltos | js/services/export.service.js:72-74 | no CR and no LF remain, and a text without them is unchanged |
| ExportService.DatoCsv | js/services/export.service.js:70-74 | a text becomes itself with each line break a space; the number is empty exactly when it is 0, else its decimal text; no cell text holds a line break |
| ExportService.CeldaCsv | js/services/export.service.js:75 | every cell is quoted and holds no line break |
| ExportService.CeldasCsv | js/services/export.service.js:69-76 | one quoted cell per value, in header order |
| ExportService.FilaCsvSinSaltos | js/services/export.service.js:68-77 | no data line contains a line break |
| ExportService.ContenidoCsvLineas | js/services/export.service.js:64-81 | splitting the CSV on `\n` gives the header line then exactly one line per row, n+1 lines in all |
| ExportService.CeldasXls | js/services/export.service.js:93-106 | ten cells per row, one per header |
| ExportService.EncabezadoXls | js/services/export.service.js:85-90 | the first loop appends one `<th>` per header, in order, and closes the head |
| ExportService.AnexarFilasXls | js/services/export.service.js:93-106 | the second loop appends one row per record, in order |
| ExportService.GenerarContenidoXls | js/services/export.service.js:83-112 | the document is the byte-order mark and UTF-8 page around the table of headers and rows |
| ExportService.FilaXlsDiezCeldas | js/services/export.service.js:94-105 | each row is `<tr>`, exactly the ten cells each in a `<td>`, `</tr>` |
| ExportService.ConTdPrefijo | js/services/export.service.js:94-105 | appending cells never rewrites the text already built |
| ExportService.NombreArchivoFechaDeHoy | js/services/export.service.js:56-62 | the file name is `pendientes_` and the day, month and year of the date stamp, `-`-separated, then `.ext` |
| ExportService.ExportarCsv | js/services/export.service.js:7-17 | nothing exactly when every record is finished; otherwise the CSV of the prepared rows, the dated `.csv` name and the CSV MIME type, the content splitting into one line per prepared row plus the header |
| ExportService.ExportarExcel | js/services/export.service.js:19-30 | nothing exactly when every record is finished; otherwise the document of the prepared rows under the dated `.xls` name |
| IdaYVuelta.DoblarAlarga | js/services/export.service.js:52 | a text with a quote grows when doubled |
| IdaYVuelta.LeerLineaExportada | js/services/import.service.js:85-108 | an exported line whose cells are readable is read back cell by cell |
| IdaYVuelta.CrudasDeFilas | js/services/import.service.js:85-109 | the exported data lines are read as one row each, in order |
| IdaYVuelta.LineasExportadas | js/services/import.service.js:75 | the non-blank lines of the exported CSV are the header and the data lines |
| IdaYVuelta.ParseCsvExportado | js/services/import.service.js:74-110 | parsing the exported CSV gives one row per exported row, in order, holding its cell texts |
| IdaYVuelta.DatosDeFila | js/services/import.service.js:97-108 | the row read from a readable exported line holds its fields, `plazoHoras` in decimal, empty dates absent |
| IdaYVuelta.ValidarLeida | js/services/import.service.js:144-188 | a row read from a clean record validates into that record under the new id |
| IdaYVuelta.ValidarExportable | js/services/import.service.js:144-188 | the exported row of a clean record validates into that record under the new id |
| IdaYVuelta.CsvIdaYVuelta | js/services/import.service.js:74-188 | exporting clean records to CSV and importing the file gives back every unfinished record, in order, under its new id, without `tiempoRealHoras` |
| IdaYVuelta.XlsIdaYVuelta | js/services/import.service.js:112-188 | a clean record's table row is kept by the parser and validates into the record under the new id, without `fechaFinalizacion` and `tiempoRealHoras` |
| IdaYVuelta.XlsIdaYVueltaTodas | js/services/import.service.js:112-188 | the table rows of a whole store of clean records are all kept and validate into the unfinished records, in order, each under its new id, without `fechaFinalizacion` and `tiempoRealHoras` |
| IdaYVuelta.XlsComentariosDoblados | js/services/import.service.js:137 | with comments, the table cell hands `JSON.parse` the JSON with its quotes doubled, which is not the comments' JSON |
| IdaYVuelta.ComillaEnComentarios | js/services/export.service.js:52 | the JSON of a non-empty comment list holds a quote |
| IdaYVuelta.SegundaDelPar | js/services/import.service.js:91 | in a text with doubled quotes, a quote not followed by another ends a pair: the text up to it undoubles into a proper prefix of the original |
| IdaYVuelta.CorteEnComa | js/services/import.service.js:87-91 | a doubled text with `",` in it, as a quoted cell, gives a first match whose value is a proper prefix of the original |
| IdaYVuelta.CsvComentariosCortados | js/services/import.service.js:87-107 | with comments, the exported line is read, but its comments text is a proper prefix of the comments' JSON |
| DatesUtils.TodayDateStringParts | js/utils/dates.js:11-17 | the date stamp splits on `/` into the year, the 1-based month and the day, both padded |
| DatesUtils.TodayDateStringLayout | js/utils/dates.js:11-17 | for a four-digit year the stamp is exactly `AAAA/MM/DD`, each field reading back as its value |
| DatesUtils.NowDateTimeStringParts | js/utils/dates.js:23-31 | the date-time stamp is the date stamp, one space, then `HH:MM` of the padded hour and minute |
| DatesUtils.HorasMinutosReadsBack | js/utils/dates.js:63-71 | `HH:MM` reads back as the total minutes: minutes below 60, hours not wrapped at 24, both padded to at least two digits |
| DatesUtils.RestanteReadsBack | js/utils/dates.js:55-76 | exceeded exactly when the deadline has passed; then the text starts with `-`, and the rest shows the whole minutes of the distance |
| DatesUtils.CalcularTiempoRestante | js/utils/dates.js:38-77 | `00:00` not exceeded without an activation stamp or with a zero `plazoHoras`; `NaN:NaN` for an invalid stamp; otherwise the countdown to activation plus `plazoHoras` hours |
| DatesUtils.RestanteZero | js/utils/dates.js:55-57 | exactly at the deadline: `00:00`, not exceeded |
| DatesUtils.RestanteJustLate | js/utils/dates.js:55-74 | less than a minute late: `-00:00`, exceeded |
| DatesUtils.NinetyMinutesIntoOneHour | js/utils/dates.js:38-77 | activated 90 minutes ago with one hour: `-00:30`, exceeded |
| DatesUtils.AtDeadlineNotExceeded | js/utils/dates.js:38-77 | at the deadline the countdown is `00:00`, not exceeded |
| DatesUtils.JustPastDeadline | js/utils/dates.js:38-77 | one millisecond late the countdown is `-00:00`, exceeded |
| FormatUtils.FormatDate | js/utils/format.js:13-19 | empty gives empty; anything not three `/`-parts is unchanged; the length is kept |
| FormatUtils.FormatDateReversesParts | js/utils/format.js:15-19 | three parts `a/b/c` become `c/b/a` |
| FormatUtils.FormatDateInvolution | js/utils/format.js:13-19 | applying `formatDate` twice gives back the input |
| FormatUtils.FormatDateTime | js/utils/format.js:28-33 | empty gives empty; a text starting with a space is unchanged |
| FormatUtils.FormatDateTimeNoSpace | js/utils/format.js:31-36 | without a space the result is `formatDate` of the whole text |
| FormatUtils.FormatDateTimeWithTime | js/utils/format.js:31-39 | `date time rest` gives `formatDate(date) time`; what follows a second space is dropped |
| Strings.Split | js/utils/format.js:15 | `split` on one character: at least one piece, none holding the separator, the whole text when it has none |
| Strings.SplitJoin | js/services/export.service.js:80 | joining separator-free pieces and splitting again gives the pieces |
| Strings.JoinSplit | js/services/import.service.js:75 | splitting and joining again gives the text |
| Strings.LexCmp | js/domain/pendientes.domain.js:24 | the comparison is -1, 0 or 1, and 0 exactly for equal texts |
| Strings.LexCmpTransitive | js/domain/pendientes.domain.js:42 | the text order is transitive |
| Strings.ToLowerAscii | js/services/import.service.js:156-159 | same length; ASCII capitals become lower case, every other character is kept |
| Numbers.NatToStringValue | js/utils/dates.js:14-15 | `String(n)` reads back as `n` |
| Numbers.Pad2Value | js/utils/dates.js:14-15 | `padStart(2, '0')` keeps the value, never truncates, and is exactly two digits below 100 |
| Numbers.ParseIntOfNatToString | js/services/import.service.js:152 | `parseInt(String(n)) === n` for every non-negative `n` |
| Numbers.ParseIntDecimalPrefix | js/services/import.service.js:152 | `parseInt` reads the longest run of decimal digits and ignores what follows |
| Numbers.ParseIntNoDigits | js/services/import.service.js:152-153 | a text starting with neither white space, a sign nor a digit reads as `NaN` |
| Numbers.ParseIntExampleTrailingLetters | js/services/import.service.js:152 | `parseInt("12abc")` is 12 |
| Numbers.ParseIntExampleFraction | js/services/import.service.js:152 | `parseInt("3.5")` is 3 |
| Numbers.ParseIntExampleLetters | js/services/import.service.js:152-153 | `parseInt("abc")` is `NaN` |
| Numbers.ParseIntHex | js/services/import.service.js:152 | the `0x` prefix switches to hexadecimal |
| Listas.Filtrar | js/domain/pendientes.domain.js:18 | `filter` keeps exactly the elements that pass, never more, all of them exactly when all pass |
| Listas.FiltrarConcat | js/domain/pendientes.domain.js:97 | filtering keeps order: it distributes over concatenation |
| Listas.SinRepetir | js/domain/pendientes.domain.js:23 | `[...new Set(xs)]`: the same elements, each once |
| Ordenacion.OrdenarPermutacion | js/domain/pendientes.domain.js:37 | the sort only reorders: same elements with the same multiplicities |
| Ordenacion.OrdenarOrdena | js/domain/pendientes.domain.js:37-44 | under a total, transitive comparator no element is reported greater than a later one |
| Ordenacion.OrdenarEstable | js/domain/pendientes.domain.js:37-44 | the sort is stable: elements the comparator calls equal keep their input order |

## Left out

- The user interface (components, pages, modals, tables, `dom.js`) is not part of this model. It holds the only checks for a positive `plazoHoras` and a non-empty comment, and the "delete only pending" rule. These are not preconditions here because the domain does not enforce them.
- `StorageService.getPendientes` reading missing or corrupt JSON as `[]`: the store is modelled as the list itself, so there is no serialisation to fail.
- `FileReader`, the Promise, `alert` and `console`, and the `Blob`/anchor download are I/O. The exports return the content, name and MIME type they would hand to the download.
- `ImportService.ImportarArchivo`: the `!file` guard and a read error (`onerror`) are host events; the file arrives as a name and its text.
- `DOMParser` (`_parseXLS`) is a host parser. The model starts from the cell texts of the body rows, given by the `celdasXls` argument.
- `JSON.parse` of the comments is the `leer` argument. `JSON.stringify` is written out for comment lists only (`ComentariosJson`).
- `crypto.randomUUID()` is an argument. Its freshness is a precondition of `PendientesDomain.Crear` and of `ImportService.ImportarConservaUnicos`.
- `Date`, time zones and floating point are not modelled. Stored stamps are parsed to whole minutes by the `parseMinutos` argument, and `tiempoRealHoras` is integer hundredths of an hour.
- PendientesDomain.TiempoRealCentesimas: assumes whole-minute stamps, as the source stores; a sub-minute difference is not modelled.
- Strings.LexCmp: compares code points. This stands for both `localeCompare` and the default `sort()`. It agrees with them on the zero-padded stamps and plain project names the store holds, but not in general.
- Strings.ToLowerAscii: lower-cases ASCII letters only. That is exact for the six words validation accepts, since no other character lower-cases into a letter of those words except the Kelvin sign, and no accepted word holds a `k`.
- PendientesDomain.Crear: `Number(data.plazoHoras)` of a form text that is not a number (`NaN`) is not modelled; the form's `plazoHoras` arrives as an integer.
- PendientesDomain.Editar: `Number(data.plazoHoras)` of a form text that is not a number (`NaN`) is not modelled; the form's `plazoHoras` arrives as an integer.
- ImportService.Validar: an undefined `fechaCreacion` (a line with fewer than eight values) is stored as `""`, not `undefined`. Such a line is rejected anyway unless it has values 1 to 6.
- Numbers.ParseIntOfNatToString: the round trip of `parseInt` and `String(n)` is stated for non-negative integers only, which is the case of a stored positive `plazoHoras`.
- IdaYVuelta.CsvIdaYVuelta: holds only for records with no quote and no line terminator in their texts, no comments and no empty-text date. No round trip exists beyond that (see `CsvComentariosCortados` and `XlsComentariosDoblados`).
- IdaYVuelta.XlsIdaYVuelta: starts from the cell texts the export wrote, so it assumes the host parser returns each `<td>`'s `textContent` exactly as written. The export does not escape its texts, so a text holding `<` or `&` (such as `a<b>c</b>` or `x &amp; y`) is parsed as markup or an entity and comes back different; such texts are not excluded by the lemma's preconditions. The same holds for `IdaYVuelta.XlsIdaYVueltaTodas`.
- IdaYVuelta.CsvComentariosCortados: assumes the first comment's date holds no line terminator, as the stamps `getNowDateTimeString` writes never do.
- ExportService.GenerarContenidoXls: the single `tabla +=` accumulation of the source is three steps here (`EncabezadoXls`, `AnexarFilasXls`, and the closing tags); the text built is the same.
- Concurrent writers (two views of one store) are not modelled: every operation runs alone on the list it reads.
