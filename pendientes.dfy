/**
 * `PendientesDomain` (js/domain/pendientes.domain.js): reads over the stored list and
 * the read-modify-write operations of the task lifecycle. Each write is a function
 * from the stored list to the list it saves, or to the error it throws (`Tras...`),
 * and a method that performs it on the store; a failed operation saves nothing.
 * The clock is a `Reloj` parameter, `crypto.randomUUID()` an id parameter, and the
 * parsing of a stored `AAAA/MM/DD HH:MM` stamp into minutes the `parseMinutos` parameter.
 */
module PendientesDomain {
  import opened Wrappers
  import opened Strings
  import opened Tareas
  import opened Listas
  import opened Ordenacion
  import opened DatesUtils
  import opened Storage

  // --- LECTURA ---

  /** Position of the first record with `id` (`findIndex`), `None` for `-1`. */
  function IndiceDe(ts: seq<Tarea>, id: string): (r: Option<nat>)
    ensures r.None? <==> !TieneId(ts, id)
    ensures r.Some? ==> (r.value < |ts| && ts[r.value].id == id
                         && forall j :: 0 <= j < r.value ==> ts[j].id != id)
  {
    if ts == [] then None
    else if ts[0].id == id then Some(0)
    else match IndiceDe(ts[1..], id)
      case None => None
      case Some(k) => Some(k + 1)
  }

  /** `obtenerPorId`: the first record with `id` (`find`), `None` for `undefined`. */
  function ObtenerPorId(ts: seq<Tarea>, id: string): (r: Option<Tarea>)
    ensures r.None? <==> !TieneId(ts, id)
    ensures r.Some? ==> r.value in ts && r.value.id == id
    ensures r.Some? ==> exists i :: 0 <= i < |ts| && ts[i] == r.value && forall j :: 0 <= j < i ==> ts[j].id != id
  {
    match IndiceDe(ts, id)
    case None => None
    case Some(i) => Some(ts[i])
  }

  /** With unique ids, the record found by id is the one that has it. */
  lemma ObtenerPorIdUnico(ts: seq<Tarea>, i: nat)
    requires IdsUnicos(ts) && i < |ts|
    ensures ObtenerPorId(ts, ts[i].id) == Some(ts[i])
  {
    var k := IndiceDe(ts, ts[i].id);
    assert k.Some?;
  }

  predicate EsActivo(t: Tarea) {
    t.estado == Activo
  }

  /** `obtenerActivos`: the active records, in store order. */
  function ObtenerActivos(ts: seq<Tarea>): (r: seq<Tarea>)
    ensures forall t :: t in r <==> t in ts && t.estado == Activo
  {
    Filtrar(ts, EsActivo)
  }

  predicate EsPendiente(t: Tarea) {
    t.estado == Pendiente
  }

  function Proyecto(t: Tarea): string {
    t.proyecto
  }

  /** `proyecto` of every record, in order (`map(p => p.proyecto)`). */
  function Proyectos(ts: seq<Tarea>): (r: seq<string>)
    ensures |r| == |ts|
    ensures forall i :: 0 <= i < |ts| ==> r[i] == ts[i].proyecto
  {
    if ts == [] then [] else [ts[0].proyecto] + Proyectos(ts[1..])
  }

  /** `obtenerProyectosDisponibles`: the distinct projects of the pending records, sorted by `sort()`. */
  function ObtenerProyectosDisponibles(ts: seq<Tarea>): seq<string> {
    Ordenar(SinRepetir(Proyectos(Filtrar(ts, EsPendiente))), LexCmp)
  }

  lemma LexCmpOrdenaTextos()
    ensures Total(LexCmp) && Transitiva(LexCmp) && EmpateEquivalencia(LexCmp)
  {
    forall a, b | LexCmp(a, b) > 0
      ensures LexCmp(b, a) <= 0
    {
      LexCmpAntisymmetric(a, b);
    }
    forall a, b, c | LexCmp(a, b) <= 0 && LexCmp(b, c) <= 0
      ensures LexCmp(a, c) <= 0
    {
      LexCmpTransitive(a, b, c);
    }
  }

  /** A project is offered exactly when some pending record has it. */
  lemma ProyectosDisponiblesExactos(ts: seq<Tarea>, p: string)
    ensures p in ObtenerProyectosDisponibles(ts) <==> exists i :: 0 <= i < |ts| && ts[i].estado == Pendiente && ts[i].proyecto == p
  {
    var pend := Filtrar(ts, EsPendiente);
    var d := SinRepetir(Proyectos(pend));
    OrdenarPermutacion(d, LexCmp);
    assert p in ObtenerProyectosDisponibles(ts) <==> p in multiset(d);
    EnProyectos(pend, p);
    PendienteConProyecto(ts, p);
  }

  lemma EnProyectos(ts: seq<Tarea>, p: string)
    ensures p in Proyectos(ts) <==> exists k :: 0 <= k < |ts| && ts[k].proyecto == p
  {
    if p in Proyectos(ts) {
      var k :| 0 <= k < |Proyectos(ts)| && Proyectos(ts)[k] == p;
    }
    if exists k :: 0 <= k < |ts| && ts[k].proyecto == p {
      var k :| 0 <= k < |ts| && ts[k].proyecto == p;
      assert Proyectos(ts)[k] == p;
    }
  }

  lemma PendienteConProyecto(ts: seq<Tarea>, p: string)
    ensures var pend := Filtrar(ts, EsPendiente);
      (exists k :: 0 <= k < |pend| && pend[k].proyecto == p)
      <==> exists i :: 0 <= i < |ts| && ts[i].estado == Pendiente && ts[i].proyecto == p
  {
    var pend := Filtrar(ts, EsPendiente);
    if i :| 0 <= i < |ts| && ts[i].estado == Pendiente && ts[i].proyecto == p {
      PendienteFiltrada(ts, i);
    }
    if k :| 0 <= k < |pend| && pend[k].proyecto == p {
      FiltradaPendiente(ts, k);
    }
  }

  lemma PendienteFiltrada(ts: seq<Tarea>, i: nat)
    requires i < |ts| && ts[i].estado == Pendiente
    ensures exists k :: 0 <= k < |Filtrar(ts, EsPendiente)| && Filtrar(ts, EsPendiente)[k].proyecto == ts[i].proyecto
  {
    var pend := Filtrar(ts, EsPendiente);
    assert ts[i] in ts && EsPendiente(ts[i]);
    assert ts[i] in pend;
    var k :| 0 <= k < |pend| && pend[k] == ts[i];
    assert pend[k].proyecto == ts[i].proyecto;
  }

  lemma FiltradaPendiente(ts: seq<Tarea>, k: nat)
    requires k < |Filtrar(ts, EsPendiente)|
    ensures var t := Filtrar(ts, EsPendiente)[k];
      exists i :: 0 <= i < |ts| && ts[i].estado == Pendiente && ts[i].proyecto == t.proyecto
  {
    var pend := Filtrar(ts, EsPendiente);
    assert pend[k] in pend;
    assert pend[k] in ts && EsPendiente(pend[k]);
    var i :| 0 <= i < |ts| && ts[i] == pend[k];
    assert ts[i].estado == Pendiente && ts[i].proyecto == pend[k].proyecto;
  }

  /** The projects come out in strictly increasing order: sorted and without repeats. */
  lemma ProyectosDisponiblesOrdenados(ts: seq<Tarea>)
    ensures var r := ObtenerProyectosDisponibles(ts);
      forall i, j :: 0 <= i < j < |r| ==> LexCmp(r[i], r[j]) < 0
  {
    var d := SinRepetir(Proyectos(Filtrar(ts, EsPendiente)));
    var r := ObtenerProyectosDisponibles(ts);
    LexCmpOrdenaTextos();
    OrdenarOrdena(d, LexCmp);
    OrdenarPermutacion(d, LexCmp);
    forall i, j | 0 <= i < j < |r|
      ensures LexCmp(r[i], r[j]) < 0
    {
      if r[i] == r[j] {
        RepetidoCuentaDos(r, i, j);
      }
    }
  }

  /** The comparator of `obtenerPendientesFiltrados`: by weight, heaviest first, or by `fechaCreacion`. */
  function CompararPor(orden: string): (Tarea, Tarea) -> int {
    if orden == "prioridad_desc" then
      (a: Tarea, b: Tarea) => b.prioridad.Peso() - a.prioridad.Peso()
    else
      (a: Tarea, b: Tarea) => LexCmp(a.fechaCreacion, b.fechaCreacion)
  }

  lemma CompararPorOrdena(orden: string)
    ensures Total(CompararPor(orden)) && Transitiva(CompararPor(orden)) && EmpateEquivalencia(CompararPor(orden))
  {
    if orden != "prioridad_desc" {
      var cmp := CompararPor(orden);
      forall a, b | cmp(a, b) > 0
        ensures cmp(b, a) <= 0
      {
        LexCmpAntisymmetric(a.fechaCreacion, b.fechaCreacion);
      }
      forall a, b, c | cmp(a, b) <= 0 && cmp(b, c) <= 0
        ensures cmp(a, c) <= 0
      {
        LexCmpTransitive(a.fechaCreacion, b.fechaCreacion, c.fechaCreacion);
      }
    }
  }

  /** The records that `obtenerPendientesFiltrados` keeps; `""` means no filter. */
  predicate Seleccionada(t: Tarea, proyecto: string, prioridad: string) {
    t.estado == Pendiente
    && (proyecto == "" || t.proyecto == proyecto)
    && (prioridad == "" || t.prioridad.Texto() == prioridad)
  }

  function Seleccion(ts: seq<Tarea>, proyecto: string, prioridad: string): seq<Tarea> {
    Filtrar(ts, t => Seleccionada(t, proyecto, prioridad))
  }

  /** `obtenerPendientesFiltrados`: the selected records sorted in place by the chosen order. */
  function ObtenerPendientesFiltrados(ts: seq<Tarea>, proyecto: string, prioridad: string, orden: string): seq<Tarea> {
    Ordenar(Seleccion(ts, proyecto, prioridad), CompararPor(orden))
  }

  /** Exactly the selected records come out, each as often as it is stored. */
  lemma PendientesFiltradosSeleccion(ts: seq<Tarea>, proyecto: string, prioridad: string, orden: string)
    ensures multiset(ObtenerPendientesFiltrados(ts, proyecto, prioridad, orden)) == multiset(Seleccion(ts, proyecto, prioridad))
    ensures forall t :: t in ObtenerPendientesFiltrados(ts, proyecto, prioridad, orden) <==> t in ts && Seleccionada(t, proyecto, prioridad)
  {
    var s := Seleccion(ts, proyecto, prioridad);
    OrdenarPermutacion(s, CompararPor(orden));
    forall t
      ensures t in Ordenar(s, CompararPor(orden)) <==> t in s
    {
      assert t in Ordenar(s, CompararPor(orden)) <==> t in multiset(Ordenar(s, CompararPor(orden)));
    }
  }

  /** `prioridad_desc` gives non-increasing weights; any other order non-decreasing `fechaCreacion`. */
  lemma PendientesFiltradosOrden(ts: seq<Tarea>, proyecto: string, prioridad: string, orden: string)
    ensures var r := ObtenerPendientesFiltrados(ts, proyecto, prioridad, orden);
      forall i, j :: 0 <= i < j < |r| ==>
        if orden == "prioridad_desc" then r[i].prioridad.Peso() >= r[j].prioridad.Peso()
        else LexCmp(r[i].fechaCreacion, r[j].fechaCreacion) <= 0
  {
    CompararPorOrdena(orden);
    OrdenarOrdena(Seleccion(ts, proyecto, prioridad), CompararPor(orden));
  }

  /** Records the order ranks equal keep their store order (the sort is stable). */
  lemma PendientesFiltradosEstable(ts: seq<Tarea>, proyecto: string, prioridad: string, orden: string, y: Tarea)
    ensures Empates(ObtenerPendientesFiltrados(ts, proyecto, prioridad, orden), y, CompararPor(orden))
      == Empates(Seleccion(ts, proyecto, prioridad), y, CompararPor(orden))
  {
    CompararPorOrdena(orden);
    OrdenarEstable(Seleccion(ts, proyecto, prioridad), y, CompararPor(orden));
  }

  // --- ESCRITURA ---

  /** The three `Error`s the domain throws. */
  datatype ErrorDominio = NoEncontrado | NoEsPendiente | NoEsActivo

  /** What the create and edit forms pass as `data`. */
  datatype DatosTarea = DatosTarea(titulo: string, detalle: string, proyecto: string, prioridad: Prioridad, plazoHoras: int)

  /** A failed operation reports its error and saves nothing; a successful one saves `ts`. */
  predicate Aplicado(res: Result<seq<Tarea>, ErrorDominio>, antes: seq<Tarea>, despues: seq<Tarea>, r: Result<(), ErrorDominio>) {
    match res
    case Failure(e) => r == Failure(e) && despues == antes
    case Success(ts) => r == Success(()) && despues == ts
  }

  /** Everything `editar` does not touch: id, estado, dates, elapsed time and comments. */
  predicate MismosMetadatos(a: Tarea, b: Tarea) {
    a.id == b.id && a.estado == b.estado && a.fechaActivacion == b.fechaActivacion
    && a.fechaFinalizacion == b.fechaFinalizacion && a.tiempoRealHoras == b.tiempoRealHoras
    && a.comentarios == b.comentarios
  }

  /** Same length, and every position keeps its id. */
  predicate MismosIds(antes: seq<Tarea>, despues: seq<Tarea>) {
    |antes| == |despues| && forall j :: 0 <= j < |antes| ==> antes[j].id == despues[j].id
  }

  lemma MismosIdsConservaUnicos(antes: seq<Tarea>, despues: seq<Tarea>)
    requires MismosIds(antes, despues) && IdsUnicos(antes)
    ensures IdsUnicos(despues)
  {
    forall i, j | 0 <= i < j < |despues|
      ensures despues[i].id != despues[j].id
    {
      assert antes[i].id != antes[j].id;
    }
  }

  /** The record `crear` builds: pending, created today, no dates, no elapsed time, no comments. */
  function NuevaTarea(id: string, data: DatosTarea, hoy: Reloj): Tarea {
    Tarea(id, data.titulo, data.detalle, data.proyecto, data.prioridad, data.plazoHoras,
          Pendiente, GetTodayDateString(hoy), None, None, None, [])
  }

  /** `crear`: appends the new record and returns it. */
  method Crear(store: StorageService, id: string, data: DatosTarea, hoy: Reloj) returns (t: Tarea)
    requires !TieneId(store.pendientes, id)
    modifies store
    ensures t == NuevaTarea(id, data, hoy)
    ensures store.pendientes == old(store.pendientes) + [t]
  {
    t := NuevaTarea(id, data, hoy);
    var pendientes := store.GetPendientes();
    pendientes := pendientes + [t];
    store.SavePendientes(pendientes);
  }

  lemma IndiceDeAlFinal(ts: seq<Tarea>, t: Tarea)
    requires !TieneId(ts, t.id)
    ensures IndiceDe(ts + [t], t.id) == Some(|ts|)
  {
    var k := IndiceDe(ts + [t], t.id);
    assert (ts + [t])[|ts|].id == t.id;
  }

  /** After `crear`, looking up the new id gives the new record: pending, created today, without dates or comments. */
  lemma CrearLuegoObtener(ts: seq<Tarea>, id: string, data: DatosTarea, hoy: Reloj)
    requires !TieneId(ts, id)
    ensures var t := ObtenerPorId(ts + [NuevaTarea(id, data, hoy)], id);
      t.Some? && t.value.id == id && t.value.titulo == data.titulo && t.value.estado == Pendiente
      && t.value.fechaCreacion == GetTodayDateString(hoy) && t.value.comentarios == []
      && Coherente(t.value)
  {
    IndiceDeAlFinal(ts, NuevaTarea(id, data, hoy));
  }

  /** `crear` with a fresh id keeps ids unique and every record coherent. */
  lemma CrearConserva(ts: seq<Tarea>, id: string, data: DatosTarea, hoy: Reloj)
    requires !TieneId(ts, id)
    ensures IdsUnicos(ts) ==> IdsUnicos(ts + [NuevaTarea(id, data, hoy)])
    ensures TodasCoherentes(ts) ==> TodasCoherentes(ts + [NuevaTarea(id, data, hoy)])
  {
    var r := ts + [NuevaTarea(id, data, hoy)];
    if IdsUnicos(ts) {
      forall i, j | 0 <= i < j < |r|
        ensures r[i].id != r[j].id
      {
        if j == |ts| {
          assert ts[i].id != id;
        }
      }
    }
  }

  /** The record after `editar`: the form's fields and today's date as `fechaCreacion`. */
  function Editada(t: Tarea, data: DatosTarea, hoy: Reloj): Tarea {
    t.(titulo := data.titulo, detalle := data.detalle, proyecto := data.proyecto,
       prioridad := data.prioridad, plazoHoras := data.plazoHoras,
       fechaCreacion := GetTodayDateString(hoy))
  }

  /**
   * `editar`: an unknown id fails; otherwise only the first record with that id changes,
   * and only in the form's fields and `fechaCreacion`.
   */
  function TrasEditar(ts: seq<Tarea>, id: string, data: DatosTarea, hoy: Reloj): (r: Result<seq<Tarea>, ErrorDominio>)
    ensures r.Failure? <==> !TieneId(ts, id)
    ensures r.Failure? ==> r.error == NoEncontrado
    ensures r.Success? ==> var i := IndiceDe(ts, id).value;
      MismosIds(ts, r.value)
      && (forall j :: 0 <= j < |ts| && j != i ==> r.value[j] == ts[j])
      && MismosMetadatos(r.value[i], ts[i])
      && r.value[i].titulo == data.titulo && r.value[i].detalle == data.detalle
      && r.value[i].proyecto == data.proyecto && r.value[i].prioridad == data.prioridad
      && r.value[i].plazoHoras == data.plazoHoras && r.value[i].fechaCreacion == GetTodayDateString(hoy)
  {
    match IndiceDe(ts, id)
    case None => Failure(NoEncontrado)
    case Some(i) => Success(ts[i := Editada(ts[i], data, hoy)])
  }

  method Editar(store: StorageService, id: string, data: DatosTarea, hoy: Reloj) returns (r: Result<(), ErrorDominio>)
    modifies store
    ensures Aplicado(TrasEditar(old(store.pendientes), id, data, hoy), old(store.pendientes), store.pendientes, r)
  {
    var pendientes := store.GetPendientes();
    var indice := IndiceDe(pendientes, id);
    if indice.None? {
      return Failure(NoEncontrado);
    }
    var i := indice.value;
    pendientes := pendientes[i := Editada(pendientes[i], data, hoy)];
    store.SavePendientes(pendientes);
    return Success(());
  }

  /** `editar` keeps every record coherent. */
  lemma EditarConserva(ts: seq<Tarea>, id: string, data: DatosTarea, hoy: Reloj)
    requires TodasCoherentes(ts) && TrasEditar(ts, id, data, hoy).Success?
    ensures TodasCoherentes(TrasEditar(ts, id, data, hoy).value)
  {
    var r := TrasEditar(ts, id, data, hoy).value;
    forall j | 0 <= j < |r|
      ensures Coherente(r[j])
    {
      assert Coherente(ts[j]);
    }
  }

  /** The filter of `eliminar`: `p => p.id !== id`. */
  function ConOtroId(id: string): Tarea -> bool {
    (t: Tarea) => t.id != id
  }

  /**
   * `eliminar`: fails when no record has the id; otherwise removes every record with it
   * and keeps all others, whatever their estado.
   */
  function TrasEliminar(ts: seq<Tarea>, id: string): (r: Result<seq<Tarea>, ErrorDominio>)
    ensures r.Failure? <==> !TieneId(ts, id)
    ensures r.Failure? ==> r.error == NoEncontrado
    ensures r.Success? ==> (|r.value| < |ts| && (forall j :: 0 <= j < |r.value| ==> r.value[j].id != id)
                            && forall t :: t in r.value <==> t in ts && t.id != id)
    ensures r.Success? ==> r.value == Filtrar(ts, ConOtroId(id))
  {
    var restantes := Filtrar(ts, ConOtroId(id));
    assert forall j :: 0 <= j < |restantes| ==> restantes[j] in restantes;
    if |restantes| == |ts| then Failure(NoEncontrado) else Success(restantes)
  }

  method Eliminar(store: StorageService, id: string) returns (r: Result<(), ErrorDominio>)
    modifies store
    ensures Aplicado(TrasEliminar(old(store.pendientes), id), old(store.pendientes), store.pendientes, r)
  {
    var pendientes := store.GetPendientes();
    var longitudInicial := |pendientes|;
    pendientes := Filtrar(pendientes, ConOtroId(id));
    if |pendientes| == longitudInicial {
      return Failure(NoEncontrado);
    }
    store.SavePendientes(pendientes);
    return Success(());
  }

  lemma IdsUnicosAlrededor(a: seq<Tarea>, t: Tarea, b: seq<Tarea>)
    requires IdsUnicos(a + [t] + b)
    ensures forall i :: 0 <= i < |a| ==> ConOtroId(t.id)(a[i])
    ensures forall i :: 0 <= i < |b| ==> ConOtroId(t.id)(b[i])
  {
    var ts := a + [t] + b;
    forall i | 0 <= i < |a|
      ensures a[i].id != t.id
    {
      assert ts[i] == a[i] && ts[|a|] == t;
    }
    forall i | 0 <= i < |b|
      ensures b[i].id != t.id
    {
      assert ts[|a| + 1 + i] == b[i] && ts[|a|] == t;
    }
  }

  /** With unique ids, deleting a record leaves the others in their order. */
  lemma EliminarQuitaSoloEsa(a: seq<Tarea>, t: Tarea, b: seq<Tarea>)
    requires IdsUnicos(a + [t] + b)
    ensures TrasEliminar(a + [t] + b, t.id) == Success(a + b)
  {
    IdsUnicosAlrededor(a, t, b);
    FiltrarAlrededor(a, t, b, ConOtroId(t.id));
  }

  lemma {:induction false} FiltrarConservaUnicos(ts: seq<Tarea>, p: Tarea -> bool)
    requires IdsUnicos(ts)
    ensures IdsUnicos(Filtrar(ts, p))
  {
    if ts != [] {
      var resto := Filtrar(ts[1..], p);
      assert IdsUnicos(ts[1..]) by {
        forall i, j | 0 <= i < j < |ts[1..]|
          ensures ts[1..][i].id != ts[1..][j].id
        {
          assert ts[i + 1].id != ts[j + 1].id;
        }
      }
      FiltrarConservaUnicos(ts[1..], p);
      if p(ts[0]) {
        var r := [ts[0]] + resto;
        forall i, j | 0 <= i < j < |r|
          ensures r[i].id != r[j].id
        {
          if i == 0 {
            assert r[j] in ts[1..];
            var k :| 0 <= k < |ts[1..]| && ts[1..][k] == r[j];
            assert ts[0].id != ts[k + 1].id;
          }
        }
      }
    }
  }

  /** `eliminar` keeps ids unique and every remaining record coherent. */
  lemma EliminarConserva(ts: seq<Tarea>, id: string)
    requires TrasEliminar(ts, id).Success?
    ensures IdsUnicos(ts) ==> IdsUnicos(TrasEliminar(ts, id).value)
    ensures TodasCoherentes(ts) ==> TodasCoherentes(TrasEliminar(ts, id).value)
  {
    var r := TrasEliminar(ts, id).value;
    if IdsUnicos(ts) {
      FiltrarConservaUnicos(ts, ConOtroId(id));
    }
    if TodasCoherentes(ts) {
      forall j | 0 <= j < |r|
        ensures Coherente(r[j])
      {
        assert r[j] in ts;
        var k :| 0 <= k < |ts| && ts[k] == r[j];
      }
    }
  }

  /**
   * `activar`: an unknown id or a record that is not pending fails; otherwise the first
   * record with the id becomes active, activated now, and nothing else changes.
   */
  function TrasActivar(ts: seq<Tarea>, id: string, ahora: Reloj): (r: Result<seq<Tarea>, ErrorDominio>)
    ensures !TieneId(ts, id) ==> r == Failure(NoEncontrado)
    ensures TieneId(ts, id) ==> var i := IndiceDe(ts, id).value;
      if ts[i].estado != Pendiente then r == Failure(NoEsPendiente)
      else (r.Success? && MismosIds(ts, r.value)
            && (forall j :: 0 <= j < |ts| && j != i ==> r.value[j] == ts[j])
            && r.value[i] == ts[i].(estado := Activo, fechaActivacion := Some(GetNowDateTimeString(ahora))))
  {
    match IndiceDe(ts, id)
    case None => Failure(NoEncontrado)
    case Some(i) =>
      if ts[i].estado != Pendiente then Failure(NoEsPendiente)
      else Success(ts[i := ts[i].(estado := Activo, fechaActivacion := Some(GetNowDateTimeString(ahora)))])
  }

  method Activar(store: StorageService, id: string, ahora: Reloj) returns (r: Result<(), ErrorDominio>)
    modifies store
    ensures Aplicado(TrasActivar(old(store.pendientes), id, ahora), old(store.pendientes), store.pendientes, r)
  {
    var pendientes := store.GetPendientes();
    var indice := IndiceDe(pendientes, id);
    if indice.None? {
      return Failure(NoEncontrado);
    }
    var i := indice.value;
    if pendientes[i].estado != Pendiente {
      return Failure(NoEsPendiente);
    }
    pendientes := pendientes[i := pendientes[i].(estado := Activo, fechaActivacion := Some(GetNowDateTimeString(ahora)))];
    store.SavePendientes(pendientes);
    return Success(());
  }

  /** `activar` moves one record one step along the lifecycle and keeps every record coherent. */
  lemma ActivarConserva(ts: seq<Tarea>, id: string, ahora: Reloj)
    requires TrasActivar(ts, id, ahora).Success?
    ensures var r := TrasActivar(ts, id, ahora).value; var i := IndiceDe(ts, id).value;
      r[i].estado.Etapa() == ts[i].estado.Etapa() + 1
      && (IdsUnicos(ts) ==> IdsUnicos(r))
      && (TodasCoherentes(ts) ==> TodasCoherentes(r))
  {
    var r := TrasActivar(ts, id, ahora).value;
    var i := IndiceDe(ts, id).value;
    if IdsUnicos(ts) {
      MismosIdsConservaUnicos(ts, r);
    }
    if TodasCoherentes(ts) {
      forall j | 0 <= j < |r|
        ensures Coherente(r[j])
      {
        assert Coherente(ts[j]);
        if j != i {
          assert r[j] == ts[j];
        }
      }
    }
  }

  /**
   * `tiempoRealHoras` in hundredths of an hour for `m` elapsed minutes: `m / 60` hours
   * rounded to two decimals by `toFixed(2)`, which rounds the magnitude. The value is the
   * nearest hundredth, and it is unique because `5 * m / 3` is never halfway between two.
   */
  function TiempoRealCentesimas(m: int): (r: int)
    ensures -1 <= 3 * r - 5 * m <= 1
    ensures r < 0 <==> m < 0
  {
    if m >= 0 then (5 * m + 1) / 3 else -((5 * -m + 1) / 3)
  }

  /** Two and a half hours: `parseFloat((9000000 / 3600000).toFixed(2)) === 2.5`. */
  lemma TiempoRealDosHorasYMedia()
    ensures TiempoRealCentesimas(150) == 250
  {
  }

  /**
   * The time `finalizar` records: 0 without an activation date; otherwise the difference
   * between the two stamps, or `None` (`NaN`, saved as `null`) when either is not a date.
   */
  function TiempoReal(fechaActivacion: Option<string>, fechaFinal: string, parseMinutos: string -> Option<int>): (r: Option<int>)
    ensures fechaActivacion.None? || fechaActivacion == Some("") ==> r == Some(0)
    ensures fechaActivacion.Some? && fechaActivacion != Some("") ==>
      (r.Some? <==> parseMinutos(fechaActivacion.value).Some? && parseMinutos(fechaFinal).Some?)
    ensures r.Some? && fechaActivacion.Some? && fechaActivacion != Some("") ==>
      -1 <= 3 * r.value - 5 * (parseMinutos(fechaFinal).value - parseMinutos(fechaActivacion.value).value) <= 1
  {
    if fechaActivacion.None? || fechaActivacion.value == "" then Some(0)
    else match (parseMinutos(fechaActivacion.value), parseMinutos(fechaFinal))
      case (Some(inicio), Some(fin)) => Some(TiempoRealCentesimas(fin - inicio))
      case _ => None
  }

  /** The record after `finalizar`: finished now, with its elapsed time and the closing comment. */
  function Finalizada(t: Tarea, comentario: string, ahora: Reloj, parseMinutos: string -> Option<int>): Tarea {
    var fechaFinal := GetNowDateTimeString(ahora);
    t.(estado := Finalizado, fechaFinalizacion := Some(fechaFinal),
       tiempoRealHoras := TiempoReal(t.fechaActivacion, fechaFinal, parseMinutos),
       comentarios := t.comentarios + [Comentario(fechaFinal, comentario)])
  }

  /**
   * `finalizar`: an unknown id or a record that is not active fails; otherwise the first
   * record with the id is finished now, its elapsed time is recorded, and one comment dated
   * with the finalization stamp is appended after the earlier ones.
   */
  function TrasFinalizar(ts: seq<Tarea>, id: string, comentario: string, ahora: Reloj, parseMinutos: string -> Option<int>): (r: Result<seq<Tarea>, ErrorDominio>)
    ensures !TieneId(ts, id) ==> r == Failure(NoEncontrado)
    ensures TieneId(ts, id) ==> var i := IndiceDe(ts, id).value;
      if ts[i].estado != Activo then r == Failure(NoEsActivo)
      else (r.Success? && MismosIds(ts, r.value)
            && (forall j :: 0 <= j < |ts| && j != i ==> r.value[j] == ts[j])
            && r.value[i].estado == Finalizado
            && r.value[i].fechaFinalizacion == Some(GetNowDateTimeString(ahora))
            && r.value[i].tiempoRealHoras == TiempoReal(ts[i].fechaActivacion, GetNowDateTimeString(ahora), parseMinutos)
            && |r.value[i].comentarios| == |ts[i].comentarios| + 1
            && r.value[i].comentarios[..|ts[i].comentarios|] == ts[i].comentarios
            && r.value[i].comentarios[|ts[i].comentarios|] == Comentario(r.value[i].fechaFinalizacion.value, comentario)
            && r.value[i] == Finalizada(ts[i], comentario, ahora, parseMinutos))
  {
    match IndiceDe(ts, id)
    case None => Failure(NoEncontrado)
    case Some(i) =>
      if ts[i].estado != Activo then Failure(NoEsActivo)
      else
        var f := Finalizada(ts[i], comentario, ahora, parseMinutos);
        assert f.comentarios[..|ts[i].comentarios|] == ts[i].comentarios;
        Success(ts[i := f])
  }

  method Finalizar(store: StorageService, id: string, comentarioObligatorio: string, ahora: Reloj,
                   parseMinutos: string -> Option<int>) returns (r: Result<(), ErrorDominio>)
    modifies store
    ensures Aplicado(TrasFinalizar(old(store.pendientes), id, comentarioObligatorio, ahora, parseMinutos),
                     old(store.pendientes), store.pendientes, r)
  {
    var pendientes := store.GetPendientes();
    var indice := IndiceDe(pendientes, id);
    if indice.None? {
      return Failure(NoEncontrado);
    }
    var i := indice.value;
    var pendiente := pendientes[i];
    if pendiente.estado != Activo {
      return Failure(NoEsActivo);
    }
    var fechaFinal := GetNowDateTimeString(ahora);
    var tiempoReal := TiempoReal(pendiente.fechaActivacion, fechaFinal, parseMinutos);
    pendiente := pendiente.(estado := Finalizado, fechaFinalizacion := Some(fechaFinal), tiempoRealHoras := tiempoReal);
    pendiente := pendiente.(comentarios := pendiente.comentarios + [Comentario(fechaFinal, comentarioObligatorio)]);
    assert pendiente == Finalizada(pendientes[i], comentarioObligatorio, ahora, parseMinutos);
    pendientes := pendientes[i := pendiente];
    store.SavePendientes(pendientes);
    return Success(());
  }

  /** `finalizar` moves one record one step along the lifecycle and keeps every record coherent. */
  lemma FinalizarConserva(ts: seq<Tarea>, id: string, comentario: string, ahora: Reloj, parseMinutos: string -> Option<int>)
    requires TrasFinalizar(ts, id, comentario, ahora, parseMinutos).Success?
    ensures var r := TrasFinalizar(ts, id, comentario, ahora, parseMinutos).value; var i := IndiceDe(ts, id).value;
      r[i].estado.Etapa() == ts[i].estado.Etapa() + 1
      && (IdsUnicos(ts) ==> IdsUnicos(r))
      && (TodasCoherentes(ts) ==> TodasCoherentes(r))
  {
    var r := TrasFinalizar(ts, id, comentario, ahora, parseMinutos).value;
    var i := IndiceDe(ts, id).value;
    if IdsUnicos(ts) {
      MismosIdsConservaUnicos(ts, r);
    }
    if TodasCoherentes(ts) {
      forall j | 0 <= j < |r|
        ensures Coherente(r[j])
      {
        if j != i {
          assert Coherente(ts[j]);
        }
      }
    }
  }

  /**
   * `agregarComentario`: fails only on an unknown id; in any estado, appends one comment
   * dated now to the first record with the id, after the earlier ones.
   */
  function TrasComentar(ts: seq<Tarea>, id: string, texto: string, ahora: Reloj): (r: Result<seq<Tarea>, ErrorDominio>)
    ensures r.Failure? <==> !TieneId(ts, id)
    ensures r.Failure? ==> r.error == NoEncontrado
    ensures r.Success? ==> var i := IndiceDe(ts, id).value;
      MismosIds(ts, r.value)
      && (forall j :: 0 <= j < |ts| && j != i ==> r.value[j] == ts[j])
      && r.value[i] == ts[i].(comentarios := ts[i].comentarios + [Comentario(GetNowDateTimeString(ahora), texto)])
  {
    match IndiceDe(ts, id)
    case None => Failure(NoEncontrado)
    case Some(i) =>
      Success(ts[i := ts[i].(comentarios := ts[i].comentarios + [Comentario(GetNowDateTimeString(ahora), texto)])])
  }

  method AgregarComentario(store: StorageService, id: string, texto: string, ahora: Reloj) returns (r: Result<(), ErrorDominio>)
    modifies store
    ensures Aplicado(TrasComentar(old(store.pendientes), id, texto, ahora), old(store.pendientes), store.pendientes, r)
  {
    var pendientes := store.GetPendientes();
    var indice := IndiceDe(pendientes, id);
    if indice.None? {
      return Failure(NoEncontrado);
    }
    var i := indice.value;
    pendientes := pendientes[i := pendientes[i].(comentarios := pendientes[i].comentarios + [Comentario(GetNowDateTimeString(ahora), texto)])];
    store.SavePendientes(pendientes);
    return Success(());
  }

  /** A comment changes neither the estado nor the dates, so coherence and unique ids survive it. */
  lemma ComentarConserva(ts: seq<Tarea>, id: string, texto: string, ahora: Reloj)
    requires TrasComentar(ts, id, texto, ahora).Success?
    ensures var r := TrasComentar(ts, id, texto, ahora).value;
      (IdsUnicos(ts) ==> IdsUnicos(r)) && (TodasCoherentes(ts) ==> TodasCoherentes(r))
  {
    var r := TrasComentar(ts, id, texto, ahora).value;
    var i := IndiceDe(ts, id).value;
    if IdsUnicos(ts) {
      MismosIdsConservaUnicos(ts, r);
    }
    if TodasCoherentes(ts) {
      forall j | 0 <= j < |r|
        ensures Coherente(r[j])
      {
        assert Coherente(ts[j]);
        if j != i {
          assert r[j] == ts[j];
        }
      }
    }
  }

  /**
   * The whole lifecycle of a new record: created, activated at `t1`, finished at `t2` with
   * comment `c`. It ends finished, with both stamps, the one closing comment and the
   * elapsed time between the two stamps.
   */
  lemma CicloCompleto(ts: seq<Tarea>, id: string, data: DatosTarea, hoy: Reloj, t1: Reloj, t2: Reloj,
                      c: string, parseMinutos: string -> Option<int>)
    requires !TieneId(ts, id)
    ensures var creado := ts + [NuevaTarea(id, data, hoy)];
      TrasActivar(creado, id, t1).Success?
      && var activado := TrasActivar(creado, id, t1).value;
      TrasFinalizar(activado, id, c, t2, parseMinutos).Success?
      && var t := TrasFinalizar(activado, id, c, t2, parseMinutos).value[|ts|];
      t.estado == Finalizado
      && t.fechaActivacion == Some(GetNowDateTimeString(t1))
      && t.fechaFinalizacion == Some(GetNowDateTimeString(t2))
      && t.comentarios == [Comentario(GetNowDateTimeString(t2), c)]
      && t.tiempoRealHoras == TiempoReal(Some(GetNowDateTimeString(t1)), GetNowDateTimeString(t2), parseMinutos)
  {
    var n := NuevaTarea(id, data, hoy);
    var creado := ts + [n];
    IndiceDeAlFinal(ts, n);
    var activado := TrasActivar(creado, id, t1).value;
    assert activado[|ts|].id == id;
    assert activado[..|ts|] == ts;
    IndiceDeAlFinal(ts, activado[|ts|]);
    assert activado == ts + [activado[|ts|]];
  }
}
