/**
 * The stored record ("pendiente") and its enumerations. The store keeps `estado` and
 * `prioridad` as lower-case text; here they are enumerations whose `Texto()` is that text.
 */
module Tareas {
  import opened Wrappers
  import opened Strings

  /** The three-state lifecycle `pendiente -> activo -> finalizado`. */
  datatype Estado = Pendiente | Activo | Finalizado {
    function Texto(): string {
      match this
      case Pendiente => "pendiente"
      case Activo => "activo"
      case Finalizado => "finalizado"
    }

    /** Position along the lifecycle. */
    function Etapa(): nat {
      match this
      case Pendiente => 0
      case Activo => 1
      case Finalizado => 2
    }
  }

  datatype Prioridad = Alta | Media | Baja {
    function Texto(): string {
      match this
      case Alta => "alta"
      case Media => "media"
      case Baja => "baja"
    }

    /** The weights of the `prioridad_desc` order: alta 3, media 2, baja 1. */
    function Peso(): int {
      match this
      case Alta => 3
      case Media => 2
      case Baja => 1
    }
  }

  /** The estado named by an already lower-cased text, if any. */
  function EstadoDeTexto(s: string): (r: Option<Estado>)
    ensures r.Some? ==> r.value.Texto() == s
    ensures forall e: Estado :: e.Texto() == s ==> r == Some(e)
  {
    if s == "pendiente" then Some(Pendiente)
    else if s == "activo" then Some(Activo)
    else if s == "finalizado" then Some(Finalizado)
    else None
  }

  /** The prioridad named by an already lower-cased text, if any. */
  function PrioridadDeTexto(s: string): (r: Option<Prioridad>)
    ensures r.Some? ==> r.value.Texto() == s
    ensures forall p: Prioridad :: p.Texto() == s ==> r == Some(p)
  {
    if s == "alta" then Some(Alta)
    else if s == "media" then Some(Media)
    else if s == "baja" then Some(Baja)
    else None
  }

  /** One entry of `comentarios`. */
  datatype Comentario = Comentario(fecha: string, comentario: string)

  /**
   * A stored task. `null` dates are `None`; `tiempoRealHoras` is in hundredths of an hour
   * (the two-decimal number `finalizar` stores), `None` for `null`.
   */
  datatype Tarea = Tarea(
    id: string,
    titulo: string,
    detalle: string,
    proyecto: string,
    prioridad: Prioridad,
    plazoHoras: int,
    estado: Estado,
    fechaCreacion: string,
    fechaActivacion: Option<string>,
    fechaFinalizacion: Option<string>,
    tiempoRealHoras: Option<int>,
    comentarios: seq<Comentario>)

  /** No two records share an id. */
  predicate IdsUnicos(ts: seq<Tarea>) {
    forall i, j :: 0 <= i < j < |ts| ==> ts[i].id != ts[j].id
  }

  predicate TieneId(ts: seq<Tarea>, id: string) {
    exists i :: 0 <= i < |ts| && ts[i].id == id
  }

  /**
   * The dates agree with the estado, as the domain's own operations leave them: nothing
   * set while pending; activation date and nothing else while active; a finalization
   * date once finished.
   */
  predicate Coherente(t: Tarea) {
    match t.estado
    case Pendiente => t.fechaActivacion.None? && t.fechaFinalizacion.None? && t.tiempoRealHoras.None?
    case Activo => t.fechaActivacion.Some? && t.fechaFinalizacion.None? && t.tiempoRealHoras.None?
    case Finalizado => t.fechaFinalizacion.Some?
  }

  predicate TodasCoherentes(ts: seq<Tarea>) {
    forall i :: 0 <= i < |ts| ==> Coherente(ts[i])
  }
}
