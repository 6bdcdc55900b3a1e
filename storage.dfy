/**
 * The `localStorage` key `pendientes` as the domain sees it: one list of records that
 * is read whole and written whole.
 */
module Storage {
  import opened Tareas

  class StorageService {
    var pendientes: seq<Tarea>

    constructor(inicial: seq<Tarea>)
      ensures pendientes == inicial
    {
      pendientes := inicial;
    }

    /** `getPendientes`: the stored list. */
    method GetPendientes() returns (r: seq<Tarea>)
      ensures r == pendientes
    {
      r := pendientes;
    }

    /** `savePendientes`: replaces the stored list. */
    method SavePendientes(ts: seq<Tarea>)
      modifies this
      ensures pendientes == ts
    {
      pendientes := ts;
    }
  }
}
