/** The cargo table's routes: GET without a gate, and the shared create, rename and
    delete handlers with the cargo wording. The DELETE reply has no `success` field. */
module Cargos {
  import opened LookupTable

  const CargoWording := Wording(
    "Ya existe un cargo con este nombre", "Cargo creada exitosamente",
    "Ya existe un cargo con este nombre", "Cargo no encontrado", "Cargo actualizado exitosamente",
    "ID de cargo es requerido", "Cargo no encontrada", "Cargo eliminado exitosamente", false)

  /** The cargo statements are the name-only statements; they all run. */
  const CargoQueries := NameOnlyQueries
}
