/** The ubicacion table's routes: GET behind the reader gate, and the shared create,
    rename and delete handlers with the ubicacion wording. */
module Ubicaciones {
  import opened LookupTable

  const UbicacionWording := Wording(
    "Ya existe un ubicacion con este nombre", "ubicacion creada exitosamente",
    "Ya existe una ubicacion con este nombre", "ubicacion no encontrada", "ubicacion actualizada exitosamente",
    "ID de ubicacion es requerido", "ubicacion no encontrada", "ubicacion eliminada exitosamente", true)

  const UbicacionQueries := NameOnlyQueries
}
