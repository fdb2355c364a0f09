/** The two enumerations of the container (package `enums`). */
module Enums {

  /** Where a bean definition is in its construction: `CreationStatus` in the source. */
  datatype CreationStatus = Created | Creating | NotCreated

  /** Bean scope; the factory only ever behaves as `Singleton`, `Prototype` is declared but never consulted. */
  datatype Scope = Singleton | Prototype
}
