/** The built-in data types of the language (src/type.c). */
module Types {

  datatype TypeKind = TyInt

  /** A data type and its storage size in bytes. The C source hands out one
      shared `type_t` per kind and compares types by pointer; with a single
      kind, pointer identity and value equality coincide. */
  datatype Type = Type(kind: TypeKind, size: int)

  /** The singleton `int` type: four bytes wide. */
  const IntType: Type := Type(TyInt, 4)
}
