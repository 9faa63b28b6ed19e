/** The type table (Honyac/Type.cs): a read-only registry from type kind to
    descriptor, consulted by `sizeof`. */
module Types {
  import opened Wrappers

  datatype TypeKind = None | Int

  /** A type descriptor. Its fields are fixed when it is built, as the
      get-only properties of the source's `Type` class are. */
  datatype Type = Type(kind: TypeKind, name: string, size: int)

  /** `TypeUtils.TypeDic`: `int` is 8 bytes wide, the width of a stack slot. */
  const TypeDic: map<TypeKind, Type> := map[Int := Type(Int, "int", 8)]

  /** Indexing `TypeDic`: a kind that is not registered is an error
      (the source's dictionary throws). */
  function LookupType(kind: TypeKind): (r: Result<Type>)
    ensures r.Ok? <==> kind == Int
    ensures r.Ok? ==> r.value.kind == kind && r.value.name == "int" && r.value.size == 8
  {
    if kind in TypeDic then Ok(TypeDic[kind]) else Err
  }

  /** The table has exactly one entry, every entry is filed under its own kind,
      and `None` is not registered. */
  lemma TypeDicShape()
    ensures TypeDic.Keys == {Int}
    ensures forall k | k in TypeDic :: TypeDic[k].kind == k
    ensures TypeKind.None !in TypeDic
  {
  }
}
