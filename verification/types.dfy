/** Runtime types as the code uses them: plain types, open generic type
    definitions, and generic types constructed from a definition. */
module Types {
  import opened Base

  datatype Ty =
    | Simple(name: string)
    | GenericDefinition(name: string, arity: nat)
    | Constructed(definition: string, args: seq<Ty>)

  const BoolType: Ty := Simple("System.Boolean")
  const IntType: Ty := Simple("System.Int32")
  const StringType: Ty := Simple("System.String")
  const ObjectType: Ty := Simple("System.Object")

  /** `IEnumerable<T>`. */
  function EnumerableOf(t: Ty): Ty {
    Constructed("System.Collections.Generic.IEnumerable`1", [t])
  }

  /** `Type.IsGenericType`: definitions and constructed types. */
  predicate IsGenericType(t: Ty) {
    !t.Simple?
  }

  /** `Type.GetGenericTypeDefinition()`. */
  function GetGenericTypeDefinition(t: Ty): (r: Result<Ty>)
    ensures r.Ok? <==> IsGenericType(t)
    ensures r.Ok? ==> r.value.GenericDefinition?
    ensures t.Constructed? ==> r == Ok(GenericDefinition(t.definition, |t.args|))
  {
    match t
    case Simple(_) => Throw(InvalidOperation("This operation is only valid on generic types."))
    case GenericDefinition(_, _) => Ok(t)
    case Constructed(n, a) => Ok(GenericDefinition(n, |a|))
  }

  /** `Type.GetGenericArguments()` of a constructed type. */
  function GetGenericArguments(t: Ty): seq<Ty> {
    if t.Constructed? then t.args else []
  }

  /** The messages `MakeGenericType` throws with. */
  const ArityMismatch: string := "The number of generic arguments provided doesn't equal the arity of the generic type definition."
  const NotGenericDefinition: string := "MakeGenericType may only be called on a type for which Type.IsGenericTypeDefinition is true."

  /** `Type.MakeGenericType(args)`. */
  function MakeGenericType(definition: Ty, args: seq<Ty>): (r: Result<Ty>)
    ensures r.Ok? <==> definition.GenericDefinition? && definition.arity == |args|
    ensures r.Ok? ==> r.value == Constructed(definition.name, args)
  {
    match definition
    case GenericDefinition(n, k) =>
      if k == |args| then Ok(Constructed(n, args))
      else Throw(ArgumentError(ArityMismatch))
    case _ => Throw(InvalidOperation(NotGenericDefinition))
  }

  /** Splitting a constructed type into definition and arguments and
      putting it back together gives the same type. */
  lemma ConstructedRoundTrip(t: Ty)
    requires t.Constructed?
    ensures MakeGenericType(GetGenericTypeDefinition(t).value, GetGenericArguments(t)) == Ok(t)
  {
  }
}
