/**
 * The part of the .NET reflection surface the core reads, as plain data.
 *
 * A runtime type is either a non-generic type, a generic type definition
 * (an open type such as `IModelCreating<>`) or a constructed generic type
 * (a definition applied to type arguments, such as `IModelCreating<Foo>`).
 * Equality of `ClrType` values stands for reference equality of `Type`
 * objects, which is type identity in .NET.
 */
module ClrTypes {

  /** A generic type definition: its full name (with the arity suffix, as in
      "Ns.IModelCreating`1") and the names of its type parameters. */
  datatype GenericDefinition = GenericDefinition(fullName: string, parameters: seq<string>)

  datatype ClrType =
    | Plain(fullName: string)
    | Open(definition: GenericDefinition)
    | Constructed(definition: GenericDefinition, arguments: seq<ClrType>)

  /** `Type.IsGenericType`: true for definitions and constructed generic types. */
  predicate IsGenericType(t: ClrType) {
    t.Open? || t.Constructed?
  }

  /** `Type.IsGenericTypeDefinition`. */
  predicate IsGenericTypeDefinition(t: ClrType) {
    t.Open?
  }

  /** `Type.GetGenericTypeDefinition()`, which throws on a non-generic type;
      a definition is its own definition. */
  function GetGenericTypeDefinition(t: ClrType): (d: ClrType)
    requires IsGenericType(t)
    ensures IsGenericTypeDefinition(d)
    ensures IsGenericTypeDefinition(t) ==> d == t
  {
    Open(t.definition)
  }

  /** `Type.GenericTypeArguments`: the arguments of a constructed type, and
      empty for a definition or a non-generic type. */
  function GenericTypeArguments(t: ClrType): (args: seq<ClrType>)
    ensures !t.Constructed? ==> args == []
  {
    if t.Constructed? then t.arguments else []
  }

  /** `Type.ToString()`: the full name, followed for a generic type by its
      parameters or arguments in brackets, separated by commas. */
  function FullName(t: ClrType): string {
    match t
    case Plain(name) => name
    case Open(d) => d.fullName + "[" + Join(d.parameters) + "]"
    case Constructed(d, args) =>
      d.fullName + "[" + Join(seq(|args|, i requires 0 <= i < |args| => FullName(args[i]))) + "]"
  }

  /** The names separated by commas. */
  function Join(names: seq<string>): string {
    if |names| == 0 then ""
    else if |names| == 1 then names[0]
    else names[0] + "," + Join(names[1..])
  }
}
