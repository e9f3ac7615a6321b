/**
 * `TypeExtensions.TryGetSingleGenericArgument`: a try-pattern query that
 * extracts the one type argument of a closed instance of a given generic
 * type definition. The out argument becomes the `Option` inside a
 * successful result (`None` is the null it holds on false); the
 * `ArgumentException` thrown for a bad `genericType` becomes `Failure`.
 */
module TypeExtensions {
  import opened Wrappers
  import opened ClrTypes

  /** `System.ArgumentException`: its message and the offending parameter's name. */
  datatype ArgumentException = ArgumentException(message: string, paramName: string)

  /** The message thrown when `genericType` is not a generic type definition. */
  function NotADefinitionMessage(genericType: ClrType): string {
    "The type `" + FullName(genericType) + "` must be a generic type definition."
  }

  function TryGetSingleGenericArgument(t: ClrType, genericType: ClrType): (r: Result<Option<ClrType>, ArgumentException>)
    // the argument check comes first and does not depend on `t`
    ensures r.Failure? <==> !IsGenericTypeDefinition(genericType)
    ensures r.Failure? ==> r.error == ArgumentException(NotADefinitionMessage(genericType), "genericType")
    // true only for the closed instance of `genericType` over the returned argument
    ensures r.Success? && r.value.Some? ==> t == Constructed(genericType.definition, [r.value.value])
  {
    if !IsGenericTypeDefinition(genericType) then
      Failure(ArgumentException(NotADefinitionMessage(genericType), "genericType"))
    else if IsGenericType(t) && GetGenericTypeDefinition(t) == genericType && |GenericTypeArguments(t)| == 1 then
      Success(Some(GenericTypeArguments(t)[0]))
    else
      Success(None)
  }

  /** Constructing a one-parameter generic type and asking for its single
      argument gives the argument back, and nothing else gives `true`. */
  lemma SingleArgumentRoundTrip(t: ClrType, d: GenericDefinition, a: ClrType)
    ensures TryGetSingleGenericArgument(t, Open(d)) == Success(Some(a)) <==> t == Constructed(d, [a])
  {
  }

  /** Each way of not matching gives `false` with a null out argument. */
  lemma NoMatchGivesFalse(t: ClrType, d: GenericDefinition)
    ensures !IsGenericType(t) ==> TryGetSingleGenericArgument(t, Open(d)) == Success(None)
    ensures IsGenericType(t) && GetGenericTypeDefinition(t) != Open(d) ==> TryGetSingleGenericArgument(t, Open(d)) == Success(None)
    ensures |GenericTypeArguments(t)| != 1 ==> TryGetSingleGenericArgument(t, Open(d)) == Success(None)
  {
  }
}
