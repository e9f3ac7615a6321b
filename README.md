# OnModelCreating dispatch, modelled in Dafny

EntityFrameworkCore.OnModelCreating lets each entity type configure its own
schema. The type implements `IModelCreating<T>` with `T` bound to itself and
supplies a static `OnModelCreating(EntityTypeBuilder<T>)`. The extension
method `ModelBuilder.OnModelCreatingEntities()` walks the model's entity
types in registry order and classifies each one by its interfaces:

- a type with no `IModelCreating<>` interface is skipped;
- a type whose every `IModelCreating<>` interface is bound to itself has its
  callback invoked, with the builder for that same type;
- a type with any `IModelCreating<>` interface bound to another type throws
  `EntityImplementsInvalidModelCreatingException`. The exception carries the
  entity type and the misbound interfaces, and the throw ends the pass.

The helper `TypeExtensions.TryGetSingleGenericArgument` extracts the single
type argument of a closed instance of a generic type definition. The
classifier does not call it; it makes the same test inline, and the model
proves that the two agree.

Files:

- `wrappers.dfy`: `Option` (a nullable reference) and `Result` (a value or a
  thrown exception).
- `clr_types.dfy`: the reflection surface as data. A `ClrType` is a plain
  type, a generic type definition, or a constructed generic type.
  `IsGenericType`, `GetGenericTypeDefinition`, `GenericTypeArguments` and
  `ToString()` (`FullName`) follow .NET.
- `type_extensions.dfy`: `TryGetSingleGenericArgument` as a pure function.
  The `ArgumentException` becomes `Failure`. The out argument becomes the
  `Option` in `Success`: `None` is the null it holds when the result is false.
- `model_creating_extensions.dfy`: the classifier and the driver.
  - `Classify` is the specification of the local function `GetEntityType`.
    The method `GetEntityType` keeps the source's loop, with its
    "match seen" local and its lazily created list, and is proved equal to
    `Classify`.
  - `Pass` is the specification of a whole pass.
  - The class `ModelBuilder` holds the registered entity types and an
    invocation log. Its methods `InvokeOnModelCreating` and
    `OnModelCreatingEntities` append to that log. `OnModelCreatingEntities`
    is proved equal to `Pass`.
- `model_creating_properties.dfy`: lemmas that relate passes and registries:
  - stop at the first misbound type;
  - invocation counts;
  - independence from registry order;
  - the exception message.
- `model_creating_scenarios.dfy`: the outcomes the unit tests assert. They
  are derived from the `ModelBuilder` contracts.

Where the library's design intent and its code differ, the model follows the
code:

- The exception message names only the entity type, twice
  (``Entity type E must only implement IModelCreating`1[E].``). It does not
  name the misbound argument, which is only reachable through
  `InvalidInterfaces`.
- Entity types registered before the first misbound one have already been
  configured when the exception is thrown. A misbound type therefore does not
  prevent every callback; it prevents the callbacks for itself and for every
  type after it.
- One or more interfaces, all bound to the entity itself, make the type
  valid, and its callback is invoked once. The code does not require exactly
  one such interface.
- The misbound interfaces are a list in enumeration order, not a set.

## Model

| member | source | states |
|---|---|---|
| `TypeExtensions.TryGetSingleGenericArgument` | OnModelCreating/TypeExtensions.cs:8-21 | Throws `ArgumentException` (message naming `genericType`, parameter `genericType`) exactly when `genericType` is not a generic type definition, whatever `type` is; returns true only when `type` is the closed instance of that definition over the returned argument |
| `TypeExtensions.SingleArgumentRoundTrip` | OnModelCreating/TypeExtensions.cs:13-16 | True with out argument `a` if and only if `type` is the definition constructed over the single argument `a` |
| `TypeExtensions.NoMatchGivesFalse` | OnModelCreating/TypeExtensions.cs:13-20 | A non-generic type, another generic definition, or an argument count other than one each give false with a null out argument |
| `ModelCreatingExtensions.InvalidInterfacesMembers` | OnModelCreating/ModelCreatingExtensions.cs:31-35 | The collected list holds exactly the `IModelCreating<>` interfaces whose argument is not the entity type; self-bound and unrelated interfaces are never in it |
| `ModelCreatingExtensions.InvalidInterfacesAppend` | OnModelCreating/ModelCreatingExtensions.cs:29-35 | Collecting is order-preserving: over two runs of interfaces it is the first run's list followed by the second's |
| `ModelCreatingExtensions.ClassifyNotParticipating` | OnModelCreating/ModelCreatingExtensions.cs:27-40 | Classification returns null if and only if no interface is a generic instance of `IModelCreating<>` |
| `ModelCreatingExtensions.ClassifyParticipating` | OnModelCreating/ModelCreatingExtensions.cs:34-40 | Classification returns a type if and only if there is a match and every match is bound to the entity; the type is then the entity's own, and it implements `IModelCreating` of itself |
| `ModelCreatingExtensions.ClassifyMisbound` | OnModelCreating/ModelCreatingExtensions.cs:34-39 | Classification throws if and only if some match is bound elsewhere; the exception carries the entity type and exactly the misbound interfaces, in order, never an empty list |
| `ModelCreatingExtensions.GetEntityType` | OnModelCreating/ModelCreatingExtensions.cs:25-41 | The loop over the interfaces, with its match flag and lazily created list, computes exactly the classification |
| `ModelCreatingExtensions.PassAppend` | OnModelCreating/ModelCreatingExtensions.cs:19-23 | A pass over two runs of entity types is the pass over the first, followed, unless that threw, by the pass over the second |
| `ModelCreatingExtensions.ModelBuilder.constructor` | UnitTests/ModelCreatingTests.cs:24-28 | Before any pass runs, no callback has been invoked |
| `ModelCreatingExtensions.ModelBuilder.InvokeOnModelCreating` | OnModelCreating/ModelCreatingExtensions.cs:48-49 | Requires `T : IModelCreating<T>`; appends one call of `T.OnModelCreating` with the builder for `T` |
| `ModelCreatingExtensions.ModelBuilder.OnModelCreatingEntities` | OnModelCreating/ModelCreatingExtensions.cs:16-23 | Appends exactly the pass's invocations to the log and returns the exception the pass throws, if any |
| `ModelCreatingProperties.OtherInterfacesIgnored` | OnModelCreating/ModelCreatingExtensions.cs:31-32 | A non-generic interface or one of another generic definition, inserted anywhere, leaves the classification unchanged |
| `ModelCreatingProperties.InlineMatchAgreesWithHelper` | OnModelCreating/ModelCreatingExtensions.cs:31-33 | The classifier's inline test (generic, definition `IModelCreating<>`, single argument) gives the same answer and the same argument as `TryGetSingleGenericArgument` with `IModelCreating<>` |
| `ModelCreatingProperties.NonParticipantIgnored` | OnModelCreating/ModelCreatingExtensions.cs:21 | A type that classifies as null adds no invocation and no error to a pass, wherever it is registered |
| `ModelCreatingProperties.PassSucceedsIff` | OnModelCreating/ModelCreatingExtensions.cs:19-23 | A pass completes without an exception if and only if no registered type is misbound; a thrown exception is the one some registered type's classification throws |
| `ModelCreatingProperties.PassStopsAtFirstMisbound` | OnModelCreating/ModelCreatingExtensions.cs:19-23 | With the first misbound type at index k, the pass makes exactly the invocations of the types before k and throws k's exception; nothing at or after k is invoked |
| `ModelCreatingProperties.PassInvocationsSelfScoped` | OnModelCreating/ModelCreatingExtensions.cs:21-22 | Every invocation calls a registered, valid entity type's callback with the builder for that same type |
| `ModelCreatingProperties.PassInvocationCount` | OnModelCreating/ModelCreatingExtensions.cs:16-23 | A successful pass invokes `t`'s callback once per registered entity type that classifies as `t`, no more and no less |
| `ModelCreatingProperties.PassInvokesEachParticipantOnce` | OnModelCreating/ModelCreatingExtensions.cs:19-22 | With each CLR type registered once, a successful pass invokes every valid type's callback exactly once |
| `ModelCreatingProperties.PassPermutation` | OnModelCreating/ModelCreatingExtensions.cs:19-23 | Reordering the registry keeps whether the pass throws, and when it does not, the multiset of invocations |
| `ModelCreatingProperties.MessageNamesEntity` | OnModelCreating/ModelCreatingExtensions.cs:53 | The message starts with "Entity type " followed by the entity's name and ends with the name followed by "]." |
| `ModelCreatingProperties.MessageDeterminesEntityName` | OnModelCreating/ModelCreatingExtensions.cs:53 | Two equal messages name the same entity type |
| `ModelCreatingScenarios.NotTriggeringModelCreation` | UnitTests/ModelCreatingTests.cs:24-28 | Without model creation the entity's counter stays 0 |
| `ModelCreatingScenarios.TriggeringModelCreation` | UnitTests/ModelCreatingTests.cs:30-36 | One self-bound entity: the pass does not throw and the counter becomes 1 |
| `ModelCreatingScenarios.TriggeringModelCreationTwice` | OnModelCreating/ModelCreatingExtensions.cs:16-23 | The pass keeps no state of its own: two passes on one builder make the counter 2 |
| `ModelCreatingScenarios.TriggeringModelCreationWithInvalidInterface` | UnitTests/ModelCreatingInvalidInterfaceTests.cs:24-30 | An entity bound to `ValidEntity`, registered first, throws with exactly the expected message, and `ValidEntity` is not configured |

## Left out

- Reflection itself is not modelled: `GetInterfaces`, `GetGenericTypeDefinition`, `GetMethod` with binding flags, `MakeGenericMethod` and `Invoke`. Interfaces are data on the entity type, in enumeration order. The generic invocation is an entry in the builder's log. The cached `MethodInfo` and the `parameters` array have no counterpart.
- EF Core is not modelled: `Model.GetEntityTypes()`, `ModelBuilder.Entity<T>()` and `EntityTypeBuilder<T>` are opaque library objects. The registry is an input sequence, and a builder is represented only by the entity type it is for.
- `Single()` at ModelCreatingExtensions.cs:33 throws on an argument count other than one, which `IModelCreating<>` (arity one) cannot have. It is a precondition (`SingleArgumentInterfaces`), not an error path.
- The `class` constraint on `InvokeOnModelCreating<T>` is not modelled; only `T : IModelCreating<T>` is.
- What the user's `OnModelCreating` callbacks do is not modelled; only the fact that one was called, and with which builder, is.
- `OnModelCreating/IModelCreating.cs` is not part of this model. It only declares the interface, and the C# compiler enforces its constraint.
- `FullName` follows `Type.ToString()` for plain and generic types. Assembly-qualified names and generic parameters of methods are not modelled.
- Exception plumbing (the `System.Exception` base, stack traces, propagation through EF's model construction) is not modelled: the exception is a returned value.
- ModelCreatingProperties.PassInvokesEachParticipantOnce: assumes each CLR type appears once in the registry. EF Core can register several entity types that share one CLR type, and the pass then invokes that callback once per entity type. `PassInvocationCount` states that general count.
