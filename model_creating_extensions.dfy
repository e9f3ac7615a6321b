/**
 * `ModelCreatingExtensions`: the discovery-and-dispatch pass that finds every
 * entity type implementing `IModelCreating<T>` with `T` bound to itself and
 * calls its static `OnModelCreating` with a builder for that type.
 *
 * Reflection is replaced by data: an entity type is its CLR type together
 * with the interfaces `GetInterfaces()` enumerates. The generic invocation
 * `MakeGenericMethod(T).Invoke(...)` is recorded as an entry in the model
 * builder's invocation log. The exception thrown for a misbound interface is
 * returned as a value.
 */
module ModelCreatingExtensions {
  import opened Wrappers
  import opened ClrTypes

  /** `typeof(IModelCreating<>)`. */
  const ModelCreatingDefinition := GenericDefinition("NickStrupat.EntityFrameworkCore.OnModelCreating.IModelCreating`1", ["T"])

  /** `IModelCreating<T>` closed over `t`. */
  function ModelCreatingOf(t: ClrType): ClrType {
    Constructed(ModelCreatingDefinition, [t])
  }

  /** An entity type of the model: its CLR type and the interfaces that CLR
      type implements, in the order reflection enumerates them. */
  datatype EntityType = EntityType(clrType: ClrType, interfaces: seq<ClrType>)

  /** `EntityImplementsInvalidModelCreatingException`: the entity type and the
      interfaces that bind `IModelCreating<>` to some other type. */
  datatype InvalidModelCreatingException = InvalidModelCreatingException(entityClrType: ClrType, invalidInterfaces: seq<ClrType>)
  {
    /** The exception message; it names the entity type only. */
    function Message(): string {
      "Entity type " + FullName(entityClrType) + " must only implement IModelCreating`1[" + FullName(entityClrType) + "]."
    }
  }

  /** What `GetEntityType` does with one entity type: returns null, returns the
      entity's CLR type, or throws. */
  datatype Classification =
    | NotParticipating
    | Participating(entityType: ClrType)
    | Misbound(exception: InvalidModelCreatingException)

  /** A generic instance of `IModelCreating<>`; every other interface is skipped. */
  predicate IsModelCreatingInterface(i: ClrType) {
    IsGenericType(i) && GetGenericTypeDefinition(i) == Open(ModelCreatingDefinition)
  }

  /** What `Single()` demands of the matched interfaces: exactly one argument,
      which the arity of `IModelCreating<>` guarantees. */
  predicate SingleArgumentInterfaces(e: EntityType) {
    forall i <- e.interfaces :: IsModelCreatingInterface(i) ==> |GenericTypeArguments(i)| == 1
  }

  /** An `IModelCreating<>` interface whose argument is not the entity's own type. */
  predicate Misbinds(clrType: ClrType, i: ClrType) {
    IsModelCreatingInterface(i) && GenericTypeArguments(i) != [clrType]
  }

  /** The misbound interfaces among `interfaces`, in enumeration order. */
  function InvalidInterfaces(clrType: ClrType, interfaces: seq<ClrType>): seq<ClrType> {
    if interfaces == [] then []
    else (if Misbinds(clrType, interfaces[0]) then [interfaces[0]] else []) + InvalidInterfaces(clrType, interfaces[1..])
  }

  /** The collected list holds exactly the misbound interfaces: a correctly
      self-bound interface, or any other interface, is never in it. */
  lemma {:induction false} InvalidInterfacesMembers(clrType: ClrType, interfaces: seq<ClrType>, i: ClrType)
    ensures i in InvalidInterfaces(clrType, interfaces) <==> i in interfaces && Misbinds(clrType, i)
  {
    if interfaces != [] {
      InvalidInterfacesMembers(clrType, interfaces[1..], i);
      assert interfaces == [interfaces[0]] + interfaces[1..];
    }
  }

  /** Collecting misbound interfaces over two runs of interfaces is collecting
      over each in turn: the list keeps enumeration order. */
  lemma {:induction false} InvalidInterfacesAppend(clrType: ClrType, a: seq<ClrType>, b: seq<ClrType>)
    ensures InvalidInterfaces(clrType, a + b) == InvalidInterfaces(clrType, a) + InvalidInterfaces(clrType, b)
  {
    if a == [] {
      assert a + b == b;
    } else {
      var head := if Misbinds(clrType, a[0]) then [a[0]] else [];
      assert (a + b)[0] == a[0];
      assert (a + b)[1..] == a[1..] + b;
      calc {
        InvalidInterfaces(clrType, a + b);
        head + InvalidInterfaces(clrType, a[1..] + b);
        { InvalidInterfacesAppend(clrType, a[1..], b); }
        head + (InvalidInterfaces(clrType, a[1..]) + InvalidInterfaces(clrType, b));
        (head + InvalidInterfaces(clrType, a[1..])) + InvalidInterfaces(clrType, b);
        InvalidInterfaces(clrType, a) + InvalidInterfaces(clrType, b);
      }
    }
  }

  /** Some interface is an `IModelCreating<>`. */
  predicate DeclaresModelCreating(interfaces: seq<ClrType>) {
    exists i <- interfaces :: IsModelCreatingInterface(i)
  }

  lemma DeclaresModelCreatingAppend(a: seq<ClrType>, i: ClrType)
    ensures DeclaresModelCreating(a + [i]) <==> DeclaresModelCreating(a) || IsModelCreatingInterface(i)
  {
    assert i in a + [i];
    assert forall j <- a :: j in a + [i];
  }

  /** The specification of `GetEntityType`: throw when some interface is
      misbound, otherwise the entity's own type when there was a match, and
      null when there was none. */
  function Classify(e: EntityType): Classification {
    var invalid := InvalidInterfaces(e.clrType, e.interfaces);
    if invalid != [] then Misbound(InvalidModelCreatingException(e.clrType, invalid))
    else if DeclaresModelCreating(e.interfaces) then Participating(e.clrType)
    else NotParticipating
  }

  /** With no `IModelCreating<>` interface at all the type does not take part,
      and only then. */
  lemma ClassifyNotParticipating(e: EntityType)
    ensures Classify(e).NotParticipating? <==> forall i <- e.interfaces :: !IsModelCreatingInterface(i)
  {
    var invalid := InvalidInterfaces(e.clrType, e.interfaces);
    if invalid != [] {
      InvalidInterfacesMembers(e.clrType, e.interfaces, invalid[0]);
    }
  }

  /** With at least one `IModelCreating<>` interface, all bound to the entity
      itself, the result is the entity's own type, and only then; that type
      satisfies the constraint `T : IModelCreating<T>`. */
  lemma ClassifyParticipating(e: EntityType)
    ensures Classify(e).Participating? <==>
      (exists i <- e.interfaces :: IsModelCreatingInterface(i)) &&
      (forall i <- e.interfaces :: IsModelCreatingInterface(i) ==> GenericTypeArguments(i) == [e.clrType])
    ensures Classify(e).Participating? ==>
      Classify(e).entityType == e.clrType && ModelCreatingOf(e.clrType) in e.interfaces
  {
    var invalid := InvalidInterfaces(e.clrType, e.interfaces);
    forall i | i in e.interfaces ensures i in invalid <==> Misbinds(e.clrType, i) {
      InvalidInterfacesMembers(e.clrType, e.interfaces, i);
    }
    if invalid != [] {
      InvalidInterfacesMembers(e.clrType, e.interfaces, invalid[0]);
    } else if DeclaresModelCreating(e.interfaces) {
      var i :| i in e.interfaces && IsModelCreatingInterface(i);
      assert i == ModelCreatingOf(e.clrType);
    }
  }

  /** With any `IModelCreating<>` interface bound to another type the
      classification throws, and only then; the exception carries the entity
      type and exactly the misbound interfaces, never none. */
  lemma ClassifyMisbound(e: EntityType)
    ensures Classify(e).Misbound? <==> exists i <- e.interfaces :: Misbinds(e.clrType, i)
    ensures Classify(e).Misbound? ==>
      Classify(e).exception.entityClrType == e.clrType &&
      Classify(e).exception.invalidInterfaces == InvalidInterfaces(e.clrType, e.interfaces) &&
      Classify(e).exception.invalidInterfaces != []
  {
    var invalid := InvalidInterfaces(e.clrType, e.interfaces);
    if invalid != [] {
      InvalidInterfacesMembers(e.clrType, e.interfaces, invalid[0]);
    } else {
      forall i | i in e.interfaces ensures !Misbinds(e.clrType, i) {
        InvalidInterfacesMembers(e.clrType, e.interfaces, i);
      }
    }
  }

  /** `GetEntityType`: one pass over the interfaces, remembering that a match
      was seen and collecting the misbound ones in a lazily created list. */
  method GetEntityType(e: EntityType) returns (c: Classification)
    requires SingleArgumentInterfaces(e)
    ensures c == Classify(e)
  {
    var entityType: Option<ClrType> := None;
    var invalidModelCreatingInterfaces: Option<seq<ClrType>> := None;
    for k := 0 to |e.interfaces|
      invariant invalidModelCreatingInterfaces.None? <==> InvalidInterfaces(e.clrType, e.interfaces[..k]) == []
      invariant invalidModelCreatingInterfaces.Some? ==>
        invalidModelCreatingInterfaces.value == InvalidInterfaces(e.clrType, e.interfaces[..k])
      invariant entityType.Some? <==> DeclaresModelCreating(e.interfaces[..k])
      invariant entityType.Some? ==> entityType.value == e.clrType
    {
      var iface := e.interfaces[k];
      assert e.interfaces[..k + 1] == e.interfaces[..k] + [iface];
      InvalidInterfacesAppend(e.clrType, e.interfaces[..k], [iface]);
      assert InvalidInterfaces(e.clrType, [iface]) == if Misbinds(e.clrType, iface) then [iface] else [];
      DeclaresModelCreatingAppend(e.interfaces[..k], iface);
      if !IsGenericType(iface) || GetGenericTypeDefinition(iface) != Open(ModelCreatingDefinition) {
        continue;
      }
      var genericArgument := GenericTypeArguments(iface)[0];
      assert GenericTypeArguments(iface) == [genericArgument];
      if genericArgument != e.clrType {
        invalidModelCreatingInterfaces := match invalidModelCreatingInterfaces
          case None => Some([iface])
          case Some(list) => Some(list + [iface]);
      }
      entityType := Some(e.clrType);
    }
    assert e.interfaces[..|e.interfaces|] == e.interfaces;
    if invalidModelCreatingInterfaces.Some? {
      return Misbound(InvalidModelCreatingException(e.clrType, invalidModelCreatingInterfaces.value));
    }
    return if entityType.Some? then Participating(entityType.value) else NotParticipating;
  }

  /** `mb.Entity<T>()`: the builder for one entity type. */
  datatype EntityTypeBuilder = EntityTypeBuilder(entityType: ClrType)

  /** One call `T.OnModelCreating(builder)`. */
  datatype Invocation = OnModelCreating(target: ClrType, builder: EntityTypeBuilder)

  /** The invocations a pass makes, in order, and the exception that ended it, if any. */
  datatype PassOutcome = PassOutcome(invocations: seq<Invocation>, thrown: Option<InvalidModelCreatingException>)

  /** The specification of `OnModelCreatingEntities` over the registered entity types. */
  function Pass(entityTypes: seq<EntityType>): (p: PassOutcome)
  {
    if entityTypes == [] then PassOutcome([], None)
    else
      match Classify(entityTypes[0])
      case NotParticipating => Pass(entityTypes[1..])
      case Participating(t) =>
        var rest := Pass(entityTypes[1..]);
        PassOutcome([OnModelCreating(t, EntityTypeBuilder(t))] + rest.invocations, rest.thrown)
      case Misbound(ex) => PassOutcome([], Some(ex))
  }

  /** A pass over two runs of entity types is the pass over the first, followed,
      unless the first threw, by the pass over the second. */
  lemma {:induction false} PassAppend(a: seq<EntityType>, b: seq<EntityType>)
    ensures Pass(a + b) ==
      if Pass(a).thrown.Some? then Pass(a)
      else PassOutcome(Pass(a).invocations + Pass(b).invocations, Pass(b).thrown)
  {
    if a == [] {
      assert a + b == b;
    } else {
      assert (a + b)[0] == a[0];
      assert (a + b)[1..] == a[1..] + b;
      PassAppend(a[1..], b);
    }
  }

  /** The `ModelBuilder` as far as the pass sees it: the model's entity types,
      which the pass does not change, and the log of configuration callbacks
      made through it. */
  class ModelBuilder {
    const entityTypes: seq<EntityType>
    var invocations: seq<Invocation>

    /** A model builder before model creation has called no callback. */
    constructor (entityTypes: seq<EntityType>)
      ensures this.entityTypes == entityTypes
      ensures invocations == []
    {
      this.entityTypes := entityTypes;
      invocations := [];
    }

    /** `InvokeOnModelCreating<T>`: `T.OnModelCreating(mb.Entity<T>())`. The
        constraint `T : IModelCreating<T>` becomes the requires clause. */
    method InvokeOnModelCreating(t: ClrType)
      requires exists e <- entityTypes :: e.clrType == t && ModelCreatingOf(t) in e.interfaces
      modifies this
      ensures invocations == old(invocations) + [OnModelCreating(t, EntityTypeBuilder(t))]
    {
      invocations := invocations + [OnModelCreating(t, EntityTypeBuilder(t))];
    }

    /** `OnModelCreatingEntities`: classify each entity type in registry order,
        invoke the participating ones, and stop at the first exception. */
    method OnModelCreatingEntities() returns (thrown: Option<InvalidModelCreatingException>)
      requires forall e <- entityTypes :: SingleArgumentInterfaces(e)
      modifies this
      ensures thrown == Pass(entityTypes).thrown
      ensures invocations == old(invocations) + Pass(entityTypes).invocations
    {
      for i := 0 to |entityTypes|
        invariant Pass(entityTypes[..i]).thrown == None
        invariant invocations == old(invocations) + Pass(entityTypes[..i]).invocations
      {
        var entity := entityTypes[i];
        assert entityTypes[..i + 1] == entityTypes[..i] + [entity];
        PassAppend(entityTypes[..i], [entity]);
        assert [entity][1..] == [];
        var c := GetEntityType(entity);
        match c
        case NotParticipating =>
        case Participating(t) =>
          ClassifyParticipating(entity);
          assert entity in entityTypes;
          InvokeOnModelCreating(t);
        case Misbound(ex) =>
          assert entityTypes[..i + 1] + entityTypes[i + 1..] == entityTypes;
          PassAppend(entityTypes[..i + 1], entityTypes[i + 1..]);
          return Some(ex);
      }
      assert entityTypes[..|entityTypes|] == entityTypes;
      return None;
    }
  }
}
