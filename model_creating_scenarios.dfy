/**
 * The outcomes the unit tests assert, derived from the contracts of
 * `ModelBuilder` alone. A test's static `initialized` counter is the number
 * of times the log holds that entity's `OnModelCreating` call.
 */
module ModelCreatingScenarios {
  import opened Wrappers
  import opened ClrTypes
  import opened ModelCreatingExtensions

  const Entity := Plain("UnitTests.ModelCreatingTests+Entity")
  /** `typeof(InvalidEntity).ToString()`. */
  const InvalidEntityName := "UnitTests.ModelCreatingInvalidInterfaceTests+InvalidEntity"
  const InvalidEntity := Plain(InvalidEntityName)
  const ValidEntity := Plain("UnitTests.ModelCreatingInvalidInterfaceTests+ValidEntity")

  /** How many times the log holds the `OnModelCreating` of `t`. */
  function Initialized(invocations: seq<Invocation>, t: ClrType): nat {
    multiset(invocations)[OnModelCreating(t, EntityTypeBuilder(t))]
  }

  /** Before model creation is triggered, no callback has run. */
  method NotTriggeringModelCreation() returns (initialized: nat)
    ensures initialized == 0
  {
    var mb := new ModelBuilder([EntityType(Entity, [ModelCreatingOf(Entity)])]);
    initialized := Initialized(mb.invocations, Entity);
  }

  /** One self-bound entity: model creation calls its callback once. */
  method TriggeringModelCreation() returns (thrown: Option<InvalidModelCreatingException>, initialized: nat)
    ensures thrown == None
    ensures initialized == 1
  {
    var e := EntityType(Entity, [ModelCreatingOf(Entity)]);
    assert Classify(e) == Participating(Entity) by {
      assert InvalidInterfaces(Entity, e.interfaces) == [];
      assert ModelCreatingOf(Entity) in e.interfaces;
    }
    assert [e][1..] == [];
    assert Pass([e]) == PassOutcome([OnModelCreating(Entity, EntityTypeBuilder(Entity))], None);
    var mb := new ModelBuilder([e]);
    thrown := mb.OnModelCreatingEntities();
    initialized := Initialized(mb.invocations, Entity);
  }

  /** The pass keeps no state of its own: triggering it twice on one builder
      calls the callback twice. */
  method TriggeringModelCreationTwice() returns (initialized: nat)
    ensures initialized == 2
  {
    var e := EntityType(Entity, [ModelCreatingOf(Entity)]);
    assert Classify(e) == Participating(Entity) by {
      assert InvalidInterfaces(Entity, e.interfaces) == [];
      assert ModelCreatingOf(Entity) in e.interfaces;
    }
    assert [e][1..] == [];
    var mb := new ModelBuilder([e]);
    var _ := mb.OnModelCreatingEntities();
    var _ := mb.OnModelCreatingEntities();
    initialized := Initialized(mb.invocations, Entity);
  }

  /** An entity implementing `IModelCreating<ValidEntity>`, registered before
      `ValidEntity`: model creation throws with the message the test expects,
      and the pass stops before `ValidEntity` is configured. */
  method TriggeringModelCreationWithInvalidInterface() returns (message: Option<string>, validInitialized: nat)
    ensures message == Some("Entity type " + InvalidEntityName + " must only implement IModelCreating`1[" + InvalidEntityName + "].")
    ensures validInitialized == 0
  {
    var invalid := EntityType(InvalidEntity, [ModelCreatingOf(ValidEntity)]);
    var valid := EntityType(ValidEntity, [ModelCreatingOf(ValidEntity)]);
    var ex := InvalidModelCreatingException(InvalidEntity, [ModelCreatingOf(ValidEntity)]);
    assert Classify(invalid) == Misbound(ex) by {
      assert Misbinds(InvalidEntity, ModelCreatingOf(ValidEntity));
      assert InvalidInterfaces(InvalidEntity, invalid.interfaces) == [ModelCreatingOf(ValidEntity)];
    }
    assert Pass([invalid, valid]) == PassOutcome([], Some(ex));
    var mb := new ModelBuilder([invalid, valid]);
    var thrown := mb.OnModelCreatingEntities();
    message := if thrown.Some? then Some(thrown.value.Message()) else None;
    validInitialized := Initialized(mb.invocations, ValidEntity);
  }
}
