/**
 * Properties of the discovery-and-dispatch pass that relate several calls or
 * several registries: which interfaces matter, where a pass stops, how many
 * times each entity type is configured, and what the registry order changes.
 */
module ModelCreatingProperties {
  import opened Wrappers
  import opened ClrTypes
  import opened ModelCreatingExtensions
  import TypeExtensions

  /** An interface that is not a generic instance of `IModelCreating<>` can be
      added anywhere in an entity's interface list without changing how the
      entity classifies. */
  lemma OtherInterfacesIgnored(clrType: ClrType, a: seq<ClrType>, b: seq<ClrType>, i: ClrType)
    requires !IsModelCreatingInterface(i)
    ensures Classify(EntityType(clrType, a + [i] + b)) == Classify(EntityType(clrType, a + b))
  {
    assert InvalidInterfaces(clrType, [i]) == [];
    InvalidInterfacesAppend(clrType, a, [i]);
    InvalidInterfacesAppend(clrType, a + [i], b);
    InvalidInterfacesAppend(clrType, a, b);
    assert InvalidInterfaces(clrType, a + [i] + b) == InvalidInterfaces(clrType, a + b);
    DeclaresModelCreatingAppend(a, i);
    DeclaresModelCreatingConcat(a + [i], b);
    DeclaresModelCreatingConcat(a, b);
    assert DeclaresModelCreating(a + [i] + b) == DeclaresModelCreating(a + b);
  }

  /** The classifier's inline match agrees with `TryGetSingleGenericArgument`
      asked about `IModelCreating<>`: an interface matches exactly when the
      helper returns true, and the helper's out argument is the one the
      classifier compares with the entity type. */
  lemma InlineMatchAgreesWithHelper(i: ClrType)
    requires IsModelCreatingInterface(i) ==> |GenericTypeArguments(i)| == 1
    ensures IsModelCreatingInterface(i) ==>
      TypeExtensions.TryGetSingleGenericArgument(i, Open(ModelCreatingDefinition)) == Success(Some(GenericTypeArguments(i)[0]))
    ensures !IsModelCreatingInterface(i) ==>
      TypeExtensions.TryGetSingleGenericArgument(i, Open(ModelCreatingDefinition)) == Success(None)
  {
  }

  lemma DeclaresModelCreatingConcat(a: seq<ClrType>, b: seq<ClrType>)
    ensures DeclaresModelCreating(a + b) <==> DeclaresModelCreating(a) || DeclaresModelCreating(b)
  {
    if DeclaresModelCreating(a + b) {
      var j :| j in a + b && IsModelCreatingInterface(j);
      assert j in a || j in b;
    }
    if DeclaresModelCreating(a) {
      var j :| j in a && IsModelCreatingInterface(j);
      assert j in a + b;
    }
    if DeclaresModelCreating(b) {
      var j :| j in b && IsModelCreatingInterface(j);
      assert j in a + b;
    }
  }

  /** A pass ends without an exception exactly when no registered entity type
      is misbound; an exception it ends with is the one thrown by classifying
      some registered entity type. */
  lemma {:induction false} PassSucceedsIff(r: seq<EntityType>)
    ensures Pass(r).thrown.None? <==> forall e <- r :: !Classify(e).Misbound?
    ensures Pass(r).thrown.Some? ==> exists e <- r :: Classify(e) == Misbound(Pass(r).thrown.value)
  {
    if r != [] {
      PassSucceedsIff(r[1..]);
      assert r == [r[0]] + r[1..];
      assert forall e <- r[1..] :: e in r;
    }
  }

  /** An entity type that does not take part adds no invocation and no
      exception to a pass, wherever it is registered. */
  lemma NonParticipantIgnored(a: seq<EntityType>, e: EntityType, b: seq<EntityType>)
    requires Classify(e).NotParticipating?
    ensures Pass(a + [e] + b) == Pass(a + b)
  {
    PassAppend(a, [e] + b);
    PassAppend(a, b);
    assert ([e] + b)[1..] == b;
    assert a + [e] + b == a + ([e] + b);
  }

  /** Entity types are processed strictly in registry order: when the first
      misbound entity type is at index k, the pass invokes exactly what the
      entity types before k invoke, throws k's exception, and invokes nothing
      for k or any type after it. */
  lemma PassStopsAtFirstMisbound(r: seq<EntityType>, k: nat)
    requires k < |r| && Classify(r[k]).Misbound?
    requires forall e <- r[..k] :: !Classify(e).Misbound?
    ensures Pass(r[..k]).thrown == None
    ensures Pass(r) == PassOutcome(Pass(r[..k]).invocations, Some(Classify(r[k]).exception))
  {
    PassFromMisbound(r[k..]);
    PassSucceedsIff(r[..k]);
    PassAppend(r[..k], r[k..]);
    assert r[..k] + r[k..] == r;
  }

  /** A pass that starts with a misbound entity type throws its exception
      and invokes nothing. */
  lemma PassFromMisbound(r: seq<EntityType>)
    requires r != [] && Classify(r[0]).Misbound?
    ensures Pass(r) == PassOutcome([], Some(Classify(r[0]).exception))
  {
  }

  /** Every invocation of a pass calls the `OnModelCreating` of a registered
      entity type that classifies as participating, with a builder for that
      same type. */
  lemma {:induction false} PassInvocationsSelfScoped(r: seq<EntityType>)
    ensures forall inv <- Pass(r).invocations ::
      inv.builder == EntityTypeBuilder(inv.target) &&
      exists e <- r :: e.clrType == inv.target && Classify(e) == Participating(inv.target)
  {
    if r != [] {
      PassInvocationsSelfScoped(r[1..]);
      assert forall e <- r[1..] :: e in r;
      if Classify(r[0]).Participating? {
        ClassifyParticipating(r[0]);
      }
    }
  }

  /** How many elements of `s` satisfy `p`. */
  function CountIf<T>(s: seq<T>, p: T -> bool): nat {
    if s == [] then 0 else (if p(s[0]) then 1 else 0) + CountIf(s[1..], p)
  }

  lemma {:induction false} CountIfAppend<T>(a: seq<T>, b: seq<T>, p: T -> bool)
    ensures CountIf(a + b, p) == CountIf(a, p) + CountIf(b, p)
  {
    if a == [] {
      assert a + b == b;
    } else {
      assert (a + b)[0] == a[0];
      assert (a + b)[1..] == a[1..] + b;
      CountIfAppend(a[1..], b, p);
    }
  }

  lemma {:induction false} CountIfNone<T>(s: seq<T>, p: T -> bool)
    requires forall x <- s :: !p(x)
    ensures CountIf(s, p) == 0
  {
    if s != [] {
      assert forall x <- s[1..] :: x in s;
      CountIfNone(s[1..], p);
    }
  }

  /** Counting does not depend on order. */
  lemma {:induction false} CountIfPermutation<T>(r1: seq<T>, r2: seq<T>, p: T -> bool)
    requires multiset(r1) == multiset(r2)
    ensures CountIf(r1, p) == CountIf(r2, p)
    decreases |r1|
  {
    if r1 == [] {
      assert |r2| == |multiset(r2)| == 0;
    } else {
      var e := r1[0];
      assert e in multiset(r2);
      var j :| 0 <= j < |r2| && r2[j] == e;
      var rest2 := r2[..j] + r2[j + 1..];
      RemoveMatched(r1, r2, j);
      CountIfPermutation(r1[1..], rest2, p);
      assert r2 == r2[..j] + ([e] + r2[j + 1..]);
      CountIfAppend(r2[..j], [e] + r2[j + 1..], p);
      CountIfAppend([e], r2[j + 1..], p);
      CountIfAppend(r2[..j], r2[j + 1..], p);
      assert r1 == [e] + r1[1..];
      CountIfAppend([e], r1[1..], p);
    }
  }

  /** The number of registered entity types that classify as `t` taking part. */
  function ParticipantCount(r: seq<EntityType>, t: ClrType): nat {
    CountIf(r, e => Classify(e) == Participating(t))
  }

  /** A pass that ends without an exception calls the `OnModelCreating` of `t`
      once for every registered entity type that classifies as `t` taking
      part, and no more: the pass keeps no state between entity types. */
  lemma {:induction false} PassInvocationCount(r: seq<EntityType>, t: ClrType)
    requires Pass(r).thrown == None
    ensures multiset(Pass(r).invocations)[OnModelCreating(t, EntityTypeBuilder(t))] == ParticipantCount(r, t)
  {
    if r != [] {
      var call := OnModelCreating(t, EntityTypeBuilder(t));
      var first := Pass([r[0]]);
      assert [r[0]][1..] == [];
      assert [r[0]] + r[1..] == r;
      PassAppend([r[0]], r[1..]);
      assert first.thrown == None;
      assert Pass(r).invocations == first.invocations + Pass(r[1..]).invocations;
      PassInvocationCount(r[1..], t);
      assert multiset(first.invocations)[call] == if Classify(r[0]) == Participating(t) then 1 else 0 by {
        match Classify(r[0])
        case NotParticipating =>
        case Participating(u) =>
          assert first.invocations == [OnModelCreating(u, EntityTypeBuilder(u))];
        case Misbound(_) =>
      }
      assert ParticipantCount(r, t) == (if Classify(r[0]) == Participating(t) then 1 else 0) + ParticipantCount(r[1..], t) by {
        var p := (e: EntityType) => Classify(e) == Participating(t);
        assert ParticipantCount(r, t) == CountIf(r, p);
        assert ParticipantCount(r[1..], t) == CountIf(r[1..], p);
      }
    }
  }

  /** No two registered entity types share a CLR type. */
  predicate DistinctClrTypes(r: seq<EntityType>) {
    forall j, k | 0 <= j < k < |r| :: r[j].clrType != r[k].clrType
  }

  lemma {:induction false} ParticipantCountDistinct(r: seq<EntityType>, e: EntityType)
    requires DistinctClrTypes(r) && e in r && Classify(e).Participating?
    ensures ParticipantCount(r, e.clrType) == 1
  {
    ClassifyParticipating(e);
    var p := (f: EntityType) => Classify(f) == Participating(e.clrType);
    assert ParticipantCount(r, e.clrType) == (if p(r[0]) then 1 else 0) + CountIf(r[1..], p);
    if r[0] == e {
      forall f | f in r[1..] ensures !p(f) {
        var k :| 0 <= k < |r[1..]| && r[1..][k] == f;
        assert r[k + 1] == f;
        if Classify(f).Participating? {
          ClassifyParticipating(f);
        }
      }
      CountIfNone(r[1..], p);
    } else {
      var k :| 0 <= k < |r| && r[k] == e;
      assert r[0].clrType != e.clrType;
      assert r[1..][k - 1] == e;
      ClassifyParticipating(r[0]);
      ParticipantCountDistinct(r[1..], e);
    }
  }

  /** When the registry holds each CLR type once, a successful pass calls the
      `OnModelCreating` of each participating entity type exactly once, with
      the builder for that type. */
  lemma PassInvokesEachParticipantOnce(r: seq<EntityType>, e: EntityType)
    requires Pass(r).thrown == None
    requires DistinctClrTypes(r) && e in r && Classify(e).Participating?
    ensures multiset(Pass(r).invocations)[OnModelCreating(e.clrType, EntityTypeBuilder(e.clrType))] == 1
  {
    PassInvocationCount(r, e.clrType);
    ParticipantCountDistinct(r, e);
  }

  /** Taking the first element off one of two permutations of each other, and
      the same element off the other, leaves two permutations of each other. */
  lemma RemoveMatched<T>(r1: seq<T>, r2: seq<T>, j: nat)
    requires multiset(r1) == multiset(r2) && r1 != [] && j < |r2| && r2[j] == r1[0]
    ensures multiset(r2[..j] + r2[j + 1..]) == multiset(r1[1..])
  {
    var e := r1[0];
    assert r2 == r2[..j] + [e] + r2[j + 1..];
    assert r1 == [e] + r1[1..];
    var rest2 := r2[..j] + r2[j + 1..];
    assert multiset(r2) == multiset(r2[..j]) + multiset([e]) + multiset(r2[j + 1..]);
    assert multiset(rest2) == multiset(r2[..j]) + multiset(r2[j + 1..]);
    calc {
      multiset(rest2);
      (multiset(rest2) + multiset([e])) - multiset([e]);
      multiset(r2) - multiset([e]);
      multiset(r1) - multiset([e]);
      (multiset([e]) + multiset(r1[1..])) - multiset([e]);
      multiset(r1[1..]);
    }
  }

  /** Permuting the registry changes neither whether the pass throws nor, when
      it does not, the multiset of invocations it makes: only their order. */
  lemma PassPermutation(r1: seq<EntityType>, r2: seq<EntityType>)
    requires multiset(r1) == multiset(r2)
    ensures Pass(r1).thrown.Some? <==> Pass(r2).thrown.Some?
    ensures Pass(r1).thrown == None ==> multiset(Pass(r1).invocations) == multiset(Pass(r2).invocations)
  {
    PassSucceedsIff(r1);
    PassSucceedsIff(r2);
    assert forall e :: e in r1 <==> e in r2 by {
      forall e ensures e in r1 <==> e in r2 {
        assert e in r1 <==> e in multiset(r1);
        assert e in r2 <==> e in multiset(r2);
      }
    }
    if Pass(r1).thrown == None {
      PassInvocationsSelfScoped(r1);
      PassInvocationsSelfScoped(r2);
      forall inv ensures multiset(Pass(r1).invocations)[inv] == multiset(Pass(r2).invocations)[inv] {
        if inv.builder == EntityTypeBuilder(inv.target) {
          PassInvocationCount(r1, inv.target);
          PassInvocationCount(r2, inv.target);
          CountIfPermutation(r1, r2, e => Classify(e) == Participating(inv.target));
        } else {
          assert inv !in Pass(r1).invocations && inv !in Pass(r2).invocations;
        }
      }
    }
  }

  /** The exception message names the entity type, starting at a fixed
      position, and ends by naming it again as the argument `IModelCreating`
      should have. */
  lemma MessageNamesEntity(ex: InvalidModelCreatingException)
    ensures var m, n := ex.Message(), FullName(ex.entityClrType);
      |m| == |n| * 2 + 52 &&
      m[..12] == "Entity type " && m[12..12 + |n|] == n &&
      m[|m| - |n| - 2..] == n + "]."
  {
  }

  /** Two messages are equal only when they name the same entity type. */
  lemma MessageDeterminesEntityName(a: InvalidModelCreatingException, b: InvalidModelCreatingException)
    requires a.Message() == b.Message()
    ensures FullName(a.entityClrType) == FullName(b.entityClrType)
  {
    MessageNamesEntity(a);
    MessageNamesEntity(b);
  }
}
