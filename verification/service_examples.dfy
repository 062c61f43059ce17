/** Worked examples of the service-collection validators: two registrations
    of one interface, consumed by a constructor that takes it once, as a
    collection, or under a key. */
module ServiceExamples {
  import opened Base
  import opened Types
  import opened ValidationResults
  import opened ServiceCollections
  import opened DuplicateServiceUsage

  const InnerInterface: Ty := Simple("IInnerService")
  const InnerService: Ty := Simple("InnerService")
  const Consumer: Ty := Simple("Consumer")
  const ConsumerWithCollection: Ty := Simple("ConsumerWithCollection")
  const KeyedConsumer: Ty := Simple("KeyedConsumer")
  const KeyedConsumerCollection: Ty := Simple("KeyedConsumerCollection")

  /** The public constructors of the example types. */
  function CtorsOf(t: Ty): seq<Ctor> {
    if t == Consumer then [Ctor([CtorParam(InnerInterface, None)], false)]
    else if t == ConsumerWithCollection then [Ctor([CtorParam(EnumerableOf(InnerInterface), None)], false)]
    else if t == KeyedConsumer then [Ctor([CtorParam(InnerInterface, Some(Some("Root")))], false)]
    else if t == KeyedConsumerCollection then [Ctor([CtorParam(EnumerableOf(InnerInterface), Some(Some("Root")))], false)]
    else [Ctor([], false)]
  }

  /** `AddSingleton<TService, TImplementation>()`. */
  function Singleton(service: Ty, implementation: Ty): ServiceDescriptor {
    ServiceDescriptor(service, Lifetime.Singleton, None, Some(implementation), false, None)
  }

  /** `AddKeyedSingleton<TService, TImplementation>(key)`. */
  function KeyedSingleton(service: Ty, implementation: Ty, key: string): ServiceDescriptor {
    ServiceDescriptor(service, Lifetime.Singleton, Some(key), Some(implementation), false, None)
  }

  function TwoInnerAnd(consumer: Ty): seq<ServiceDescriptor> {
    [Singleton(InnerInterface, InnerService), Singleton(InnerInterface, InnerService), Singleton(consumer, consumer)]
  }

  function TwoKeyedInnerAnd(consumer: Ty): seq<ServiceDescriptor> {
    [KeyedSingleton(InnerInterface, InnerService, "Root"), KeyedSingleton(InnerInterface, InnerService, "Root"), Singleton(consumer, consumer)]
  }

  /** Counting over three registrations, one at a time. */
  lemma CountThree(a: ServiceDescriptor, b: ServiceDescriptor, c: ServiceDescriptor, u: Usage)
    ensures CountRegistrations([a, b, c], u) ==
      (if Registration(a) == u then 1 else 0) + (if Registration(b) == u then 1 else 0) + (if Registration(c) == u then 1 else 0)
  {
    assert [a, b, c][1..] == [b, c];
    assert [b, c][1..] == [c];
    assert [c][1..] == [];
    assert CountRegistrations([c], u) == (if Registration(c) == u then 1 else 0) + CountRegistrations([], u);
    assert CountRegistrations([b, c], u) == (if Registration(b) == u then 1 else 0) + CountRegistrations([c], u);
  }

  /** Two registrations of `u` and a consumer of it: reported unless the
      service type is excepted. */
  lemma PairReported(exceptServices: seq<Ty>, typeName: Ty -> string, a: ServiceDescriptor, c: ServiceDescriptor, u: Usage)
    requires Registration(a) == u && UsesBy(c, CtorsOf, u) > 0 && u.0 !in exceptServices
    ensures !IsSuccess(DuplicateServiceUsage.Validate(exceptServices, typeName, [a, a, c], CtorsOf))
  {
    var services := [a, a, c];
    CountThree(a, a, c, u);
    assert UsesBy(services[2], CtorsOf, u) > 0;
    assert Reportable(exceptServices, services, CtorsOf, u);
    SucceedsIffNothingReported(exceptServices, typeName, services, CtorsOf);
  }

  /** The registered service uses nothing and the consumer uses `p` only:
      nothing is reported when `p`'s usage is registered at most once or
      its type is excepted. */
  lemma NothingReported(exceptServices: seq<Ty>, typeName: Ty -> string, a: ServiceDescriptor, c: ServiceDescriptor, p: CtorParam)
    requires ConsumerCtor(a, CtorsOf) == Some(Ctor([], false))
    requires ConsumerCtor(c, CtorsOf) == Some(Ctor([p], false))
    requires CountRegistrations([a, a, c], ParamUsage(p)) <= 1 || p.ty in exceptServices
    ensures IsSuccess(DuplicateServiceUsage.Validate(exceptServices, typeName, [a, a, c], CtorsOf))
  {
    var services := [a, a, c];
    SucceedsIffNothingReported(exceptServices, typeName, services, CtorsOf);
    forall w: Usage
      ensures !Reportable(exceptServices, services, CtorsOf, w)
    {
      UsesOnlyParam(a, c, p, w);
    }
  }

  /** Only the consumer uses anything, and only `p`'s usage. */
  lemma UsesOnlyParam(a: ServiceDescriptor, c: ServiceDescriptor, p: CtorParam, w: Usage)
    requires ConsumerCtor(a, CtorsOf) == Some(Ctor([], false))
    requires ConsumerCtor(c, CtorsOf) == Some(Ctor([p], false))
    ensures UsesBy(a, CtorsOf, w) == 0
    ensures w != ParamUsage(p) ==> UsesBy(c, CtorsOf, w) == 0
  {
    assert [p][1..] == [];
  }

  /** The registered implementation has only a parameterless constructor. */
  lemma InnerCtor(a: ServiceDescriptor)
    requires a == Singleton(InnerInterface, InnerService) || a == KeyedSingleton(InnerInterface, InnerService, "Root")
    ensures ConsumerCtor(a, CtorsOf) == Some(Ctor([], false))
  {
  }

  /** A consumer's only constructor takes one parameter. */
  lemma ConsumerCtorIs(t: Ty, p: CtorParam)
    requires CtorsOf(t) == [Ctor([p], false)]
    ensures ConsumerCtor(Singleton(t, t), CtorsOf) == Some(Ctor([p], false))
  {
  }

  /** A constructor whose one parameter is `p` uses `p`'s usage once. */
  lemma UsesOnce(c: ServiceDescriptor, p: CtorParam)
    requires ConsumerCtor(c, CtorsOf) == Some(Ctor([p], false))
    ensures UsesBy(c, CtorsOf, ParamUsage(p)) == 1
  {
    assert [p][1..] == [];
  }

  /** A consumer taking the twice-registered interface once is reported;
      excepting the interface silences it. */
  lemma SingleInstanceUseIsReported(typeName: Ty -> string)
    ensures !IsSuccess(DuplicateServiceUsage.Validate(DefaultExceptServices, typeName, TwoInnerAnd(Consumer), CtorsOf))
    ensures IsSuccess(DuplicateServiceUsage.Validate([InnerInterface], typeName, TwoInnerAnd(Consumer), CtorsOf))
  {
    var a, c := Singleton(InnerInterface, InnerService), Singleton(Consumer, Consumer);
    var p := CtorParam(InnerInterface, None);
    InnerCtor(a);
    ConsumerCtorIs(Consumer, p);
    UsesOnce(c, p);
    assert TwoInnerAnd(Consumer) == [a, a, c];
    PairReported(DefaultExceptServices, typeName, a, c, ParamUsage(p));
    CountThree(a, a, c, ParamUsage(p));
    NothingReported([InnerInterface], typeName, a, c, p);
  }

  /** Taking the interface as a collection is not a single-instance use. */
  lemma CollectionUseIsNotReported(typeName: Ty -> string)
    ensures IsSuccess(DuplicateServiceUsage.Validate(DefaultExceptServices, typeName, TwoInnerAnd(ConsumerWithCollection), CtorsOf))
  {
    var a, c := Singleton(InnerInterface, InnerService), Singleton(ConsumerWithCollection, ConsumerWithCollection);
    var p := CtorParam(EnumerableOf(InnerInterface), None);
    InnerCtor(a);
    ConsumerCtorIs(ConsumerWithCollection, p);
    assert TwoInnerAnd(ConsumerWithCollection) == [a, a, c];
    CountThree(a, a, c, ParamUsage(p));
    NothingReported(DefaultExceptServices, typeName, a, c, p);
  }

  /** A keyed registration used under its key is reported; used as a
      keyed collection it is not. */
  lemma KeyedUseIsReported(typeName: Ty -> string)
    ensures !IsSuccess(DuplicateServiceUsage.Validate(DefaultExceptServices, typeName, TwoKeyedInnerAnd(KeyedConsumer), CtorsOf))
    ensures IsSuccess(DuplicateServiceUsage.Validate(DefaultExceptServices, typeName, TwoKeyedInnerAnd(KeyedConsumerCollection), CtorsOf))
  {
    KeyedSingleUse(typeName);
    KeyedCollectionUse(typeName);
  }

  /** The consumer taking the keyed interface under its key. */
  lemma KeyedSingleUse(typeName: Ty -> string)
    ensures !IsSuccess(DuplicateServiceUsage.Validate(DefaultExceptServices, typeName, TwoKeyedInnerAnd(KeyedConsumer), CtorsOf))
  {
    var a := KeyedSingleton(InnerInterface, InnerService, "Root");
    var c := Singleton(KeyedConsumer, KeyedConsumer);
    var p := CtorParam(InnerInterface, Some(Some("Root")));
    ConsumerCtorIs(KeyedConsumer, p);
    UsesOnce(c, p);
    assert TwoKeyedInnerAnd(KeyedConsumer) == [a, a, c];
    PairReported(DefaultExceptServices, typeName, a, c, ParamUsage(p));
  }

  /** The consumer taking the keyed interface as a keyed collection. */
  lemma KeyedCollectionUse(typeName: Ty -> string)
    ensures IsSuccess(DuplicateServiceUsage.Validate(DefaultExceptServices, typeName, TwoKeyedInnerAnd(KeyedConsumerCollection), CtorsOf))
  {
    var a := KeyedSingleton(InnerInterface, InnerService, "Root");
    InnerCtor(a);
    var c := Singleton(KeyedConsumerCollection, KeyedConsumerCollection);
    var p := CtorParam(EnumerableOf(InnerInterface), Some(Some("Root")));
    ConsumerCtorIs(KeyedConsumerCollection, p);
    assert TwoKeyedInnerAnd(KeyedConsumerCollection) == [a, a, c];
    CountThree(a, a, c, ParamUsage(p));
    NothingReported(DefaultExceptServices, typeName, a, c, p);
  }

  /** Registered as a validator and run by `Validate`, the duplicate-usage
      validator makes the collection throw. */
  lemma ValidateThrowsOnDuplicateUsage(typeName: Ty -> string, newLine: string)
    ensures var services := AddValidator(TwoInnerAnd(Consumer), 0);
      var run := (v: nat, sc: seq<ServiceDescriptor>, o: ()) => DuplicateServiceUsage.Validate(DefaultExceptServices, typeName, sc, CtorsOf);
      ServiceCollections.Validate(services, (), run, newLine).Throw?
  {
    var services := AddValidator(TwoInnerAnd(Consumer), 0);
    var run := (v: nat, sc: seq<ServiceDescriptor>, o: ()) => DuplicateServiceUsage.Validate(DefaultExceptServices, typeName, sc, CtorsOf);
    OnlyAddedValidator();
    ValidateSpec(services, (), run, newLine);
    ReportedWithValidator(typeName);
    assert run(0, services, ()) == DuplicateServiceUsage.Validate(DefaultExceptServices, typeName, services, CtorsOf);
  }

  /** The example registers no validator of its own, so the added one is
      the only one run. */
  lemma OnlyAddedValidator()
    ensures GetValidators(AddValidator(TwoInnerAnd(Consumer), 0)) == [0]
  {
    AddedValidatorRunsLast(TwoInnerAnd(Consumer), 0);
    assert GetValidators(TwoInnerAnd(Consumer)) == [] by {
      if GetValidators(TwoInnerAnd(Consumer)) != [] {
        GetValidatorsFinds(TwoInnerAnd(Consumer), GetValidators(TwoInnerAnd(Consumer))[0]);
      }
    }
  }

  /** The validator's own registration does not hide the duplicate. */
  lemma ReportedWithValidator(typeName: Ty -> string)
    ensures !IsSuccess(DuplicateServiceUsage.Validate(DefaultExceptServices, typeName, AddValidator(TwoInnerAnd(Consumer), 0), CtorsOf))
  {
    var services := AddValidator(TwoInnerAnd(Consumer), 0);
    var c := Singleton(Consumer, Consumer);
    var p := CtorParam(InnerInterface, None);
    ConsumerCtorIs(Consumer, p);
    UsesOnce(c, p);
    assert services[..3] == TwoInnerAnd(Consumer) && services[2] == c;
    CountAtLeast(services, ParamUsage(p));
    assert Reportable(DefaultExceptServices, services, CtorsOf, ParamUsage(p));
    SucceedsIffNothingReported(DefaultExceptServices, typeName, services, CtorsOf);
  }

  /** A consumer is listed by its `ImplementationType`: a plain registration
      by its implementation's name, a keyed one, whose `ImplementationType`
      is null, by nothing. */
  lemma ConsumersListedByImplementationType(typeName: Ty -> string, service: Ty, implementation: Ty, key: string)
    ensures ConsumerName(typeName, Singleton(service, implementation)) == typeName(implementation)
    ensures ConsumerName(typeName, KeyedSingleton(service, implementation, key)) == ""
    ensures ActualImplementationType(KeyedSingleton(service, implementation, key)) == Some(implementation)
  {
  }

  /** The two interface registrations at the front are counted. */
  lemma CountAtLeast(services: seq<ServiceDescriptor>, u: Usage)
    requires |services| >= 2 && Registration(services[0]) == u && Registration(services[1]) == u
    ensures CountRegistrations(services, u) >= 2
  {
    assert services[1..][0] == services[1];
  }
}
