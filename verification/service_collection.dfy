/** A service collection as the validators see it, and the validation
    extensions (ServiceCollectionValidationExtensions.cs): registering a
    validator instance and running every registered validator. */
module ServiceCollections {
  import opened Base
  import opened Types
  import opened Strings
  import opened ValidationResults

  datatype Lifetime = Singleton | Scoped | Transient

  /** A registration's instance object: a validator (an opaque identity,
      run through a parameter of `Validate`) or some other object. */
  datatype Instance = ValidatorInstance(validator: nat) | OtherInstance(object: nat)

  /** A `ServiceDescriptor`. `serviceKey` is `None` for a non-keyed
      registration. The descriptor keeps one implementation type and one
      factory, whichever kind of registration it is; the keyed and the
      non-keyed properties are getters over them, guarded by `IsKeyedService`. */
  datatype ServiceDescriptor = ServiceDescriptor(
    serviceType: Ty,
    lifetime: Lifetime,
    serviceKey: Option<string>,
    implementation: Option<Ty>,
    hasFactory: bool,
    implementationInstance: Option<Instance>)

  /** `IsKeyedService`. */
  predicate IsKeyed(sd: ServiceDescriptor) {
    sd.serviceKey.Some?
  }

  /** `ImplementationType`: null on a keyed registration. */
  function ImplementationType(sd: ServiceDescriptor): Option<Ty> {
    if IsKeyed(sd) then None else sd.implementation
  }

  /** `KeyedImplementationType`: null on a non-keyed registration. */
  function KeyedImplementationType(sd: ServiceDescriptor): Option<Ty> {
    if IsKeyed(sd) then sd.implementation else None
  }

  /** Whether `ImplementationFactory` (non-keyed) or
      `KeyedImplementationFactory` (keyed) is set. */
  predicate HasFactory(sd: ServiceDescriptor, keyed: bool) {
    IsKeyed(sd) == keyed && sd.hasFactory
  }

  /** `typeof(IServiceCollectionValidator)`. */
  const ValidatorInterface: Ty := Simple("CommonFramework.DependencyInjection.IServiceCollectionValidator")

  /** `AddSingleton(validator)`: the descriptor for a validator instance. */
  function ValidatorDescriptor(validator: nat): ServiceDescriptor {
    ServiceDescriptor(ValidatorInterface, Singleton, None, None, false, Some(ValidatorInstance(validator)))
  }

  /** `AddValidator(validator)`: one singleton descriptor carrying the
      instance is appended; the registrations before it stay as they were. */
  function AddValidator(services: seq<ServiceDescriptor>, validator: nat): (r: seq<ServiceDescriptor>)
    ensures |r| == |services| + 1 && r[..|services|] == services
    ensures var sd := r[|services|];
      sd.serviceType == ValidatorInterface && sd.lifetime == Singleton && !IsKeyed(sd) &&
      sd.implementationInstance == Some(ValidatorInstance(validator))
  {
    services + [ValidatorDescriptor(validator)]
  }

  /** The filter of `GetValidators`: a non-keyed singleton registered as
      `IServiceCollectionValidator` whose instance is a validator. */
  predicate RegistersValidator(sd: ServiceDescriptor) {
    sd.lifetime == Singleton && !IsKeyed(sd) && sd.serviceType == ValidatorInterface &&
    sd.implementationInstance.Some? && sd.implementationInstance.value.ValidatorInstance?
  }

  /** `GetValidators`: the validator instances of the qualifying
      registrations, in registration order. */
  function GetValidators(services: seq<ServiceDescriptor>): (r: seq<nat>)
    ensures |r| <= |services|
    decreases |services|
  {
    if |services| == 0 then []
    else
      var rest := GetValidators(services[1..]);
      if RegistersValidator(services[0]) then [services[0].implementationInstance.value.validator] + rest else rest
  }

  /** The validators of two collections in a row are those of the first,
      then those of the second. */
  lemma {:induction false} GetValidatorsAppend(a: seq<ServiceDescriptor>, b: seq<ServiceDescriptor>)
    ensures GetValidators(a + b) == GetValidators(a) + GetValidators(b)
    decreases |a|
  {
    if |a| == 0 {
      assert a + b == b;
    } else {
      assert (a + b)[1..] == a[1..] + b;
      GetValidatorsAppend(a[1..], b);
    }
  }

  /** A validator is found exactly when some registration qualifies and
      carries it. */
  lemma {:induction false} GetValidatorsFinds(services: seq<ServiceDescriptor>, v: nat)
    ensures v in GetValidators(services) <==>
      exists i :: 0 <= i < |services| && RegistersValidator(services[i]) && services[i].implementationInstance.value.validator == v
    decreases |services|
  {
    if |services| > 0 {
      GetValidatorsFinds(services[1..], v);
      assert forall i :: 1 <= i < |services| ==> services[i] == services[1..][i - 1];
      if v in GetValidators(services[1..]) {
        var i :| 0 <= i < |services[1..]| && RegistersValidator(services[1..][i]) && services[1..][i].implementationInstance.value.validator == v;
        assert services[i + 1] == services[1..][i];
      }
    }
  }

  /** A validator added with `AddValidator` is run last, after those already
      registered. */
  lemma AddedValidatorRunsLast(services: seq<ServiceDescriptor>, validator: nat)
    ensures GetValidators(AddValidator(services, validator)) == GetValidators(services) + [validator]
  {
    GetValidatorsAppend(services, [ValidatorDescriptor(validator)]);
    assert [ValidatorDescriptor(validator)][1..] == [];
  }

  /** `validator.Validate(services, options)`, for each validator in turn. */
  function RunAll<O>(run: (nat, seq<ServiceDescriptor>, O) -> ValidationResult, validators: seq<nat>,
                     services: seq<ServiceDescriptor>, options: O): (r: seq<ValidationResult>)
    ensures |r| == |validators| && forall i :: 0 <= i < |validators| ==> r[i] == run(validators[i], services, options)
  {
    seq(|validators|, i requires 0 <= i < |validators| => run(validators[i], services, options))
  }

  /** `Validate(options)`: runs every registered validator (what a validator
      does is the parameter `run`), combines the results, and throws
      `InvalidOperationException` with the errors joined by `newLine` when
      there are any; otherwise returns the same collection. */
  function Validate<O>(services: seq<ServiceDescriptor>, options: O,
                       run: (nat, seq<ServiceDescriptor>, O) -> ValidationResult, newLine: string): (r: Result<seq<ServiceDescriptor>>)
    ensures r.Ok? ==> r.value == services
    ensures r.Throw? ==> r.error.InvalidOperation?
  {
    var validationResult := Aggregate(Success, RunAll(run, GetValidators(services), services, options));
    if !IsSuccess(validationResult) then Throw(InvalidOperation(Join(newLine, validationResult.errors)))
    else Ok(services)
  }

  /** `Validate` returns exactly when every registered validator reports no
      error; otherwise the message lists every validator's errors, in
      registration order and each validator's own order. */
  lemma ValidateSpec<O>(services: seq<ServiceDescriptor>, options: O,
                        run: (nat, seq<ServiceDescriptor>, O) -> ValidationResult, newLine: string)
    ensures var validators := GetValidators(services);
      Validate(services, options, run, newLine).Ok? <==>
        forall i :: 0 <= i < |validators| ==> IsSuccess(run(validators[i], services, options))
    ensures var results := RunAll(run, GetValidators(services), services, options);
      Validate(services, options, run, newLine).Throw? ==>
        Validate(services, options, run, newLine).error == InvalidOperation(Join(newLine, AllErrors(results)))
  {
    var results := RunAll(run, GetValidators(services), services, options);
    AggregateErrors(Success, results);
    assert Success.errors + AllErrors(results) == AllErrors(results);
  }

  /** A collection with no validator registered always validates. */
  lemma NoValidatorsSucceed<O>(services: seq<ServiceDescriptor>, options: O,
                               run: (nat, seq<ServiceDescriptor>, O) -> ValidationResult, newLine: string)
    requires forall i :: 0 <= i < |services| ==> !RegistersValidator(services[i])
    ensures Validate(services, options, run, newLine) == Ok(services)
  {
    if GetValidators(services) != [] {
      GetValidatorsFinds(services, GetValidators(services)[0]);
    }
    ValidateSpec(services, options, run, newLine);
  }
}
