/** `DuplicateServiceUsageValidator`: reports a service registered more
    than once (under the same key) that some registration's constructor
    takes as a single instance. Reflection is abstracted: the public
    constructors of an implementation type are the parameter `ctorsOf`, and
    a constructor parameter is its type and its `FromKeyedServices` key. */
module DuplicateServiceUsage {
  import opened Base
  import opened Types
  import opened Strings
  import opened ValidationResults
  import opened ServiceCollections

  // ---------------------------------------------------------------------------
  // Usages

  /** The `Tuple<object?>?` key of a usage or of a registration: `NoKey` for
      null, `KeyTuple(k)` for `Tuple.Create(k)` (the key itself may be null). */
  datatype UsageKey = NoKey | KeyTuple(key: Option<string>)

  /** A constructor parameter: its type and, when it carries
      `[FromKeyedServices(key)]`, that key. */
  datatype CtorParam = CtorParam(ty: Ty, fromKeyedServices: Option<Option<string>>)

  /** A public constructor: its parameters and whether it is marked
      `[ActivatorUtilitiesConstructor]`. */
  datatype Ctor = Ctor(params: seq<CtorParam>, marked: bool)

  /** A `(type, key)` pair: what a parameter uses and what a registration
      provides. */
  type Usage = (Ty, UsageKey)

  /** The implementation type the registration is built from: the getter
      that matches the registration's keyedness, so always the type the
      descriptor holds. */
  function ActualImplementationType(sd: ServiceDescriptor): (r: Option<Ty>)
    ensures r == sd.implementation
    ensures IsKeyed(sd) ==> ImplementationType(sd).None?
    ensures !IsKeyed(sd) ==> KeyedImplementationType(sd).None?
  {
    if IsKeyed(sd) then KeyedImplementationType(sd) else ImplementationType(sd)
  }

  /** Whether the registration is built by a factory. */
  predicate HasActualFactory(sd: ServiceDescriptor) {
    if IsKeyed(sd) then HasFactory(sd, true) else HasFactory(sd, false)
  }

  /** `ctors.FirstOrDefault(ctor => marked)`. */
  function FirstMarked(ctors: seq<Ctor>): (r: Option<Ctor>)
    ensures r.None? <==> forall i :: 0 <= i < |ctors| ==> !ctors[i].marked
    ensures r.Some? ==>
      exists i :: 0 <= i < |ctors| && ctors[i] == r.value && r.value.marked && (forall j :: 0 <= j < i ==> !ctors[j].marked)
    decreases |ctors|
  {
    if |ctors| == 0 then None
    else if ctors[0].marked then Some(ctors[0])
    else
      var r := FirstMarked(ctors[1..]);
      assert forall i :: 1 <= i < |ctors| ==> ctors[i] == ctors[1..][i - 1];
      r
  }

  /** The constructor choice: none without a public constructor, the only
      one when there is one, and otherwise the first marked one, if any. */
  function ChooseCtor(ctors: seq<Ctor>): (r: Option<Ctor>)
    ensures |ctors| == 0 ==> r.None?
    ensures |ctors| == 1 ==> r == Some(ctors[0])
    ensures |ctors| > 1 ==> r == FirstMarked(ctors)
  {
    if |ctors| == 0 then None
    else if |ctors| == 1 then Some(ctors[0])
    else FirstMarked(ctors)
  }

  /** The constructor whose parameters count as usages: only registrations
      with an implementation type and no factory have one. */
  function ConsumerCtor(sd: ServiceDescriptor, ctorsOf: Ty -> seq<Ctor>): (r: Option<Ctor>)
    ensures r.Some? ==> ActualImplementationType(sd).Some? && !HasActualFactory(sd)
  {
    var t := ActualImplementationType(sd);
    if t.None? || HasActualFactory(sd) then None else ChooseCtor(ctorsOf(t.value))
  }

  /** The usage a constructor parameter stands for. */
  function ParamUsage(p: CtorParam): Usage {
    (p.ty, match p.fromKeyedServices case None => NoKey case Some(k) => KeyTuple(k))
  }

  /** How many of the parameters are the usage `u`. */
  function CountUses(ps: seq<CtorParam>, u: Usage): (r: nat)
    ensures r <= |ps|
    ensures r > 0 <==> exists i :: 0 <= i < |ps| && ParamUsage(ps[i]) == u
    decreases |ps|
  {
    if |ps| == 0 then 0
    else
      var rest := CountUses(ps[1..], u);
      assert forall i :: 1 <= i < |ps| ==> ps[i] == ps[1..][i - 1];
      (if ParamUsage(ps[0]) == u then 1 else 0) + rest
  }

  /** How many times the registration uses `u`: once per constructor
      parameter that is `u`. */
  function UsesBy(sd: ServiceDescriptor, ctorsOf: Ty -> seq<Ctor>, u: Usage): nat {
    var c := ConsumerCtor(sd, ctorsOf);
    if c.None? then 0 else CountUses(c.value.params, u)
  }

  /** The group of usage `u`: every registration once per parameter of
      its constructor that is `u`, in registration and parameter order. */
  function UsedFor(services: seq<ServiceDescriptor>, ctorsOf: Ty -> seq<Ctor>, u: Usage): (r: seq<ServiceDescriptor>)
    ensures forall i :: 0 <= i < |r| ==> r[i] in services && UsesBy(r[i], ctorsOf, u) > 0
    decreases |services|
  {
    if |services| == 0 then []
    else seq(UsesBy(services[0], ctorsOf, u), _ => services[0]) + UsedFor(services[1..], ctorsOf, u)
  }

  /** The group of a usage is non-empty exactly when some registration's
      constructor has a parameter that is that usage. */
  lemma {:induction false} UsedForNonEmpty(services: seq<ServiceDescriptor>, ctorsOf: Ty -> seq<Ctor>, u: Usage)
    ensures |UsedFor(services, ctorsOf, u)| > 0 <==> exists i :: 0 <= i < |services| && UsesBy(services[i], ctorsOf, u) > 0
    decreases |services|
  {
    if |services| > 0 {
      UsedForNonEmpty(services[1..], ctorsOf, u);
      assert forall i :: 1 <= i < |services| ==> services[i] == services[1..][i - 1];
    }
  }

  // ---------------------------------------------------------------------------
  // Registrations

  /** The key a registration is grouped under: its service type and, when
      keyed, `Tuple.Create(ServiceKey)`. */
  function Registration(sd: ServiceDescriptor): Usage {
    (sd.serviceType, if IsKeyed(sd) then KeyTuple(sd.serviceKey) else NoKey)
  }

  /** How many registrations are grouped under `u`. */
  function CountRegistrations(services: seq<ServiceDescriptor>, u: Usage): nat
    decreases |services|
  {
    if |services| == 0 then 0
    else (if Registration(services[0]) == u then 1 else 0) + CountRegistrations(services[1..], u)
  }

  /** The registration groups, in order of first appearance. */
  function Groups(services: seq<ServiceDescriptor>): (r: seq<Usage>)
    ensures forall u :: u in r <==> exists i :: 0 <= i < |services| && Registration(services[i]) == u
    ensures forall i, j :: 0 <= i < j < |r| ==> r[i] != r[j]
    decreases |services|
  {
    if |services| == 0 then []
    else
      var n := |services| - 1;
      var init := Groups(services[..n]);
      assert forall i :: 0 <= i < n ==> services[i] == services[..n][i];
      var u := Registration(services[n]);
      if u in init then init else init + [u]
  }

  /** A reported pair: the service type, the registration key and the
      registrations that take it as a single instance. */
  datatype WrongUsage = WrongUsage(serviceType: Ty, key: UsageKey, usedFor: seq<ServiceDescriptor>)

  /** The groups among `keys` with more than one registration and at least
      one usage, in order. */
  function Report(keys: seq<Usage>, services: seq<ServiceDescriptor>, ctorsOf: Ty -> seq<Ctor>): (r: seq<WrongUsage>)
    ensures forall i :: 0 <= i < |r| ==> (r[i].serviceType, r[i].key) in keys
    ensures forall i :: 0 <= i < |r| ==> r[i].usedFor == UsedFor(services, ctorsOf, (r[i].serviceType, r[i].key))
    ensures forall i :: 0 <= i < |r| ==>
      CountRegistrations(services, (r[i].serviceType, r[i].key)) > 1 && |r[i].usedFor| > 0
    decreases |keys|
  {
    if |keys| == 0 then []
    else
      var u := keys[0];
      var usedFor := UsedFor(services, ctorsOf, u);
      var rest := Report(keys[1..], services, ctorsOf);
      if CountRegistrations(services, u) > 1 && |usedFor| > 0 then [WrongUsage(u.0, u.1, usedFor)] + rest else rest
  }

  /** Every group among `keys` with more than one registration and at
      least one usage is reported. */
  lemma {:induction false} ReportCovers(keys: seq<Usage>, services: seq<ServiceDescriptor>, ctorsOf: Ty -> seq<Ctor>, u: Usage)
    requires u in keys && CountRegistrations(services, u) > 1 && |UsedFor(services, ctorsOf, u)| > 0
    ensures exists w :: w in Report(keys, services, ctorsOf) && (w.serviceType, w.key) == u
    decreases |keys|
  {
    if keys[0] == u {
      assert Report(keys, services, ctorsOf)[0] == WrongUsage(u.0, u.1, UsedFor(services, ctorsOf, u));
    } else {
      assert u in keys[1..];
      ReportCovers(keys[1..], services, ctorsOf, u);
      var w :| w in Report(keys[1..], services, ctorsOf) && (w.serviceType, w.key) == u;
      assert w in Report(keys, services, ctorsOf);
    }
  }

  /** `GetWrongMultiUsage`. */
  function GetWrongMultiUsage(services: seq<ServiceDescriptor>, ctorsOf: Ty -> seq<Ctor>): seq<WrongUsage> {
    Report(Groups(services), services, ctorsOf)
  }

  // ---------------------------------------------------------------------------
  // Validate

  /** The pairs left after dropping the excepted service types. */
  function Filter(pairs: seq<WrongUsage>, exceptServices: seq<Ty>): (r: seq<WrongUsage>)
    ensures forall i :: 0 <= i < |r| ==> r[i] in pairs && r[i].serviceType !in exceptServices
    ensures forall i :: 0 <= i < |pairs| && pairs[i].serviceType !in exceptServices ==> pairs[i] in r
    decreases |pairs|
  {
    if |pairs| == 0 then []
    else
      var rest := Filter(pairs[1..], exceptServices);
      assert forall i :: 1 <= i < |pairs| ==> pairs[i] == pairs[1..][i - 1];
      if pairs[0].serviceType in exceptServices then rest else [pairs[0]] + rest
  }

  /** The words every error carries. */
  const RegisteredManyTimes: string := "has been registered many times"

  /** An interpolated nullable value: empty for null. */
  function Interpolate(s: Option<string>): string {
    if s.None? then "" else s.value
  }

  /** A consumer as the error lists it: its `ImplementationType`, which is
      null, and so empty, for a keyed registration. */
  function ConsumerName(typeName: Ty -> string, sd: ServiceDescriptor): string {
    Interpolate(if ImplementationType(sd).None? then None else Some(typeName(ImplementationType(sd).value)))
  }

  /** The error for one reported pair. `typeName` is `Type.ToString`. It
      names the service type, and then lists every consumer: a non-keyed
      consumer by its implementation type. */
  function ErrorMessage(typeName: Ty -> string, pair: WrongUsage): (r: string)
    ensures OccursAt(r, typeName(pair.serviceType), |ServicePrefix|)
    ensures exists i :: OccursAt(r, RegisteredManyTimes, i)
    ensures forall sd :: sd in pair.usedFor && !IsKeyed(sd) && sd.implementation.Some? ==>
      exists i :: OccursAt(r, typeName(sd.implementation.value), i)
  {
    var keyedParts := if pair.key.NoKey? then "" else " (ServiceKey: " + Interpolate(pair.key.key) + ")";
    var consumers := Join(", ", ConsumerNames(typeName, pair.usedFor));
    MessageTextParts(typeName(pair.serviceType), keyedParts, consumers);
    ConsumersListed(typeName, pair.usedFor, MessageText(typeName(pair.serviceType), keyedParts, consumers), consumers);
    MessageText(typeName(pair.serviceType), keyedParts, consumers)
  }

  const ServicePrefix: string := "The service "
  const UsedInConstructors: string := ". There are services that use it in the constructor in a single instance: "

  /** The error's text around its three variable parts. */
  function MessageText(service: string, keyedParts: string, consumers: string): string {
    ServicePrefix + service + keyedParts + " " + RegisteredManyTimes + UsedInConstructors + consumers
  }

  /** The consumers as the error lists them, in order. */
  function ConsumerNames(typeName: Ty -> string, usedFor: seq<ServiceDescriptor>): (r: seq<string>)
    ensures |r| == |usedFor| && forall k :: 0 <= k < |usedFor| ==> r[k] == ConsumerName(typeName, usedFor[k])
  {
    seq(|usedFor|, k requires 0 <= k < |usedFor| => ConsumerName(typeName, usedFor[k]))
  }

  /** Where the service type, the fixed words and the consumer list sit. */
  lemma MessageTextParts(service: string, keyedParts: string, consumers: string)
    ensures var m := MessageText(service, keyedParts, consumers);
      OccursAt(m, service, |ServicePrefix|) &&
      OccursAt(m, RegisteredManyTimes, |ServicePrefix| + |service| + |keyedParts| + 1) &&
      |m| >= |consumers| && m[|m| - |consumers|..] == consumers
  {
    MessageShape(ServicePrefix, service, keyedParts, RegisteredManyTimes, UsedInConstructors, consumers);
  }

  /** The same positions for any text of that shape. */
  lemma MessageShape(p: string, s: string, k: string, w: string, u: string, c: string)
    ensures var m := p + s + k + " " + w + u + c;
      OccursAt(m, s, |p|) && OccursAt(m, w, |p| + |s| + |k| + 1) &&
      |m| >= |c| && m[|m| - |c|..] == c
  {
    var m := p + s + k + " " + w + u + c;
    assert m[|p|..|p| + |s|] == s;
    var x := p + s + k + " ";
    assert m == x + w + u + c;
    assert m[|x|..|x| + |w|] == w;
    assert m[|m| - |c|..] == c;
  }

  /** Every non-keyed consumer's implementation type occurs in a text that
      ends with the consumer list. */
  lemma ConsumersListed(typeName: Ty -> string, usedFor: seq<ServiceDescriptor>, m: string, consumers: string)
    requires consumers == Join(", ", ConsumerNames(typeName, usedFor))
    requires |m| >= |consumers| && m[|m| - |consumers|..] == consumers
    ensures forall sd :: sd in usedFor && !IsKeyed(sd) && sd.implementation.Some? ==>
      exists i :: OccursAt(m, typeName(sd.implementation.value), i)
  {
    var names := ConsumerNames(typeName, usedFor);
    assert m == m[..|m| - |consumers|] + consumers;
    forall sd | sd in usedFor && !IsKeyed(sd) && sd.implementation.Some?
      ensures exists i :: OccursAt(m, typeName(sd.implementation.value), i)
    {
      var k :| 0 <= k < |usedFor| && usedFor[k] == sd;
      assert names[k] == typeName(sd.implementation.value);
      var i := JoinHasPart(", ", names, k);
      ShiftOccurs(m[..|m| - |consumers|], consumers, names[k], i);
    }
  }

  /** `Validate(services, options)` of a validator with the given excepted
      service types: one error per reported pair that is not excepted. */
  function Validate(exceptServices: seq<Ty>, typeName: Ty -> string, services: seq<ServiceDescriptor>, ctorsOf: Ty -> seq<Ctor>): (r: ValidationResult)
    ensures var reported := Filter(GetWrongMultiUsage(services, ctorsOf), exceptServices);
      |r.errors| == |reported| && forall i :: 0 <= i < |reported| ==> r.errors[i] == ErrorMessage(typeName, reported[i])
  {
    var reported := Filter(GetWrongMultiUsage(services, ctorsOf), exceptServices);
    ValidationResult(seq(|reported|, i requires 0 <= i < |reported| => ErrorMessage(typeName, reported[i])))
  }

  /** The parameterless constructor excepts nothing. */
  const DefaultExceptServices: seq<Ty> := []

  /** What makes a `(service type, key)` pair an error: it is registered
      more than once, some constructor takes it as a single instance, and
      its service type is not excepted. */
  predicate Reportable(exceptServices: seq<Ty>, services: seq<ServiceDescriptor>, ctorsOf: Ty -> seq<Ctor>, u: Usage) {
    CountRegistrations(services, u) > 1 &&
    (exists j :: 0 <= j < |services| && UsesBy(services[j], ctorsOf, u) > 0) &&
    u.0 !in exceptServices
  }

  /** A `(service type, key)` pair is reported exactly when it is registered
      more than once, some constructor takes it as a single instance, and
      its service type is not excepted. */
  lemma ReportedIff(exceptServices: seq<Ty>, services: seq<ServiceDescriptor>, ctorsOf: Ty -> seq<Ctor>, u: Usage)
    ensures var reported := Filter(GetWrongMultiUsage(services, ctorsOf), exceptServices);
      (exists w :: w in reported && (w.serviceType, w.key) == u) <==> Reportable(exceptServices, services, ctorsOf, u)
  {
    var pairs := GetWrongMultiUsage(services, ctorsOf);
    var reported := Filter(pairs, exceptServices);
    UsedForNonEmpty(services, ctorsOf, u);
    if CountRegistrations(services, u) > 1 && |UsedFor(services, ctorsOf, u)| > 0 && u.0 !in exceptServices {
      CountedIsRegistered(services, u);
      assert u in Groups(services);
      ReportCovers(Groups(services), services, ctorsOf, u);
      var w :| w in pairs && (w.serviceType, w.key) == u;
      FilterKeeps(pairs, exceptServices, w);
    }
    if exists w :: w in reported && (w.serviceType, w.key) == u {
      var w :| w in reported && (w.serviceType, w.key) == u;
      FilterOnlyKeeps(pairs, exceptServices, w);
    }
  }

  lemma FilterKeeps(pairs: seq<WrongUsage>, exceptServices: seq<Ty>, w: WrongUsage)
    requires w in pairs && w.serviceType !in exceptServices
    ensures w in Filter(pairs, exceptServices)
  {
    var i :| 0 <= i < |pairs| && pairs[i] == w;
  }

  lemma FilterOnlyKeeps(pairs: seq<WrongUsage>, exceptServices: seq<Ty>, w: WrongUsage)
    requires w in Filter(pairs, exceptServices)
    ensures w in pairs && w.serviceType !in exceptServices
  {
    var r := Filter(pairs, exceptServices);
    var i :| 0 <= i < |r| && r[i] == w;
  }

  /** A pair counted more than zero times is a registration group. */
  lemma {:induction false} CountedIsRegistered(services: seq<ServiceDescriptor>, u: Usage)
    requires CountRegistrations(services, u) > 0
    ensures exists i :: 0 <= i < |services| && Registration(services[i]) == u
    decreases |services|
  {
    if Registration(services[0]) != u {
      CountedIsRegistered(services[1..], u);
      var i :| 0 <= i < |services[1..]| && Registration(services[1..][i]) == u;
      assert services[i + 1] == services[1..][i];
    }
  }

  /** The validator succeeds exactly when nothing is reported. */
  lemma SucceedsIffNothingReported(exceptServices: seq<Ty>, typeName: Ty -> string, services: seq<ServiceDescriptor>, ctorsOf: Ty -> seq<Ctor>)
    ensures IsSuccess(Validate(exceptServices, typeName, services, ctorsOf)) <==>
      forall u: Usage :: !Reportable(exceptServices, services, ctorsOf, u)
  {
    var reported := Filter(GetWrongMultiUsage(services, ctorsOf), exceptServices);
    if |reported| > 0 {
      var u := (reported[0].serviceType, reported[0].key);
      assert reported[0] in reported;
      ReportedIff(exceptServices, services, ctorsOf, u);
    } else {
      forall u: Usage
        ensures !Reportable(exceptServices, services, ctorsOf, u)
      {
        ReportedIff(exceptServices, services, ctorsOf, u);
      }
    }
  }
}
