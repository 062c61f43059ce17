/** `ServiceProxyTypeRedirector`: maps a requested service type to the type
    a proxy should be built from, using a table of redirects given once, with
    a fallback from a constructed generic type to a redirect of its generic
    definition, and a memo of every answer given. */
module ServiceProxyRedirects {
  import opened Base
  import opened Types

  /** A `ServiceProxyTypeRedirectInfo(From, To)` record. */
  datatype RedirectInfo = RedirectInfo(from: Ty, to: Ty)

  /** No two redirects share a `From` type. */
  predicate DistinctFroms(infos: seq<RedirectInfo>) {
    forall i, j :: 0 <= i < j < |infos| ==> infos[i].from != infos[j].from
  }

  /** `infoList.ToDictionary(info => info.From, info => info.To)`: the
      redirects added in order; a second redirect for the same `From` throws
      `ArgumentException`. */
  function BaseCache(infos: seq<RedirectInfo>): (r: Result<map<Ty, Ty>>)
    ensures r.Ok? <==> DistinctFroms(infos)
    ensures r.Throw? ==> r.error.ArgumentError?
    ensures r.Ok? ==> r.value.Keys == set i | 0 <= i < |infos| :: infos[i].from
    ensures r.Ok? ==> forall i :: 0 <= i < |infos| ==> r.value[infos[i].from] == infos[i].to
    decreases |infos|
  {
    if |infos| == 0 then Ok(map[])
    else
      var init, last := infos[..|infos| - 1], infos[|infos| - 1];
      var m :- BaseCache(init);
      FromsOfInit(infos);
      if last.from in m then
        Throw(DuplicateKey)
      else
        Ok(m[last.from := last.to])
  }

  /** The `From` types of all redirects are those of all but the last, and
      the last one's; the redirects are distinct exactly when those before
      the last are and the last one's `From` is new. */
  lemma FromsOfInit(infos: seq<RedirectInfo>)
    requires |infos| > 0
    ensures var init, last := infos[..|infos| - 1], infos[|infos| - 1];
      (forall i :: 0 <= i < |init| ==> init[i] == infos[i]) &&
      (set i | 0 <= i < |infos| :: infos[i].from) == (set i | 0 <= i < |init| :: init[i].from) + {last.from} &&
      (DistinctFroms(infos) <==> DistinctFroms(init) && last.from !in (set i | 0 <= i < |init| :: init[i].from))
  {
    var init, last := infos[..|infos| - 1], infos[|infos| - 1];
    assert forall i :: 0 <= i < |init| ==> init[i] == infos[i];
    assert (set i | 0 <= i < |infos| :: infos[i].from) == (set i | 0 <= i < |init| :: init[i].from) + {last.from};
    if DistinctFroms(init) && last.from !in (set i | 0 <= i < |init| :: init[i].from) {
      forall i, j | 0 <= i < j < |infos|
        ensures infos[i].from != infos[j].from
      {
        if j == |infos| - 1 {
          assert infos[i].from in (set i | 0 <= i < |init| :: init[i].from);
        }
      }
    }
  }

  /** A redirector: its table of redirects (`baseCache`) and the answers
      memoised so far (`cache`, where `None` is a memoised null). */
  datatype Redirector = Redirector(baseCache: map<Ty, Ty>, cache: map<Ty, Option<Ty>>)

  /** The constructor: the table from the redirects, and an empty memo. */
  function Create(infos: seq<RedirectInfo>): (r: Result<Redirector>)
    ensures r.Ok? <==> DistinctFroms(infos)
    ensures r.Ok? ==> r.value.cache == map[] && r.value.baseCache.Keys == set i | 0 <= i < |infos| :: infos[i].from
    ensures r.Ok? ==> forall i :: 0 <= i < |infos| ==> infos[i].from in r.value.baseCache && r.value.baseCache[infos[i].from] == infos[i].to
  {
    var table :- BaseCache(infos);
    Ok(Redirector(table, map[]))
  }

  /** The value factory passed to `GetOrAdd`: the direct redirect of the
      type; failing that, for a generic type, the redirect of its generic
      definition instantiated with the type's arguments (which throws when
      the target is not a generic definition of that arity); otherwise
      null. */
  function Compute(baseCache: map<Ty, Ty>, t: Ty): (r: Result<Option<Ty>>)
    ensures t in baseCache ==> r == Ok(Some(baseCache[t]))
    ensures t.Simple? && t !in baseCache ==> r == Ok(None)
  {
    var directResult := if t in baseCache then Some(baseCache[t]) else None;
    if directResult.None? && IsGenericType(t) then
      var definition := GetGenericTypeDefinition(t).value;
      if definition in baseCache then
        var made :- MakeGenericType(baseCache[definition], GetGenericArguments(t));
        Ok(Some(made))
      else Ok(directResult)
    else Ok(directResult)
  }

  /** `TryRedirect(type)`: the memoised answer when there is one; otherwise
      the computed answer, memoised. A factory that throws memoises
      nothing. */
  function TryRedirect(r: Redirector, t: Ty): (res: (Result<Option<Ty>>, Redirector))
    ensures res.1.baseCache == r.baseCache
    ensures t in r.cache ==> res == (Ok(r.cache[t]), r)
    ensures res.0.Ok? ==> res.1.cache == r.cache[t := res.0.value]
    ensures res.0.Throw? ==> res.1 == r
  {
    if t in r.cache then (Ok(r.cache[t]), r)
    else
      match Compute(r.baseCache, t)
      case Ok(v) => (Ok(v), r.(cache := r.cache[t := v]))
      case Throw(e) => (Throw(e), r)
  }

  // ---------------------------------------------------------------------------
  // Properties

  /** Every memoised answer is the one the table gives. */
  ghost predicate Coherent(r: Redirector) {
    forall t :: t in r.cache ==> Compute(r.baseCache, t) == Ok(r.cache[t])
  }

  /** A freshly built redirector is coherent. */
  lemma CreateCoherent(infos: seq<RedirectInfo>)
    requires Create(infos).Ok?
    ensures Coherent(Create(infos).value)
  {
  }

  /** On a coherent redirector the memo is invisible: every call answers as
      the table does, and the redirector stays coherent. */
  lemma TryRedirectAnswersFromTable(r: Redirector, t: Ty)
    requires Coherent(r)
    ensures TryRedirect(r, t).0 == Compute(r.baseCache, t)
    ensures Coherent(TryRedirect(r, t).1)
  {
  }

  /** Asking twice gives the same answer, and the second call changes
      nothing. */
  lemma TryRedirectIsStable(r: Redirector, t: Ty)
    requires TryRedirect(r, t).0.Ok?
    ensures var (res1, r1) := TryRedirect(r, t);
      TryRedirect(r1, t) == (res1, r1)
  {
  }

  /** A direct redirect wins over one for the generic definition. */
  lemma DirectWins(baseCache: map<Ty, Ty>, t: Ty)
    requires t in baseCache && t.Constructed? && GenericDefinition(t.definition, |t.args|) in baseCache
    ensures Compute(baseCache, t) == Ok(Some(baseCache[t]))
  {
  }

  /** A constructed type with no direct redirect, whose generic definition is
      redirected to a definition of the same arity, maps to that definition
      constructed with the same arguments. */
  lemma GenericFallback(baseCache: map<Ty, Ty>, t: Ty)
    requires t.Constructed? && t !in baseCache
    requires var definition := GenericDefinition(t.definition, |t.args|);
      definition in baseCache && baseCache[definition].GenericDefinition? && baseCache[definition].arity == |t.args|
    ensures Compute(baseCache, t) == Ok(Some(Constructed(baseCache[GenericDefinition(t.definition, |t.args|)].name, t.args)))
  {
  }

  /** The answer is null exactly when neither the type nor, for a
      constructed type, its generic definition has a redirect. */
  lemma NullIff(baseCache: map<Ty, Ty>, t: Ty)
    ensures Compute(baseCache, t) == Ok(None) <==>
      t !in baseCache && !(t.Constructed? && GenericDefinition(t.definition, |t.args|) in baseCache)
  {
  }

  /** The factory throws exactly when the generic fallback is taken and its
      target is not a generic definition of the type's arity. */
  lemma ThrowsIff(baseCache: map<Ty, Ty>, t: Ty)
    ensures Compute(baseCache, t).Throw? <==>
      t !in baseCache && t.Constructed? && GenericDefinition(t.definition, |t.args|) in baseCache &&
      !(baseCache[GenericDefinition(t.definition, |t.args|)].GenericDefinition? &&
        baseCache[GenericDefinition(t.definition, |t.args|)].arity == |t.args|)
  {
  }

  // ---------------------------------------------------------------------------
  // Worked example

  const OriginalServiceDef: Ty := GenericDefinition("OriginalService`1", 1)
  const ServiceDef: Ty := GenericDefinition("Service`1", 1)

  /** `AddRedirect(typeof(OriginalService<>), typeof(Service<>))`, then a
      request for `OriginalService<int>`: the answer is `Service<int>`, and a
      duplicate redirect for the same definition is rejected. */
  lemma OpenGenericRedirect()
    ensures Create([RedirectInfo(OriginalServiceDef, ServiceDef)]).Ok?
    ensures TryRedirect(Create([RedirectInfo(OriginalServiceDef, ServiceDef)]).value, Constructed("OriginalService`1", [IntType])).0 ==
      Ok(Some(Constructed("Service`1", [IntType])))
    ensures Create([RedirectInfo(OriginalServiceDef, ServiceDef), RedirectInfo(OriginalServiceDef, OriginalServiceDef)]).Throw?
  {
    var infos := [RedirectInfo(OriginalServiceDef, ServiceDef)];
    var r := Create(infos).value;
    assert r.baseCache[OriginalServiceDef] == ServiceDef;
    GenericFallback(r.baseCache, Constructed("OriginalService`1", [IntType]));
    var twice := [RedirectInfo(OriginalServiceDef, ServiceDef), RedirectInfo(OriginalServiceDef, OriginalServiceDef)];
    assert twice[0].from == twice[1].from;
  }
}
