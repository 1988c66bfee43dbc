/**
 * src/llm/provider_manager.py: the registry of LLM providers, its default provider, the fallback
 * to the first available provider, and the health summary.
 * A provider's availability check (which may also raise), whether its model information call
 * raises, and whether the Gemini client starts are parameters; the providers' own generation and
 * the content of their model information are outside this model.
 */
module Providers {
  import opened Wrappers
  import opened Collections
  import opened Strings

  /** A provider object: which client it is and the model it talks to. */
  datatype Provider = Provider(kind: string, model: string)

  /** What register_provider is handed: a provider, or some object that is not one. */
  datatype Candidate = Llm(provider: Provider) | NotAProvider

  /** The outcome of provider.is_available(): true, false, or an exception. */
  datatype Availability = Available | Unavailable | CheckRaises

  datatype ProviderError =
    | NotAnLlmProvider                // ValueError from register_provider
    | NoDefaultProvider              // no name given and no (non-empty) default
    | UnregisteredProvider(name: string)
    | AvailabilityCheckFailed(name: string)
    | NoProviderAvailable

  datatype HealthStatus = Healthy | Degraded | Unhealthy

  /**
   * One provider's entry in health_check: whether it is reported available, and whether the entry
   * carries an error (its check raised, or its model information raised after it answered available).
   */
  datatype ProviderHealth = ProviderHealth(available: bool, errored: bool)

  datatype Health = Health(defaultProvider: Option<string>, providers: map<string, ProviderHealth>,
                           overallStatus: HealthStatus, availableCount: nat, totalCount: nat)

  /** One provider's entry in list_providers. */
  datatype ProviderInfo = ProviderInfo(registered: bool, available: bool, errored: bool)

  /** The number of names whose provider answers available. */
  function CountAvailable(names: seq<string>, avail: string -> Availability): (n: nat)
    ensures n <= |names|
    decreases |names|
  {
    if names == [] then 0
    else CountAvailable(names[..|names| - 1], avail) + (if avail(names[|names| - 1]) == Available then 1 else 0)
  }

  /** None is counted exactly when no name answers available, all exactly when every name does. */
  lemma {:induction false} CountAvailableExtremes(names: seq<string>, avail: string -> Availability)
    ensures CountAvailable(names, avail) == 0 <==> forall i :: 0 <= i < |names| ==> avail(names[i]) != Available
    ensures CountAvailable(names, avail) == |names| <==> forall i :: 0 <= i < |names| ==> avail(names[i]) == Available
    decreases |names|
  {
    if names != [] {
      var init := names[..|names| - 1];
      CountAvailableExtremes(init, avail);
      assert forall i :: 0 <= i < |init| ==> init[i] == names[i];
    }
  }

  /** health_check's verdict for `available` of `total` providers answering available. */
  function Status(available: nat, total: nat): (s: HealthStatus)
    requires available <= total
    ensures s == Unhealthy <==> available == 0
    ensures s == Degraded <==> 0 < available < total
    ensures s == Healthy <==> 0 < available == total
  {
    if available == 0 then Unhealthy else if available < total then Degraded else Healthy
  }

  /** LLM_PROVIDER names Gemini, its API key is set and non-empty, and its client starts. */
  predicate GeminiStarts(llmProvider: string, geminiApiKey: Option<string>, geminiClientOk: bool)
  {
    Lower(llmProvider) == "gemini" && geminiApiKey.Some? && geminiApiKey.value != "" && geminiClientOk
  }

  class ProviderManager {
    var providers: map<string, Provider>
    /** The registry's names in insertion order (re-registering a name keeps its place). */
    var order: seq<string>
    var defaultProvider: Option<string>

    ghost predicate Valid()
      reads this
    {
      Distinct(order) && forall n :: n in providers <==> n in order
    }

    /**
     * __init__ with _register_default_providers: LLM_PROVIDER (lower-cased, "ollama" when unset) selects
     * Gemini, which needs a non-empty API key and a client that starts (geminiClientOk); anything else,
     * or a Gemini provider whose construction raises, falls back to Ollama, whose construction has no
     * failing step. Either way exactly one provider is registered and it is the default.
     */
    constructor(llmProvider: string, geminiApiKey: Option<string>, geminiClientOk: bool, geminiModel: string, ollamaModel: string)
      ensures Valid()
      ensures GeminiStarts(llmProvider, geminiApiKey, geminiClientOk) ==>
        providers == map["gemini" := Provider("gemini", geminiModel)] && order == ["gemini"]
        && defaultProvider == Some("gemini")
      ensures !GeminiStarts(llmProvider, geminiApiKey, geminiClientOk) ==>
        providers == map["ollama" := Provider("ollama", ollamaModel)] && order == ["ollama"]
        && defaultProvider == Some("ollama")
    {
      if GeminiStarts(llmProvider, geminiApiKey, geminiClientOk) {
        providers := map["gemini" := Provider("gemini", geminiModel)];
        order := ["gemini"];
        defaultProvider := Some("gemini");
      } else {
        providers := map["ollama" := Provider("ollama", ollamaModel)];
        order := ["ollama"];
        defaultProvider := Some("ollama");
      }
    }

    /** register_provider: a provider is filed under its name, replacing an earlier one; anything else is refused. */
    method RegisterProvider(name: string, c: Candidate) returns (r: Result<(), ProviderError>)
      requires Valid()
      modifies this
      ensures Valid()
      ensures c == NotAProvider ==> r == Err(NotAnLlmProvider) && providers == old(providers) && order == old(order)
      ensures c.Llm? ==> r.Ok? && providers == old(providers)[name := c.provider]
      ensures c.Llm? ==> order == if name in old(providers) then old(order) else old(order) + [name]
      ensures defaultProvider == old(defaultProvider)
    {
      if c == NotAProvider {
        return Err(NotAnLlmProvider);
      }
      if name !in providers {
        DistinctAppend(order, [name]);
        order := order + [name];
      }
      providers := providers[name := c.provider];
      r := Ok(());
    }

    /** set_default_provider: only a registered name can become the default. */
    method SetDefaultProvider(name: string) returns (r: Result<(), ProviderError>)
      modifies this
      ensures name !in providers ==> r == Err(UnregisteredProvider(name)) && defaultProvider == old(defaultProvider)
      ensures name in providers ==> r.Ok? && defaultProvider == Some(name)
      ensures providers == old(providers) && order == old(order)
    {
      if name !in providers {
        return Err(UnregisteredProvider(name));
      }
      defaultProvider := Some(name);
      r := Ok(());
    }

    /** get_default_provider_name */
    function GetDefaultProviderName(): (r: Option<string>)
      reads this
      ensures r == defaultProvider
    {
      defaultProvider
    }

    /**
     * _find_available_provider: the first name in insertion order whose provider answers available;
     * a check that raises counts as not available.
     */
    method FindAvailableProvider(avail: string -> Availability) returns (r: Option<string>)
      requires Valid()
      ensures r.Some? ==> r.value in providers && avail(r.value) == Available
      ensures r.Some? ==> exists k :: FirstAvailableAt(order, avail, k) && order[k] == r.value
      ensures r.None? ==> forall j :: 0 <= j < |order| ==> avail(order[j]) != Available
    {
      var i := 0;
      while i < |order|
        invariant 0 <= i <= |order|
        invariant forall j :: 0 <= j < i ==> avail(order[j]) != Available
      {
        if avail(order[i]) == Available {
          assert FirstAvailableAt(order, avail, i);
          return Some(order[i]);
        }
        i := i + 1;
      }
      return None;
    }

    /**
     * get_provider: no name means the default; an empty or missing name, or an unregistered one, is an
     * error. A provider that answers available is returned; one that does not is replaced by the first
     * available provider in insertion order, unless there is none or its name is the empty string,
     * which `if available_provider:` takes as none. The chosen provider's own check is not guarded,
     * so its exception surfaces.
     */
    method GetProvider(name: Option<string>, avail: string -> Availability) returns (r: Result<Provider, ProviderError>)
      requires Valid()
      ensures var n := if name.None? then defaultProvider else name;
        && (n.None? || n.value == "" ==> r == Err(NoDefaultProvider))
        && (n.Some? && n.value != "" && n.value !in providers ==> r == Err(UnregisteredProvider(n.value)))
        && (n.Some? && n.value in providers && n.value != "" && avail(n.value) == CheckRaises ==>
              r == Err(AvailabilityCheckFailed(n.value)))
        && (n.Some? && n.value in providers && n.value != "" && avail(n.value) == Available ==>
              r == Ok(providers[n.value]))
        && (n.Some? && n.value in providers && n.value != "" && avail(n.value) == Unavailable ==>
              (r.Ok? <==> exists k :: FirstAvailableAt(order, avail, k) && order[k] != "")
              && (r.Err? ==> r.error == NoProviderAvailable))
        && (n.Some? && n.value in providers && n.value != "" && avail(n.value) == Unavailable && r.Ok? ==>
              exists k :: FirstAvailableAt(order, avail, k) && order[k] != "" && r.value == providers[order[k]])
      ensures r.Ok? ==> exists p :: p in providers && providers[p] == r.value && avail(p) == Available
      ensures r.Err? ==> r.error != NotAnLlmProvider
    {
      var n := if name.None? then defaultProvider else name;
      if n.None? || n.value == "" {
        return Err(NoDefaultProvider);
      }
      if n.value !in providers {
        return Err(UnregisteredProvider(n.value));
      }
      var a := avail(n.value);
      if a == CheckRaises {
        return Err(AvailabilityCheckFailed(n.value));
      }
      if a == Available {
        return Ok(providers[n.value]);
      }
      var other := FindAvailableProvider(avail);
      if other.Some? && other.value != "" {
        return Ok(providers[other.value]);
      }
      if other.Some? {
        forall k | FirstAvailableAt(order, avail, k) ensures order[k] == "" {
          FirstAvailableUnique(order, avail, k, other.value);
        }
      }
      return Err(NoProviderAvailable);
    }

    /**
     * list_providers: one entry per registered name, each marked registered. The model information
     * is asked for first (infoOk says whether it returns) and then the availability; either raising
     * gives an error entry marked not available.
     */
    method ListProviders(avail: string -> Availability, infoOk: string -> bool) returns (r: map<string, ProviderInfo>)
      requires Valid()
      ensures r.Keys == providers.Keys
      ensures forall n :: n in r ==> r[n].registered
      ensures forall n :: n in r ==> (r[n].available <==> infoOk(n) && avail(n) == Available)
      ensures forall n :: n in r ==> (r[n].errored <==> !infoOk(n) || avail(n) == CheckRaises)
    {
      r := map[];
      for i := 0 to |order|
        invariant r.Keys == set j | 0 <= j < i :: order[j]
        invariant forall n :: n in r ==> r[n] == Info(infoOk(n), avail(n))
      {
        r := r[order[i] := Info(infoOk(order[i]), avail(order[i]))];
      }
    }

    /**
     * health_check: every registered provider's answer, the count that answered available out of all
     * registered, and the verdict: unhealthy with none available (an empty registry included), degraded
     * with some, healthy with all. The count is raised before the model information of an available
     * provider is asked for, so a provider whose model information raises is counted while its entry
     * reports an error and not available.
     */
    method HealthCheck(avail: string -> Availability, infoOk: string -> bool) returns (h: Health)
      requires Valid()
      ensures h.defaultProvider == defaultProvider
      ensures h.totalCount == |providers|
      ensures h.availableCount == CountAvailable(order, avail) && h.availableCount <= h.totalCount
      ensures h.overallStatus == Status(h.availableCount, h.totalCount)
      ensures h.providers.Keys == providers.Keys
      ensures forall n :: n in h.providers ==> h.providers[n] == HealthEntry(avail(n), infoOk(n))
    {
      var count := 0;
      var entries: map<string, ProviderHealth> := map[];
      for i := 0 to |order|
        invariant count == CountAvailable(order[..i], avail)
        invariant forall j :: 0 <= j < i ==> order[j] in entries
        invariant forall n :: n in entries ==> n in order[..i]
        invariant forall n :: n in entries ==> entries[n] == HealthEntry(avail(n), infoOk(n))
      {
        assert order[..i + 1][..i] == order[..i];
        var a := avail(order[i]);
        if a == Available {
          count := count + 1;
        }
        entries := entries[order[i] := HealthEntry(a, infoOk(order[i]))];
      }
      assert order[..|order|] == order;
      assert entries.Keys == providers.Keys;
      RegistrySize(providers, order);
      h := Health(defaultProvider, entries, Status(count, |providers|), count, |providers|);
    }
  }

  /** Position k holds the first name in the order whose provider answers available. */
  ghost predicate FirstAvailableAt(order: seq<string>, avail: string -> Availability, k: int)
  {
    0 <= k < |order| && avail(order[k]) == Available && forall j :: 0 <= j < k ==> avail(order[j]) != Available
  }

  /** There is one first available position, so the name found there is the name at any such position. */
  lemma FirstAvailableUnique(order: seq<string>, avail: string -> Availability, k: int, found: string)
    requires FirstAvailableAt(order, avail, k)
    requires exists k' :: FirstAvailableAt(order, avail, k') && order[k'] == found
    ensures order[k] == found
  {
    var k' :| FirstAvailableAt(order, avail, k') && order[k'] == found;
    assert k == k';
  }

  /** A registry listed without repeats by its insertion order has as many entries as the order has names. */
  lemma RegistrySize(m: map<string, Provider>, order: seq<string>)
    requires Distinct(order) && forall n :: n in m <==> n in order
    ensures |m| == |order|
  {
    DistinctCard(order);
    assert m.Keys == set x | x in order;
  }

  /** One provider's list_providers entry for its model information and availability answers. */
  function Info(infoOk: bool, a: Availability): ProviderInfo
  {
    if !infoOk || a == CheckRaises then ProviderInfo(true, false, true) else ProviderInfo(true, a == Available, false)
  }

  /** One provider's health_check entry. */
  function HealthEntry(a: Availability, infoOk: bool): ProviderHealth
  {
    if a == CheckRaises then ProviderHealth(false, true)
    else if a == Available && !infoOk then ProviderHealth(false, true)
    else ProviderHealth(a == Available, false)
  }
}
