/** Chains of configurations (ConfigurationChain.java): each chaining step asks
    the chain built so far whether it is set and keeps it if so, or falls back
    to the new source otherwise. The question is asked once, when the step is
    taken, in the environment of that moment. */
module ConfigurationChains {
  import opened Results
  import opened Configurations

  /** A `ConfigurationChain` object: a chain wrapping the configuration it delegates to. */
  type ConfigurationChain = c: Configuration | c.Chain? witness Chain(NotSupplied)

  /** `isSet()`, `get()` and `or(...)` of a chain answer what the wrapped configuration answers. */
  lemma ChainDelegates(c: Configuration, d: Configuration, e: Environment)
    ensures IsSet(Chain(c), e) == IsSet(c, e)
    ensures Get(Chain(c), e) == Get(c, e)
    ensures Or(Chain(c), d, e) == Or(c, d, e)
  {
  }

  /** `Configuration.configuration()`: an empty chain, never set and reading as "". */
  function Start(): (r: ConfigurationChain)
    ensures Unwrap(r) == NotSupplied
    ensures forall e :: !IsSet(r, e) && Get(r, e) == Some("")
  {
    Chain(NotSupplied)
  }

  /** The step every chaining method takes: the chain so far if it is set in
      `e`, the new source otherwise; from then on the new chain answers as the
      chosen one in every environment. */
  function Then(chain: ConfigurationChain, source: Configuration, e: Environment): (r: ConfigurationChain)
    ensures Unwrap(r) == if IsSet(chain, e) then Unwrap(chain) else Unwrap(source)
    ensures forall later :: IsSet(r, later) == if IsSet(chain, e) then IsSet(chain, later) else IsSet(source, later)
    ensures forall later :: Get(r, later) == if IsSet(chain, e) then Get(chain, later) else Get(source, later)
  {
    Chain(Or(chain.configuration, source, e))
  }

  /** `env(name)` */
  function Env(chain: ConfigurationChain, name: string, e: Environment): (r: ConfigurationChain)
    ensures Unwrap(r) == if IsSet(chain, e) then Unwrap(chain) else FromEnvironment(name)
    ensures IsSet(r, e) <==> IsSet(chain, e) || name in e.variables
  {
    Then(chain, Configurations.Env(name), e)
  }

  /** `file(location)` */
  function File(chain: ConfigurationChain, location: string, e: Environment): (r: ConfigurationChain)
    ensures Unwrap(r) == if IsSet(chain, e) then Unwrap(chain) else FromFile(location)
    ensures IsSet(r, e) <==> IsSet(chain, e) || location in e.files
  {
    Then(chain, Configurations.File(location), e)
  }

  /** `resource(location)` */
  function Resource(chain: ConfigurationChain, location: string, e: Environment): (r: ConfigurationChain)
    ensures Unwrap(r) == if IsSet(chain, e) then Unwrap(chain) else FromResource(location)
    ensures IsSet(r, e) <==> IsSet(chain, e) || location in e.resources
  {
    Then(chain, Configurations.Resource(location), e)
  }

  /** `property(name)` */
  function Property(chain: ConfigurationChain, name: string, e: Environment): (r: ConfigurationChain)
    ensures Unwrap(r) == if IsSet(chain, e) then Unwrap(chain) else FromProperty(name)
    ensures IsSet(r, e) <==> IsSet(chain, e) || name in e.properties
  {
    Then(chain, Configurations.Property(name), e)
  }

  /** `url(location)`: the URL configuration is made before the chain is
      asked anything, so a malformed location throws even when the chain is
      already set; otherwise the chain is set when built. */
  function Url(chain: ConfigurationChain, location: string, urls: UrlForms, e: Environment): (r: Outcome<ConfigurationChain>)
    ensures r.Ok? <==> location in urls
    ensures r.Fail? ==> r.fault == MalformedUrl
    ensures r.Ok? ==> Unwrap(r.value) == if IsSet(chain, e) then Unwrap(chain) else FromUrl(urls[location])
    ensures r.Ok? ==> IsSet(r.value, e)
  {
    match Configurations.Url(location, urls)
    case Fail(f) => Fail(f)
    case Ok(source) => Ok(Then(chain, source, e))
  }

  /** A malformed location breaks the chain even behind a source that is set. */
  lemma MalformedUrlBreaksSetChain(v: string, location: string, urls: UrlForms, e: Environment)
    requires location !in urls
    ensures IsSet(Value(Start(), v, e), e)
    ensures Url(Value(Start(), v, e), location, urls, e) == Fail(MalformedUrl)
  {
  }

  /** `value(v)`: the chain is set when built; unless an earlier source was
      set at that moment, it is set and reads `v` in every environment. */
  function Value(chain: ConfigurationChain, v: string, e: Environment): (r: ConfigurationChain)
    ensures Unwrap(r) == if IsSet(chain, e) then Unwrap(chain) else RawValue(v)
    ensures IsSet(r, e)
    ensures !IsSet(chain, e) ==> forall later :: IsSet(r, later) && Get(r, later) == Some(v)
  {
    Then(chain, Configurations.Value(v), e)
  }

  /** The chain `configuration().s0().s1()...` with every step taken in `e`. */
  function BuildChain(sources: seq<Configuration>, e: Environment): ConfigurationChain
    decreases |sources|
  {
    if sources == [] then Start()
    else Then(BuildChain(sources[..|sources| - 1], e), sources[|sources| - 1], e)
  }

  /** The index of the first source set in `e`, if any. */
  function FirstSet(sources: seq<Configuration>, e: Environment): (r: Option<nat>)
    ensures r.Some? ==> r.value < |sources| && IsSet(sources[r.value], e)
    ensures r.Some? ==> forall j :: 0 <= j < r.value ==> !IsSet(sources[j], e)
    ensures r.None? <==> forall j :: 0 <= j < |sources| ==> !IsSet(sources[j], e)
    decreases |sources|
  {
    if sources == [] then None
    else
      var n := |sources| - 1;
      match FirstSet(sources[..n], e)
      case Some(i) => Some(i)
      case None => if IsSet(sources[n], e) then Some(n) else None
  }

  /** The source a chain built in `e` delegates to: the first one set in `e`;
      when none is, the last one (or `NOT_SUPPLIED` for no source at all). */
  function Chosen(sources: seq<Configuration>, e: Environment): Configuration {
    match FirstSet(sources, e)
    case Some(i) => Unwrap(sources[i])
    case None => if sources == [] then NotSupplied else Unwrap(sources[|sources| - 1])
  }

  /** A chain built in `e` is set in `e` exactly when one of its sources is. */
  lemma {:induction false} BuildChainIsSet(sources: seq<Configuration>, e: Environment)
    ensures IsSet(BuildChain(sources, e), e) <==> FirstSet(sources, e).Some?
    decreases |sources|
  {
    if sources != [] {
      var n := |sources| - 1;
      BuildChainIsSet(sources[..n], e);
      assert BuildChain(sources, e) == Then(BuildChain(sources[..n], e), sources[n], e);
    }
  }

  /** A chain built in `e` delegates to the chosen source. */
  lemma {:induction false} BuildChainChooses(sources: seq<Configuration>, e: Environment)
    ensures Unwrap(BuildChain(sources, e)) == Chosen(sources, e)
    decreases |sources|
  {
    if sources != [] {
      var n := |sources| - 1;
      var prefix := sources[..n];
      var prev := BuildChain(prefix, e);
      assert BuildChain(sources, e) == Then(prev, sources[n], e);
      BuildChainChooses(prefix, e);
      BuildChainIsSet(prefix, e);
      match FirstSet(prefix, e)
      case Some(i) =>
        assert prefix[i] == sources[i];
      case None =>
    }
  }

  /** The first source in the chain that is set wins, and the chain answers
      as that source from then on, in every environment. */
  lemma FirstSetWins(sources: seq<Configuration>, e: Environment)
    ensures Unwrap(BuildChain(sources, e)) == Chosen(sources, e)
    ensures IsSet(BuildChain(sources, e), e) <==> exists j :: 0 <= j < |sources| && IsSet(sources[j], e)
    ensures forall later :: IsSet(BuildChain(sources, e), later) == IsSet(Chosen(sources, e), later)
    ensures forall later :: Get(BuildChain(sources, e), later) == Get(Chosen(sources, e), later)
  {
    BuildChainIsSet(sources, e);
    BuildChainChooses(sources, e);
  }

  /** A chain whose last step is `value(v)` is set when built; when no earlier
      source was set at that moment, it is set and reads `v` in every environment. */
  lemma ChainEndingInValue(sources: seq<Configuration>, v: string, e: Environment)
    ensures IsSet(BuildChain(sources + [RawValue(v)], e), e)
    ensures FirstSet(sources, e).None? ==>
      forall later :: IsSet(BuildChain(sources + [RawValue(v)], e), later) &&
        Get(BuildChain(sources + [RawValue(v)], e), later) == Some(v)
  {
    var all := sources + [RawValue(v)];
    assert all[..|all| - 1] == sources;
    FirstSetWins(sources, e);
  }

  /** The choice is not revisited: a chain `property("p").value("default")`
      built while `p` is undefined keeps reading "default" after `p` is defined. */
  lemma ChoiceIsMadeWhenBuilt()
    ensures var built := Environment(map[], map[], map[], map[]);
      var later := built.(properties := map["p" := "x"]);
      var chain := Value(Property(Start(), "p", built), "default", built);
      IsSet(Configurations.Property("p"), later) && Get(chain, later) == Some("default")
  {
  }
}
