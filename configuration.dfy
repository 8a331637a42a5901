/** Configuration values that can be supplied by different kinds of source,
    and the fallback from one source to another (Configuration.java).

    The program's surroundings (environment variables, system properties,
    readable files, class-path resources) are an `Environment` handed to every
    query: a source holds only a name or a location and looks it up again on
    each call, so the same source can be unset at one moment and set at the
    next. */
module Configurations {
  import opened Results
  import InputValues

  datatype Environment = Environment(
    variables: map<string, string>,    // process environment variables
    properties: map<string, string>,   // system properties
    files: map<string, string>,        // readable files, by path, with their contents
    resources: map<string, string>)    // resources the class loader can find, with their contents

  /** What `new URL(location)` makes of each location it accepts: the text
      `toExternalForm()` gives back. A location missing from the map is
      malformed. */
  type UrlForms = map<string, string>

  /** One configuration object of the library: a source of one of the six
      kinds, the `NOT_SUPPLIED` sentinel, or a chain wrapping another configuration. */
  datatype Configuration =
    | NotSupplied
    | FromEnvironment(name: string)
    | FromProperty(name: string)
    | FromFile(location: string)
    | FromResource(location: string)
    | FromUrl(externalForm: string)
    | RawValue(value: string)
    | Chain(configuration: Configuration)

  /** `isSet()` in the given environment. */
  predicate IsSet(c: Configuration, e: Environment) {
    match c
    case NotSupplied => false
    case FromEnvironment(name) => name in e.variables
    case FromProperty(name) => name in e.properties
    case FromFile(location) => location in e.files
    case FromResource(location) => location in e.resources
    case FromUrl(_) => true
    case RawValue(_) => true
    case Chain(inner) => IsSet(inner, e)
  }

  function Lookup(m: map<string, string>, key: string): InputValues.InputValue {
    if key in m then Some(m[key]) else None
  }

  /** `get()` in the given environment; `None` is `null`. */
  function Get(c: Configuration, e: Environment): InputValues.InputValue {
    match c
    case NotSupplied => Some("")
    case FromEnvironment(name) => Lookup(e.variables, name)
    case FromProperty(name) => Lookup(e.properties, name)
    case FromFile(location) => Lookup(e.files, location)
    case FromResource(location) => Lookup(e.resources, location)
    case FromUrl(externalForm) => Some(externalForm)
    case RawValue(value) => Some(value)
    case Chain(inner) => Get(inner, e)
  }

  /** The configuration a chain finally delegates to: every layer of chain
      removed, with the same answers in every environment. */
  function Unwrap(c: Configuration): (r: Configuration)
    ensures !r.Chain?
    ensures forall e :: IsSet(r, e) == IsSet(c, e) && Get(r, e) == Get(c, e)
  {
    if c.Chain? then Unwrap(c.configuration) else c
  }

  /** `or(defaultConfiguration)`: the receiver if it is set now, the default
      otherwise. A chain answers with the configuration it wraps. The default
      itself is never asked anything. */
  function Or(c: Configuration, d: Configuration, e: Environment): (r: Configuration)
    ensures r == if IsSet(c, e) then Unwrap(c) else d
    ensures IsSet(r, e) <==> IsSet(c, e) || IsSet(d, e)
    ensures Get(r, e) == if IsSet(c, e) then Get(c, e) else Get(d, e)
  {
    match c
    case Chain(inner) => Or(inner, d, e)
    case _ => if IsSet(c, e) then c else d
  }

  /** Falling back twice on the same default is the same as falling back once:
      the result is the same object when the default is not a chain, and
      answers the same in every environment when it is. */
  lemma OrIdempotent(c: Configuration, d: Configuration, e: Environment)
    ensures Unwrap(Or(Or(c, d, e), d, e)) == Unwrap(Or(c, d, e))
    ensures !d.Chain? ==> Or(Or(c, d, e), d, e) == Or(c, d, e)
  {
    var once := Or(c, d, e);
    if IsSet(c, e) {
      assert once == Unwrap(c) && !once.Chain?;
      assert Unwrap(once) == once;
    } else {
      assert once == d;
      if d.Chain? {
        assert Unwrap(Unwrap(d)) == Unwrap(d);
      }
    }
  }

  /** `ifSet(action)`: the receiver, and the arguments the action was called
      with, in order — once with the receiver when it is set, never otherwise. */
  function IfSet(c: Configuration, e: Environment): (r: (Configuration, seq<Configuration>))
    ensures r.0 == c
    ensures IsSet(c, e) ==> r.1 == [c]
    ensures !IsSet(c, e) ==> r.1 == []
  {
    (c, if IsSet(c, e) then [c] else [])
  }

  /** `NOT_SUPPLIED`: never set, reads as the empty string, so falling back
      from it always gives the default. */
  function NotSuppliedConfiguration(): (c: Configuration)
    ensures forall e :: !IsSet(c, e) && Get(c, e) == Some("")
    ensures forall d, e :: Or(c, d, e) == d
  {
    NotSupplied
  }

  /** `env(name)`: set exactly while the variable is defined, reading its current value. */
  function Env(name: string): (c: Configuration)
    ensures forall e :: IsSet(c, e) <==> name in e.variables
    ensures forall e :: Get(c, e) == if name in e.variables then Some(e.variables[name]) else None
  {
    FromEnvironment(name)
  }

  /** `property(name)`: set exactly while the property is defined, reading its current value. */
  function Property(name: string): (c: Configuration)
    ensures forall e :: IsSet(c, e) <==> name in e.properties
    ensures forall e :: Get(c, e) == if name in e.properties then Some(e.properties[name]) else None
  {
    FromProperty(name)
  }

  /** A property source asks again on every call: unset before the property is
      defined, set with the new value once it is. */
  lemma PropertyIsReadOnEveryCall(name: string, value: string, before: Environment)
    requires name !in before.properties
    ensures var c := Property(name);
      var after := before.(properties := before.properties[name := value]);
      !IsSet(c, before) && IsSet(c, after) && Get(c, after) == Some(value)
  {
  }

  /** `file(location)`: set while the file is readable, reading its contents. */
  function File(location: string): (c: Configuration)
    ensures forall e :: IsSet(c, e) <==> location in e.files
    ensures forall e: Environment :: location in e.files ==> Get(c, e) == Some(e.files[location])
  {
    FromFile(location)
  }

  /** `resource(location)`: set while the class loader finds the resource,
      reading its contents, and `null` when it does not. */
  function Resource(location: string): (c: Configuration)
    ensures forall e :: IsSet(c, e) <==> location in e.resources
    ensures forall e :: Get(c, e) == if location in e.resources then Some(e.resources[location]) else None
  {
    FromResource(location)
  }

  /** `url(location)`: the location is parsed at once, and a malformed one
      throws. A URL configuration is always set, without asking the network,
      and `get()` is the URL's external form. */
  function Url(location: string, urls: UrlForms): (r: Outcome<Configuration>)
    ensures r.Ok? <==> location in urls
    ensures r.Fail? ==> r.fault == MalformedUrl
    ensures r.Ok? ==> forall e :: IsSet(r.value, e) && Get(r.value, e) == Some(urls[location])
  {
    if location in urls then Ok(FromUrl(urls[location])) else Fail(MalformedUrl)
  }

  /** `value(v)`: always set, whatever the value (the empty string too), and `get()` is `v`. */
  function Value(v: string): (c: Configuration)
    ensures forall e :: IsSet(c, e) && Get(c, e) == Some(v)
    ensures forall d, e :: Or(c, d, e) == c
  {
    RawValue(v)
  }
}
