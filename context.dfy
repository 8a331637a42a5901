/** Argument resolution for reflective calls (Context.java). A context holds
    rules, each a condition on a parameter and a way to produce the argument
    for it, in the order they were added, plus a default for parameters no
    rule matches. It also picks the constructor to instantiate a class with.

    Parameters (`P`) and arguments (`A`) are opaque; a missing argument
    (`null`) is `None`. */
module Contexts {
  import opened Results

  /** One rule: when `condition` holds for a parameter, its argument is `resolver(parameter)`. */
  datatype Entry<!P, A> = Entry(condition: P -> bool, resolver: P -> Option<A>)

  /** The same argument for every parameter (`parameter -> value`). */
  function Always<P(!new), A>(value: Option<A>): (f: P -> Option<A>)
    ensures forall p :: f(p) == value
  {
    (p: P) => value
  }

  /** Whatever the supplier gives (`parameter -> supplier.get()`). */
  function Supplied<P(!new), A>(supplier: () -> Option<A>): (f: P -> Option<A>)
    ensures forall p :: f(p) == supplier()
  {
    (p: P) => supplier()
  }

  /** The argument for `p`: the first matching rule's, in insertion order, or the default's. */
  function ResolveWith<P, A>(entries: seq<Entry<P, A>>, defaultValue: P -> Option<A>, p: P): Option<A> {
    if entries == [] then defaultValue(p)
    else if entries[0].condition(p) then entries[0].resolver(p)
    else ResolveWith(entries[1..], defaultValue, p)
  }

  /** The first rule whose condition holds decides; later rules are not applied. */
  lemma {:induction false} FirstMatchWins<P, A>(entries: seq<Entry<P, A>>, defaultValue: P -> Option<A>, p: P, i: nat)
    requires i < |entries| && entries[i].condition(p)
    requires forall j :: 0 <= j < i ==> !entries[j].condition(p)
    ensures ResolveWith(entries, defaultValue, p) == entries[i].resolver(p)
  {
    if i > 0 {
      FirstMatchWins(entries[1..], defaultValue, p, i - 1);
    }
  }

  /** When no rule matches, the default decides. */
  lemma {:induction false} NoMatchGivesDefault<P, A>(entries: seq<Entry<P, A>>, defaultValue: P -> Option<A>, p: P)
    requires forall j :: 0 <= j < |entries| ==> !entries[j].condition(p)
    ensures ResolveWith(entries, defaultValue, p) == defaultValue(p)
  {
    if entries != [] {
      NoMatchGivesDefault(entries[1..], defaultValue, p);
    }
  }

  /** Adding a rule at the end changes nothing for parameters an earlier rule
      matches; for the others, the new rule comes before the default. */
  lemma {:induction false} AppendedRuleComesLast<P, A>(entries: seq<Entry<P, A>>, e: Entry<P, A>, defaultValue: P -> Option<A>, p: P)
    ensures ResolveWith(entries + [e], defaultValue, p) ==
      if exists j :: 0 <= j < |entries| && entries[j].condition(p) then ResolveWith(entries, defaultValue, p)
      else if e.condition(p) then e.resolver(p)
      else defaultValue(p)
  {
    if entries == [] {
      assert entries + [e] == [e];
    } else {
      assert (entries + [e])[1..] == entries[1..] + [e];
      AppendedRuleComesLast(entries[1..], e, defaultValue, p);
      if !entries[0].condition(p) {
        if exists j :: 0 <= j < |entries[1..]| && entries[1..][j].condition(p) {
          var j :| 0 <= j < |entries[1..]| && entries[1..][j].condition(p);
          assert entries[j + 1].condition(p);
        }
        if exists j :: 0 <= j < |entries| && entries[j].condition(p) {
          var j :| 0 <= j < |entries| && entries[j].condition(p);
          assert entries[1..][j - 1].condition(p);
        }
      }
    }
  }

  /** The rules of ContextTest: a `String` parameter gets "foo", an `Exception`
      parameter an exception, a `@Deprecated` one 10, anything else `null`.
      The three-parameter method resolves to all three, in order. */
  datatype TestParameter = TestParameter(typeName: string, deprecated: bool)

  lemma ResolutionExample()
    ensures var rules := [
        Entry((p: TestParameter) => p.typeName == "String", Always(Some("foo"))),
        Entry((p: TestParameter) => p.typeName == "Exception", Always(Some("exception"))),
        Entry((p: TestParameter) => p.deprecated, Always(Some("10")))];
      var parameters := [TestParameter("String", false), TestParameter("Exception", false), TestParameter("int", true)];
      ResolveWith(rules, Always(None), parameters[0]) == Some("foo") &&
      ResolveWith(rules, Always(None), parameters[1]) == Some("exception") &&
      ResolveWith(rules, Always(None), parameters[2]) == Some("10") &&
      ResolveWith(rules, Always(None), TestParameter("long", false)) == None
  {
  }

  predicate AllResolved<A>(args: seq<Option<A>>) {
    forall i :: 0 <= i < |args| ==> args[i].Some?
  }

  /** What `create` hands to `newInstance`: which constructor, with which arguments. */
  datatype Instantiation<A> = Instantiation(chosen: nat, arguments: seq<Option<A>>)

  class Context<!P(!new), A> {
    var entries: seq<Entry<P, A>>
    const defaultValue: P -> Option<A>

    /** The argument `resolve(p)` gives. */
    function Resolution(p: P): Option<A>
      reads this
    {
      ResolveWith(entries, defaultValue, p)
    }

    /** `Context(function)`: no rules; the default is the function's result. */
    constructor WithFunction(resolver: P -> Option<A>)
      ensures entries == [] && defaultValue == resolver
      ensures forall p :: Resolution(p) == resolver(p)
    {
      entries := [];
      defaultValue := resolver;
    }

    /** `Context(supplier)`: no rules; the default is whatever the supplier gives. */
    constructor WithSupplier(supplier: () -> Option<A>)
      ensures entries == [] && defaultValue == Supplied(supplier)
      ensures forall p :: Resolution(p) == supplier()
    {
      entries := [];
      defaultValue := Supplied(supplier);
    }

    /** `Context(defaultValue)`: no rules; the default is that value. */
    constructor WithDefault(value: Option<A>)
      ensures entries == [] && defaultValue == Always(value)
      ensures forall p :: Resolution(p) == value
    {
      entries := [];
      defaultValue := Always(value);
    }

    /** `Context()`: no rules; the default is `null`. */
    constructor ()
      ensures entries == [] && defaultValue == Always(None)
      ensures forall p :: Resolution(p) == None
    {
      entries := [];
      defaultValue := Always(None);
    }

    /** `when(condition, value)`: appends a rule resolving to that value. */
    method When(condition: P -> bool, value: Option<A>) returns (self: Context<P, A>)
      modifies this
      ensures self == this
      ensures entries == old(entries) + [Entry(condition, Always(value))]
    {
      entries := entries + [Entry(condition, Always(value))];
      self := this;
    }

    /** `when(condition, supplier)`: appends a rule resolving to what the supplier gives. */
    method WhenSupplied(condition: P -> bool, supplier: () -> Option<A>) returns (self: Context<P, A>)
      modifies this
      ensures self == this
      ensures entries == old(entries) + [Entry(condition, Supplied(supplier))]
    {
      entries := entries + [Entry(condition, Supplied(supplier))];
      self := this;
    }

    /** `when(condition, function)`: appends a rule resolving to the function's result. */
    method WhenFunction(condition: P -> bool, resolver: P -> Option<A>) returns (self: Context<P, A>)
      modifies this
      ensures self == this
      ensures entries == old(entries) + [Entry(condition, resolver)]
    {
      entries := entries + [Entry(condition, resolver)];
      self := this;
    }

    /** `resolve(parameter)`: tries the rules in insertion order and returns
        the first match's argument, or the default's when none matches. */
    method Resolve(parameter: P) returns (r: Option<A>)
      ensures r == Resolution(parameter)
      ensures forall i :: (0 <= i < |entries| && entries[i].condition(parameter) &&
        forall j :: 0 <= j < i ==> !entries[j].condition(parameter)) ==> r == entries[i].resolver(parameter)
      ensures (forall j :: 0 <= j < |entries| ==> !entries[j].condition(parameter)) ==> r == defaultValue(parameter)
    {
      for i := 0 to |entries|
        invariant forall j :: 0 <= j < i ==> !entries[j].condition(parameter)
      {
        if entries[i].condition(parameter) {
          FirstMatchWins(entries, defaultValue, parameter, i);
          return entries[i].resolver(parameter);
        }
      }
      NoMatchGivesDefault(entries, defaultValue, parameter);
      return defaultValue(parameter);
    }

    /** The arguments `resolve(parameters)` gives, one per parameter. */
    function Arguments(parameters: seq<P>): (args: seq<Option<A>>)
      reads this
      ensures |args| == |parameters|
      ensures forall i :: 0 <= i < |parameters| ==> args[i] == Resolution(parameters[i])
    {
      if parameters == [] then [] else [Resolution(parameters[0])] + Arguments(parameters[1..])
    }

    /** `resolve(parameters)`: a new array holding, at each position, the
        argument resolved for the parameter at that position (`null` if none). */
    method ResolveAll(parameters: seq<P>) returns (args: array<Option<A>>)
      ensures fresh(args)
      ensures args.Length == |parameters|
      ensures args[..] == Arguments(parameters)
    {
      args := new Option<A>[|parameters|](i => None);
      for i := 0 to |parameters|
        invariant forall j :: 0 <= j < i ==> args[j] == Resolution(parameters[j])
      {
        args[i] := Resolve(parameters[i]);
      }
    }

    /** `resolve(executable)`: the arguments for the executable's parameters. */
    method ResolveExecutable(executableParameters: seq<P>) returns (args: array<Option<A>>)
      ensures fresh(args)
      ensures args[..] == Arguments(executableParameters)
    {
      args := ResolveAll(executableParameters);
    }

    /** The position, from `from` on, of the first constructor all of whose arguments resolve. */
    function FirstInstantiable(constructors: seq<seq<P>>, from: nat): (r: Option<nat>)
      reads this
      requires from <= |constructors|
      ensures r.Some? ==> from <= r.value < |constructors| && AllResolved(Arguments(constructors[r.value]))
      ensures r.Some? ==> forall j :: from <= j < r.value ==> !AllResolved(Arguments(constructors[j]))
      ensures r.None? <==> forall j :: from <= j < |constructors| ==> !AllResolved(Arguments(constructors[j]))
      decreases |constructors| - from
    {
      if from == |constructors| then None
      else if AllResolved(Arguments(constructors[from])) then Some(from)
      else FirstInstantiable(constructors, from + 1)
    }

    /** The constructor `create` instantiates, given the class's constructors
        as their parameter lists: none is an error; a sole constructor is used
        whatever its arguments resolve to; among several, the first whose
        arguments all resolve, and an error if there is none. */
    function Selection(constructors: seq<seq<P>>): (r: Outcome<Instantiation<A>>)
      reads this
      ensures constructors == [] <==> r == Fail(NoConstructor)
      ensures |constructors| == 1 ==> r == Ok(Instantiation(0, Arguments(constructors[0])))
      ensures r.Ok? ==> r.value.chosen < |constructors|
      ensures r.Ok? ==> r.value.arguments == Arguments(constructors[r.value.chosen])
      ensures |constructors| > 1 && r.Ok? ==> AllResolved(r.value.arguments)
      ensures |constructors| > 1 && r.Ok? ==>
        forall j :: 0 <= j < r.value.chosen ==> !AllResolved(Arguments(constructors[j]))
      ensures |constructors| > 1 ==>
        (r == Fail(NotInstantiable) <==> forall j :: 0 <= j < |constructors| ==> !AllResolved(Arguments(constructors[j])))
    {
      if constructors == [] then Fail(NoConstructor)
      else if |constructors| == 1 then Ok(Instantiation(0, Arguments(constructors[0])))
      else match FirstInstantiable(constructors, 0)
        case None => Fail(NotInstantiable)
        case Some(k) => Ok(Instantiation(k, Arguments(constructors[k])))
    }

    lemma FirstInstantiableIs(constructors: seq<seq<P>>, k: nat)
      requires k < |constructors| && AllResolved(Arguments(constructors[k]))
      requires forall j :: 0 <= j < k ==> !AllResolved(Arguments(constructors[j]))
      ensures FirstInstantiable(constructors, 0) == Some(k)
    {
    }

    /** `create(objectClass)` up to the call of `newInstance`: checks for
        constructors, then resolves the sole one's arguments, or scans the
        constructors in order for one with no `null` argument. */
    method Create(constructors: seq<seq<P>>) returns (r: Outcome<Instantiation<A>>)
      ensures r == Selection(constructors)
    {
      if |constructors| == 0 {
        return Fail(NoConstructor);
      }
      if |constructors| == 1 {
        var args := ResolveAll(constructors[0]);
        return Ok(Instantiation(0, args[..]));
      }
      for k := 0 to |constructors|
        invariant forall j :: 0 <= j < k ==> !AllResolved(Arguments(constructors[j]))
      {
        var args := ResolveAll(constructors[k]);
        var valid := true;
        for i := 0 to args.Length
          invariant valid
          invariant forall j :: 0 <= j < i ==> args[j].Some?
        {
          if args[i].None? {
            valid := false;
            break;
          }
        }
        if valid {
          FirstInstantiableIs(constructors, k);
          return Ok(Instantiation(k, args[..]));
        }
      }
      return Fail(NotInstantiable);
    }
  }
}
