/** A user preference (Preference.java): the value it holds, the input that
    produced it, and the listeners told about every new value, in the order
    they started listening.

    Listeners are opaque; what the model keeps of them is the log of every
    call made to one, in the ghost field `notifications`. */
module Preferences {
  import opened Results
  import opened PreferenceTypes
  import InputValues

  /** What defines a preference: its id, its type and the input it starts from. */
  datatype PreferenceSpec = PreferenceSpec(id: string, preferenceType: PreferenceType, defaultValue: string)

  type Listener = nat

  /** One call `listener.accept(value)`. */
  datatype Notification = Notification(listener: Listener, value: Value)

  /** The calls `set` makes after a change: each listener once, in order, with the new value. */
  function Broadcast(listeners: seq<Listener>, value: Value): (r: seq<Notification>)
    ensures |r| == |listeners|
    ensures forall i :: 0 <= i < |r| ==> r[i] == Notification(listeners[i], value)
  {
    if listeners == [] then [] else [Notification(listeners[0], value)] + Broadcast(listeners[1..], value)
  }

  lemma {:induction false} BroadcastAppend(listeners: seq<Listener>, l: Listener, value: Value)
    ensures Broadcast(listeners + [l], value) == Broadcast(listeners, value) + [Notification(l, value)]
  {
    assert Broadcast(listeners + [l], value)[|listeners|] == Notification(l, value);
  }

  class Preference {
    const spec: PreferenceSpec
    var listeners: seq<Listener>
    var currentValue: Value
    var currentInputValue: string
    ghost var notifications: seq<Notification>

    /** The value is always the conversion of the input that was set, and the
        default input converts (it did when the preference was made). */
    ghost predicate Valid()
      reads this
    {
      Convert(spec.preferenceType, currentInputValue) == Ok(currentValue) &&
      Convert(spec.preferenceType, spec.defaultValue).Ok?
    }

    /** The state `new Preference(spec)` reaches when its `reset()` succeeds. */
    constructor (spec: PreferenceSpec, initial: Value)
      requires Convert(spec.preferenceType, spec.defaultValue) == Ok(initial)
      ensures this.spec == spec && listeners == [] && notifications == []
      ensures currentValue == initial && currentInputValue == spec.defaultValue
      ensures Valid()
    {
      this.spec := spec;
      listeners := [];
      currentValue := initial;
      currentInputValue := spec.defaultValue;
      notifications := [];
    }

    /** `new Preference(spec)`: converts the default input, failing as the
        conversion does; no listener exists yet, so none is told. */
    static method New(spec: PreferenceSpec) returns (r: Outcome<Preference>)
      ensures Convert(spec.preferenceType, spec.defaultValue).Fail? ==>
        r == Fail(Convert(spec.preferenceType, spec.defaultValue).fault)
      ensures Convert(spec.preferenceType, spec.defaultValue).Ok? ==>
        r.Ok? && fresh(r.value) && r.value.Valid() && r.value.spec == spec &&
        r.value.currentValue == Convert(spec.preferenceType, spec.defaultValue).value &&
        r.value.currentInputValue == spec.defaultValue &&
        r.value.listeners == [] && r.value.notifications == []
    {
      match Convert(spec.preferenceType, spec.defaultValue)
      case Fail(f) =>
        r := Fail(f);
      case Ok(v) =>
        var p := new Preference(spec, v);
        r := Ok(p);
    }

    /** `value()`: the current value, which is what the current input converts to. */
    function Value(): (r: PreferenceTypes.Value)
      reads this
      requires Valid()
      ensures Convert(spec.preferenceType, currentInputValue) == Ok(r)
    {
      currentValue
    }

    /** `inputValue()`: the input that produced the current value. */
    function InputValue(): (r: InputValues.InputValue)
      reads this
      ensures r.Some? && r.value == currentInputValue
      ensures InputValues.AsText(r).Some? <==> currentInputValue != ""
    {
      InputValues.Of(currentInputValue)
    }

    /** `set(input)`: converts first, so a failed conversion changes nothing
        and tells no one; otherwise stores the value and the input and tells
        every listener once, in order, the new value. */
    method Set(input: string) returns (r: Outcome<()>)
      requires Valid()
      modifies this
      ensures Valid()
      ensures listeners == old(listeners)
      ensures Convert(spec.preferenceType, input).Fail? ==>
        r == Fail(Convert(spec.preferenceType, input).fault) &&
        currentValue == old(currentValue) && currentInputValue == old(currentInputValue) &&
        notifications == old(notifications)
      ensures Convert(spec.preferenceType, input).Ok? ==>
        r == Ok(()) && currentValue == Convert(spec.preferenceType, input).value &&
        currentInputValue == input &&
        notifications == old(notifications) + Broadcast(listeners, currentValue)
    {
      var converted := Convert(spec.preferenceType, input);
      if converted.Fail? {
        return Fail(converted.fault);
      }
      currentValue := converted.value;
      currentInputValue := input;
      for i := 0 to |listeners|
        invariant notifications == old(notifications) + Broadcast(listeners[..i], currentValue)
      {
        assert listeners[..i + 1] == listeners[..i] + [listeners[i]];
        BroadcastAppend(listeners[..i], listeners[i], currentValue);
        notifications := notifications + [Notification(listeners[i], currentValue)];
      }
      assert listeners[..|listeners|] == listeners;
      r := Ok(());
    }

    /** `reset()`: `set` with the default input, which always converts. */
    method Reset()
      requires Valid()
      modifies this
      ensures Valid()
      ensures listeners == old(listeners)
      ensures currentInputValue == spec.defaultValue
      ensures Ok(currentValue) == Convert(spec.preferenceType, spec.defaultValue)
      ensures notifications == old(notifications) + Broadcast(listeners, currentValue)
    {
      var _ := Set(spec.defaultValue);
    }

    /** `listen(listener)`: tells the new listener the current value, then adds
        it after the others; the value does not change. */
    method Listen(listener: Listener)
      requires Valid()
      modifies this
      ensures Valid()
      ensures listeners == old(listeners) + [listener]
      ensures currentValue == old(currentValue) && currentInputValue == old(currentInputValue)
      ensures notifications == old(notifications) + [Notification(listener, currentValue)]
    {
      notifications := notifications + [Notification(listener, currentValue)];
      listeners := listeners + [listener];
    }
  }
}
