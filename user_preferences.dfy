/** The registry of a program's preferences (UserPreferences.java): one
    preference per id, created from its spec the first time it is asked for
    and never replaced afterwards. */
module UserPreferencesRegistry {
  import opened Results
  import opened PreferenceTypes
  import opened Preferences

  /** A key handed to the map's `get(Object)`: the map's own keys are ids,
      but any object may be asked for. */
  datatype MapKey = IdKey(id: string) | SpecKey(spec: PreferenceSpec)

  /** `Map.get(key)`: a spec is never equal to a `String`, so only an id can find an entry. */
  function Lookup(m: map<string, Preference>, key: MapKey): (r: Option<Preference>)
    ensures key.SpecKey? ==> r.None?
    ensures key.IdKey? ==> (r.Some? <==> key.id in m)
    ensures r.Some? ==> key.IdKey? && r.value == m[key.id]
  {
    match key
    case IdKey(id) => if id in m then Some(m[id]) else None
    case SpecKey(_) => None
  }

  /** `ofNullable(lookup)` of a boolean preference's value, unboxed: a value
      that is not a flag fails the cast. */
  function AsFlag(v: Outcome<Value>): (r: Outcome<bool>)
    ensures v.Ok? && v.value.Flag? ==> r == Ok(v.value.flag)
    ensures v.Ok? && !v.value.Flag? ==> r == Fail(ClassCast)
    ensures v.Fail? ==> r == Fail(v.fault)
  {
    match v
    case Fail(f) => Fail(f)
    case Ok(Flag(b)) => Ok(b)
    case Ok(_) => Fail(ClassCast)
  }

  /** `!isEnabled(spec)`: the negation, or the same failure. */
  function Negate(b: Outcome<bool>): (r: Outcome<bool>)
    ensures b.Ok? <==> r.Ok?
    ensures b.Ok? ==> r.value == !b.value
    ensures b.Fail? ==> r == b
  {
    match b
    case Ok(x) => Ok(!x)
    case Fail(f) => Fail(f)
  }

  /** `p` is as `new Preference(spec)` leaves it: made from `spec`, holding
      its default input, with no listener and nobody told anything yet. */
  ghost predicate MadeFrom(p: Preference, spec: PreferenceSpec)
    reads p
  {
    p.spec == spec && p.currentInputValue == spec.defaultValue && p.listeners == [] && p.notifications == []
  }

  /** The index of the first of `specs[..n]` with the id `id`, if any. */
  function FirstWithId(specs: seq<PreferenceSpec>, n: nat, id: string): (r: Option<nat>)
    requires n <= |specs|
    ensures r.Some? ==> r.value < n && specs[r.value].id == id
    ensures r.Some? ==> forall j :: 0 <= j < r.value ==> specs[j].id != id
    ensures r.None? <==> forall j :: 0 <= j < n ==> specs[j].id != id
  {
    if n == 0 then None
    else match FirstWithId(specs, n - 1, id)
      case Some(k) => Some(k)
      case None => if specs[n - 1].id == id then Some(n - 1) else None
  }

  /** `p`, stored under `id`, was made from the first of `specs[..n]` with that id. */
  ghost predicate MadeFromFirst(specs: seq<PreferenceSpec>, n: nat, id: string, p: Preference)
    requires n <= |specs|
    reads p
  {
    FirstWithId(specs, n, id).Some? && MadeFrom(p, specs[FirstWithId(specs, n, id).value])
  }

  /** The ids of `specs[..n]`. */
  function IdsOf(specs: seq<PreferenceSpec>, n: nat): (r: set<string>)
    requires n <= |specs|
    ensures forall id :: id in r <==> exists j :: 0 <= j < n && specs[j].id == id
  {
    set j | 0 <= j < n :: specs[j].id
  }

  lemma IdsOfNext(specs: seq<PreferenceSpec>, n: nat)
    requires n < |specs|
    ensures IdsOf(specs, n + 1) == IdsOf(specs, n) + {specs[n].id}
  {
    assert specs[n].id in IdsOf(specs, n + 1);
  }

  /** A successful step of `register(specs...)` keeps every preference it
      added made from the first spec with its id, one spec further on:
      `before` and `after` are the registry around `register(specs[i])`,
      `start` the one the loop began with. */
  lemma RegisterStep(specs: seq<PreferenceSpec>, i: nat, start: map<string, Preference>,
                     before: map<string, Preference>, after: map<string, Preference>)
    requires i < |specs|
    requires forall id :: id in before ==> id in after && after[id] == before[id]
    requires forall id :: id in after && id !in before ==> id == specs[i].id && MadeFrom(after[id], specs[i])
    requires IdsOf(specs, i) <= before.Keys
    requires forall id :: id in before && id !in start ==> MadeFromFirst(specs, i, id, before[id])
    ensures forall id :: id in after && id !in start ==> MadeFromFirst(specs, i + 1, id, after[id])
  {
  }

  /** The first of `specs[..n]` with an id stays the first of any longer prefix. */
  lemma {:induction false} FirstWithIdStays(specs: seq<PreferenceSpec>, n: nat, m: nat, id: string)
    requires n <= m <= |specs| && FirstWithId(specs, n, id).Some?
    ensures FirstWithId(specs, m, id) == FirstWithId(specs, n, id)
    decreases m
  {
    if m > n {
      FirstWithIdStays(specs, n, m - 1, id);
    }
  }

  /** Preferences made from the first spec of a prefix with their id are made
      from the first spec of the whole sequence with it. */
  lemma MadeFromFirstOfAll(specs: seq<PreferenceSpec>, n: nat, start: map<string, Preference>,
                           m: map<string, Preference>)
    requires n <= |specs|
    requires forall id :: id in m && id !in start ==> MadeFromFirst(specs, n, id, m[id])
    ensures forall id :: id in m && id !in start ==> MadeFromFirst(specs, |specs|, id, m[id])
  {
    forall id | id in m && id !in start
      ensures MadeFromFirst(specs, |specs|, id, m[id])
    {
      FirstWithIdStays(specs, n, |specs|, id);
    }
  }

  class UserPreferences {
    var preferences: map<string, Preference>

    /** Each preference is stored under its own spec's id. */
    ghost predicate KeyedById()
      reads this, preferences.Values
    {
      forall id :: id in preferences ==> preferences[id].spec.id == id
    }

    /** Each preference is stored under its own spec's id and is itself valid. */
    ghost predicate Valid()
      reads this, preferences.Values
    {
      KeyedById() && forall id :: id in preferences ==> preferences[id].Valid()
    }

    constructor ()
      ensures preferences == map[] && Valid()
    {
      preferences := map[];
    }

    /** `find(id)`: the preference registered under `id`, if any. */
    function Find(id: string): (r: Option<Preference>)
      reads this
      ensures r.Some? <==> id in preferences
      ensures r.Some? ==> r.value == preferences[id]
    {
      Lookup(preferences, IdKey(id))
    }

    /** What `get(spec)` would hand back, without creating anything: the
        stored preference's value, or the spec's converted default. */
    function CurrentValue(spec: PreferenceSpec): (r: Outcome<Value>)
      reads this, preferences.Values
      requires Valid()
      ensures spec.id in preferences ==> r == Ok(preferences[spec.id].currentValue)
      ensures spec.id !in preferences ==> r == Convert(spec.preferenceType, spec.defaultValue)
    {
      if spec.id in preferences then Ok(preferences[spec.id].currentValue)
      else Convert(spec.preferenceType, spec.defaultValue)
    }

    /** `register(spec)` as written: adds a preference made from `spec` when
        its id is not taken, never replacing one, then looks the result up
        with the spec itself instead of its id, so it hands back nothing. */
    method Register(spec: PreferenceSpec) returns (r: Outcome<Option<Preference>>)
      requires Valid()
      modifies this
      ensures Valid()
      ensures r.Ok? <==> spec.id in old(preferences) || Convert(spec.preferenceType, spec.defaultValue).Ok?
      ensures r.Ok? ==> r.value.None?
      ensures spec.id in old(preferences) ==> preferences == old(preferences) && r == Ok(None)
      ensures spec.id !in old(preferences) && Convert(spec.preferenceType, spec.defaultValue).Fail? ==>
        preferences == old(preferences) && r == Fail(Convert(spec.preferenceType, spec.defaultValue).fault)
      ensures spec.id !in old(preferences) && Convert(spec.preferenceType, spec.defaultValue).Ok? ==>
        preferences.Keys == old(preferences).Keys + {spec.id} &&
        (forall id :: id in old(preferences) ==> preferences[id] == old(preferences)[id]) &&
        fresh(preferences[spec.id]) && preferences[spec.id].spec == spec &&
        Ok(preferences[spec.id].currentValue) == Convert(spec.preferenceType, spec.defaultValue) &&
        preferences[spec.id].listeners == [] && MadeFrom(preferences[spec.id], spec)
    {
      if spec.id !in preferences {
        var created := Preference.New(spec);
        if created.Fail? {
          return Fail(created.fault);
        }
        preferences := preferences[spec.id := created.value];
      }
      r := Ok(Lookup(preferences, SpecKey(spec)));
    }

    /** `register(spec)` as evidently intended: the same registration, handing
        back the preference stored under the spec's id. */
    method RegisterFixed(spec: PreferenceSpec) returns (r: Outcome<Preference>)
      requires Valid()
      modifies this
      ensures Valid()
      ensures r.Ok? <==> spec.id in old(preferences) || Convert(spec.preferenceType, spec.defaultValue).Ok?
      ensures r.Ok? ==> spec.id in preferences && r.value == preferences[spec.id]
      ensures spec.id in old(preferences) ==> preferences == old(preferences) && r == Ok(old(preferences)[spec.id])
      ensures spec.id !in old(preferences) && Convert(spec.preferenceType, spec.defaultValue).Fail? ==>
        preferences == old(preferences) && r == Fail(Convert(spec.preferenceType, spec.defaultValue).fault)
      ensures spec.id !in old(preferences) && Convert(spec.preferenceType, spec.defaultValue).Ok? ==>
        preferences.Keys == old(preferences).Keys + {spec.id} &&
        (forall id :: id in old(preferences) ==> preferences[id] == old(preferences)[id]) &&
        r.Ok? && fresh(r.value) && r.value.spec == spec &&
        Ok(r.value.currentValue) == Convert(spec.preferenceType, spec.defaultValue) &&
        r.value.listeners == [] && MadeFrom(r.value, spec)
    {
      if spec.id !in preferences {
        var created := Preference.New(spec);
        if created.Fail? {
          return Fail(created.fault);
        }
        preferences := preferences[spec.id := created.value];
      }
      r := Ok(preferences[spec.id]);
    }

    /** `register(specs...)`: registers each spec in turn, stopping at the first
        whose default input does not convert. Ids already present keep their
        preference; a new id gets a preference made from the first spec that
        carries it. */
    method RegisterAll(specs: seq<PreferenceSpec>) returns (r: Outcome<()>)
      requires Valid()
      modifies this
      ensures Valid()
      ensures forall id :: id in old(preferences) ==> id in preferences && preferences[id] == old(preferences)[id]
      ensures forall id :: id in preferences && id !in old(preferences) ==>
        fresh(preferences[id]) && MadeFromFirst(specs, |specs|, id, preferences[id])
      ensures (forall i :: 0 <= i < |specs| ==> Convert(specs[i].preferenceType, specs[i].defaultValue).Ok?) ==> r == Ok(())
      ensures r.Ok? ==> forall i :: 0 <= i < |specs| ==> specs[i].id in preferences
      ensures r.Ok? ==> forall id :: id in preferences ==>
        id in old(preferences) || exists i :: 0 <= i < |specs| && specs[i].id == id
      ensures r.Fail? ==> exists i :: (
        0 <= i < |specs| &&
        specs[i].id !in preferences &&
        Convert(specs[i].preferenceType, specs[i].defaultValue) == Fail(r.fault) &&
        (forall j :: 0 <= j < i ==> specs[j].id in preferences) &&
        (forall id :: id in preferences ==> id in old(preferences) || exists j :: 0 <= j < i && specs[j].id == id))
    {
      for i := 0 to |specs|
        invariant Valid()
        invariant forall id :: id in old(preferences) ==> id in preferences && preferences[id] == old(preferences)[id]
        invariant IdsOf(specs, i) <= preferences.Keys <= old(preferences).Keys + IdsOf(specs, i)
        invariant forall id :: id in preferences && id !in old(preferences) ==> fresh(preferences[id])
        invariant forall id :: id in preferences && id !in old(preferences) ==> MadeFromFirst(specs, i, id, preferences[id])
      {
        ghost var before := preferences;
        IdsOfNext(specs, i);
        var registered := Register(specs[i]);
        if registered.Fail? {
          MadeFromFirstOfAll(specs, i, old(preferences), preferences);
          r := Fail(registered.fault);
          assert specs[i].id !in preferences && Convert(specs[i].preferenceType, specs[i].defaultValue) == Fail(r.fault);
          return;
        }
        RegisterStep(specs, i, old(preferences), before, preferences);
      }
      r := Ok(());
    }

    /** What `get(spec)` does to the registry: nothing when the id is taken or
        the spec's default input does not convert; otherwise it adds exactly
        one new preference, made from the spec, under the spec's id. */
    twostate predicate StoredAsGetDoes(spec: PreferenceSpec)
      reads this, preferences.Values
    {
      if spec.id in old(preferences) || Convert(spec.preferenceType, spec.defaultValue).Fail? then
        preferences == old(preferences)
      else
        preferences.Keys == old(preferences).Keys + {spec.id} &&
        (forall id :: id in old(preferences) ==> preferences[id] == old(preferences)[id]) &&
        fresh(preferences[spec.id]) && MadeFrom(preferences[spec.id], spec)
    }

    /** `get(spec)`: the preference stored under the spec's id, made from the
        spec first if there is none; an existing one is returned whatever spec
        it was made from. */
    method Get(spec: PreferenceSpec) returns (r: Outcome<Preference>)
      requires Valid()
      modifies this
      ensures Valid()
      ensures r.Ok? ==> spec.id in preferences && r.value == preferences[spec.id] && Find(spec.id) == Some(r.value)
      ensures spec.id in old(preferences) ==> preferences == old(preferences) && r == Ok(old(preferences)[spec.id])
      ensures r.Ok? <==> spec.id in old(preferences) || Convert(spec.preferenceType, spec.defaultValue).Ok?
      ensures r.Ok? ==> Ok(r.value.currentValue) == old(CurrentValue(spec))
      ensures r.Fail? ==> (
        preferences == old(preferences) &&
        spec.id !in old(preferences) && Convert(spec.preferenceType, spec.defaultValue) == Fail(r.fault))
      ensures forall id :: id in old(preferences) ==> id in preferences && preferences[id] == old(preferences)[id]
      ensures spec.id !in old(preferences) && r.Ok? ==> fresh(r.value) && r.value.listeners == []
      ensures spec.id !in old(preferences) && r.Ok? ==> MadeFrom(r.value, spec)
      ensures StoredAsGetDoes(spec)
    {
      if spec.id !in preferences {
        var created := Preference.New(spec);
        if created.Fail? {
          return Fail(created.fault);
        }
        preferences := preferences[spec.id := created.value];
      }
      r := Ok(preferences[spec.id]);
    }

    /** `list()`: the registered preferences, one per id, in no particular order. */
    method List() returns (r: seq<Preference>)
      requires KeyedById()
      ensures |r| == |preferences|
      ensures forall p :: p in r <==> p in preferences.Values
      ensures forall i, j :: 0 <= i < j < |r| ==> r[i] != r[j]
    {
      var keys := preferences.Keys;
      r := [];
      while keys != {}
        invariant keys <= preferences.Keys
        invariant |r| + |keys| == |preferences|
        invariant forall i :: 0 <= i < |r| ==> r[i].spec.id in preferences.Keys - keys && preferences[r[i].spec.id] == r[i]
        invariant forall id :: id in preferences.Keys - keys ==> preferences[id] in r
        invariant forall i, j :: 0 <= i < j < |r| ==> r[i].spec.id != r[j].spec.id
        decreases |keys|
      {
        var id :| id in keys;
        r := r + [preferences[id]];
        keys := keys - {id};
      }
    }

    /** `watch(spec, listener)`: gets (or makes) the preference, then has the
        listener told its current value and added after the others. */
    method Watch(spec: PreferenceSpec, listener: Listener) returns (r: Outcome<UserPreferences>)
      requires Valid()
      modifies this, preferences.Values
      ensures Valid()
      ensures r.Ok? <==> spec.id in old(preferences) || Convert(spec.preferenceType, spec.defaultValue).Ok?
      ensures r.Ok? ==> r.value == this && spec.id in preferences
      ensures r.Ok? ==> Ok(preferences[spec.id].currentValue) == old(CurrentValue(spec))
      ensures r.Ok? ==> (
        |preferences[spec.id].notifications| > 0 &&
        preferences[spec.id].notifications[|preferences[spec.id].notifications| - 1] ==
          Notification(listener, preferences[spec.id].currentValue))
      ensures r.Ok? && spec.id in old(preferences) ==>
        preferences[spec.id].listeners == old(preferences[spec.id].listeners) + [listener]
      ensures r.Ok? && spec.id !in old(preferences) ==> preferences[spec.id].listeners == [listener]
      ensures r.Fail? ==> (
        preferences == old(preferences) &&
        spec.id !in old(preferences) && Convert(spec.preferenceType, spec.defaultValue) == Fail(r.fault))
      ensures r.Ok? ==> preferences.Keys == old(preferences).Keys + {spec.id}
      ensures forall id :: id in old(preferences) ==> id in preferences && preferences[id] == old(preferences)[id]
      ensures forall id :: id in old(preferences) && id != spec.id ==> unchanged(preferences[id])
      ensures r.Ok? && spec.id in old(preferences) ==> (
        preferences[spec.id].currentValue == old(preferences[spec.id].currentValue) &&
        preferences[spec.id].currentInputValue == old(preferences[spec.id].currentInputValue) &&
        preferences[spec.id].notifications ==
          old(preferences[spec.id].notifications) + [Notification(listener, preferences[spec.id].currentValue)])
      ensures r.Ok? && spec.id !in old(preferences) ==> (
        fresh(preferences[spec.id]) && preferences[spec.id].spec == spec &&
        preferences[spec.id].currentInputValue == spec.defaultValue &&
        preferences[spec.id].notifications == [Notification(listener, preferences[spec.id].currentValue)])
    {
      var got := Get(spec);
      if got.Fail? {
        return Fail(got.fault);
      }
      var preference := got.value;
      preference.Listen(listener);
      r := Ok(this);
    }

    /** `supplier(spec).get()`: the value of the preference `get(spec)` returns. */
    method Supply(spec: PreferenceSpec) returns (r: Outcome<Value>)
      requires Valid()
      modifies this
      ensures Valid()
      ensures r == old(CurrentValue(spec))
      ensures r.Ok? ==> spec.id in preferences
      ensures StoredAsGetDoes(spec)
    {
      var got := Get(spec);
      if got.Fail? {
        return Fail(got.fault);
      }
      r := Ok(got.value.currentValue);
    }

    /** `isEnabled(spec)`: the flag the preference holds. */
    method IsEnabled(spec: PreferenceSpec) returns (r: Outcome<bool>)
      requires Valid()
      modifies this
      ensures Valid()
      ensures r == AsFlag(old(CurrentValue(spec)))
      ensures StoredAsGetDoes(spec)
    {
      var v := Supply(spec);
      r := AsFlag(v);
    }

    /** `isDisabled(spec)`: always the negation of `isEnabled(spec)`. */
    method IsDisabled(spec: PreferenceSpec) returns (r: Outcome<bool>)
      requires Valid()
      modifies this
      ensures Valid()
      ensures r == Negate(AsFlag(old(CurrentValue(spec))))
      ensures StoredAsGetDoes(spec)
    {
      var enabled := IsEnabled(spec);
      r := Negate(enabled);
    }
  }

  /** The returned value of `register(spec)` as written is never the stored
      preference: looking a spec up in a map keyed by ids finds nothing. */
  lemma RegisterLookupFindsNothing(m: map<string, Preference>, spec: PreferenceSpec)
    requires spec.id in m
    ensures Lookup(m, SpecKey(spec)) == None
    ensures Lookup(m, IdKey(spec.id)) == Some(m[spec.id])
  {
  }

  /** `register(spec)` as written, on an empty registry: the preference is
      stored, yet the call hands back nothing. */
  method RegisterThenFind() returns (returned: Outcome<Option<Preference>>, found: Option<Preference>)
    ensures returned == Ok(None)
    ensures found.Some? && found.value.spec.id == "theme"
  {
    var registry := new UserPreferences();
    var spec := PreferenceSpec("theme", TEXT, "dark");
    returned := registry.Register(spec);
    found := registry.Find("theme");
  }

  /** The corrected `register(spec)` hands back the preference it stored. */
  method RegisterFixedThenFind() returns (returned: Outcome<Preference>, found: Option<Preference>)
    ensures found.Some? && found.value.spec.id == "theme"
    ensures returned == Ok(found.value)
  {
    var registry := new UserPreferences();
    var spec := PreferenceSpec("theme", TEXT, "dark");
    returned := registry.RegisterFixed(spec);
    found := registry.Find("theme");
  }

  /** `register(specs...)` with two specs for the same id: the first one is
      the one registered, and the second is ignored. */
  method RegisterAllFirstWins() returns (r: Outcome<()>, found: Option<Preference>)
    ensures r == Ok(())
    ensures found.Some? && found.value.spec == PreferenceSpec("theme", TEXT, "dark")
    ensures found.value.currentInputValue == "dark"
  {
    var registry := new UserPreferences();
    var specs := [PreferenceSpec("theme", TEXT, "dark"), PreferenceSpec("theme", TEXT, "light")];
    assert forall i :: 0 <= i < |specs| ==> Convert(specs[i].preferenceType, specs[i].defaultValue).Ok?;
    r := registry.RegisterAll(specs);
    assert specs[0].id == "theme";
    found := registry.Find("theme");
    assert MadeFromFirst(specs, |specs|, "theme", found.value);
  }
}
