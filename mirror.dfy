/** A view of one class and its superclasses (Mirror.java). The hierarchy is
    collected once, when the mirror is made; fields and methods are then
    searched class by class, most-derived class first. */
module Mirrors {
  import opened Results
  import opened ClassTables

  /** What `reflect` may be handed. An annotation instance is a proxy whose
      runtime class is not its annotation type. */
  datatype JavaObject =
    | Null
    | Instance(runtimeClass: ClassId)
    | ClassObject(represented: ClassId)
    | AnnotationInstance(annotationType: ClassId, runtimeClass: ClassId)

  predicate ObjectInTable(t: ClassTable, target: JavaObject) {
    match target
    case Null => true
    case Instance(c) => c < |t|
    case ClassObject(c) => c < |t|
    case AnnotationInstance(a, c) => a < |t| && c < |t|
  }

  function Named(name: string): Method -> bool {
    (m: Method) => m.name == name
  }

  class Mirror {
    const table: ClassTable
    const targetType: ClassId
    const targetHierarchy: seq<ClassId>

    ghost predicate Valid() {
      WellFormed(table) && targetType < |table| && targetHierarchy == Walk(table, Some(targetType))
    }

    /** Collects the target and its superclasses, most-derived first, by
        following `getSuperclass()` until there is none. */
    constructor(table: ClassTable, targetType: ClassId)
      requires WellFormed(table) && targetType < |table|
      ensures this.table == table && this.targetType == targetType
      ensures targetHierarchy == Walk(table, Some(targetType))
      ensures Valid()
    {
      var hierarchy: seq<ClassId> := [];
      var c: Option<ClassId> := Some(targetType);
      while c.Some?
        invariant InTable(table, c)
        invariant hierarchy + Walk(table, c) == Walk(table, Some(targetType))
        decreases if c.Some? then c.value + 1 else 0
      {
        hierarchy := hierarchy + [c.value];
        c := table[c.value].superclass;
      }
      this.table := table;
      this.targetType := targetType;
      this.targetHierarchy := hierarchy;
    }

    /** The declared fields of every class of the hierarchy, in hierarchy order. */
    function AllFields(): seq<Field>
      requires Valid()
    {
      Members(table, targetHierarchy, FieldsOf)
    }

    /** The declared methods of every class of the hierarchy, in hierarchy order. */
    function AllMethods(): seq<Method>
      requires Valid()
    {
      Members(table, targetHierarchy, MethodsOf)
    }

    function DeclaresField(name: string): ClassId -> bool {
      (c: ClassId) => c < |table| && DeclaredField(table, c, name).Some?
    }

    function DeclaresMethod(name: string, types: seq<ClassId>): ClassId -> bool {
      (c: ClassId) => c < |table| && DeclaredMethod(table, c, name, types).Some?
    }

    /** `fields()`: appends each class's declared fields, most-derived class first. */
    method Fields() returns (result: seq<Field>)
      requires Valid()
      ensures result == AllFields()
      ensures forall f :: f in result <==> exists i :: 0 <= i < |targetHierarchy| && f in table[targetHierarchy[i]].fields
    {
      result := [];
      for i := 0 to |targetHierarchy|
        invariant result == Members(table, targetHierarchy[..i], FieldsOf)
      {
        var c := targetHierarchy[i];
        assert targetHierarchy[..i + 1] == targetHierarchy[..i] + [c];
        MembersAppend(table, targetHierarchy[..i], [c], FieldsOf);
        result := result + table[c].fields;
      }
      assert targetHierarchy[..|targetHierarchy|] == targetHierarchy;
      forall f {
        MembersContain(table, targetHierarchy, FieldsOf, f);
      }
    }

    /** `methods()`: appends each class's declared methods, most-derived class first. */
    method Methods() returns (result: seq<Method>)
      requires Valid()
      ensures result == AllMethods()
      ensures forall m :: m in result <==> exists i :: 0 <= i < |targetHierarchy| && m in table[targetHierarchy[i]].methods
    {
      result := [];
      for i := 0 to |targetHierarchy|
        invariant result == Members(table, targetHierarchy[..i], MethodsOf)
      {
        var c := targetHierarchy[i];
        assert targetHierarchy[..i + 1] == targetHierarchy[..i] + [c];
        MembersAppend(table, targetHierarchy[..i], [c], MethodsOf);
        result := result + table[c].methods;
      }
      assert targetHierarchy[..|targetHierarchy|] == targetHierarchy;
      forall m {
        MembersContain(table, targetHierarchy, MethodsOf, m);
      }
    }

    /** `field(name)`: the field of that name declared by the first class of
        the hierarchy that declares one, so a subclass's field hides its
        superclass's; empty when no class declares it. */
    function FieldNamed(name: string): (r: Option<Field>)
      requires Valid()
      ensures r.None? <==> forall i :: 0 <= i < |targetHierarchy| ==> DeclaredField(table, targetHierarchy[i], name).None?
      ensures r.Some? ==> r.value.name == name && r.value in AllFields()
    {
      match FirstWhere(targetHierarchy, DeclaresField(name))
      case None => None
      case Some(i) =>
        var f := DeclaredField(table, targetHierarchy[i], name);
        MembersContain(table, targetHierarchy, FieldsOf, f.value);
        f
    }

    /** `method(name, types...)`. With parameter types: the method with exactly
        that signature declared by the first class of the hierarchy that
        declares one. With none: the first method of that name in `methods()`,
        whatever its parameters. */
    function MethodNamed(name: string, types: seq<ClassId>): (r: Option<Method>)
      requires Valid()
      ensures |types| > 0 ==>
        (r.None? <==> forall i :: 0 <= i < |targetHierarchy| ==> DeclaredMethod(table, targetHierarchy[i], name, types).None?)
      ensures |types| > 0 && r.Some? ==> r.value == Method(name, types)
      ensures |types| == 0 ==>
        (r.None? <==> forall k :: 0 <= k < |AllMethods()| ==> AllMethods()[k].name != name)
      ensures r.Some? ==> r.value.name == name && r.value in AllMethods()
    {
      if |types| > 0 then
        match FirstWhere(targetHierarchy, DeclaresMethod(name, types))
        case None => None
        case Some(i) =>
          var m := DeclaredMethod(table, targetHierarchy[i], name, types);
          MembersContain(table, targetHierarchy, MethodsOf, m.value);
          m
      else
        var ms := AllMethods();
        match FirstWhere(ms, Named(name))
        case None => None
        case Some(k) => Some(ms[k])
    }

    /** A field or method hidden behind a subclass's declaration is never
        returned: the first class of the hierarchy that declares the name wins. */
    lemma FieldFirstDeclarationWins(name: string, i: nat)
      requires Valid() && i < |targetHierarchy|
      requires DeclaredField(table, targetHierarchy[i], name).Some?
      requires forall j :: 0 <= j < i ==> DeclaredField(table, targetHierarchy[j], name).None?
      ensures FieldNamed(name) == DeclaredField(table, targetHierarchy[i], name)
    {
      FirstWhereUnique(targetHierarchy, DeclaresField(name), i);
    }

    lemma MethodFirstDeclarationWins(name: string, types: seq<ClassId>, i: nat)
      requires Valid() && |types| > 0 && i < |targetHierarchy|
      requires DeclaredMethod(table, targetHierarchy[i], name, types).Some?
      requires forall j :: 0 <= j < i ==> DeclaredMethod(table, targetHierarchy[j], name, types).None?
      ensures MethodNamed(name, types) == DeclaredMethod(table, targetHierarchy[i], name, types)
    {
      FirstWhereUnique(targetHierarchy, DeclaresMethod(name, types), i);
    }

    /** Without parameter types, the first method of that name in `methods()`
        is returned even when it takes parameters and a later one takes none. */
    lemma MethodWithoutTypesTakesFirstByName(name: string, k: nat)
      requires Valid() && k < |AllMethods()|
      requires AllMethods()[k].name == name
      requires forall j :: 0 <= j < k ==> AllMethods()[j].name != name
      ensures MethodNamed(name, []) == Some(AllMethods()[k])
    {
      FirstWhereUnique(AllMethods(), Named(name), k);
    }

    /** `constructors()`: the target class's own constructors; a superclass's are never listed. */
    function Constructors(): (r: seq<Constructor>)
      requires Valid()
      ensures targetHierarchy != [] && r == table[targetHierarchy[0]].constructors
    {
      table[targetType].constructors
    }

    /** `constructor(types...)`: the target class's constructor with exactly
        those parameter types, if it declares one; superclasses are not searched. */
    function ConstructorFor(types: seq<ClassId>): (r: Option<Constructor>)
      requires Valid()
      ensures r.Some? <==> Constructor(types) in Constructors()
      ensures r.Some? ==> r.value == Constructor(types)
    {
      DeclaredConstructor(table, targetType, types)
    }

    /** `reflect(target)`: a mirror of an annotation's annotation type, of the
        class a `Class` object stands for, or else of the object's runtime
        class; `null` fails when its class is asked for. */
    static method Reflect(table: ClassTable, target: JavaObject) returns (r: Outcome<Mirror>)
      requires WellFormed(table) && ObjectInTable(table, target)
      ensures target.Null? ==> r == Fail(NullPointer)
      ensures !target.Null? ==> r.Ok? && fresh(r.value) && r.value.Valid() && r.value.table == table
      ensures target.AnnotationInstance? ==> r.Ok? && r.value.targetType == target.annotationType
      ensures target.ClassObject? ==> r.Ok? && r.value.targetType == target.represented
      ensures target.Instance? ==> r.Ok? && r.value.targetType == target.runtimeClass
    {
      var c: ClassId;
      match target {
        case Null =>
          return Fail(NullPointer);
        case AnnotationInstance(a, _) =>
          c := a;
        case ClassObject(k) =>
          c := k;
        case Instance(k) =>
          c := k;
      }
      var m := new Mirror(table, c);
      r := Ok(m);
    }
  }
}
