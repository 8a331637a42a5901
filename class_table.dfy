/** The classes reflection sees, as a table: each class names its superclass
    and lists its declared fields, methods and constructors in declaration
    order. A superclass always has a smaller id than its subclasses, so every
    walk up the hierarchy ends at a root. */
module ClassTables {
  import opened Results

  type ClassId = nat

  datatype Field = Field(name: string, fieldType: ClassId)
  datatype Method = Method(name: string, parameterTypes: seq<ClassId>)
  datatype Constructor = Constructor(parameterTypes: seq<ClassId>)

  datatype ClassDecl = ClassDecl(
    superclass: Option<ClassId>,
    fields: seq<Field>,
    methods: seq<Method>,
    constructors: seq<Constructor>)

  type ClassTable = seq<ClassDecl>

  /** Every superclass is in the table and comes before its subclass. */
  predicate WellFormed(t: ClassTable) {
    forall c :: 0 <= c < |t| && t[c].superclass.Some? ==> t[c].superclass.value < c
  }

  predicate InTable(t: ClassTable, c: Option<ClassId>) {
    c.Some? ==> c.value < |t|
  }

  predicate AllInTable(t: ClassTable, h: seq<ClassId>) {
    forall i :: 0 <= i < |h| ==> h[i] < |t|
  }

  /** The classes from `start` up to the root, following `getSuperclass()`;
      empty when there is no class to start from. */
  function Walk(t: ClassTable, start: Option<ClassId>): (r: seq<ClassId>)
    requires WellFormed(t) && InTable(t, start)
    ensures start.None? <==> r == []
    ensures start.Some? ==> r[0] == start.value
    ensures AllInTable(t, r)
    ensures forall i :: 0 <= i < |r| - 1 ==> t[r[i]].superclass == Some(r[i + 1])
    ensures r != [] ==> t[r[|r| - 1]].superclass.None?
    decreases if start.Some? then start.value + 1 else 0
  {
    match start
    case None => []
    case Some(c) => [c] + Walk(t, t[c].superclass)
  }

  /** Ids strictly decrease along a walk, so no class appears twice and a walk
      from `c` has at most `c + 1` classes. */
  lemma {:induction false} WalkDescends(t: ClassTable, start: Option<ClassId>)
    requires WellFormed(t) && InTable(t, start)
    ensures forall i, j :: 0 <= i < j < |Walk(t, start)| ==> Walk(t, start)[j] < Walk(t, start)[i]
    ensures start.Some? ==> |Walk(t, start)| <= start.value + 1
    decreases if start.Some? then start.value + 1 else 0
  {
    if start.Some? {
      var rest := Walk(t, t[start.value].superclass);
      WalkDescends(t, t[start.value].superclass);
      assert Walk(t, start) == [start.value] + rest;
      forall i, j | 0 <= i < j < |Walk(t, start)|
        ensures Walk(t, start)[j] < Walk(t, start)[i]
      {
        if i == 0 {
          assert Walk(t, start)[j] == rest[j - 1];
          assert rest[0] < start.value;
          if j > 1 {
            assert rest[j - 1] < rest[0];
          }
        }
      }
    }
  }

  /** A walk is determined by where it starts: any sequence that starts at
      `start`, steps from each class to its superclass and stops at a root is
      the walk from `start`. */
  lemma {:induction false} WalkUnique(t: ClassTable, start: Option<ClassId>, h: seq<ClassId>)
    requires WellFormed(t) && InTable(t, start)
    requires start.None? <==> h == []
    requires start.Some? ==> h[0] == start.value
    requires AllInTable(t, h)
    requires forall i :: 0 <= i < |h| - 1 ==> t[h[i]].superclass == Some(h[i + 1])
    requires h != [] ==> t[h[|h| - 1]].superclass.None?
    ensures h == Walk(t, start)
    decreases |h|
  {
    if h != [] {
      var next := t[h[0]].superclass;
      if |h| > 1 {
        assert next == Some(h[1]);
      }
      WalkUnique(t, next, h[1..]);
    }
  }

  function FieldsOf(d: ClassDecl): seq<Field> { d.fields }
  function MethodsOf(d: ClassDecl): seq<Method> { d.methods }

  /** The members `select` picks out of each class of `h`, concatenated in the order of `h`. */
  function Members<T>(t: ClassTable, h: seq<ClassId>, select: ClassDecl -> seq<T>): seq<T>
    requires AllInTable(t, h)
  {
    if h == [] then [] else select(t[h[0]]) + Members(t, h[1..], select)
  }

  lemma {:induction false} MembersAppend<T>(t: ClassTable, h1: seq<ClassId>, h2: seq<ClassId>, select: ClassDecl -> seq<T>)
    requires AllInTable(t, h1) && AllInTable(t, h2)
    ensures AllInTable(t, h1 + h2)
    ensures Members(t, h1 + h2, select) == Members(t, h1, select) + Members(t, h2, select)
    decreases |h1|
  {
    if h1 == [] {
      assert h1 + h2 == h2;
    } else {
      assert (h1 + h2)[0] == h1[0];
      assert (h1 + h2)[1..] == h1[1..] + h2;
      MembersAppend(t, h1[1..], h2, select);
    }
  }

  /** A member is in the concatenation exactly when some class of `h` declares it. */
  lemma {:induction false} MembersContain<T>(t: ClassTable, h: seq<ClassId>, select: ClassDecl -> seq<T>, x: T)
    requires AllInTable(t, h)
    ensures x in Members(t, h, select) <==> exists i :: 0 <= i < |h| && x in select(t[h[i]])
    decreases |h|
  {
    if h != [] {
      MembersContain(t, h[1..], select, x);
      if x in Members(t, h[1..], select) {
        var i :| 0 <= i < |h[1..]| && x in select(t[h[1..][i]]);
        assert x in select(t[h[i + 1]]);
      }
      if exists i :: 0 <= i < |h| && x in select(t[h[i]]) {
        var i :| 0 <= i < |h| && x in select(t[h[i]]);
        if i > 0 {
          assert h[1..][i - 1] == h[i];
        }
      }
    }
  }

  /** The position of the first element of `s` that satisfies `p`, if any. */
  function FirstWhere<T>(s: seq<T>, p: T -> bool): (r: Option<nat>)
    ensures r.Some? ==> r.value < |s| && p(s[r.value])
    ensures r.Some? ==> forall j :: 0 <= j < r.value ==> !p(s[j])
    ensures r.None? <==> forall j :: 0 <= j < |s| ==> !p(s[j])
  {
    if s == [] then None
    else if p(s[0]) then Some(0)
    else match FirstWhere(s[1..], p)
      case None => None
      case Some(i) => Some(i + 1)
  }

  /** The first position satisfying `p` is the one before which none does. */
  lemma FirstWhereUnique<T>(s: seq<T>, p: T -> bool, i: nat)
    requires i < |s| && p(s[i])
    requires forall j :: 0 <= j < i ==> !p(s[j])
    ensures FirstWhere(s, p) == Some(i)
  {
  }

  /** `getDeclaredField(name)` on class `c`: its field of that name, if it declares one. */
  function DeclaredField(t: ClassTable, c: ClassId, name: string): (r: Option<Field>)
    requires c < |t|
    ensures r.Some? ==> r.value in t[c].fields && r.value.name == name
    ensures r.None? <==> forall f :: f in t[c].fields ==> f.name != name
  {
    match FirstWhere(t[c].fields, (f: Field) => f.name == name)
    case None => None
    case Some(i) => Some(t[c].fields[i])
  }

  /** `getDeclaredMethod(name, types)` on class `c`: its method with exactly that
      name and those parameter types, if it declares one. */
  function DeclaredMethod(t: ClassTable, c: ClassId, name: string, types: seq<ClassId>): (r: Option<Method>)
    requires c < |t|
    ensures r.Some? ==> r.value in t[c].methods && r.value == Method(name, types)
    ensures r.None? <==> Method(name, types) !in t[c].methods
  {
    match FirstWhere(t[c].methods, (m: Method) => m.name == name && m.parameterTypes == types)
    case None => None
    case Some(i) => Some(t[c].methods[i])
  }

  /** `getDeclaredConstructor(types)` on class `c`. */
  function DeclaredConstructor(t: ClassTable, c: ClassId, types: seq<ClassId>): (r: Option<Constructor>)
    requires c < |t|
    ensures r.Some? <==> Constructor(types) in t[c].constructors
    ensures r.Some? ==> r.value == Constructor(types)
  {
    match FirstWhere(t[c].constructors, (k: Constructor) => k.parameterTypes == types)
    case None => None
    case Some(i) => Some(t[c].constructors[i])
  }
}
