/** An iterator over a class and its superclasses (ClassIterator.java): the
    current class is the only state, and each `next()` moves it to its
    superclass until there is none. */
module ClassIterators {
  import opened Results
  import opened ClassTables

  class ClassIterator {
    const table: ClassTable
    var target: Option<ClassId>

    ghost predicate Valid()
      reads this
    {
      WellFormed(table) && InTable(table, target)
    }

    /** The classes still to be returned, in order. */
    ghost function Remaining(): seq<ClassId>
      reads this
      requires Valid()
    {
      Walk(table, target)
    }

    /** `ClassIterator(Class target)`; a `null` target gives an iterator with nothing to return. */
    constructor(table: ClassTable, target: Option<ClassId>)
      requires WellFormed(table) && InTable(table, target)
      ensures this.table == table && this.target == target
      ensures Valid() && Remaining() == Walk(table, target)
    {
      this.table := table;
      this.target := target;
    }

    /** `hasNext()`: whether a class is left. */
    function HasNext(): (r: bool)
      reads this
      requires Valid()
      ensures r <==> Remaining() != []
    {
      target.Some?
    }

    /** `next()`: the current class, moving on to its superclass; on an
        exhausted iterator, `NoSuchElementException` and no change. */
    method Next() returns (r: Outcome<ClassId>)
      requires Valid()
      modifies this
      ensures Valid()
      ensures old(Remaining()) == [] ==> r == Fail(NoSuchElement) && target == old(target)
      ensures old(Remaining()) != [] ==> r == Ok(old(Remaining())[0]) && Remaining() == old(Remaining())[1..]
    {
      if target.None? {
        return Fail(NoSuchElement);
      }
      var c := target.value;
      target := table[c].superclass;
      r := Ok(c);
    }

    /** `remove()`: never supported. */
    method Remove() returns (r: Outcome<()>)
      ensures r == Fail(UnsupportedOperation)
    {
      r := Fail(UnsupportedOperation);
    }

    /** `stream()`, consumed to the end: every class left, in order, after
        which the iterator is exhausted. */
    method Stream() returns (classes: seq<ClassId>)
      requires Valid()
      modifies this
      ensures Valid()
      ensures classes == old(Remaining())
      ensures !HasNext()
    {
      ghost var all := Remaining();
      classes := [];
      while HasNext()
        invariant Valid()
        invariant classes + Remaining() == all
        decreases if target.Some? then target.value + 1 else 0
      {
        ghost var before := Remaining();
        var c := Next();
        assert before == [c.value] + Remaining();
        assert (classes + [c.value]) + Remaining() == classes + before;
        classes := classes + [c.value];
      }
      assert Remaining() == [];
      assert classes == all;
    }
  }

  /** Walking a class with the iterator gives exactly the hierarchy `Mirror`
      collects: the class itself, then each superclass up to the root, one
      `next()` per class. */
  method IterateHierarchy(table: ClassTable, c: ClassId) returns (classes: seq<ClassId>)
    requires WellFormed(table) && c < |table|
    ensures classes == Walk(table, Some(c))
    ensures classes[0] == c && |classes| <= c + 1
  {
    var it := new ClassIterator(table, Some(c));
    classes := it.Stream();
    WalkDescends(table, Some(c));
  }
}
