/**
 * getAllFields: the fields reflection finds on a class and its superclasses,
 * the class's own first, stopping at java.lang.Object or at the top of the
 * chain. Fields that share a name are all kept.
 */
module ClassFields {
  import opened JavaHeap

  /** One class of a superclass chain and the fields it declares itself. */
  datatype ClassDecl = ClassDecl(cls: JClass, declaredFields: seq<FieldDecl>)

  /** Fields of chain[0], chain[1], ... up to but excluding the first java.lang.Object. */
  function FieldsBelowObject(chain: seq<ClassDecl>): seq<FieldDecl>
  {
    if chain == [] || chain[0].cls.name == ObjectName then []
    else chain[0].declaredFields + FieldsBelowObject(chain[1..])
  }

  /** Where the fields of chain[i] start in the result. */
  function Offset(chain: seq<ClassDecl>, i: nat): nat
    requires i <= |chain|
  {
    if i == 0 then 0 else Offset(chain, i - 1) + |chain[i - 1].declaredFields|
  }

  /** No class before index i is java.lang.Object. */
  predicate BelowObject(chain: seq<ClassDecl>, i: nat)
    requires i <= |chain|
  {
    forall k :: 0 <= k < i ==> chain[k].cls.name != ObjectName
  }

  method GetAllFields(chain: seq<ClassDecl>) returns (fields: seq<FieldDecl>)
    ensures fields == FieldsBelowObject(chain)
  {
    fields := [];
    var i := 0;
    while i < |chain| && chain[i].cls.name != ObjectName
      invariant 0 <= i <= |chain|
      invariant fields + FieldsBelowObject(chain[i..]) == FieldsBelowObject(chain)
    {
      assert chain[i..][1..] == chain[i + 1..];
      fields := fields + chain[i].declaredFields;
      i := i + 1;
    }
    assert FieldsBelowObject(chain[i..]) == [];
  }

  /**
   * Every field declared below java.lang.Object is in the result, the
   * class's own fields first and each superclass's after its subclass's:
   * field j of chain[i] sits at Offset(chain, i) + j.
   */
  lemma {:induction false} FieldPosition(chain: seq<ClassDecl>, i: nat, j: nat)
    requires i < |chain| && BelowObject(chain, i + 1)
    requires j < |chain[i].declaredFields|
    ensures Offset(chain, i) + j < |FieldsBelowObject(chain)|
    ensures FieldsBelowObject(chain)[Offset(chain, i) + j] == chain[i].declaredFields[j]
  {
    if i == 0 {
    } else {
      var rest := chain[1..];
      assert BelowObject(rest, i) by {
        forall k | 0 <= k < i ensures rest[k].cls.name != ObjectName {
          assert rest[k] == chain[k + 1];
        }
      }
      FieldPosition(rest, i - 1, j);
      OffsetShift(chain, i);
    }
  }

  lemma {:induction false} OffsetShift(chain: seq<ClassDecl>, i: nat)
    requires 0 < i <= |chain|
    ensures Offset(chain, i) == |chain[0].declaredFields| + Offset(chain[1..], i - 1)
  {
    if i > 1 {
      OffsetShift(chain, i - 1);
    }
  }
}
