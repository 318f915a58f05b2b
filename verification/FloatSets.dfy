/** Float64Set of utils/set_float.go.  A map iterates in any order; a loop here picks the next
    element at will. */
module FloatSets {
  import opened PriceLists
  import opened Wrappers

  class Float64Set {
    var values: set<Price>

    constructor (ele: seq<Price>)
      ensures values == Elements(ele)
    {
      values := {};
      new;
      Append(ele);
    }

    method Append(elements: seq<Price>)
      modifies this
      ensures values == old(values) + Elements(elements)
    {
      for i := 0 to |elements|
        invariant values == old(values) + Elements(elements[..i])
      {
        assert elements[..i + 1] == elements[..i] + [elements[i]];
        values := values + {elements[i]};
      }
      assert elements[..|elements|] == elements;
    }

    /** Every element once, in no particular order. */
    method Values() returns (keys: seq<Price>)
      ensures forall i, j :: 0 <= i < j < |keys| ==> keys[i] != keys[j]
      ensures Elements(keys) == values
    {
      keys := [];
      var rest := values;
      while rest != {}
        invariant rest <= values && Elements(keys) == values - rest
        invariant forall i, j :: 0 <= i < j < |keys| ==> keys[i] != keys[j]
      {
        ghost var some := Member(rest);
        var k :| k in rest;
        assert k !in Elements(keys);
        assert Elements(keys + [k]) == Elements(keys) + {k};
        keys := keys + [k];
        rest := rest - {k};
      }
    }

    predicate Exist(v: Price)
      reads this
    {
      v in values
    }

    method Copy() returns (n: Float64Set)
      ensures fresh(n) && n.values == values
    {
      var keys := Values();
      n := new Float64Set(keys);
    }

    method Add(other: Float64Set) returns (n: Float64Set)
      ensures fresh(n) && n.values == values + other.values
    {
      n := Copy();
      var rest := other.values;
      while rest != {}
        invariant rest <= other.values && n.values == values + (other.values - rest)
      {
        ghost var some := Member(rest);
        var k :| k in rest;
        n.values := n.values + {k};
        rest := rest - {k};
      }
    }

    method Sub(other: Float64Set) returns (n: Float64Set)
      ensures fresh(n) && n.values == values - other.values
    {
      n := Copy();
      var rest := other.values;
      while rest != {}
        invariant rest <= other.values && n.values == values - (other.values - rest)
      {
        ghost var some := Member(rest);
        var k :| k in rest;
        if Exist(k) {
          n.values := n.values - {k};
        }
        rest := rest - {k};
      }
    }

    /** Join only deletes what the receiver does not hold, so it returns a copy of the receiver.  That
        is the documented intersection exactly when the other set holds all of the receiver. */
    method Join(other: Float64Set) returns (n: Float64Set)
      ensures fresh(n) && n.values == values
      ensures n.values == values * other.values <==> values <= other.values
    {
      n := Copy();
      var rest := other.values;
      while rest != {}
        invariant n.values == values
      {
        ghost var some := Member(rest);
        var k :| k in rest;
        if !Exist(k) {
          n.values := n.values - {k};
        }
        rest := rest - {k};
      }
    }
  }
}
