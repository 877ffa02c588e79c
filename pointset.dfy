/**
 * `Positions`: a set of board points kept in the row-major order of
 * `Geometry.Less`. Only membership matters (the order is visible only
 * through `GetAny`), so the elements are held as a Dafny `set` that the
 * mutators reassign in place.
 */
module PointSet {
  import opened Geometry

  class Positions {
    var elements: set<Pos>

    /** The empty point set. */
    constructor ()
      ensures elements == {}
    {
      elements := {};
    }

    /** The range constructor: the distinct points of `e`. */
    constructor FromSeq(e: seq<Pos>)
      ensures forall p :: p in elements <==> p in e
    {
      elements := set p | p in e;
    }

    /** `has`: membership test. */
    function Has(p: Pos): (r: bool)
      reads this
      ensures r <==> p in elements
    {
      p in elements
    }

    /** `count`: the number of distinct points held. */
    function Count(): (n: nat)
      reads this
      ensures n == 0 <==> elements == {}
      ensures n == |elements|
    {
      |elements|
    }

    /** `operator+=(Pos)`: insert one point (no effect if present). */
    method Insert(p: Pos)
      modifies this
      ensures elements == old(elements) + {p}
    {
      elements := elements + {p};
    }

    /**
     * `operator-=(Pos)`: erase one point and report whether it was there;
     * every other element stays.
     */
    method Remove(p: Pos) returns (res: bool)
      modifies this
      ensures res <==> p in old(elements)
      ensures p !in elements
      ensures forall q :: q != p ==> (q in elements <==> q in old(elements))
    {
      res := Has(p);
      elements := elements - {p};
    }

    /** `getAny`: the first element in row-major order (undefined on an empty set). */
    ghost function GetAny(): (p: Pos)
      reads this
      requires elements != {}
      ensures p in elements
      ensures forall q :: q in elements ==> !Less(q, p)
    {
      Least(elements)
    }

    /** `operator+(Positions)`: a new point set with every element of both operands. */
    method Union(other: Positions) returns (res: Positions)
      ensures fresh(res)
      ensures forall p :: p in res.elements <==> p in elements || p in other.elements
    {
      var merged := elements;
      var todo := other.elements;
      while todo != {}
        invariant todo <= other.elements
        invariant merged == elements + (other.elements - todo)
        decreases todo
      {
        var p :| p in todo;
        merged := merged + {p};
        todo := todo - {p};
      }
      res := new Positions();
      res.elements := merged;
    }

    /** `operator+=(Positions)`: insert every element of `other`. */
    method InsertAll(other: Positions)
      modifies this
      ensures elements == old(elements) + old(other.elements)
    {
      var todo := other.elements;
      ghost var added := other.elements;
      while todo != {}
        invariant todo <= added
        invariant elements == old(elements) + (added - todo)
        decreases todo
      {
        var p :| p in todo;
        elements := elements + {p};
        todo := todo - {p};
      }
    }

    /** `operator-=(range)`: erase every point the range yields. */
    method RemoveAll(stones: seq<Pos>)
      modifies this
      ensures forall p :: p in elements <==> p in old(elements) && p !in stones
    {
      for i := 0 to |stones|
        invariant forall p :: p in elements <==> p in old(elements) && p !in stones[..i]
      {
        var _ := Remove(stones[i]);
      }
    }
  }

  /** The least point of a non-empty set in row-major order. */
  ghost function Least(s: set<Pos>): (p: Pos)
    requires s != {}
    ensures p in s
    ensures forall q :: q in s ==> !Less(q, p)
    decreases |s|
  {
    var x :| x in s;
    if s == {x} then
      assert forall q :: q in s ==> q == x;
      x
    else
      var m := Least(s - {x});
      assert forall q :: q in s ==> q == x || q in s - {x};
      if Less(x, m) then x else m
  }
}
