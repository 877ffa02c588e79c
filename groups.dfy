/**
 * `_Group`: a colour, the stones of one chain and the chain's liberties.
 * A group holds its two point sets by value (as the C++ struct does), so it
 * is a datatype here; the board keeps groups in an arena keyed by id.
 */
module Groups {
  import opened Wrappers
  import opened Geometry

  datatype Group = Group(color: Color, stones: set<Pos>, liberties: set<Pos>)

  datatype MergeError = DifferentColors

  /** The single-stone constructor: one stone and the liberties found for it. */
  function Singleton(color: Color, stone: Pos, liberties: set<Pos>): (g: Group)
    ensures g.color == color
    ensures forall p :: p in g.stones <==> p == stone
    ensures g.liberties == liberties
  {
    Group(color, {stone}, liberties)
  }

  /** `numLiberties`. */
  function NumLiberties(g: Group): (n: nat)
    ensures n == 0 <==> g.liberties == {}
    ensures n == |g.liberties|
  {
    |g.liberties|
  }

  /** `isDead`: no liberty is left. */
  predicate IsDead(g: Group)
    ensures IsDead(g) <==> g.liberties == {}
  {
    NumLiberties(g) == 0
  }

  /**
   * `operator+=` / `operator+` with the evident intent: two groups of one
   * colour become one whose stones are both stone sets and whose liberties
   * are both liberty sets with every merged stone taken out; groups of
   * different colours cannot be merged.
   */
  function Merge(g: Group, other: Group): (r: Result<Group, MergeError>)
    ensures r.Ok? <==> g.color == other.color
    ensures r.Ok? ==> r.value.color == g.color
    ensures r.Ok? ==> forall p :: p in r.value.stones <==> p in g.stones || p in other.stones
    ensures r.Ok? ==> forall p :: p in r.value.liberties <==>
      (p in g.liberties || p in other.liberties) && p !in g.stones && p !in other.stones
  {
    if g.color == other.color then
      var stones := g.stones + other.stones;
      Ok(Group(g.color, stones, (g.liberties + other.liberties) - stones))
    else
      Err(DifferentColors)
  }

  /**
   * `operator+=` exactly as written: a same-colour merge is carried out on
   * the receiver, and then the "different colours" exception is thrown on
   * every path, so no call ever yields a group.
   */
  function MergeAsWritten(g: Group, other: Group): (r: Result<Group, MergeError>)
  {
    Err(DifferentColors)
  }

  /** As written, even two groups of one colour fail to merge. */
  lemma MergeAsWrittenAlwaysFails(g: Group, other: Group)
    requires g.color == other.color
    ensures MergeAsWritten(g, other).Err?
    ensures Merge(g, other).Ok?
  {
  }

  /** A merged group never lists one of its own stones as a liberty. */
  lemma MergedLibertiesAvoidStones(g: Group, other: Group)
    requires g.color == other.color
    ensures Merge(g, other).value.liberties !! Merge(g, other).value.stones
  {
  }

  /** The order in which two groups are merged does not matter. */
  lemma MergeCommutes(g: Group, other: Group)
    requires g.color == other.color
    ensures Merge(g, other) == Merge(other, g)
  {
    var a, b := Merge(g, other).value, Merge(other, g).value;
    assert a.stones == b.stones;
    assert a.liberties == b.liberties;
  }

  /** Merging a chain of groups gives the same group whichever way it is bracketed. */
  lemma MergeAssociates(a: Group, b: Group, c: Group)
    requires a.color == b.color == c.color
    ensures Merge(Merge(a, b).value, c) == Merge(a, Merge(b, c).value)
  {
    var l, r := Merge(Merge(a, b).value, c).value, Merge(a, Merge(b, c).value).value;
    assert l.stones == r.stones;
    assert l.liberties == r.liberties;
  }
}
