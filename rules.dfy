/**
 * The board as a value: which group occupies each point, the arena of
 * groups keyed by id, the set of active groups and the next fresh id.
 * `Place` and `RemoveGroup` state in closed form what `place_stone` and
 * `removeDeadGroup` do to it; `GoBoard.Board` is proved to compute them.
 */
module Rules {
  import opened Wrappers
  import opened Geometry
  import opened Groups

  /** Arena key that stands for a `shared_ptr<_Group>`. */
  type GroupId = nat

  datatype State = State(
    cells: map<Pos, Option<GroupId>>,
    groups: map<GroupId, Group>,
    active: set<GroupId>,
    nextId: GroupId)

  /** Every point of the board. */
  function AllPoints(): (r: set<Pos>)
    ensures forall p :: p in r <==> IsPosValid(p)
  {
    var r := set row, col | 0 <= row < Size && 0 <= col < Size :: Pos(row, col);
    assert forall p :: IsPosValid(p) ==> p in r by {
      forall p | IsPosValid(p) ensures p in r { assert p == Pos(p.row, p.col); }
    }
    r
  }

  /** A board with no stones and no groups. */
  function EmptyState(): (s: State)
    ensures forall p :: p in s.cells <==> IsPosValid(p)
    ensures forall p :: p in s.cells ==> s.cells[p] == None
    ensures s.groups == map[] && s.active == {} && s.nextId == 0
  {
    State(map p | p in AllPoints() :: None, map[], {}, 0)
  }

  /** The cells are exactly the points of the board. */
  ghost predicate Domain(s: State) {
    forall p :: p in s.cells <==> IsPosValid(p)
  }

  /** Active groups are in the arena, and the next id is fresh. */
  ghost predicate Arena(s: State) {
    s.active <= s.groups.Keys && forall id :: id in s.groups ==> id < s.nextId
  }

  /** Every occupied point refers to an active group that holds the point. */
  ghost predicate GridToActive(s: State) {
    forall p, id :: p in s.cells && s.cells[p] == Some(id) ==>
      id in s.active && id in s.groups && p in s.groups[id].stones
  }

  /** Every stone of an active group refers back to that group on the grid. */
  ghost predicate ActiveToGrid(s: State) {
    forall id, p :: id in s.active && id in s.groups && p in s.groups[id].stones ==>
      p in s.cells && s.cells[p] == Some(id)
  }

  /** No active group is empty or dead. */
  ghost predicate Alive(s: State) {
    forall id :: id in s.active && id in s.groups ==>
      s.groups[id].stones != {} && s.groups[id].liberties != {}
  }

  /** Liberties of active groups are empty board points. */
  ghost predicate LibertiesEmpty(s: State) {
    forall id, p :: id in s.active && id in s.groups && p in s.groups[id].liberties ==>
      p in s.cells && s.cells[p] == None
  }

  /** Each liberty of an active group is next to one of its stones. */
  ghost predicate LibertiesAdjacent(s: State) {
    forall id, p :: id in s.active && id in s.groups && p in s.groups[id].liberties ==>
      exists q :: q in s.groups[id].stones && Adjacent(p, q)
  }

  /**
   * The board invariant: the grid and the active groups agree, each active
   * group is a non-empty, still-alive chain, and each of its liberties is an
   * empty on-board point next to one of its stones.
   */
  ghost predicate Valid(s: State) {
    && Domain(s)
    && Arena(s)
    && GridToActive(s)
    && ActiveToGrid(s)
    && Alive(s)
    && LibertiesEmpty(s)
    && LibertiesAdjacent(s)
  }

  /** All stones of the listed groups. */
  function StonesOf(groups: map<GroupId, Group>, ids: set<GroupId>): set<Pos> {
    set id, p | id in ids && id in groups && p in groups[id].stones :: p
  }

  /** All liberties of the listed groups. */
  function LibertiesOf(groups: map<GroupId, Group>, ids: set<GroupId>): set<Pos> {
    set id, p | id in ids && id in groups && p in groups[id].liberties :: p
  }

  /** Colour of the stone at `p`; empty and off-board points have none. */
  function ColorAt(s: State, p: Pos): Option<Color> {
    if p in s.cells && s.cells[p].Some? && s.cells[p].value in s.groups
    then Some(s.groups[s.cells[p].value].color)
    else None
  }

  /** The group at `q` when it holds a stone of colour `c`. */
  function OwnerIf(s: State, c: Color, q: Pos): set<GroupId> {
    if ColorAt(s, q) == Some(c) then {s.cells[q].value} else {}
  }

  /** The groups of colour `c` met on the points `ns`, without repetition. */
  function OwnersIn(s: State, c: Color, ns: seq<Pos>): set<GroupId> {
    if ns == [] then {} else OwnersIn(s, c, ns[..|ns| - 1]) + OwnerIf(s, c, ns[|ns| - 1])
  }

  /** `q` itself when it is an empty on-board point. */
  function EmptyIf(s: State, q: Pos): set<Pos> {
    if q in s.cells && s.cells[q].None? then {q} else {}
  }

  /** The empty on-board points among `ns`. */
  function EmptyIn(s: State, ns: seq<Pos>): set<Pos> {
    if ns == [] then {} else EmptyIn(s, ns[..|ns| - 1]) + EmptyIf(s, ns[|ns| - 1])
  }

  /** Adjacent groups of the placing colour (`adj_friends`). */
  function Friends(s: State, color: Color, pos: Pos): set<GroupId> {
    OwnersIn(s, color, Neighbors(pos))
  }

  /** Adjacent groups of the other colour (`adj_enemies`). */
  function Enemies(s: State, color: Color, pos: Pos): set<GroupId> {
    OwnersIn(s, Opponent(color), Neighbors(pos))
  }

  /** Empty on-board neighbours (`newLiberties`). */
  function EmptyNeighbors(s: State, pos: Pos): set<Pos> {
    EmptyIn(s, Neighbors(pos))
  }

  /**
   * The group a stone of `color` at `pos` would form: the stone, every
   * adjacent friendly group, and their liberties without the merged stones.
   */
  function MergedGroup(s: State, color: Color, pos: Pos): (g: Group) {
    var stones := {pos} + StonesOf(s.groups, Friends(s, color, pos));
    Group(color, stones, (EmptyNeighbors(s, pos) + LibertiesOf(s.groups, Friends(s, color, pos))) - stones)
  }

  /** The listed enemy groups whose only liberty, if any, is `pos`: they die when `pos` is filled. */
  function CapturedAmong(groups: map<GroupId, Group>, enemies: set<GroupId>, pos: Pos): set<GroupId> {
    set e | e in enemies && e in groups && groups[e].liberties - {pos} == {}
  }

  /** Adjacent enemy groups that a stone at `pos` captures. */
  function Captured(s: State, color: Color, pos: Pos): set<GroupId> {
    CapturedAmong(s.groups, Enemies(s, color, pos), pos)
  }

  /** Every listed point now refers to group `id`. */
  function Paint(cells: map<Pos, Option<GroupId>>, ps: set<Pos>, id: GroupId): (r: map<Pos, Option<GroupId>>)
    ensures r.Keys == cells.Keys
  {
    map p | p in cells :: if p in ps then Some(id) else cells[p]
  }

  /** Every listed point is now empty. */
  function Erase(cells: map<Pos, Option<GroupId>>, ps: set<Pos>): (r: map<Pos, Option<GroupId>>)
    ensures r.Keys == cells.Keys
  {
    map p | p in cells :: if p in ps then None else cells[p]
  }

  /** The listed groups no longer count `pos` as a liberty. */
  function LoseLiberty(groups: map<GroupId, Group>, ids: set<GroupId>, pos: Pos): (r: map<GroupId, Group>)
    ensures r.Keys == groups.Keys
  {
    map id | id in groups :: if id in ids then groups[id].(liberties := groups[id].liberties - {pos}) else groups[id]
  }

  /** The evidently intended first guard of `place_stone`: on the board and empty. */
  predicate Vacant(s: State, pos: Pos) {
    IsPosValid(pos) && pos in s.cells && s.cells[pos].None?
  }

  /**
   * The first guard of `place_stone` as written: it gives up when the point
   * is off the board or when it is EMPTY (`!grid[row][col]`).
   */
  predicate RejectsAsWritten(s: State, pos: Pos) {
    !IsPosValid(pos) || (pos in s.cells && s.cells[pos].None?)
  }

  /**
   * The board after group `m` is committed at `pos`: it is entered under a
   * fresh id and painted on the grid, the absorbed `friends` leave the
   * active set, every listed enemy loses `pos` as a liberty, and the enemies
   * left without liberties are removed with their stones. The points of a
   * removed enemy are not given back as liberties to the groups around it,
   * just as `removeDeadGroup` does not give them back.
   */
  function Commit(s: State, pos: Pos, m: Group, friends: set<GroupId>, enemies: set<GroupId>): State {
    var id := s.nextId;
    var captured := CapturedAmong(s.groups, enemies, pos);
    State(
      Erase(Paint(s.cells, m.stones, id), StonesOf(s.groups, captured)),
      LoseLiberty(s.groups[id := m], enemies, pos),
      (s.active - friends + {id}) - captured,
      id + 1)
  }

  /**
   * `place_stone(color, pos)`: the success flag and the board afterwards.
   * The suicide gate runs before enemy captures, in the source's order.
   */
  function Place(s: State, color: Color, pos: Pos): (bool, State) {
    if !Vacant(s, pos) then (false, s)
    else if IsDead(MergedGroup(s, color, pos)) then (false, s)
    else (true, Commit(s, pos, MergedGroup(s, color, pos), Friends(s, color, pos), Enemies(s, color, pos)))
  }

  /**
   * `removeDeadGroup(g)`: drop `g` from the active set and empty its points.
   * The emptied points are not added back to the liberties of neighbouring
   * groups.
   */
  function RemoveGroup(s: State, g: GroupId): State
    requires g in s.groups
  {
    s.(active := s.active - {g}, cells := Erase(s.cells, s.groups[g].stones))
  }

  /** `clear()` as written: every point is emptied and the active set is left as it was. */
  function ClearedAsWritten(s: State): State {
    s.(cells := map p | p in s.cells :: None)
  }

  /** `clear()` as evidently intended: the active set is emptied together with the grid. */
  function Cleared(s: State): State {
    ClearedAsWritten(s).(active := {})
  }

  /** `copy()` as an independent value copy: the same grid and active groups, each group copied by value. */
  function Copied(s: State): State {
    s.(groups := Restrict(s.groups, s.active))
  }

  /** The groups of the arena whose ids are listed. */
  function Restrict(groups: map<GroupId, Group>, ids: set<GroupId>): (r: map<GroupId, Group>)
    ensures r.Keys == groups.Keys * ids
    ensures forall id :: id in r ==> r[id] == groups[id]
  {
    map id | id in ids && id in groups :: groups[id]
  }

  /**
   * `copy()` as written: the copy starts from an empty grid and, for every
   * group of the active set, paints that group's stones with a fresh copy of
   * it (here the id `nextId + id`); the grid of the original is never read.
   * The copy's active set still names the original groups.
   */
  ghost function CopiedAsWritten(s: State): State {
    State(
      map p | p in AllPoints() :: CopyAt(s, p),
      CopyArena(s),
      s.active,
      2 * s.nextId)
  }

  /** Group `id` is active and has a stone at `p`, so the copy loop paints `p` with its copy. */
  predicate PaintedBy(s: State, id: GroupId, p: Pos) {
    id in s.active && id in s.groups && p in s.groups[id].stones
  }

  /**
   * A cell of the copy made as written: the copy of an active group with a
   * stone there, or empty when there is none.
   */
  ghost function CopyAt(s: State, p: Pos): Option<GroupId> {
    if exists id :: PaintedBy(s, id, p) then
      var id :| PaintedBy(s, id, p);
      Some(s.nextId + id)
    else
      None
  }

  /** `id` is the id the copy made as written gives to an active group. */
  predicate NamesCopy(s: State, id: GroupId) {
    id >= s.nextId && id - s.nextId in s.active && id - s.nextId in s.groups
  }

  /** The arena of the copy made as written: the original groups, and each active group `id` copied under `nextId + id`. */
  function CopyArena(s: State): map<GroupId, Group> {
    var copies := set id: GroupId | s.nextId <= id < 2 * s.nextId && NamesCopy(s, id);
    map id | id in s.groups.Keys + copies :: if id in s.groups then s.groups[id] else s.groups[id - s.nextId]
  }
}

module RulesLemmas {
  import opened Wrappers
  import opened Geometry
  import opened Groups
  import opened Rules

  /** A group is met on `ns` exactly when one of the points holds a stone of it of colour `c`. */
  lemma {:induction false} OwnersInMembership(s: State, c: Color, ns: seq<Pos>)
    ensures forall x :: x in OwnersIn(s, c, ns) <==>
      exists q :: q in ns && ColorAt(s, q) == Some(c) && s.cells[q].value == x
  {
    if ns != [] {
      var init := ns[..|ns| - 1];
      OwnersInMembership(s, c, init);
      assert forall q :: q in ns <==> q in init || q == ns[|ns| - 1];
    }
  }

  /** A point is listed exactly when it is among `ns`, on the board and empty. */
  lemma {:induction false} EmptyInMembership(s: State, ns: seq<Pos>)
    ensures forall q :: q in EmptyIn(s, ns) <==> q in ns && q in s.cells && s.cells[q].None?
  {
    if ns != [] {
      var init := ns[..|ns| - 1];
      EmptyInMembership(s, init);
      assert forall q :: q in ns <==> q in init || q == ns[|ns| - 1];
    }
  }

  /** Groups found around a point are active and of the colour that sorted them. */
  lemma NeighborGroupsActive(s: State, color: Color, pos: Pos)
    requires GridToActive(s)
    ensures forall x :: x in Friends(s, color, pos) ==> x in s.active && x in s.groups && s.groups[x].color == color
    ensures forall x :: x in Enemies(s, color, pos) ==> x in s.active && x in s.groups && s.groups[x].color == Opponent(color)
    ensures Friends(s, color, pos) !! Enemies(s, color, pos)
  {
    OwnersInMembership(s, color, Neighbors(pos));
    OwnersInMembership(s, Opponent(color), Neighbors(pos));
    forall x | x in Friends(s, color, pos) ensures x in s.active && x in s.groups && s.groups[x].color == color {
      var q :| q in Neighbors(pos) && ColorAt(s, q) == Some(color) && s.cells[q].value == x;
    }
    forall x | x in Enemies(s, color, pos) ensures x in s.active && x in s.groups && s.groups[x].color == Opponent(color) {
      var q :| q in Neighbors(pos) && ColorAt(s, q) == Some(Opponent(color)) && s.cells[q].value == x;
    }
  }

  /** A group that counts `pos` among its liberties touches `pos`: it is a friend or an enemy there. */
  lemma LibertyOwnerIsNeighbor(s: State, color: Color, pos: Pos, x: GroupId)
    requires GridToActive(s) && ActiveToGrid(s) && LibertiesAdjacent(s)
    requires x in s.groups
    requires x in s.active && pos in s.groups[x].liberties
    ensures x in Friends(s, color, pos) || x in Enemies(s, color, pos)
  {
    var q :| q in s.groups[x].stones && Adjacent(pos, q);
    assert q in Neighbors(pos);
    OwnersInMembership(s, color, Neighbors(pos));
    OwnersInMembership(s, Opponent(color), Neighbors(pos));
    assert s.cells[q] == Some(x);
    assert ColorAt(s, q) == Some(s.groups[x].color);
    if s.groups[x].color == color {
      assert x in Friends(s, color, pos);
    } else {
      assert s.groups[x].color == Opponent(color);
      assert x in Enemies(s, color, pos);
    }
  }

  /** A stone of the merged group other than `pos` was on the grid as a stone of an adjacent friend. */
  lemma MergedStoneAt(s: State, color: Color, pos: Pos, p: Pos)
    requires GridToActive(s) && ActiveToGrid(s)
    requires p in MergedGroup(s, color, pos).stones && p != pos
    ensures p in s.cells && s.cells[p].Some? && s.cells[p].value in Friends(s, color, pos)
  {
    NeighborGroupsActive(s, color, pos);
    var x :| x in Friends(s, color, pos) && x in s.groups && p in s.groups[x].stones;
    assert s.cells[p] == Some(x);
  }

  /** A liberty of the merged group is an empty neighbour of `pos` or a liberty of an adjacent friend. */
  lemma MergedLibertySource(s: State, color: Color, pos: Pos, p: Pos)
    requires p in MergedGroup(s, color, pos).liberties
    ensures (p in Neighbors(pos) && p in s.cells && s.cells[p] == None) ||
      exists x :: x in Friends(s, color, pos) && x in s.groups && p in s.groups[x].liberties
  {
    EmptyInMembership(s, Neighbors(pos));
  }

  /** A liberty of the merged group is an empty point. */
  lemma MergedLibertyEmpty(s: State, color: Color, pos: Pos, p: Pos)
    requires GridToActive(s) && LibertiesEmpty(s)
    requires p in MergedGroup(s, color, pos).liberties
    ensures p in s.cells && s.cells[p] == None
  {
    MergedLibertySource(s, color, pos, p);
    NeighborGroupsActive(s, color, pos);
  }

  /** A liberty of the merged group is next to one of its stones. */
  lemma MergedLibertyAdjacent(s: State, color: Color, pos: Pos, p: Pos)
    requires GridToActive(s) && LibertiesAdjacent(s)
    requires p in MergedGroup(s, color, pos).liberties
    ensures exists q :: q in MergedGroup(s, color, pos).stones && Adjacent(p, q)
  {
    MergedLibertySource(s, color, pos, p);
    NeighborGroupsActive(s, color, pos);
    if p in Neighbors(pos) && p in s.cells && s.cells[p] == None {
      assert Adjacent(p, pos);
      assert pos in MergedGroup(s, color, pos).stones;
    } else {
      var x :| x in Friends(s, color, pos) && x in s.groups && p in s.groups[x].liberties;
      var q :| q in s.groups[x].stones && Adjacent(p, q);
      assert q in MergedGroup(s, color, pos).stones;
    }
  }

  /**
   * The merged group of a vacant point contains the point, and none of its
   * liberties is one of its stones, so the point is not its own liberty.
   */
  lemma MergedGroupShape(s: State, color: Color, pos: Pos)
    requires Valid(s) && Vacant(s, pos)
    ensures pos in MergedGroup(s, color, pos).stones
    ensures pos !in MergedGroup(s, color, pos).liberties
    ensures MergedGroup(s, color, pos).liberties !! MergedGroup(s, color, pos).stones
  {
  }

  /** A placement refused by the first guard changes nothing. */
  lemma PlaceRejectsOffBoardOrOccupied(s: State, color: Color, pos: Pos)
    requires Valid(s)
    requires !IsPosValid(pos) || s.cells[pos].Some?
    ensures Place(s, color, pos) == (false, s)
  {
  }

  /**
   * The first guard as written refuses every point of the empty board,
   * although the intended guard lets a stone be placed there.
   */
  lemma GuardAsWrittenRefusesOpening(color: Color, p: Pos)
    requires IsPosValid(p)
    ensures RejectsAsWritten(EmptyState(), p)
    ensures Place(EmptyState(), color, p).0
  {
    var s := EmptyState();
    var q := if p.col > 0 then Pos(p.row, p.col - 1) else Pos(p.row, p.col + 1);
    assert q in Neighbors(p) && IsPosValid(q);
    EmptyInMembership(s, Neighbors(p));
    assert q in EmptyNeighbors(s, p);
    assert StonesOf(s.groups, Friends(s, color, p)) == {};
    assert q in MergedGroup(s, color, p).liberties;
  }

  /** An accepted placement is the commit of the merged group with the friends and enemies found around the point. */
  lemma PlaceIsCommit(s: State, color: Color, pos: Pos)
    requires Vacant(s, pos) && !IsDead(MergedGroup(s, color, pos))
    ensures Place(s, color, pos) == (true, Commit(s, pos, MergedGroup(s, color, pos), Friends(s, color, pos), Enemies(s, color, pos)))
  {
  }

  /** Suicide: a stone whose merged group would have no liberty is refused and nothing changes. */
  lemma PlaceRejectsSuicide(s: State, color: Color, pos: Pos)
    requires MergedGroup(s, color, pos).liberties == {}
    ensures Place(s, color, pos) == (false, s)
  {
  }

  /** `place_stone` succeeds exactly on a vacant point whose merged group keeps a liberty. */
  lemma PlaceSucceedsIff(s: State, color: Color, pos: Pos)
    ensures Place(s, color, pos).0 <==> Vacant(s, pos) && MergedGroup(s, color, pos).liberties != {}
    ensures !Place(s, color, pos).0 ==> Place(s, color, pos).1 == s
  {
  }
  /** A stone of an active group is a point of the grid. */
  lemma StoneOnGrid(s: State, x: GroupId, p: Pos)
    requires ActiveToGrid(s) && x in s.active && x in s.groups && p in s.groups[x].stones
    ensures p in s.cells && s.cells[p] == Some(x)
  {
  }

  /** Adding one group to a selection adds its stones. */
  lemma StonesOfAdd(groups: map<GroupId, Group>, ids: set<GroupId>, x: GroupId)
    requires x in groups
    ensures StonesOf(groups, ids + {x}) == StonesOf(groups, ids) + groups[x].stones
  {
    assert forall p :: p in groups[x].stones ==> p in StonesOf(groups, ids + {x});
  }

  /** Adding one group to a selection adds its liberties. */
  lemma LibertiesOfAdd(groups: map<GroupId, Group>, ids: set<GroupId>, x: GroupId)
    requires x in groups
    ensures LibertiesOf(groups, ids + {x}) == LibertiesOf(groups, ids) + groups[x].liberties
  {
    assert forall p :: p in groups[x].liberties ==> p in LibertiesOf(groups, ids + {x});
  }

  /** Erasing two point sets one after the other erases their union. */
  lemma EraseTwice(cells: map<Pos, Option<GroupId>>, a: set<Pos>, b: set<Pos>)
    ensures Erase(Erase(cells, a), b) == Erase(cells, a + b)
  {
  }

  /** Taking `pos` from one more group's liberties. */
  lemma LoseLibertyAdd(groups: map<GroupId, Group>, ids: set<GroupId>, x: GroupId, pos: Pos)
    requires x in groups
    ensures LoseLiberty(groups, ids + {x}, pos) ==
      LoseLiberty(groups, ids, pos)[x := groups[x].(liberties := groups[x].liberties - {pos})]
  {
  }

  /** One more enemy handled by the enemy loop: it is captured exactly when `pos` was its last liberty. */
  lemma CaptureStep(groups: map<GroupId, Group>, cells: map<Pos, Option<GroupId>>, done: set<GroupId>, e: GroupId, pos: Pos)
    requires e in groups
    ensures groups[e].liberties - {pos} == {} ==>
      && CapturedAmong(groups, done + {e}, pos) == CapturedAmong(groups, done, pos) + {e}
      && Erase(Erase(cells, StonesOf(groups, CapturedAmong(groups, done, pos))), groups[e].stones) ==
         Erase(cells, StonesOf(groups, CapturedAmong(groups, done + {e}, pos)))
    ensures groups[e].liberties - {pos} != {} ==>
      CapturedAmong(groups, done + {e}, pos) == CapturedAmong(groups, done, pos)
  {
    if groups[e].liberties - {pos} == {} {
      assert CapturedAmong(groups, done + {e}, pos) == CapturedAmong(groups, done, pos) + {e};
      StonesOfAdd(groups, CapturedAmong(groups, done, pos), e);
      EraseTwice(cells, StonesOf(groups, CapturedAmong(groups, done, pos)), groups[e].stones);
    }
  }

  /** Extending the scanned prefix by one point. */
  lemma PrefixStep(s: State, c: Color, ns: seq<Pos>, i: nat)
    requires i < |ns|
    ensures OwnersIn(s, c, ns[..i + 1]) == OwnersIn(s, c, ns[..i]) + OwnerIf(s, c, ns[i])
    ensures EmptyIn(s, ns[..i + 1]) == EmptyIn(s, ns[..i]) + EmptyIf(s, ns[i])
  {
    assert ns[..i + 1][..i] == ns[..i];
  }

  /** Entering a group under an id outside the selection changes neither the captured groups nor their stones. */
  lemma CapturedAmongUpdate(groups: map<GroupId, Group>, enemies: set<GroupId>, pos: Pos, id: GroupId, g: Group)
    requires id !in enemies
    ensures CapturedAmong(groups[id := g], enemies, pos) == CapturedAmong(groups, enemies, pos)
    ensures StonesOf(groups[id := g], CapturedAmong(groups, enemies, pos)) == StonesOf(groups, CapturedAmong(groups, enemies, pos))
  {
  }

  /** In a valid board no liberty of an active group is a stone of any active group. */
  lemma ValidLibertiesAvoidStones(s: State)
    requires Valid(s)
    ensures forall x, y, p ::
      x in s.active && y in s.active && x in s.groups && y in s.groups && p in s.groups[x].liberties ==>
        p !in s.groups[y].stones
  {
    forall x, y, p | x in s.active && y in s.active && x in s.groups && y in s.groups && p in s.groups[x].liberties
      ensures p !in s.groups[y].stones
    {
      assert s.cells[p] == None;
    }
  }

  /** `removeDeadGroup` on an active group keeps the invariant and empties exactly the group's points. */
  lemma RemoveGroupPreservesValid(s: State, g: GroupId)
    requires Valid(s) && g in s.active
    ensures Valid(RemoveGroup(s, g))
    ensures forall p :: p in s.cells ==>
      (RemoveGroup(s, g).cells[p] == None <==> s.cells[p] == None || s.cells[p] == Some(g))
  {
    var t := RemoveGroup(s, g);
    forall p, x | p in t.cells && t.cells[p] == Some(x)
      ensures x in t.active && x in t.groups && p in t.groups[x].stones
    {
      assert s.cells[p] == Some(x);
    }
    forall x, p | x in t.active && x in t.groups && p in t.groups[x].stones
      ensures p in t.cells && t.cells[p] == Some(x)
    {
      assert s.cells[p] == Some(x);
    }
    forall p | p in s.cells
      ensures t.cells[p] == None <==> s.cells[p] == None || s.cells[p] == Some(g)
    {
      if s.cells[p] == Some(g) {
        assert p in s.groups[g].stones;
      }
    }
  }

  /** Clearing as intended leaves a valid board with every point empty. */
  lemma ClearLeavesEmptyBoard(s: State)
    requires Domain(s) && Arena(s)
    ensures Valid(Cleared(s))
    ensures forall p :: p in Cleared(s).cells <==> IsPosValid(p)
    ensures forall p :: p in Cleared(s).cells ==> Cleared(s).cells[p] == None
  {
  }

  /** Clearing as written breaks the invariant on any board with an active group: its stones are gone from the grid. */
  lemma ClearAsWrittenBreaksValid(s: State)
    requires Valid(s) && s.active != {}
    ensures !Valid(ClearedAsWritten(s))
  {
    var id :| id in s.active;
    var p :| p in s.groups[id].stones;
    assert p in ClearedAsWritten(s).cells && ClearedAsWritten(s).cells[p] == None;
  }

  /** The value copy is a valid board with the same grid, the same active set and equal active groups. */
  lemma CopyKeepsBoard(s: State)
    requires Valid(s)
    ensures Valid(Copied(s))
    ensures Copied(s).cells == s.cells && Copied(s).active == s.active
    ensures forall id :: id in s.active ==> id in Copied(s).groups && Copied(s).groups[id] == s.groups[id]
  {
  }

  /** Copying as written breaks the invariant on any board with a stone: the grid names groups outside the active set. */
  lemma CopyAsWrittenBreaksValid(s: State, p: Pos)
    requires Domain(s) && Arena(s) && GridToActive(s) && p in s.cells && s.cells[p].Some?
    ensures !GridToActive(CopiedAsWritten(s))
  {
    assert PaintedBy(s, s.cells[p].value, p);
    var t := CopiedAsWritten(s);
    var id :| PaintedBy(s, id, p) && t.cells[p] == Some(s.nextId + id);
    assert s.nextId + id !in s.active by {
      assert forall x :: x in s.groups ==> x < s.nextId + id;
    }
  }

  /**
   * Clearing as written and then copying as written puts every stone of an
   * active group back on the grid, under the copy of its group: `clear()`
   * leaves the active set behind, and `copy()` paints from it.
   */
  lemma ClearThenCopyRestoresStones(s: State, id: GroupId, p: Pos)
    requires Valid(s) && id in s.active && p in s.groups[id].stones
    ensures p in CopiedAsWritten(ClearedAsWritten(s)).cells
    ensures CopiedAsWritten(ClearedAsWritten(s)).cells[p] == Some(s.nextId + id)
  {
    var c := ClearedAsWritten(s);
    StoneOnGrid(s, id, p);
    assert PaintedBy(c, id, p);
    forall x | PaintedBy(c, x, p) ensures x == id {
      StoneOnGrid(s, x, p);
    }
  }

}

module PlaceProof {
  import opened Wrappers
  import opened Geometry
  import opened Groups
  import opened Rules
  import opened RulesLemmas

  /*
   * The commit is proved correct for any merged group `m`, friend set `F`
   * and enemy set `E` that satisfy the three predicates below; the last
   * lemmas show that the ones `Place` computes do.
   */

  /** The groups around `pos`: active, friends and enemies apart, and every group with `pos` as a liberty among them. */
  ghost predicate Around(s: State, pos: Pos, F: set<GroupId>, E: set<GroupId>) {
    && Vacant(s, pos)
    && F <= s.active && E <= s.active && F !! E
    && forall x :: x in s.active && x in s.groups && pos in s.groups[x].liberties ==> x in F || x in E
  }

  /** The stones of `m` are `pos` and the stones of the friends. */
  ghost predicate Covers(s: State, pos: Pos, m: Group, F: set<GroupId>) {
    && pos in m.stones
    && (forall p :: p in m.stones && p != pos ==> p in s.cells && s.cells[p].Some? && s.cells[p].value in F)
    && (forall x, p :: x in F && x in s.groups && p in s.groups[x].stones ==> p in m.stones)
  }

  /** The liberties of `m` are empty points next to its stones, `pos` is not one, and there is one. */
  ghost predicate Breathes(s: State, pos: Pos, m: Group) {
    && pos !in m.liberties && m.liberties != {}
    && (forall p :: p in m.liberties ==> p in s.cells && s.cells[p] == None)
    && (forall p :: p in m.liberties ==> exists q :: q in m.stones && Adjacent(p, q))
  }

  /** A removed stone belonged on the grid to a captured group, and is not one of the merged stones. */
  lemma GoneStoneAt(s: State, pos: Pos, m: Group, F: set<GroupId>, E: set<GroupId>, p: Pos)
    requires GridToActive(s) && ActiveToGrid(s) && Around(s, pos, F, E) && Covers(s, pos, m, F)
    requires p in StonesOf(s.groups, CapturedAmong(s.groups, E, pos))
    ensures p in s.cells && s.cells[p].Some? && s.cells[p].value in CapturedAmong(s.groups, E, pos)
    ensures p !in m.stones
  {
    var C := CapturedAmong(s.groups, E, pos);
    var x :| x in C && x in s.groups && p in s.groups[x].stones;
    assert s.cells[p] == Some(x);
  }

  /** The fresh id is unused, and captured groups are among the listed enemies. */
  lemma FreshId(s: State, pos: Pos, F: set<GroupId>, E: set<GroupId>)
    requires Arena(s)
    ensures s.nextId !in s.groups
    ensures s.nextId !in CapturedAmong(s.groups, E, pos)
  {
  }

  /** After the commit every occupied point refers to an active group holding it. */
  lemma CommitGridToActiveAt(s: State, pos: Pos, m: Group, F: set<GroupId>, E: set<GroupId>, p: Pos, x: GroupId)
    requires Arena(s) && GridToActive(s) && Covers(s, pos, m, F)
    requires p in Commit(s, pos, m, F, E).cells && Commit(s, pos, m, F, E).cells[p] == Some(x)
    ensures x in Commit(s, pos, m, F, E).active && x in Commit(s, pos, m, F, E).groups
    ensures p in Commit(s, pos, m, F, E).groups[x].stones
  {
    var C := CapturedAmong(s.groups, E, pos);
    FreshId(s, pos, F, E);
    if p !in m.stones {
      assert s.cells[p] == Some(x);
      assert x in C ==> p in StonesOf(s.groups, C);
    }
  }

  /** After the commit the stones of the new group refer to it on the grid. */
  lemma CommitNewGroupOnGrid(s: State, pos: Pos, m: Group, F: set<GroupId>, E: set<GroupId>, p: Pos)
    requires Domain(s) && Arena(s) && GridToActive(s) && ActiveToGrid(s) && Around(s, pos, F, E) && Covers(s, pos, m, F)
    requires p in m.stones
    ensures p in Commit(s, pos, m, F, E).cells && Commit(s, pos, m, F, E).cells[p] == Some(s.nextId)
  {
    if p in StonesOf(s.groups, CapturedAmong(s.groups, E, pos)) {
      GoneStoneAt(s, pos, m, F, E, p);
    }
  }

  /** After the commit the stones of a surviving old group still refer to it on the grid. */
  lemma CommitOldGroupOnGrid(s: State, pos: Pos, m: Group, F: set<GroupId>, E: set<GroupId>, x: GroupId, p: Pos)
    requires Arena(s) && GridToActive(s) && ActiveToGrid(s) && Around(s, pos, F, E) && Covers(s, pos, m, F)
    requires x in s.active - F - CapturedAmong(s.groups, E, pos) && x in s.groups && p in s.groups[x].stones
    ensures p in Commit(s, pos, m, F, E).cells && Commit(s, pos, m, F, E).cells[p] == Some(x)
  {
    var C := CapturedAmong(s.groups, E, pos);
    assert s.cells[p] == Some(x);
    assert p !in m.stones;
    if p in StonesOf(s.groups, C) {
      GoneStoneAt(s, pos, m, F, E, p);
    }
  }

  /** After the commit every stone of an active group refers to it on the grid. */
  lemma CommitActiveToGridAt(s: State, pos: Pos, m: Group, F: set<GroupId>, E: set<GroupId>, x: GroupId, p: Pos)
    requires Domain(s) && Arena(s) && GridToActive(s) && ActiveToGrid(s) && Around(s, pos, F, E) && Covers(s, pos, m, F)
    requires x in Commit(s, pos, m, F, E).active && x in Commit(s, pos, m, F, E).groups
    requires p in Commit(s, pos, m, F, E).groups[x].stones
    ensures p in Commit(s, pos, m, F, E).cells && Commit(s, pos, m, F, E).cells[p] == Some(x)
  {
    FreshId(s, pos, F, E);
    if x == s.nextId {
      CommitNewGroupOnGrid(s, pos, m, F, E, p);
    } else {
      CommitOldGroupOnGrid(s, pos, m, F, E, x, p);
    }
  }

  /** After the commit the new group's liberties are empty points next to its stones. */
  lemma CommitNewLiberty(s: State, pos: Pos, m: Group, F: set<GroupId>, E: set<GroupId>, p: Pos)
    requires Arena(s) && Covers(s, pos, m, F) && Breathes(s, pos, m)
    requires p in m.liberties
    ensures p in Commit(s, pos, m, F, E).cells && Commit(s, pos, m, F, E).cells[p] == None
  {
    assert p in s.cells && s.cells[p] == None;
    assert p !in m.stones;
  }

  /** After the commit a surviving old group's liberties are empty points next to its stones. */
  lemma CommitOldLiberty(s: State, pos: Pos, m: Group, F: set<GroupId>, E: set<GroupId>, x: GroupId, p: Pos)
    requires Arena(s) && LibertiesEmpty(s) && Around(s, pos, F, E) && Covers(s, pos, m, F)
    requires x in s.active - F && x in s.groups
    requires p in s.groups[x].liberties && (p == pos ==> x !in E)
    ensures p in Commit(s, pos, m, F, E).cells && Commit(s, pos, m, F, E).cells[p] == None
  {
    assert p in s.cells && s.cells[p] == None;
    assert p != pos;
    assert p !in m.stones;
  }

  /** After the commit every liberty of an active group is an empty point next to one of its stones. */
  lemma CommitLibertyAt(s: State, pos: Pos, m: Group, F: set<GroupId>, E: set<GroupId>, x: GroupId, p: Pos)
    requires Arena(s) && LibertiesEmpty(s) && LibertiesAdjacent(s)
    requires Around(s, pos, F, E) && Covers(s, pos, m, F) && Breathes(s, pos, m)
    requires x in Commit(s, pos, m, F, E).active && x in Commit(s, pos, m, F, E).groups
    requires p in Commit(s, pos, m, F, E).groups[x].liberties
    ensures p in Commit(s, pos, m, F, E).cells && Commit(s, pos, m, F, E).cells[p] == None
    ensures exists q :: q in Commit(s, pos, m, F, E).groups[x].stones && Adjacent(p, q)
  {
    FreshId(s, pos, F, E);
    if x == s.nextId {
      CommitNewLiberty(s, pos, m, F, E, p);
    } else {
      CommitOldLiberty(s, pos, m, F, E, x, p);
      var q :| q in s.groups[x].stones && Adjacent(p, q);
      assert q in Commit(s, pos, m, F, E).groups[x].stones;
    }
  }

  /** After the commit no active group is empty or dead. */
  lemma CommitAliveAt(s: State, pos: Pos, m: Group, F: set<GroupId>, E: set<GroupId>, x: GroupId)
    requires Arena(s) && Alive(s) && Covers(s, pos, m, F) && Breathes(s, pos, m)
    requires x in Commit(s, pos, m, F, E).active && x in Commit(s, pos, m, F, E).groups
    ensures Commit(s, pos, m, F, E).groups[x].stones != {}
    ensures Commit(s, pos, m, F, E).groups[x].liberties != {}
  {
    FreshId(s, pos, F, E);
  }

  lemma CommitGridToActive(s: State, pos: Pos, m: Group, F: set<GroupId>, E: set<GroupId>)
    requires Arena(s) && GridToActive(s) && Covers(s, pos, m, F)
    ensures GridToActive(Commit(s, pos, m, F, E))
  {
    var t := Commit(s, pos, m, F, E);
    forall p, x | p in t.cells && t.cells[p] == Some(x)
      ensures x in t.active && x in t.groups && p in t.groups[x].stones
    {
      CommitGridToActiveAt(s, pos, m, F, E, p, x);
    }
  }

  lemma CommitActiveToGrid(s: State, pos: Pos, m: Group, F: set<GroupId>, E: set<GroupId>)
    requires Domain(s) && Arena(s) && GridToActive(s) && ActiveToGrid(s) && Around(s, pos, F, E) && Covers(s, pos, m, F)
    ensures ActiveToGrid(Commit(s, pos, m, F, E))
  {
    var t := Commit(s, pos, m, F, E);
    forall x, p | x in t.active && x in t.groups && p in t.groups[x].stones
      ensures p in t.cells && t.cells[p] == Some(x)
    {
      CommitActiveToGridAt(s, pos, m, F, E, x, p);
    }
  }

  lemma CommitAlive(s: State, pos: Pos, m: Group, F: set<GroupId>, E: set<GroupId>)
    requires Arena(s) && Alive(s) && Covers(s, pos, m, F) && Breathes(s, pos, m)
    ensures Alive(Commit(s, pos, m, F, E))
  {
    var t := Commit(s, pos, m, F, E);
    forall x | x in t.active && x in t.groups
      ensures t.groups[x].stones != {} && t.groups[x].liberties != {}
    {
      CommitAliveAt(s, pos, m, F, E, x);
    }
  }

  lemma CommitLiberties(s: State, pos: Pos, m: Group, F: set<GroupId>, E: set<GroupId>)
    requires Arena(s) && LibertiesEmpty(s) && LibertiesAdjacent(s)
    requires Around(s, pos, F, E) && Covers(s, pos, m, F) && Breathes(s, pos, m)
    ensures LibertiesEmpty(Commit(s, pos, m, F, E))
    ensures LibertiesAdjacent(Commit(s, pos, m, F, E))
  {
    var t := Commit(s, pos, m, F, E);
    forall x, p | x in t.active && x in t.groups && p in t.groups[x].liberties
      ensures p in t.cells && t.cells[p] == None
      ensures exists q :: q in t.groups[x].stones && Adjacent(p, q)
    {
      CommitLibertyAt(s, pos, m, F, E, x, p);
    }
  }

  /** Committing a merged group that satisfies the three predicates keeps the board invariant. */
  lemma CommitPreservesValid(s: State, pos: Pos, m: Group, F: set<GroupId>, E: set<GroupId>)
    requires Valid(s) && Around(s, pos, F, E) && Covers(s, pos, m, F) && Breathes(s, pos, m)
    ensures Valid(Commit(s, pos, m, F, E))
  {
    FreshId(s, pos, F, E);
    CommitGridToActive(s, pos, m, F, E);
    CommitActiveToGrid(s, pos, m, F, E);
    CommitAlive(s, pos, m, F, E);
    CommitLiberties(s, pos, m, F, E);
  }

  /** The groups `Place` finds around a vacant point satisfy `Around`. */
  lemma PlaceAround(s: State, color: Color, pos: Pos)
    requires Valid(s) && Vacant(s, pos)
    ensures Around(s, pos, Friends(s, color, pos), Enemies(s, color, pos))
  {
    NeighborGroupsActive(s, color, pos);
    forall x | x in s.active && x in s.groups && pos in s.groups[x].liberties
      ensures x in Friends(s, color, pos) || x in Enemies(s, color, pos)
    {
      LibertyOwnerIsNeighbor(s, color, pos, x);
    }
  }

  /** The merged group `Place` builds covers exactly the point and its friends. */
  lemma PlaceCovers(s: State, color: Color, pos: Pos)
    requires Valid(s)
    ensures Covers(s, pos, MergedGroup(s, color, pos), Friends(s, color, pos))
  {
    var m := MergedGroup(s, color, pos);
    var F := Friends(s, color, pos);
    forall p | p in m.stones && p != pos
      ensures p in s.cells && s.cells[p].Some? && s.cells[p].value in F
    {
      MergedStoneAt(s, color, pos, p);
    }
    forall x, p | x in F && x in s.groups && p in s.groups[x].stones
      ensures p in m.stones
    {
      assert p in StonesOf(s.groups, F);
    }
  }

  /** The merged group of an accepted placement breathes. */
  lemma PlaceBreathes(s: State, color: Color, pos: Pos)
    requires Valid(s) && MergedGroup(s, color, pos).liberties != {}
    ensures Breathes(s, pos, MergedGroup(s, color, pos))
  {
    var m := MergedGroup(s, color, pos);
    forall p | p in m.liberties
      ensures p in s.cells && s.cells[p] == None
    {
      MergedLibertyEmpty(s, color, pos, p);
    }
    forall p | p in m.liberties
      ensures exists q :: q in m.stones && Adjacent(p, q)
    {
      MergedLibertyAdjacent(s, color, pos, p);
    }
  }

  /**
   * A placement keeps the board invariant: grid and active groups still
   * agree, every liberty of an active group is an empty on-board point next
   * to one of its stones, and no active group is empty or dead.
   */
  lemma PlacePreservesValid(s: State, color: Color, pos: Pos)
    requires Valid(s)
    ensures Valid(Place(s, color, pos).1)
  {
    if Place(s, color, pos).0 {
      PlaceAround(s, color, pos);
      PlaceCovers(s, color, pos);
      PlaceBreathes(s, color, pos);
      CommitPreservesValid(s, pos, MergedGroup(s, color, pos), Friends(s, color, pos), Enemies(s, color, pos));
    }
  }
  /**
   * After a successful placement the new group is active under the fresh
   * id, it is the merged group, and each of its stones, the placed point
   * among them, refers to it on the grid.
   */
  lemma PlacePutsStone(s: State, color: Color, pos: Pos, p: Pos)
    requires Valid(s) && Place(s, color, pos).0
    requires p in MergedGroup(s, color, pos).stones
    ensures s.nextId in Place(s, color, pos).1.active
    ensures Place(s, color, pos).1.groups[s.nextId] == MergedGroup(s, color, pos)
    ensures p in Place(s, color, pos).1.cells && Place(s, color, pos).1.cells[p] == Some(s.nextId)
  {
    PlaceAround(s, color, pos);
    PlaceCovers(s, color, pos);
    FreshId(s, pos, Friends(s, color, pos), Enemies(s, color, pos));
    CommitNewGroupOnGrid(s, pos, MergedGroup(s, color, pos), Friends(s, color, pos), Enemies(s, color, pos), p);
  }

  /** After a successful placement the placed point holds a stone of the placing colour. */
  lemma PlaceColorsPoint(s: State, color: Color, pos: Pos)
    requires Valid(s) && Place(s, color, pos).0
    ensures ColorAt(Place(s, color, pos).1, pos) == Some(color)
  {
    PlacePutsStone(s, color, pos, pos);
  }

  /** After a successful placement the absorbed friends are no longer active. */
  lemma PlaceRetiresFriends(s: State, color: Color, pos: Pos, x: GroupId)
    requires Valid(s) && Place(s, color, pos).0
    requires x in Friends(s, color, pos)
    ensures x !in Place(s, color, pos).1.active
  {
    NeighborGroupsActive(s, color, pos);
  }

  /** Under the commit a listed enemy loses `pos`, and stays active exactly when it keeps another liberty. */
  lemma CommitEnemy(s: State, pos: Pos, m: Group, F: set<GroupId>, E: set<GroupId>, e: GroupId)
    requires Arena(s) && Around(s, pos, F, E) && e in E && e in s.groups
    ensures e in Commit(s, pos, m, F, E).groups && pos !in Commit(s, pos, m, F, E).groups[e].liberties
    ensures e in Commit(s, pos, m, F, E).active <==> s.groups[e].liberties - {pos} != {}
  {
    FreshId(s, pos, F, E);
  }

  /**
   * After a successful placement an adjacent enemy no longer has the point
   * as a liberty, and it stays active exactly when it keeps another liberty.
   */
  lemma PlaceUpdatesEnemy(s: State, color: Color, pos: Pos, e: GroupId)
    requires Valid(s) && Place(s, color, pos).0
    requires e in Enemies(s, color, pos) && e in s.groups
    ensures e in Place(s, color, pos).1.groups && pos !in Place(s, color, pos).1.groups[e].liberties
    ensures e in Place(s, color, pos).1.active <==> s.groups[e].liberties - {pos} != {}
  {
    PlaceAround(s, color, pos);
    CommitEnemy(s, pos, MergedGroup(s, color, pos), Friends(s, color, pos), Enemies(s, color, pos), e);
  }

  /** Under the commit every stone of a listed enemy without another liberty is erased. */
  lemma CommitClears(s: State, pos: Pos, m: Group, F: set<GroupId>, E: set<GroupId>, e: GroupId, p: Pos)
    requires e in E && e in s.groups && s.groups[e].liberties - {pos} == {}
    requires p in s.cells && p in s.groups[e].stones
    ensures p in Commit(s, pos, m, F, E).cells && Commit(s, pos, m, F, E).cells[p] == None
  {
    assert e in CapturedAmong(s.groups, E, pos);
    assert p in StonesOf(s.groups, CapturedAmong(s.groups, E, pos));
  }

  /** After a successful placement every stone of a captured enemy is gone from the grid. */
  lemma PlaceClearsCaptured(s: State, color: Color, pos: Pos, e: GroupId, p: Pos)
    requires Valid(s) && Place(s, color, pos).0
    requires e in Enemies(s, color, pos) && e in s.groups && s.groups[e].liberties - {pos} == {}
    requires p in s.groups[e].stones
    ensures p in Place(s, color, pos).1.cells && Place(s, color, pos).1.cells[p] == None
  {
    NeighborGroupsActive(s, color, pos);
    StoneOnGrid(s, e, p);
    CommitClears(s, pos, MergedGroup(s, color, pos), Friends(s, color, pos), Enemies(s, color, pos), e, p);
  }

  /** A successful placement changes no point outside the new group and the captured groups. */
  lemma PlaceKeepsOtherPoints(s: State, color: Color, pos: Pos, p: Pos)
    requires Valid(s) && Place(s, color, pos).0
    requires p in s.cells && p !in MergedGroup(s, color, pos).stones
    requires p !in StonesOf(s.groups, Captured(s, color, pos))
    ensures p in Place(s, color, pos).1.cells && Place(s, color, pos).1.cells[p] == s.cells[p]
  {
  }
}
