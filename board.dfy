/**
 * `Board`: the 9×9 grid of group references and the set of active groups.
 * A grid cell holds the id of the group occupying the point (`None` for an
 * empty point, the null `shared_ptr`); the groups themselves live in the
 * arena `groups`, and `nextId` is the next unused id. Every method is proved
 * to compute the corresponding function on `Rules.State`.
 */
module GoBoard {
  import opened Wrappers
  import opened Geometry
  import opened Groups
  import opened Rules
  import opened RulesLemmas
  import opened PlaceProof

  class Board {
    const grid: array2<Option<GroupId>>
    var groups: map<GroupId, Group>
    var active: set<GroupId>
    var nextId: GroupId

    /** The grid is 9 by 9. */
    ghost predicate Shape() {
      grid.Length0 == Size && grid.Length1 == Size
    }

    /** The grid as a map from board points to cells. */
    ghost function Cells(): map<Pos, Option<GroupId>>
      reads grid
      requires Shape()
    {
      map p | p in AllPoints() :: grid[p.row, p.col]
    }

    /** The board as a value. */
    ghost function Model(): State
      reads this, grid
      requires Shape()
    {
      State(Cells(), groups, active, nextId)
    }

    ghost predicate Valid()
      reads this, grid
    {
      Shape() && Rules.Valid(Model())
    }

    /** `Board()`: an empty grid and no active group. */
    constructor ()
      ensures Valid()
      ensures Model() == EmptyState()
      ensures fresh(grid)
    {
      grid := new Option<GroupId>[Size, Size]((row, col) => None);
      groups := map[];
      active := {};
      nextId := 0;
      new;
      assert Cells() == EmptyState().cells;
    }

    /** `getGroupPtr(p)` / `operator[]`: the group occupying an on-board point. */
    function At(p: Pos): (r: Option<GroupId>)
      reads grid
      requires Shape() && IsPosValid(p)
      ensures r == Cells()[p]
    {
      grid[p.row, p.col]
    }

    /**
     * The classification loop of `place_stone`: the adjacent groups of
     * `color`, the adjacent groups of the other colour, and the empty
     * on-board neighbours.
     */
    method Classify(color: Color, pos: Pos) returns (friends: set<GroupId>, enemies: set<GroupId>, liberties: set<Pos>)
      requires Valid()
      ensures friends == Friends(Model(), color, pos)
      ensures enemies == Enemies(Model(), color, pos)
      ensures liberties == EmptyNeighbors(Model(), pos)
    {
      ghost var s := Model();
      var ns := Neighbors(pos);
      friends, enemies, liberties := {}, {}, {};
      for i := 0 to |ns|
        invariant friends == OwnersIn(s, color, ns[..i])
        invariant enemies == OwnersIn(s, Opponent(color), ns[..i])
        invariant liberties == EmptyIn(s, ns[..i])
      {
        var p := ns[i];
        PrefixStep(s, color, ns, i);
        PrefixStep(s, Opponent(color), ns, i);
        if IsPosValid(p) {
          var cell := grid[p.row, p.col];
          assert cell == s.cells[p];
          if cell.Some? {
            var g := groups[cell.value];
            if g.color == color {
              friends := friends + {cell.value};
            } else {
              enemies := enemies + {cell.value};
            }
          } else {
            liberties := liberties + {p};
          }
        }
      }
      assert ns[..|ns|] == ns;
    }

    /**
     * The merge loop of `place_stone`: a single stone at `pos` with the
     * given liberties absorbs every listed friend with `+=`.
     */
    method MergeFriends(color: Color, pos: Pos, friends: set<GroupId>, liberties: set<Pos>) returns (g: Group)
      requires forall f :: f in friends ==> f in groups && groups[f].color == color
      requires pos !in liberties
      ensures g.color == color
      ensures g.stones == {pos} + StonesOf(groups, friends)
      ensures g.liberties == (liberties + LibertiesOf(groups, friends)) - g.stones
    {
      g := Singleton(color, pos, liberties);
      var todo := friends;
      while todo != {}
        invariant todo <= friends
        invariant g.color == color
        invariant g.stones == {pos} + StonesOf(groups, friends - todo)
        invariant g.liberties == (liberties + LibertiesOf(groups, friends - todo)) - g.stones
      {
        var f :| f in todo;
        StonesOfAdd(groups, friends - todo, f);
        LibertiesOfAdd(groups, friends - todo, f);
        assert friends - (todo - {f}) == (friends - todo) + {f};
        var merged := Merge(g, groups[f]);
        g := merged.value;
        todo := todo - {f};
      }
    }

    /** The absorbed friends leave the active set, one by one. */
    method RetireFriends(friends: set<GroupId>)
      modifies this
      ensures active == old(active) - friends
      ensures groups == old(groups) && nextId == old(nextId)
    {
      var todo := friends;
      while todo != {}
        invariant todo <= friends
        invariant active == old(active) - (friends - todo)
        invariant groups == old(groups) && nextId == old(nextId)
      {
        var f :| f in todo;
        active := active - {f};
        todo := todo - {f};
      }
    }

    /** The new group is entered under a fresh id, made active and painted on the grid. */
    method PutGroup(g: Group) returns (id: GroupId)
      requires Shape()
      requires forall p :: p in g.stones ==> IsPosValid(p)
      modifies this, grid
      ensures id == old(nextId) && nextId == id + 1
      ensures groups == old(groups)[id := g]
      ensures active == old(active) + {id}
      ensures Cells() == Paint(old(Cells()), g.stones, id)
    {
      id := nextId;
      nextId := nextId + 1;
      groups := groups[id := g];
      active := active + {id};
      var todo := g.stones;
      while todo != {}
        invariant todo <= g.stones
        invariant id == old(nextId) && nextId == id + 1
        invariant groups == old(groups)[id := g] && active == old(active) + {id}
        invariant forall q :: IsPosValid(q) ==>
          grid[q.row, q.col] == if q in g.stones - todo then Some(id) else old(grid[q.row, q.col])
      {
        var p :| p in todo;
        grid[p.row, p.col] := Some(id);
        todo := todo - {p};
      }
      assert Cells() == Paint(old(Cells()), g.stones, id);
    }

    /** `removeDeadGroup(g)`: `g` leaves the active set and each of its points is emptied. */
    method RemoveDeadGroup(g: GroupId)
      requires Shape() && g in groups
      requires forall p :: p in groups[g].stones ==> IsPosValid(p)
      modifies this, grid
      ensures Model() == RemoveGroup(old(Model()), g)
      ensures old(Valid()) && g in old(active) ==> Valid()
    {
      ghost var s0 := Model();
      active := active - {g};
      var stones := groups[g].stones;
      var todo := stones;
      while todo != {}
        invariant todo <= stones
        invariant groups == old(groups) && active == old(active) - {g} && nextId == old(nextId)
        invariant forall q :: IsPosValid(q) ==>
          grid[q.row, q.col] == if q in stones - todo then None else old(grid[q.row, q.col])
      {
        var p :| p in todo;
        grid[p.row, p.col] := None;
        todo := todo - {p};
      }
      assert Cells() == Erase(old(Cells()), stones);
      if Rules.Valid(s0) && g in s0.active {
        RemoveGroupPreservesValid(s0, g);
      }
    }

    /**
     * The enemy loop of `place_stone`: each listed enemy loses `pos` as a
     * liberty and is removed when none is left.
     */
    method UpdateEnemies(pos: Pos, enemies: set<GroupId>)
      requires Shape()
      requires forall e :: e in enemies ==> e in groups && forall p :: p in groups[e].stones ==> IsPosValid(p)
      modifies this, grid
      ensures groups == LoseLiberty(old(groups), enemies, pos)
      ensures active == old(active) - CapturedAmong(old(groups), enemies, pos)
      ensures Cells() == Erase(old(Cells()), StonesOf(old(groups), CapturedAmong(old(groups), enemies, pos)))
      ensures nextId == old(nextId)
    {
      ghost var g0, c0 := groups, Cells();
      var todo := enemies;
      while todo != {}
        invariant todo <= enemies
        invariant groups == LoseLiberty(g0, enemies - todo, pos)
        invariant active == old(active) - CapturedAmong(g0, enemies - todo, pos)
        invariant Cells() == Erase(c0, StonesOf(g0, CapturedAmong(g0, enemies - todo, pos)))
        invariant nextId == old(nextId)
      {
        var e :| e in todo;
        ghost var done := enemies - todo;
        assert enemies - (todo - {e}) == done + {e};
        LoseLibertyAdd(g0, done, e, pos);
        CaptureStep(g0, c0, done, e, pos);
        groups := groups[e := groups[e].(liberties := groups[e].liberties - {pos})];
        if IsDead(groups[e]) {
          RemoveDeadGroup(e);
        }
        todo := todo - {e};
      }
    }

    /**
     * The writes of `place_stone`, all after the suicide gate: the friends
     * leave the active set, the merged group is entered and painted, and
     * the enemy loop runs.
     */
    method CommitGroup(pos: Pos, g: Group, friends: set<GroupId>, enemies: set<GroupId>)
      requires Shape()
      requires forall p :: p in g.stones ==> IsPosValid(p)
      requires forall e :: e in enemies ==> e in groups && e != nextId && forall p :: p in groups[e].stones ==> IsPosValid(p)
      modifies this, grid
      ensures Model() == Commit(old(Model()), pos, g, friends, enemies)
    {
      ghost var s := Model();
      RetireFriends(friends);
      var id := PutGroup(g);
      UpdateEnemies(pos, enemies);
      CapturedAmongUpdate(s.groups, enemies, pos, id, g);
      ghost var t := Commit(s, pos, g, friends, enemies);
      assert groups == t.groups;
      assert active == t.active;
      assert Cells() == t.cells;
    }

    /**
     * `place_stone(color, pos)`: refuses an off-board or occupied point and
     * a suicide, and otherwise commits the merged group and captures the
     * enemies left without liberties. The board invariant is kept.
     */
    method PlaceStone(color: Color, pos: Pos) returns (ok: bool)
      requires Valid()
      modifies this, grid
      ensures Valid()
      ensures (ok, Model()) == Place(old(Model()), color, pos)
    {
      ghost var s := Model();
      // The guard as intended: give up on an off-board or occupied point.
      if !IsPosValid(pos) || grid[pos.row, pos.col].Some? {
        return false;
      }
      assert Vacant(s, pos);
      var friends, enemies, liberties := Classify(color, pos);
      NeighborGroupsActive(s, color, pos);
      EmptyInMembership(s, Neighbors(pos));
      var g := MergeFriends(color, pos, friends, liberties);
      assert g == MergedGroup(s, color, pos);
      // Suicide gate, before any write and before captures are considered.
      if IsDead(g) {
        return false;
      }
      PlaceCovers(s, color, pos);
      PlaceAround(s, color, pos);
      forall p | p in g.stones ensures IsPosValid(p) {
        if p != pos {
          assert p in s.cells;
        }
      }
      forall e | e in enemies ensures e in s.groups && e != s.nextId && forall p :: p in s.groups[e].stones ==> IsPosValid(p) {
        forall p | p in s.groups[e].stones ensures IsPosValid(p) {
          StoneOnGrid(s, e, p);
        }
      }
      CommitGroup(pos, g, friends, enemies);
      ok := true;
      PlaceIsCommit(s, color, pos);
      PlacePreservesValid(s, color, pos);
    }

    /** `clear()` as written: every grid cell is reset, the active set is left alone. */
    method ClearAsWritten()
      requires Shape()
      modifies grid
      ensures Model() == ClearedAsWritten(old(Model()))
    {
      for row := 0 to Size
        invariant forall q :: IsPosValid(q) ==>
          grid[q.row, q.col] == if q.row < row then None else old(grid[q.row, q.col])
      {
        for col := 0 to Size
          invariant forall q :: IsPosValid(q) ==>
            grid[q.row, q.col] == if q.row < row || (q.row == row && q.col < col) then None else old(grid[q.row, q.col])
        {
          grid[row, col] := None;
        }
      }
      assert Cells() == ClearedAsWritten(old(Model())).cells;
    }

    /** `clear()` as evidently intended: the grid is reset and no group stays active. */
    method Clear()
      requires Shape()
      modifies this, grid
      ensures Model() == Cleared(old(Model()))
      ensures old(Rules.Arena(Model())) ==> Valid()
    {
      ClearAsWritten();
      active := {};
      if old(Rules.Arena(Model())) {
        ClearLeavesEmptyBoard(old(Model()));
      }
    }

    /**
     * `copy()` as an independent value copy: a fresh board whose grid and
     * active set are this board's and whose active groups are copied.
     */
    method Copy() returns (res: Board)
      requires Valid()
      ensures fresh(res) && fresh(res.grid)
      ensures res.Valid() && res.Model() == Copied(Model())
    {
      res := new Board();
      res.active := active;
      res.nextId := nextId;
      res.groups := Restrict(groups, active);
      assert Valid();
      ghost var s := Model();
      CopyKeepsBoard(s);
      forall id | id in active ensures Painted(id) {
        ActivePainted(id);
      }
      PaintCopies(res);
      forall q | IsPosValid(q) ensures res.grid[q.row, q.col] == grid[q.row, q.col] {
        assert q in s.cells;
      }
      assert res.Cells() == s.cells;
      assert res.Model() == Copied(s);
    }

    /** The loop of `copy()`: the stones of each active group are painted on the grid of `res`. */
    method PaintCopies(res: Board)
      requires Shape() && res.Shape() && res.grid != grid
      requires forall id :: id in active ==> Painted(id)
      requires forall q :: IsPosValid(q) ==> res.grid[q.row, q.col] == None
      modifies res.grid
      ensures forall q :: IsPosValid(q) ==>
        res.grid[q.row, q.col] == if grid[q.row, q.col].Some? && grid[q.row, q.col].value in active then grid[q.row, q.col] else None
    {
      var todo := active;
      while todo != {}
        invariant todo <= active
        invariant forall q :: IsPosValid(q) ==>
          res.grid[q.row, q.col] ==
            if grid[q.row, q.col].Some? && grid[q.row, q.col].value in active - todo then grid[q.row, q.col] else None
      {
        var id :| id in todo;
        CopyStones(res, id);
        todo := todo - {id};
      }
    }

    /** The stones of group `id` are exactly the points that refer to it on the grid. */
    ghost predicate Painted(id: GroupId)
      reads this, grid
      requires Shape()
    {
      && id in groups
      && (forall p :: p in groups[id].stones ==> IsPosValid(p))
      && (forall q :: IsPosValid(q) ==> (q in groups[id].stones <==> grid[q.row, q.col] == Some(id)))
    }

    /** In a valid board every active group is painted. */
    lemma ActivePainted(id: GroupId)
      requires Valid() && id in active
      ensures Painted(id)
    {
      forall q | IsPosValid(q) ensures q in groups[id].stones <==> grid[q.row, q.col] == Some(id) {
        assert q in Model().cells;
      }
    }

    /** The inner loop of `copy()`: every stone of group `id` refers to its copy in `res`. */
    method CopyStones(res: Board, id: GroupId)
      requires Shape() && res.Shape() && res.grid != grid
      requires Painted(id)
      modifies res.grid
      ensures forall q :: IsPosValid(q) ==>
        res.grid[q.row, q.col] == if grid[q.row, q.col] == Some(id) then Some(id) else old(res.grid[q.row, q.col])
    {
      var stones := groups[id].stones;
      var todo := stones;
      while todo != {}
        invariant todo <= stones
        invariant forall q :: IsPosValid(q) ==>
          res.grid[q.row, q.col] == if q in stones - todo then Some(id) else old(res.grid[q.row, q.col])
      {
        var p :| p in todo;
        res.grid[p.row, p.col] := Some(id);
        todo := todo - {p};
      }
    }
  }
}
