/**
 * `Move` and the parts of `Bot` that sit on the rules engine: playing a move
 * on the bot's board, the eye test and the atari test. The move-choosing
 * strategies of `Bot` are not part of this model.
 */
module GoBot {
  import opened Wrappers
  import opened Geometry
  import opened Groups
  import opened Rules
  import opened RulesLemmas
  import opened PlaceProof
  import opened GoBoard

  datatype MoveKind = Placement | Resignation

  /** `Move`: the colour that moves, the point, and whether it places a stone or resigns. */
  datatype Move = Move(color: Color, pos: Pos, kind: MoveKind)

  /** `Move::play_at`. */
  function PlayAt(color: Color, p: Pos): Move {
    Move(color, p, Placement)
  }

  /** `Move::resign`: the point is the default one, (0, 0). */
  function Resign(color: Color): Move {
    Move(color, Pos(0, 0), Resignation)
  }

  class Bot {
    const board: Board
    const color: Color

    /** The bot plays `color` on `board`; the strength level is not modelled. */
    constructor (color: Color, board: Board)
      ensures this.board == board && this.color == color
    {
      this.board := board;
      this.color := color;
    }

    /**
     * `play(m)`: a resignation succeeds and leaves the board alone; a
     * placement is `place_stone` with the move's own colour and point.
     */
    method Play(m: Move) returns (ok: bool)
      requires board.Valid()
      modifies board, board.grid
      ensures board.Valid()
      ensures m.kind == Resignation ==> ok && board.Model() == old(board.Model())
      ensures m.kind == Placement ==> (ok, board.Model()) == Place(old(board.Model()), m.color, m.pos)
    {
      if m.kind != Placement {
        return true;
      }
      ok := board.PlaceStone(m.color, m.pos);
    }
  }

  /** `board[p]->color` on an on-board point, with an empty point having no colour. */
  function StoneColor(board: Board, p: Pos): (r: Option<Color>)
    reads board, board.grid
    requires board.Valid() && IsPosValid(p)
    ensures r == ColorAt(board.Model(), p)
  {
    var cell := board.At(p);
    assert p in board.Model().cells;
    if cell.Some? then Some(board.groups[cell.value].color) else None
  }

  /** The point holds a stone of colour `c`. */
  predicate OfColor(s: State, p: Pos, c: Color) {
    ColorAt(s, p) == Some(c)
  }

  /** How many points of `ps` hold a stone of colour `c`. */
  function CountOfColor(s: State, c: Color, ps: seq<Pos>): nat {
    if ps == [] then 0
    else CountOfColor(s, c, ps[..|ps| - 1]) + if OfColor(s, ps[|ps| - 1], c) then 1 else 0
  }

  /** How many points of `ps` are off the board. */
  function CountOffBoard(ps: seq<Pos>): nat {
    if ps == [] then 0
    else CountOffBoard(ps[..|ps| - 1]) + if IsPosValid(ps[|ps| - 1]) then 0 else 1
  }

  /**
   * The eye of `color` at `pos`: the point is empty, every on-board
   * neighbour holds a stone of `color`, and either all four diagonals are on
   * the board and at least three of them hold `color`, or (at an edge or a
   * corner) every on-board diagonal holds `color`.
   */
  predicate IsEye(s: State, pos: Pos, color: Color) {
    && !(pos in s.cells && s.cells[pos].Some?)
    && (forall q :: q in Neighbors(pos) && IsPosValid(q) ==> OfColor(s, q, color))
    && if forall q :: q in Corners(pos) ==> IsPosValid(q)
       then CountOfColor(s, color, Corners(pos)) >= 3
       else forall q :: q in Corners(pos) && IsPosValid(q) ==> OfColor(s, q, color)
  }

  /**
   * Counting points of `c` and off-board points covers the whole sequence
   * exactly when every on-board point of it holds `c`.
   */
  lemma {:induction false} CountsCover(s: State, c: Color, ps: seq<Pos>)
    requires Domain(s)
    ensures CountOfColor(s, c, ps) + CountOffBoard(ps) <= |ps|
    ensures CountOfColor(s, c, ps) + CountOffBoard(ps) == |ps| <==>
      forall q :: q in ps && IsPosValid(q) ==> OfColor(s, q, c)
  {
    if ps != [] {
      var init, last := ps[..|ps| - 1], ps[|ps| - 1];
      CountsCover(s, c, init);
      assert forall q :: q in ps <==> q in init || q == last;
      assert OfColor(s, last, c) ==> IsPosValid(last);
    }
  }

  /**
   * The diagonal scan of `is_point_an_eye`: the number of diagonals of
   * `color`, the number off the board, and whether all four are on it.
   */
  method ScanCorners(board: Board, pos: Pos, color: Color) returns (numCorners: nat, sideCorners: nat, isCenterEye: bool)
    requires board.Valid()
    ensures numCorners == CountOfColor(board.Model(), color, Corners(pos))
    ensures sideCorners == CountOffBoard(Corners(pos))
    ensures isCenterEye <==> forall q :: q in Corners(pos) ==> IsPosValid(q)
  {
    ghost var s := board.Model();
    var cs := Corners(pos);
    numCorners, sideCorners, isCenterEye := 0, 0, true;
    for i := 0 to |cs|
      invariant numCorners == CountOfColor(s, color, cs[..i])
      invariant sideCorners == CountOffBoard(cs[..i])
      invariant isCenterEye <==> forall j :: 0 <= j < i ==> IsPosValid(cs[j])
    {
      var p := cs[i];
      assert cs[..i + 1][..i] == cs[..i];
      if IsPosValid(p) {
        if StoneColor(board, p) == Some(color) {
          numCorners := numCorners + 1;
        }
      } else {
        isCenterEye := false;
        sideCorners := sideCorners + 1;
      }
    }
    assert cs[..|cs|] == cs;
  }

  /**
   * `is_point_an_eye(board, pos, color)`: false on an occupied point or
   * when an on-board neighbour is not of `color`; otherwise the diagonals
   * are counted, an off-board diagonal making the point a side eye.
   */
  method IsPointAnEye(board: Board, pos: Pos, color: Color) returns (eye: bool)
    requires board.Valid() && IsPosValid(pos)
    ensures eye == IsEye(board.Model(), pos, color)
  {
    ghost var s := board.Model();
    assert pos in s.cells;
    if board.At(pos).Some? {
      return false;
    }
    var ns := Neighbors(pos);
    for i := 0 to |ns|
      invariant forall j :: 0 <= j < i && IsPosValid(ns[j]) ==> OfColor(s, ns[j], color)
    {
      var p := ns[i];
      if IsPosValid(p) && StoneColor(board, p) != Some(color) {
        return false;
      }
    }
    var numCorners, sideCorners, isCenterEye := ScanCorners(board, pos, color);
    CountsCover(s, color, Corners(pos));
    eye := if isCenterEye then numCorners >= 3 else sideCorners + numCorners == 4;
  }

  /**
   * The other colour can never play into an eye: the stone would have no
   * empty neighbour and no friendly group to join, and the suicide gate
   * runs before captures, so the move is refused even when it would capture.
   */
  lemma EyeRefusesOpponent(s: State, pos: Pos, color: Color)
    requires Valid(s) && IsEye(s, pos, color)
    ensures !Place(s, Opponent(color), pos).0
  {
    var other := Opponent(color);
    OwnersInMembership(s, other, Neighbors(pos));
    EmptyInMembership(s, Neighbors(pos));
    forall q | q in Neighbors(pos)
      ensures ColorAt(s, q) != Some(other)
      ensures !(q in s.cells && s.cells[q].None?)
    {
      if IsPosValid(q) {
        assert OfColor(s, q, color);
      }
    }
    assert Friends(s, other, pos) == {};
    assert EmptyNeighbors(s, pos) == {};
    assert MergedGroup(s, other, pos).liberties == {};
  }

  /** Some active group of colour `color` has exactly one liberty. */
  ghost predicate InAtari(s: State, color: Color) {
    exists id :: id in s.active && id in s.groups && s.groups[id].color == color && |s.groups[id].liberties| == 1
  }

  /** The atari test: a scan of the active groups for one of `color` with a single liberty. */
  method IsInAtari(board: Board, color: Color) returns (r: bool)
    requires board.Valid()
    ensures r <==> InAtari(board.Model(), color)
  {
    var todo := board.active;
    while todo != {}
      invariant todo <= board.active
      invariant forall id :: id in board.active - todo && id in board.groups ==>
        !(board.groups[id].color == color && |board.groups[id].liberties| == 1)
    {
      var id :| id in todo;
      var g := board.groups[id];
      if g.color == color && NumLiberties(g) == 1 {
        return true;
      }
      todo := todo - {id};
    }
    return false;
  }

  /**
   * A group in atari is captured by a stone of the other colour on its
   * last liberty, whenever that placement is accepted.
   */
  lemma AtariCapturedAtLiberty(s: State, color: Color, e: GroupId, l: Pos)
    requires Valid(s) && e in s.active && e in s.groups
    requires s.groups[e].color == Opponent(color) && s.groups[e].liberties == {l}
    requires Place(s, color, l).0
    ensures e !in Place(s, color, l).1.active
    ensures forall p :: p in s.groups[e].stones ==> p in Place(s, color, l).1.cells && Place(s, color, l).1.cells[p] == None
  {
    LibertyOwnerIsNeighbor(s, color, l, e);
    NeighborGroupsActive(s, color, l);
    assert e in Enemies(s, color, l);
    PlaceUpdatesEnemy(s, color, l, e);
    forall p | p in s.groups[e].stones
      ensures p in Place(s, color, l).1.cells && Place(s, color, l).1.cells[p] == None
    {
      PlaceClearsCaptured(s, color, l, e, p);
    }
  }
}
