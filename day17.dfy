/**
 * Day 17 ("Clumsy Crucible"): the least heat loss of a crucible that moves
 * from the top-left to the bottom-right block of a city, limited in how far
 * it may go straight and never reversing, found by Dijkstra's search.
 */
module Day17 {
  import opened Common

  datatype Direction = Up | Down | Left | Right

  const AllDirections: set<Direction> := {Up, Down, Left, Right}

  lemma AnyDirection(d: Direction)
    ensures d in AllDirections
  {
    match d
    case Up =>
    case Down =>
    case Left =>
    case Right =>
  }

  /**
   * The search key of a crucible: where it is, where it heads and how many
   * blocks it has gone straight. The source's `Position` also carries a total
   * loss and a predecessor, which its equality ignores; they live in `Entry`.
   */
  datatype Position = Position(x: int, y: int, direction: Direction, straight: int)

  /** Which direction rule the search uses. */
  datatype Crucible = Standard | Ultra

  function Opposite(d: Direction): Direction
  {
    match d
    case Up => Down
    case Down => Up
    case Left => Right
    case Right => Left
  }

  /** The two directions at right angles to `d`. */
  function Turns(d: Direction): seq<Direction>
  {
    match d
    case Up => [Right, Left]
    case Down => [Right, Left]
    case Left => [Up, Down]
    case Right => [Up, Down]
  }

  /** `possibleDirections`: straight on while fewer than three blocks, and the two turns. */
  function PossibleDirections(p: Position): seq<Direction>
  {
    if p.straight >= 3 then Turns(p.direction) else [p.direction] + Turns(p.direction)
  }

  /** `possibleUltraDirections`: only straight on below four blocks, only turns from ten. */
  function PossibleUltraDirections(p: Position): seq<Direction>
  {
    if p.straight >= 10 then Turns(p.direction)
    else if p.straight >= 4 then [p.direction] + Turns(p.direction)
    else [p.direction]
  }

  function NextDirections(c: Crucible, p: Position): seq<Direction>
  {
    match c
    case Standard => PossibleDirections(p)
    case Ultra => PossibleUltraDirections(p)
  }

  /** No crucible ever reverses. */
  lemma NeverReverses(c: Crucible, p: Position)
    ensures Opposite(p.direction) !in NextDirections(c, p)
    ensures forall d | d in NextDirections(c, p) :: d == p.direction || d in Turns(p.direction)
  {
  }

  /** The standard crucible goes straight on exactly while below three blocks, and may always turn. */
  lemma StandardRules(p: Position)
    ensures p.direction in PossibleDirections(p) <==> p.straight < 3
    ensures forall d | d in Turns(p.direction) :: d in PossibleDirections(p) && d != p.direction && d != Opposite(p.direction)
  {
  }

  /** The ultra crucible goes only straight on below four blocks, and only turns from ten. */
  lemma UltraRules(p: Position)
    ensures p.straight < 4 ==> PossibleUltraDirections(p) == [p.direction]
    ensures p.direction in PossibleUltraDirections(p) <==> p.straight < 10
    ensures 4 <= p.straight ==> forall d | d in Turns(p.direction) :: d in PossibleUltraDirections(p)
  {
  }

  function DeltaX(d: Direction): int
  {
    match d
    case Left => -1
    case Right => 1
    case _ => 0
  }

  function DeltaY(d: Direction): int
  {
    match d
    case Up => -1
    case Down => 1
    case _ => 0
  }

  /** `move`: one block in direction `d`. */
  function Move(p: Position, d: Direction): (r: Position)
    ensures (r.y == p.y && (r.x == p.x + 1 || r.x == p.x - 1)) || (r.x == p.x && (r.y == p.y + 1 || r.y == p.y - 1))
    ensures r.direction == d
  {
    Position(p.x + DeltaX(d), p.y + DeltaY(d), d, if d == p.direction then p.straight + 1 else 1)
  }

  /** A turn restarts the straight count at one; going on adds one. */
  lemma MoveCounts(p: Position, d: Direction)
    ensures d != p.direction ==> Move(p, d).straight == 1
    ensures d == p.direction ==> Move(p, d).straight == p.straight + 1
  {
  }

  type Layout = seq<seq<nat>>

  /** `HUGE_LOSS`: half the largest 32-bit integer, the loss of a frame block. */
  const HugeLoss: nat := 0x7FFF_FFFF / 2

  /** `bordered` as written: the frame rows have one block per ROW of the grid plus two. */
  function BorderedAsWritten(grid: Layout): (r: Layout)
    ensures |r| == |grid| + 2
  {
    var extra := seq(|grid| + 2, _ => HugeLoss);
    [extra] + seq(|grid|, i requires 0 <= i < |grid| => [HugeLoss] + grid[i] + [HugeLoss]) + [extra]
  }

  function GridWidth(grid: Layout): nat
  {
    if |grid| == 0 then 0 else |grid[0]|
  }

  /** `bordered` as intended: frame rows as wide as the framed rows. */
  function Bordered(grid: Layout): (r: Layout)
    ensures |r| == |grid| + 2
  {
    var extra := seq(GridWidth(grid) + 2, _ => HugeLoss);
    [extra] + seq(|grid|, i requires 0 <= i < |grid| => [HugeLoss] + grid[i] + [HugeLoss]) + [extra]
  }

  predicate Rectangular(grid: Layout, w: nat)
  {
    forall y | 0 <= y < |grid| :: |grid[y]| == w
  }

  /** The target of the search: the block just inside the bottom-right frame corner. */
  function Target(layout: Layout): (int, int)
    requires |layout| > 0
  {
    (|layout[0]| - 2, |layout| - 2)
  }

  /**
   * The frame keeps the blocks, shifted one right and one down, costs
   * `HugeLoss` all around, and puts the target on the grid's bottom-right block.
   */
  lemma BorderedBlocks(grid: Layout)
    ensures var r := Bordered(grid);
            forall y, x | 0 <= y < |grid| && 0 <= x < |grid[y]| :: r[y + 1][x + 1] == grid[y][x]
    ensures var r := Bordered(grid);
            forall x | 0 <= x < |r[0]| :: r[0][x] == HugeLoss && r[|r| - 1][x] == HugeLoss
    ensures Rectangular(grid, GridWidth(grid)) && |grid| > 0 ==>
              Target(Bordered(grid)) == (|grid[0]|, |grid|) && Rectangular(Bordered(grid), |grid[0]| + 2)
  {
    var r := Bordered(grid);
    forall y, x | 0 <= y < |grid| && 0 <= x < |grid[y]|
      ensures r[y + 1][x + 1] == grid[y][x]
    {
      assert r[y + 1] == [HugeLoss] + grid[y] + [HugeLoss];
    }
    if Rectangular(grid, GridWidth(grid)) && |grid| > 0 {
      forall y | 0 <= y < |r|
        ensures |r[y]| == |grid[0]| + 2
      {
        if 0 < y < |r| - 1 {
          assert r[y] == [HugeLoss] + grid[y - 1] + [HugeLoss];
        }
      }
    }
  }

  /**
   * On the one-row grid "111" the frame as written is three blocks wide, so
   * the target is the top-left block, where the crucible starts, and not the
   * bottom-right one.
   */
  lemma WideGridTarget()
    ensures Target(BorderedAsWritten([[1, 1, 1]])) == (1, 1)
    ensures Target(Bordered([[1, 1, 1]])) == (3, 1)
  {
  }

  predicate InLayout(layout: Layout, x: int, y: int)
  {
    0 <= y < |layout| && 0 <= x < |layout[y]|
  }

  /** The loss of the block under `p`; nothing outside the layout. */
  function BlockLoss(layout: Layout, p: Position): nat
  {
    if InLayout(layout, p.x, p.y) then layout[p.y][p.x] else 0
  }

  /** `q` is a legal move of `p` onto the layout. */
  predicate Step(layout: Layout, c: Crucible, p: Position, q: Position)
  {
    q.direction in NextDirections(c, p) && q == Move(p, q.direction) && InLayout(layout, q.x, q.y)
  }

  /** A standard crucible never goes more than three blocks straight, an ultra one more than ten, and an ultra one turns only after four. */
  lemma StepStraight(layout: Layout, c: Crucible, p: Position, q: Position)
    requires Step(layout, c, p, q)
    ensures c == Standard ==> q.straight <= 3
    ensures c == Ultra ==> q.straight <= 10
    ensures c == Ultra && q.direction != p.direction ==> p.straight >= 4
  {
  }

  /** A walk of the crucible from one of `starts`. */
  ghost predicate IsWalk(layout: Layout, c: Crucible, starts: seq<Position>, w: seq<Position>)
  {
    |w| > 0 && w[0] in starts && forall i | 0 <= i < |w| - 1 :: Step(layout, c, w[i], w[i + 1])
  }

  /** The heat lost along a walk: the loss of every block entered after the start. */
  function Cost(layout: Layout, w: seq<Position>): (r: nat)
  {
    if |w| <= 1 then 0 else Cost(layout, w[..|w| - 1]) + BlockLoss(layout, w[|w| - 1])
  }

  lemma {:induction false} CostPrefix(layout: Layout, w: seq<Position>, k: nat)
    requires 0 < k <= |w|
    ensures Cost(layout, w[..k]) <= Cost(layout, w)
    decreases |w|
  {
    if k < |w| {
      assert w[..|w| - 1][..k] == w[..k];
      CostPrefix(layout, w[..|w| - 1], k);
    } else {
      assert w[..k] == w;
    }
  }

  lemma WalkPrefix(layout: Layout, c: Crucible, starts: seq<Position>, w: seq<Position>, k: nat)
    requires IsWalk(layout, c, starts, w) && 0 < k <= |w|
    ensures IsWalk(layout, c, starts, w[..k])
  {
    forall i | 0 <= i < k - 1
      ensures Step(layout, c, w[..k][i], w[..k][i + 1])
    {
      assert Step(layout, c, w[i], w[i + 1]);
    }
  }

  predicate Accepting(layout: Layout, minStraight: int, p: Position)
  {
    |layout| > 0 && (p.x, p.y) == Target(layout) && p.straight >= minStraight
  }

  /** One of the moves of `p` leaves the layout: expanding `p` fails on an index. */
  predicate Escapes(layout: Layout, c: Crucible, p: Position)
  {
    exists d | d in NextDirections(c, p) :: !InLayout(layout, Move(p, d).x, Move(p, d).y)
  }

  /** A queued position with its total loss and the path that led to it (the `prevPos` chain). */
  datatype Entry = Entry(pos: Position, loss: int, path: seq<Position>)

  /** The entry is a walk from a start whose loss is its cost. */
  ghost predicate ValidEntry(layout: Layout, c: Crucible, starts: seq<Position>, e: Entry)
  {
    IsWalk(layout, c, starts, e.path) && e.path[|e.path| - 1] == e.pos && e.loss == Cost(layout, e.path)
  }

  /** No walk to an accepting position costs less than `loss`. */
  ghost predicate Cheapest(layout: Layout, c: Crucible, starts: seq<Position>, minStraight: int, loss: int)
  {
    forall w | IsWalk(layout, c, starts, w) && Accepting(layout, minStraight, w[|w| - 1]) :: loss <= Cost(layout, w)
  }

  /** `move` followed by adding the loss of the block entered. */
  function Successor(layout: Layout, e: Entry, d: Direction): Entry
    requires InLayout(layout, Move(e.pos, d).x, Move(e.pos, d).y)
  {
    var q := Move(e.pos, d);
    Entry(q, e.loss + layout[q.y][q.x], e.path + [q])
  }

  /** The successors `findShortestPath` queues for `e`, or `None` when one of them is off the layout. */
  function Expand(layout: Layout, c: Crucible, e: Entry): (r: Option<seq<Entry>>)
    ensures r.None? <==> Escapes(layout, c, e.pos)
  {
    var dirs := NextDirections(c, e.pos);
    if exists d | d in dirs :: !InLayout(layout, Move(e.pos, d).x, Move(e.pos, d).y) then None
    else Some(seq(|dirs|, i requires 0 <= i < |dirs| => Successor(layout, e, dirs[i])))
  }

  /** One legal move more extends a valid entry by the loss of the block entered. */
  lemma ExtendWalk(layout: Layout, c: Crucible, starts: seq<Position>, e: Entry, q: Position)
    requires ValidEntry(layout, c, starts, e) && Step(layout, c, e.pos, q)
    ensures ValidEntry(layout, c, starts, Entry(q, e.loss + BlockLoss(layout, q), e.path + [q]))
  {
    var w := e.path + [q];
    assert w[..|w| - 1] == e.path;
    forall j | 0 <= j < |w| - 1
      ensures Step(layout, c, w[j], w[j + 1])
    {
      if j < |w| - 2 {
        assert Step(layout, c, e.path[j], e.path[j + 1]);
      }
    }
  }

  /** The successor for a move that stays on the layout. */
  lemma SuccessorStep(layout: Layout, c: Crucible, e: Entry, d: Direction)
    requires d in NextDirections(c, e.pos) && InLayout(layout, Move(e.pos, d).x, Move(e.pos, d).y)
    ensures Step(layout, c, e.pos, Successor(layout, e, d).pos)
    ensures Successor(layout, e, d) == Entry(Move(e.pos, d), e.loss + BlockLoss(layout, Move(e.pos, d)), e.path + [Move(e.pos, d)])
  {
  }

  /** The successors in the order of the moves. */
  lemma ExpandEntries(layout: Layout, c: Crucible, e: Entry)
    requires Expand(layout, c, e).Some?
    ensures |Expand(layout, c, e).value| == |NextDirections(c, e.pos)|
    ensures forall i | 0 <= i < |NextDirections(c, e.pos)| ::
              InLayout(layout, Move(e.pos, NextDirections(c, e.pos)[i]).x, Move(e.pos, NextDirections(c, e.pos)[i]).y) &&
              Expand(layout, c, e).value[i] == Successor(layout, e, NextDirections(c, e.pos)[i])
  {
  }

  /** Each successor is one legal move further, its loss raised by the block entered. */
  lemma ExpandValid(layout: Layout, c: Crucible, starts: seq<Position>, e: Entry)
    requires ValidEntry(layout, c, starts, e) && Expand(layout, c, e).Some?
    ensures forall n | n in Expand(layout, c, e).value :: ValidEntry(layout, c, starts, n) && Step(layout, c, e.pos, n.pos)
  {
    var dirs := NextDirections(c, e.pos);
    var next := Expand(layout, c, e).value;
    ExpandEntries(layout, c, e);
    forall n | n in next
      ensures ValidEntry(layout, c, starts, n) && Step(layout, c, e.pos, n.pos)
    {
      var i :| 0 <= i < |next| && n == next[i];
      SuccessorStep(layout, c, e, dirs[i]);
      ExtendWalk(layout, c, starts, e, n.pos);
    }
  }

  /** Every legal move of `e` has its successor among the queued entries. */
  lemma ExpandCovers(layout: Layout, c: Crucible, e: Entry)
    requires Expand(layout, c, e).Some?
    ensures forall d | d in NextDirections(c, e.pos) ::
              exists n | n in Expand(layout, c, e).value :: n.pos == Move(e.pos, d) && n.loss == e.loss + BlockLoss(layout, n.pos)
  {
    var dirs := NextDirections(c, e.pos);
    var next := Expand(layout, c, e).value;
    ExpandEntries(layout, c, e);
    forall d | d in dirs
      ensures exists n | n in next :: n.pos == Move(e.pos, d) && n.loss == e.loss + BlockLoss(layout, n.pos)
    {
      var i :| 0 <= i < |dirs| && dirs[i] == d;
      SuccessorStep(layout, c, e, d);
      assert next[i] in next;
    }
  }

  /** The priority queue holds an entry for `p` with a loss of at most `bound`. */
  predicate Queued(queue: seq<Entry>, p: Position, bound: int)
  {
    exists e | e in queue :: e.pos == p && e.loss <= bound
  }

  /** Every walk to `v` costs at least `b`. */
  ghost predicate LowerBound(layout: Layout, c: Crucible, starts: seq<Position>, v: Position, b: int)
  {
    forall w | IsWalk(layout, c, starts, w) && w[|w| - 1] == v :: b <= Cost(layout, w)
  }

  /**
   * Dijkstra's invariant: queued entries are walks; every visited position
   * was reached at least cost, is not the target and has had its moves
   * queued; every start is visited or queued.
   */
  ghost predicate Search(layout: Layout, c: Crucible, starts: seq<Position>, minStraight: int,
                         queue: seq<Entry>, visited: set<Position>, best: map<Position, int>)
  {
    && (forall e | e in queue :: ValidEntry(layout, c, starts, e))
    && visited == best.Keys
    && (forall v | v in visited :: !Accepting(layout, minStraight, v))
    && (forall v | v in visited :: LowerBound(layout, c, starts, v, best[v]))
    && (forall s | s in starts :: s in visited || Queued(queue, s, 0))
    && (forall v, d | v in visited && d in NextDirections(c, v) ::
          && InLayout(layout, Move(v, d).x, Move(v, d).y)
          && (Move(v, d) in visited || Queued(queue, Move(v, d), best[v] + BlockLoss(layout, Move(v, d)))))
  }

  /** The first position of `w` outside `s`. */
  lemma FirstOutside(w: seq<Position>, s: set<Position>) returns (k: nat)
    requires |w| > 0 && w[|w| - 1] !in s
    ensures k < |w| && w[k] !in s && forall j | 0 <= j < k :: w[j] in s
  {
    k := 0;
    while w[k] in s
      invariant k < |w| && forall j | 0 <= j < k :: w[j] in s
      decreases |w| - k
    {
      k := k + 1;
    }
  }

  /** An entry queued for the first unvisited position of a walk costs no more than the walk. */
  lemma EntryBelowWalk(layout: Layout, c: Crucible, starts: seq<Position>, queue: seq<Entry>,
                       b: int, w: seq<Position>, k: nat)
    requires IsWalk(layout, c, starts, w) && 0 < k < |w|
    requires LowerBound(layout, c, starts, w[k - 1], b)
    requires Queued(queue, w[k], b + BlockLoss(layout, w[k]))
    ensures exists e | e in queue :: e.loss <= Cost(layout, w)
  {
    WalkPrefix(layout, c, starts, w, k);
    assert w[..k][k - 1] == w[k - 1];
    assert b <= Cost(layout, w[..k]);
    assert w[..k + 1][..k] == w[..k];
    CostPrefix(layout, w, k + 1);
  }

  /** Some queued entry costs no more than any walk that ends outside the visited positions. */
  lemma QueueBelowWalk(layout: Layout, c: Crucible, starts: seq<Position>, minStraight: int,
                       queue: seq<Entry>, visited: set<Position>, best: map<Position, int>, w: seq<Position>)
    requires Search(layout, c, starts, minStraight, queue, visited, best)
    requires IsWalk(layout, c, starts, w) && w[|w| - 1] !in visited
    ensures exists e | e in queue :: e.loss <= Cost(layout, w)
  {
    var k := FirstOutside(w, visited);
    if k == 0 {
      assert Queued(queue, w[0], 0);
      CostPrefix(layout, w, 1);
    } else {
      var v, q := w[k - 1], w[k];
      assert Step(layout, c, v, q);
      assert v in visited && q.direction in NextDirections(c, v) && Move(v, q.direction) == q;
      EntryBelowWalk(layout, c, starts, queue, best[v], w, k);
    }
  }

  /** The entry at the head of the queue costs no more than any walk ending outside the visited positions. */
  lemma HeadIsCheapest(layout: Layout, c: Crucible, starts: seq<Position>, minStraight: int,
                       queue: seq<Entry>, visited: set<Position>, best: map<Position, int>, i: nat)
    requires Search(layout, c, starts, minStraight, queue, visited, best)
    requires i < |queue| && forall j | 0 <= j < |queue| :: queue[i].loss <= queue[j].loss
    ensures LowerBound(layout, c, starts, queue[i].pos, queue[i].loss) || queue[i].pos in visited
    ensures Cheapest(layout, c, starts, minStraight, queue[i].loss)
  {
    forall w | IsWalk(layout, c, starts, w) && w[|w| - 1] !in visited
      ensures queue[i].loss <= Cost(layout, w)
    {
      QueueBelowWalk(layout, c, starts, minStraight, queue, visited, best, w);
    }
  }

  /** Removing the entry at `i`: every other entry stays. */
  lemma Removed(queue: seq<Entry>, i: nat)
    requires i < |queue|
    ensures forall e | e in queue :: e == queue[i] || e in queue[..i] + queue[i + 1..]
    ensures forall e | e in queue[..i] + queue[i + 1..] :: e in queue
  {
    var rest := queue[..i] + queue[i + 1..];
    forall e | e in queue
      ensures e == queue[i] || e in rest
    {
      var j :| 0 <= j < |queue| && queue[j] == e;
      if j < i {
        assert rest[j] == e;
      } else if j > i {
        assert rest[j - 1] == e;
      }
    }
  }

  /** Dropping an entry whose position is already visited keeps the invariant. */
  lemma SearchSkip(layout: Layout, c: Crucible, starts: seq<Position>, minStraight: int,
                   queue: seq<Entry>, visited: set<Position>, best: map<Position, int>, i: nat)
    requires Search(layout, c, starts, minStraight, queue, visited, best)
    requires i < |queue| && queue[i].pos in visited
    ensures Search(layout, c, starts, minStraight, queue[..i] + queue[i + 1..], visited, best)
  {
    Removed(queue, i);
  }

  /** Visiting the cheapest entry and queueing its moves keeps the invariant. */
  lemma SearchExpand(layout: Layout, c: Crucible, starts: seq<Position>, minStraight: int,
                     queue: seq<Entry>, visited: set<Position>, best: map<Position, int>, i: nat,
                     queue': seq<Entry>, visited': set<Position>, best': map<Position, int>)
    requires Search(layout, c, starts, minStraight, queue, visited, best)
    requires i < |queue| && forall j | 0 <= j < |queue| :: queue[i].loss <= queue[j].loss
    requires queue[i].pos !in visited && !Accepting(layout, minStraight, queue[i].pos)
    requires Expand(layout, c, queue[i]).Some?
    requires queue' == queue[..i] + queue[i + 1..] + Expand(layout, c, queue[i]).value
    requires visited' == visited + {queue[i].pos} && best' == best[queue[i].pos := queue[i].loss]
    ensures Search(layout, c, starts, minStraight, queue', visited', best')
  {
    var cur := queue[i];
    var rest := queue[..i] + queue[i + 1..];
    var next := Expand(layout, c, cur).value;
    assert visited' == best'.Keys;
    assert forall v | v in visited' :: !Accepting(layout, minStraight, v);
    HeadIsCheapest(layout, c, starts, minStraight, queue, visited, best, i);
    ExpandValid(layout, c, starts, cur);
    Removed(queue, i);
    assert forall e | e in queue' :: ValidEntry(layout, c, starts, e) by {
      forall e | e in queue'
        ensures ValidEntry(layout, c, starts, e)
      {
        if e in rest {
          assert e in queue;
        }
      }
    }
    assert forall v | v in visited' :: LowerBound(layout, c, starts, v, best'[v]) by {
      forall v | v in visited'
        ensures LowerBound(layout, c, starts, v, best'[v])
      {
        if v != cur.pos {
          assert best'[v] == best[v];
        }
      }
    }
    assert forall s | s in starts :: s in visited' || Queued(queue', s, 0) by {
      forall s | s in starts
        ensures s in visited' || Queued(queue', s, 0)
      {
        if s !in visited {
          var e :| e in queue && e.pos == s && e.loss <= 0;
          if e != cur {
            assert e in queue';
          }
        }
      }
    }
    FrontierKept(layout, c, queue, visited, best, i, queue', visited', best');
  }

  /** Expanding `queue[i]` keeps every move of a visited position visited or queued. */
  lemma FrontierKept(layout: Layout, c: Crucible, queue: seq<Entry>, visited: set<Position>, best: map<Position, int>,
                     i: nat, queue': seq<Entry>, visited': set<Position>, best': map<Position, int>)
    requires visited == best.Keys && i < |queue| && Expand(layout, c, queue[i]).Some?
    requires forall v, d | v in visited && d in NextDirections(c, v) ::
               && InLayout(layout, Move(v, d).x, Move(v, d).y)
               && (Move(v, d) in visited || Queued(queue, Move(v, d), best[v] + BlockLoss(layout, Move(v, d))))
    requires queue' == queue[..i] + queue[i + 1..] + Expand(layout, c, queue[i]).value
    requires visited' == visited + {queue[i].pos} && best' == best[queue[i].pos := queue[i].loss]
    ensures forall v, d | v in visited' && d in NextDirections(c, v) ::
              && InLayout(layout, Move(v, d).x, Move(v, d).y)
              && (Move(v, d) in visited' || Queued(queue', Move(v, d), best'[v] + BlockLoss(layout, Move(v, d))))
  {
    var cur := queue[i];
    var next := Expand(layout, c, cur).value;
    ExpandCovers(layout, c, cur);
    Removed(queue, i);
    forall v, d | v in visited' && d in NextDirections(c, v)
      ensures InLayout(layout, Move(v, d).x, Move(v, d).y)
      ensures Move(v, d) in visited' || Queued(queue', Move(v, d), best'[v] + BlockLoss(layout, Move(v, d)))
    {
      if v == cur.pos {
        var n :| n in next && n.pos == Move(v, d) && n.loss == cur.loss + BlockLoss(layout, n.pos);
        assert n in queue';
      } else if Move(v, d) !in visited {
        var e :| e in queue && e.pos == Move(v, d) && e.loss <= best[v] + BlockLoss(layout, Move(v, d));
        if e != cur {
          assert e in queue';
        }
      }
    }
  }

  /** With the queue empty, no walk reaches an accepting position. */
  lemma SearchExhausted(layout: Layout, c: Crucible, starts: seq<Position>, minStraight: int,
                        visited: set<Position>, best: map<Position, int>)
    requires Search(layout, c, starts, minStraight, [], visited, best)
    ensures forall w | IsWalk(layout, c, starts, w) :: !Accepting(layout, minStraight, w[|w| - 1])
  {
    forall w | IsWalk(layout, c, starts, w)
      ensures !Accepting(layout, minStraight, w[|w| - 1])
    {
      if Accepting(layout, minStraight, w[|w| - 1]) {
        QueueBelowWalk(layout, c, starts, minStraight, [], visited, best, w);
      }
    }
  }

  /** The index of an entry of least loss: what the priority queue's `poll` returns. */
  method MinIndex(queue: seq<Entry>) returns (i: nat)
    requires queue != []
    ensures i < |queue| && forall j | 0 <= j < |queue| :: queue[i].loss <= queue[j].loss
  {
    i := 0;
    for k := 1 to |queue|
      invariant i < k && forall j | 0 <= j < k :: queue[i].loss <= queue[j].loss
    {
      if queue[k].loss < queue[i].loss {
        i := k;
      }
    }
  }

  datatype Outcome = Found(last: Entry) | NoPath | IndexError(at: Entry)

  function StartEntries(starts: seq<Position>): (r: seq<Entry>)
    ensures |r| == |starts| && forall i | 0 <= i < |starts| :: r[i] == Entry(starts[i], 0, [starts[i]])
  {
    seq(|starts|, i requires 0 <= i < |starts| => Entry(starts[i], 0, [starts[i]]))
  }

  lemma SearchStart(layout: Layout, c: Crucible, starts: seq<Position>, minStraight: int)
    ensures Search(layout, c, starts, minStraight, StartEntries(starts), {}, map[])
  {
    var queue := StartEntries(starts);
    forall e | e in queue
      ensures ValidEntry(layout, c, starts, e)
    {
      var i :| 0 <= i < |queue| && queue[i] == e;
    }
    forall s | s in starts
      ensures Queued(queue, s, 0)
    {
      var i :| 0 <= i < |starts| && starts[i] == s;
      assert queue[i] in queue;
    }
  }

  function MinStraight(starts: seq<Position>): int
  {
    if |starts| == 0 then 0 else Min(starts[0].straight, MinStraight(starts[1..]))
  }

  function MaxStraight(starts: seq<Position>): int
  {
    if |starts| == 0 then 10 else Max(starts[0].straight, MaxStraight(starts[1..]))
  }

  lemma {:induction false} StraightBounds(starts: seq<Position>)
    ensures MinStraight(starts) <= 0 && MaxStraight(starts) >= 10
    ensures forall s | s in starts :: MinStraight(starts) <= s.straight <= MaxStraight(starts)
  {
    if |starts| > 0 {
      StraightBounds(starts[1..]);
      assert forall s | s in starts :: s == starts[0] || s in starts[1..];
    }
  }

  /** Every position the search can queue: the starts and the positions on the layout with a bounded straight count. */
  ghost function Universe(layout: Layout, starts: seq<Position>): set<Position>
  {
    var lo, hi := MinStraight(starts), MaxStraight(starts);
    (set y, x, d, k | 0 <= y < |layout| && 0 <= x < |layout[y]| && d in AllDirections && lo <= k <= hi :: Position(x, y, d, k))
    + (set s | s in starts)
  }

  /** A move from a position of the universe lands in it again. */
  lemma StepInUniverse(layout: Layout, c: Crucible, starts: seq<Position>, p: Position, q: Position)
    requires p in Universe(layout, starts) && Step(layout, c, p, q)
    ensures q in Universe(layout, starts)
  {
    StraightBounds(starts);
    AnyDirection(q.direction);
    var lo, hi := MinStraight(starts), MaxStraight(starts);
    assert lo <= p.straight <= hi;
    assert lo <= q.straight <= hi;
  }

  /**
   * `findShortestPath`: Dijkstra's search from `starts` to the target block
   * reached after at least `minStraight` blocks straight. It returns the
   * first accepting entry polled, `NoPath` when the queue runs dry, and
   * `IndexError` when a polled position has a move off the layout.
   */
  method FindShortestPath(layout: Layout, starts: seq<Position>, minStraight: int, c: Crucible) returns (r: Outcome)
    requires |layout| > 0
    ensures r.Found? ==> && ValidEntry(layout, c, starts, r.last)
                         && Accepting(layout, minStraight, r.last.pos)
                         && Cheapest(layout, c, starts, minStraight, r.last.loss)
    ensures r.NoPath? ==> forall w | IsWalk(layout, c, starts, w) :: !Accepting(layout, minStraight, w[|w| - 1])
    ensures r.IndexError? ==> && ValidEntry(layout, c, starts, r.at)
                              && Escapes(layout, c, r.at.pos)
                              && Cheapest(layout, c, starts, minStraight, r.at.loss)
  {
    var queue := StartEntries(starts);
    var visited: set<Position> := {};
    ghost var best: map<Position, int> := map[];
    SearchStart(layout, c, starts, minStraight);
    while queue != []
      invariant Search(layout, c, starts, minStraight, queue, visited, best)
      invariant forall e | e in queue :: e.pos in Universe(layout, starts)
      invariant visited <= Universe(layout, starts)
      decreases |Universe(layout, starts) - visited|, |queue|
    {
      var i := MinIndex(queue);
      var cur := queue[i];
      var rest := queue[..i] + queue[i + 1..];
      Removed(queue, i);
      if cur.pos in visited {
        SearchSkip(layout, c, starts, minStraight, queue, visited, best, i);
        queue := rest;
        continue;
      }
      HeadIsCheapest(layout, c, starts, minStraight, queue, visited, best, i);
      if Accepting(layout, minStraight, cur.pos) {
        return Found(cur);
      }
      var next := Expand(layout, c, cur);
      if next.None? {
        return IndexError(cur);
      }
      SearchExpand(layout, c, starts, minStraight, queue, visited, best, i,
                   rest + next.value, visited + {cur.pos}, best[cur.pos := cur.loss]);
      ExpandValid(layout, c, starts, cur);
      forall n | n in next.value
        ensures n.pos in Universe(layout, starts)
      {
        StepInUniverse(layout, c, starts, cur.pos, n.pos);
      }
      assert Universe(layout, starts) - (visited + {cur.pos}) < Universe(layout, starts) - visited;
      visited := visited + {cur.pos};
      best := best[cur.pos := cur.loss];
      queue := rest + next.value;
    }
    SearchExhausted(layout, c, starts, minStraight, visited, best);
    return NoPath;
  }

  /** The crucible starts at the top-left block, heading right or down. */
  const Starts: seq<Position> := [Position(1, 1, Right, 0), Position(1, 1, Down, 0)]

  /**
   * What a part's answer means: the least loss over all walks to the target
   * when one exists, -1 when none does, and `None` when the search first
   * polls a position with a move off the layout.
   */
  ghost predicate Answer(layout: Layout, c: Crucible, minStraight: int, r: Option<int>)
  {
    && (r.Some? && r.value >= 0 ==>
          && (exists w :: IsWalk(layout, c, Starts, w) && Accepting(layout, minStraight, w[|w| - 1]) && Cost(layout, w) == r.value)
          && Cheapest(layout, c, Starts, minStraight, r.value))
    && (r.Some? ==> r.value >= -1)
    && (r == Some(-1) ==> forall w | IsWalk(layout, c, Starts, w) :: !Accepting(layout, minStraight, w[|w| - 1]))
    && (r.None? ==> exists e :: ValidEntry(layout, c, Starts, e) && Escapes(layout, c, e.pos)
                                && Cheapest(layout, c, Starts, minStraight, e.loss))
  }

  /** The loss of the path found, -1 for none, `None` for an index error. */
  method Solve(grid: Layout, minStraight: int, c: Crucible) returns (r: Option<int>)
    ensures Answer(Bordered(grid), c, minStraight, r)
  {
    var layout := Bordered(grid);
    var outcome := FindShortestPath(layout, Starts, minStraight, c);
    match outcome {
      case Found(e) =>
        assert IsWalk(layout, c, Starts, e.path) && Accepting(layout, minStraight, e.path[|e.path| - 1]);
        r := Some(e.loss);
      case NoPath =>
        r := Some(-1);
      case IndexError(e) =>
        r := None;
    }
  }

  /** `part1`: the standard crucible, which may stop after any run. */
  method Part1(grid: Layout) returns (r: Option<int>)
    ensures Answer(Bordered(grid), Standard, 1, r)
  {
    r := Solve(grid, 1, Standard);
  }

  /** `part2`: the ultra crucible, which must have gone four blocks straight to stop. */
  method Part2(grid: Layout) returns (r: Option<int>)
    ensures Answer(Bordered(grid), Ultra, 4, r)
  {
    r := Solve(grid, 4, Ultra);
  }
}
