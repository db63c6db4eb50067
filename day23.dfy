/**
 * Day 23 ("A Long Walk"): the longest hike through a map of paths, forest
 * and steep slopes, never stepping on the same tile twice.  The map is
 * shrunk to a graph of junctions joined by corridor lengths, and the
 * longest simple path through that graph is searched exhaustively.
 */
module Day23 {
  import opened Common

  datatype Pt = Pt(x: int, y: int)

  /** A corridor from one junction to another and its number of steps. */
  datatype Edge = Edge(from: Pt, to: Pt, length: int)

  type HikingMap = seq<seq<char>>

  predicate InRange(m: HikingMap, p: Pt)
  {
    0 <= p.y < |m| && 0 <= p.x < |m[p.y]|
  }

  /** All tiles of the map. */
  function Cells(m: HikingMap): set<Pt>
  {
    set y, x | 0 <= y < |m| && 0 <= x < |m[y]| :: Pt(x, y)
  }

  lemma CellsInRange(m: HikingMap, p: Pt)
    ensures p in Cells(m) <==> InRange(m, p)
  {
    if InRange(m, p) {
      assert p == Pt(p.x, p.y);
    }
  }

  /** The four tiles looked at from `p`, in the source's order: up, left,
    * right, down. */
  function Around(p: Pt): seq<Pt>
  {
    [Pt(p.x, p.y - 1), Pt(p.x - 1, p.y), Pt(p.x + 1, p.y), Pt(p.x, p.y + 1)]
  }

  /** Whether a step from `cur` onto a tile showing `ch` at `next` is
    * allowed: forest never, a slope only downhill unless slopes are
    * ignored (the second part), any other tile always. */
  predicate SlopeAllows(ch: char, ignoreSlopes: bool, cur: Pt, next: Pt)
  {
    match ch
    case '>' => ignoreSlopes || next.x > cur.x
    case '<' => ignoreSlopes || next.x < cur.x
    case 'v' => ignoreSlopes || next.y > cur.y
    case '^' => ignoreSlopes || next.y < cur.y
    case '#' => false
    case _ => true
  }

  /** One step of a hike: to an adjacent tile of the map that may be entered. */
  predicate CanStep(m: HikingMap, ignoreSlopes: bool, cur: Pt, next: Pt)
  {
    next in Around(cur) && InRange(m, next) && SlopeAllows(m[next.y][next.x], ignoreSlopes, cur, next)
  }

  /** The slope rules in words: forest is never entered, and with slopes in
    * force a slope tile is entered only in the direction it points. */
  lemma SlopeRules(m: HikingMap, ignoreSlopes: bool, cur: Pt, next: Pt)
    requires next in Around(cur) && InRange(m, next)
    ensures m[next.y][next.x] == '#' ==> !CanStep(m, ignoreSlopes, cur, next)
    ensures m[next.y][next.x] == '>' && !ignoreSlopes ==> (CanStep(m, ignoreSlopes, cur, next) <==> next == Pt(cur.x + 1, cur.y))
    ensures m[next.y][next.x] == '<' && !ignoreSlopes ==> (CanStep(m, ignoreSlopes, cur, next) <==> next == Pt(cur.x - 1, cur.y))
    ensures m[next.y][next.x] == 'v' && !ignoreSlopes ==> (CanStep(m, ignoreSlopes, cur, next) <==> next == Pt(cur.x, cur.y + 1))
    ensures m[next.y][next.x] == '^' && !ignoreSlopes ==> (CanStep(m, ignoreSlopes, cur, next) <==> next == Pt(cur.x, cur.y - 1))
    ensures m[next.y][next.x] != '#' && ignoreSlopes ==> CanStep(m, ignoreSlopes, cur, next)
  {
  }

  /** The tiles of `cs` a step from `cur` may enter, in order. */
  function StepsAmong(m: HikingMap, ignoreSlopes: bool, cur: Pt, cs: seq<Pt>): (r: seq<Pt>)
    ensures forall n | n in r :: n in cs && InRange(m, n) && SlopeAllows(m[n.y][n.x], ignoreSlopes, cur, n)
    ensures forall n | n in cs && InRange(m, n) && SlopeAllows(m[n.y][n.x], ignoreSlopes, cur, n) :: n in r
  {
    if cs == [] then []
    else
      var rest := StepsAmong(m, ignoreSlopes, cur, cs[1..]);
      assert forall n | n in cs :: n == cs[0] || n in cs[1..];
      var c := cs[0];
      if InRange(m, c) && SlopeAllows(m[c.y][c.x], ignoreSlopes, cur, c) then [c] + rest else rest
  }

  /** The tiles a hike may step to from `cur`, in the order they are queued. */
  function Moves(m: HikingMap, ignoreSlopes: bool, cur: Pt): (r: seq<Pt>)
    ensures forall n | n in r :: CanStep(m, ignoreSlopes, cur, n)
    ensures forall n | CanStep(m, ignoreSlopes, cur, n) :: n in r
  {
    StepsAmong(m, ignoreSlopes, cur, Around(cur))
  }

  // ------------------------------------------------------------ junctions

  /** Every row as long as the first, with forest down both sides, and an
    * open tile in the first and the last row. */
  predicate WellFormed(m: HikingMap)
  {
    && |m| >= 2
    && (forall y | 0 <= y < |m| :: |m[y]| == |m[0]| && |m[y]| >= 1 && m[y][0] == '#' && m[y][|m[y]| - 1] == '#')
    && '.' in m[0] && '.' in m[|m| - 1]
  }

  /** How many of the four tiles around an inner tile are not forest. */
  function OpenAround(m: HikingMap, p: Pt): (r: nat)
    requires WellFormed(m) && 1 <= p.y < |m| - 1 && 1 <= p.x < |m[0]| - 1
    ensures r <= 4
  {
    var up, left, right, down := Pt(p.x, p.y - 1), Pt(p.x - 1, p.y), Pt(p.x + 1, p.y), Pt(p.x, p.y + 1);
    (if m[up.y][up.x] != '#' then 1 else 0) + (if m[left.y][left.x] != '#' then 1 else 0)
      + (if m[right.y][right.x] != '#' then 1 else 0) + (if m[down.y][down.x] != '#' then 1 else 0)
  }

  /** A junction: an open tile of an inner row with more than two open
    * neighbours. */
  predicate Junction(m: HikingMap, p: Pt)
    requires WellFormed(m)
  {
    1 <= p.y < |m| - 1 && 0 <= p.x < |m[0]| && m[p.y][p.x] != '#' && OpenAround(m, p) > 2
  }

  /** The junctions of row `y` from column `x` on, left to right. */
  function RowJunctions(m: HikingMap, y: int, x: nat): (r: seq<Pt>)
    requires WellFormed(m) && 1 <= y < |m| - 1 && x <= |m[0]|
    ensures forall p | p in r :: p.y == y && x <= p.x && Junction(m, p)
    ensures NoDuplicates(r)
    decreases |m[0]| - x
  {
    if x == |m[0]| then []
    else
      var rest := RowJunctions(m, y, x + 1);
      var p := Pt(x, y);
      if m[y][x] != '#' && OpenAround(m, p) > 2 then [p] + rest else rest
  }

  lemma {:induction false} RowJunctionsComplete(m: HikingMap, y: int, x: nat, p: Pt)
    requires WellFormed(m) && 1 <= y < |m| - 1 && x <= |m[0]|
    requires p.y == y && x <= p.x && Junction(m, p)
    ensures p in RowJunctions(m, y, x)
    decreases |m[0]| - x
  {
    var rest := RowJunctions(m, y, x + 1);
    var here := Pt(x, y);
    assert RowJunctions(m, y, x) == if m[y][x] != '#' && OpenAround(m, here) > 2 then [here] + rest else rest;
    if p.x > x {
      RowJunctionsComplete(m, y, x + 1, p);
    } else {
      assert p == here;
    }
  }

  /** The junctions of the inner rows from row `y` on, row by row; the first
    * and last rows are skipped, their ends are added separately. */
  function FindVertices(m: HikingMap, y: nat): (r: seq<Pt>)
    requires WellFormed(m) && 1 <= y <= |m| - 1
    ensures forall p | p in r :: y <= p.y && Junction(m, p)
    ensures NoDuplicates(r)
    decreases |m| - y
  {
    if y == |m| - 1 then []
    else
      var row, rest := RowJunctions(m, y, 0), FindVertices(m, y + 1);
      NoDuplicatesAppend(row, rest);
      row + rest
  }

  /** The vertices found are exactly the junctions. */
  lemma {:induction false} FindVerticesIff(m: HikingMap, y: nat, p: Pt)
    requires WellFormed(m) && 1 <= y <= |m| - 1
    ensures p in FindVertices(m, y) <==> y <= p.y && Junction(m, p)
    decreases |m| - y
  {
    if y < |m| - 1 {
      var row, rest := RowJunctions(m, y, 0), FindVertices(m, y + 1);
      assert FindVertices(m, y) == row + rest;
      if y <= p.y && Junction(m, p) {
        if p.y == y {
          RowJunctionsComplete(m, y, 0, p);
          assert p in row;
        } else {
          FindVerticesIff(m, y + 1, p);
          assert p in rest;
        }
      }
    }
  }

  // ------------------------------------------------------------ corridors

  /** What one corridor search works in: the tiles each tile leads to, all
    * tiles, the junctions a corridor ends at, and the junction it starts
    * from. */
  datatype Scope = Scope(succ: Pt -> seq<Pt>, tiles: set<Pt>, others: set<Pt>, vertex: Pt)

  /** The search on the hiking map: a tile leads to the tiles a hike may
    * step to from it, in the order they are queued. */
  function MapScope(m: HikingMap, ignoreSlopes: bool, others: set<Pt>, vertex: Pt): (sc: Scope)
    ensures sc.tiles == Cells(m) && sc.others == others && sc.vertex == vertex
    ensures forall c :: sc.succ(c) == Moves(m, ignoreSlopes, c)
  {
    Scope(c => Moves(m, ignoreSlopes, c), Cells(m), others, vertex)
  }

  /** Every tile leads only to tiles. */
  ghost predicate Closed(sc: Scope)
  {
    forall c, n | n in sc.succ(c) :: n in sc.tiles
  }

  lemma MapClosed(m: HikingMap, ignoreSlopes: bool, others: set<Pt>, vertex: Pt)
    ensures Closed(MapScope(m, ignoreSlopes, others, vertex))
  {
    var sc := MapScope(m, ignoreSlopes, others, vertex);
    forall c, n | n in sc.succ(c)
      ensures n in sc.tiles
    {
      assert CanStep(m, ignoreSlopes, c, n);
      CellsInRange(m, n);
    }
  }

  /** A corridor walk: from the start junction, one step at a time, passing
    * no other junction before its last tile. */
  ghost predicate Trail(sc: Scope, t: seq<Pt>)
  {
    && |t| >= 1 && t[0] == sc.vertex
    && (forall i | 0 <= i < |t| - 1 :: t[i] !in sc.others)
    && (forall i, j | 0 <= i && j == i + 1 < |t| :: t[j] in sc.succ(t[i]))
  }

  /** On the map a corridor walk is a sequence of allowed steps from the
    * start junction that passes no other junction before its end. */
  lemma MapTrail(m: HikingMap, ignoreSlopes: bool, others: set<Pt>, vertex: Pt, t: seq<Pt>)
    ensures Trail(MapScope(m, ignoreSlopes, others, vertex), t) <==>
              && |t| >= 1 && t[0] == vertex
              && forall i | 0 <= i < |t| - 1 :: t[i] !in others && CanStep(m, ignoreSlopes, t[i], t[i + 1])
  {
    var sc := MapScope(m, ignoreSlopes, others, vertex);
    if Trail(sc, t) {
      forall i | 0 <= i < |t| - 1
        ensures CanStep(m, ignoreSlopes, t[i], t[i + 1])
      {
        assert t[i + 1] in sc.succ(t[i]);
      }
    }
    if |t| >= 1 && forall i | 0 <= i < |t| - 1 :: t[i] !in others && CanStep(m, ignoreSlopes, t[i], t[i + 1]) {
      forall i, j | 0 <= i && j == i + 1 < |t|
        ensures t[j] in sc.succ(t[i])
      {
        assert CanStep(m, ignoreSlopes, t[i], t[i + 1]);
      }
    }
  }

  /** `c` is reached by a corridor walk of `len` steps. */
  ghost predicate Connected(sc: Scope, c: Pt, len: int)
  {
    exists t | Trail(sc, t) :: |t| == len + 1 && t[|t| - 1] == c
  }

  /** `len` is the fewest steps of any corridor walk to `c`. */
  ghost predicate ShortestTo(sc: Scope, c: Pt, len: int)
  {
    && Connected(sc, c, len)
    && forall t | Trail(sc, t) && t[|t| - 1] == c :: |t| >= len + 1
  }

  lemma TrailStep(sc: Scope, t: seq<Pt>, n: Pt)
    requires Trail(sc, t) && t[|t| - 1] !in sc.others && n in sc.succ(t[|t| - 1])
    ensures Trail(sc, t + [n])
  {
    var t' := t + [n];
    forall i | 0 <= i < |t'| - 1
      ensures t'[i] !in sc.others
    {
      assert t'[i] == t[i];
    }
    forall i, j | 0 <= i && j == i + 1 < |t'|
      ensures t'[j] in sc.succ(t'[i])
    {
      assert t'[i] == t[i];
      if j < |t| {
        assert t'[j] == t[j];
      }
    }
  }

  lemma TrailPrefix(sc: Scope, t: seq<Pt>)
    requires Trail(sc, t) && |t| >= 2
    ensures Trail(sc, t[..|t| - 1])
  {
    var t' := t[..|t| - 1];
    assert forall i | 0 <= i < |t'| :: t'[i] == t[i];
  }

  lemma ConnectedStep(sc: Scope, c: Pt, len: int, n: Pt)
    requires Connected(sc, c, len) && c !in sc.others && n in sc.succ(c)
    ensures Connected(sc, n, len + 1)
  {
    var t :| Trail(sc, t) && |t| == len + 1 && t[|t| - 1] == c;
    TrailStep(sc, t, n);
    assert (t + [n])[|t + [n]| - 1] == n;
  }

  /** Every queued tile is a tile reached by a corridor walk of the queued
    * length. */
  ghost predicate QueueReached(sc: Scope, queue: seq<(Pt, int)>)
  {
    forall i | 0 <= i < |queue| :: queue[i].0 in sc.tiles && Connected(sc, queue[i].0, queue[i].1)
  }

  /** Breadth-first order: queued lengths never decrease and span at most
    * two consecutive values. */
  predicate Layered(queue: seq<(Pt, int)>)
  {
    && (forall i, j | 0 <= i < j < |queue| :: queue[i].1 <= queue[j].1)
    && (forall i | 0 <= i < |queue| :: queue[i].1 <= queue[0].1 + 1)
  }

  /** Every tile an explored tile leads to (unless the search stops at that
    * junction) is explored or queued at most one step further. */
  ghost predicate Frontier(sc: Scope, queue: seq<(Pt, int)>, dist: map<Pt, int>)
  {
    forall c, n | c in dist && c !in sc.others && n in sc.succ(c) ::
      n in dist || exists i | 0 <= i < |queue| :: queue[i].0 == n && queue[i].1 <= dist[c] + 1
  }

  /** The corridors found so far: one per explored junction, with its
    * distance. */
  ghost predicate EdgesFound(sc: Scope, dist: map<Pt, int>, edges: seq<Edge>)
  {
    && (forall e | e in edges :: e.from == sc.vertex && e.to in sc.others && e.to in dist && e.length == dist[e.to])
    && (forall c | c in dist && c in sc.others :: exists e | e in edges :: e.to == c)
    && (forall i, j | 0 <= i < j < |edges| :: edges[i].to != edges[j].to)
  }

  /** Every explored tile is recorded at its shortest distance. */
  ghost predicate AllShortest(sc: Scope, dist: map<Pt, int>)
  {
    forall c | c in dist :: ShortestTo(sc, c, dist[c])
  }

  /** The state of the breadth-first search between two polls: `visited`
    * is the set of explored tiles and `dist` their distances. */
  ghost predicate Searching(sc: Scope, queue: seq<(Pt, int)>, visited: set<Pt>, dist: map<Pt, int>, edges: seq<Edge>)
  {
    && visited == dist.Keys
    && QueueReached(sc, queue) && Layered(queue)
    && AllShortest(sc, dist)
    && Frontier(sc, queue, dist)
    && (sc.vertex !in dist ==> |queue| > 0 && queue[0] == (sc.vertex, 0))
    && EdgesFound(sc, dist, edges)
  }

  lemma SearchStart(sc: Scope)
    requires sc.vertex in sc.tiles && sc.vertex !in sc.others
    ensures Searching(sc, [(sc.vertex, 0)], {}, map[], [])
  {
    assert Trail(sc, [sc.vertex]);
    assert Connected(sc, sc.vertex, 0);
  }

  /** No corridor walk reaches an unexplored tile in fewer steps than the
    * length at the head of the queue. */
  lemma {:induction false} FrontierBound(sc: Scope, queue: seq<(Pt, int)>, dist: map<Pt, int>, t: seq<Pt>)
    requires |queue| > 0 && Layered(queue) && Frontier(sc, queue, dist)
    requires AllShortest(sc, dist)
    requires sc.vertex !in dist ==> queue[0] == (sc.vertex, 0)
    requires Trail(sc, t) && t[|t| - 1] !in dist
    ensures |t| - 1 >= queue[0].1
    decreases |t|
  {
    if |t| == 1 {
      assert t[0] == sc.vertex;
    } else {
      var t' := t[..|t| - 1];
      TrailPrefix(sc, t);
      var y, x := t[|t| - 2], t[|t| - 1];
      assert t'[|t'| - 1] == y;
      if y !in dist {
        FrontierBound(sc, queue, dist, t');
      } else {
        assert y !in sc.others && x in sc.succ(y);
        var i :| 0 <= i < |queue| && queue[i].0 == x && queue[i].1 <= dist[y] + 1;
        assert ShortestTo(sc, y, dist[y]);
        assert |t'| >= dist[y] + 1;
        assert queue[0].1 <= queue[i].1;
      }
    }
  }

  /** A tile polled while unexplored is at its shortest distance. */
  lemma PolledShortest(sc: Scope, q0: seq<(Pt, int)>, visited: set<Pt>, dist: map<Pt, int>, edges: seq<Edge>)
    requires Searching(sc, q0, visited, dist, edges) && |q0| > 0 && q0[0].0 !in visited
    ensures ShortestTo(sc, q0[0].0, q0[0].1)
    ensures AllShortest(sc, dist[q0[0].0 := q0[0].1])
  {
    forall t | Trail(sc, t) && t[|t| - 1] == q0[0].0
      ensures |t| >= q0[0].1 + 1
    {
      FrontierBound(sc, q0, dist, t);
    }
  }

  lemma QueueTail(sc: Scope, q0: seq<(Pt, int)>)
    requires QueueReached(sc, q0) && Layered(q0) && |q0| > 0
    ensures QueueReached(sc, q0[1..]) && Layered(q0[1..])
  {
    var q := q0[1..];
    assert forall i | 0 <= i < |q| :: q[i] == q0[i + 1];
  }

  /** The queue entries for the tiles `next`, each `len` steps away. */
  function Queued(next: seq<Pt>, len: int): (r: seq<(Pt, int)>)
    ensures |r| == |next| && forall i | 0 <= i < |r| :: r[i] == (next[i], len)
  {
    seq(|next|, i requires 0 <= i < |next| => (next[i], len))
  }

  lemma QueuedReached(sc: Scope, cur: Pt, len: int)
    requires Closed(sc) && Connected(sc, cur, len) && cur !in sc.others
    ensures QueueReached(sc, Queued(sc.succ(cur), len + 1))
  {
    var next := sc.succ(cur);
    forall i | 0 <= i < |next|
      ensures next[i] in sc.tiles && Connected(sc, next[i], len + 1)
    {
      ConnectedStep(sc, cur, len, next[i]);
    }
  }

  lemma QueueReachedAppend(sc: Scope, a: seq<(Pt, int)>, b: seq<(Pt, int)>)
    requires QueueReached(sc, a) && QueueReached(sc, b)
    ensures QueueReached(sc, a + b)
  {
    forall i | 0 <= i < |a + b|
      ensures (a + b)[i].0 in sc.tiles && Connected(sc, (a + b)[i].0, (a + b)[i].1)
    {
      if i >= |a| {
        assert (a + b)[i] == b[i - |a|];
      }
    }
  }

  lemma LayeredExtend(q0: seq<(Pt, int)>, added: seq<(Pt, int)>)
    requires Layered(q0) && |q0| > 0
    requires forall i | 0 <= i < |added| :: added[i].1 == q0[0].1 + 1
    ensures Layered(q0[1..] + added)
  {
    var q := q0[1..] + added;
    forall i | 0 <= i < |q|
      ensures q0[0].1 <= q[i].1 <= q0[0].1 + 1
    {
      if i < |q0| - 1 {
        assert q[i] == q0[i + 1];
      } else {
        assert q[i] == added[i - (|q0| - 1)];
      }
    }
    forall i, j | 0 <= i < j < |q|
      ensures q[i].1 <= q[j].1
    {
      if j < |q0| - 1 {
        assert q[i] == q0[i + 1] && q[j] == q0[j + 1];
      } else {
        assert q[j] == added[j - (|q0| - 1)];
      }
    }
  }

  lemma QueueExtend(sc: Scope, q0: seq<(Pt, int)>)
    requires Closed(sc) && QueueReached(sc, q0) && Layered(q0) && |q0| > 0 && q0[0].0 !in sc.others
    ensures QueueReached(sc, q0[1..] + Queued(sc.succ(q0[0].0), q0[0].1 + 1))
    ensures Layered(q0[1..] + Queued(sc.succ(q0[0].0), q0[0].1 + 1))
  {
    var added := Queued(sc.succ(q0[0].0), q0[0].1 + 1);
    QueueTail(sc, q0);
    QueuedReached(sc, q0[0].0, q0[0].1);
    QueueReachedAppend(sc, q0[1..], added);
    LayeredExtend(q0, added);
  }

  lemma FrontierSkip(sc: Scope, q0: seq<(Pt, int)>, dist: map<Pt, int>)
    requires Frontier(sc, q0, dist) && |q0| > 0 && q0[0].0 in dist
    ensures Frontier(sc, q0[1..], dist)
  {
    var q := q0[1..];
    forall c, n | c in dist && c !in sc.others && n in sc.succ(c) && n !in dist
      ensures exists i | 0 <= i < |q| :: q[i].0 == n && q[i].1 <= dist[c] + 1
    {
      var i :| 0 <= i < |q0| && q0[i].0 == n && q0[i].1 <= dist[c] + 1;
      assert q[i - 1] == q0[i];
    }
  }

  lemma FrontierArrive(sc: Scope, q0: seq<(Pt, int)>, dist: map<Pt, int>)
    requires Frontier(sc, q0, dist) && |q0| > 0 && q0[0].0 in sc.others
    ensures Frontier(sc, q0[1..], dist[q0[0].0 := q0[0].1])
  {
    var cur, len := q0[0].0, q0[0].1;
    var q, dist' := q0[1..], dist[cur := len];
    forall c, n | c in dist' && c !in sc.others && n in sc.succ(c) && n !in dist'
      ensures exists i | 0 <= i < |q| :: q[i].0 == n && q[i].1 <= dist'[c] + 1
    {
      assert c != cur && c in dist;
      var i :| 0 <= i < |q0| && q0[i].0 == n && q0[i].1 <= dist[c] + 1;
      assert q[i - 1] == q0[i];
    }
  }

  lemma FrontierExpand(sc: Scope, q0: seq<(Pt, int)>, dist: map<Pt, int>)
    requires Frontier(sc, q0, dist) && |q0| > 0 && q0[0].0 !in sc.others
    ensures Frontier(sc, q0[1..] + Queued(sc.succ(q0[0].0), q0[0].1 + 1), dist[q0[0].0 := q0[0].1])
  {
    var cur, len := q0[0].0, q0[0].1;
    var next := sc.succ(cur);
    var added := Queued(next, len + 1);
    var q, dist' := q0[1..] + added, dist[cur := len];
    forall c, n | c in dist' && c !in sc.others && n in sc.succ(c) && n !in dist'
      ensures exists i | 0 <= i < |q| :: q[i].0 == n && q[i].1 <= dist'[c] + 1
    {
      if c == cur {
        var k :| 0 <= k < |next| && next[k] == n;
        assert q[|q0| - 1 + k] == added[k];
      } else {
        var i :| 0 <= i < |q0| && q0[i].0 == n && q0[i].1 <= dist[c] + 1;
        assert q[i - 1] == q0[i];
      }
    }
  }

  lemma EdgesArrive(sc: Scope, dist: map<Pt, int>, edges: seq<Edge>, cur: Pt, len: int)
    requires EdgesFound(sc, dist, edges) && cur !in dist && cur in sc.others
    ensures EdgesFound(sc, dist[cur := len], edges + [Edge(sc.vertex, cur, len)])
  {
    var dist', edges' := dist[cur := len], edges + [Edge(sc.vertex, cur, len)];
    forall c | c in dist' && c in sc.others
      ensures exists e | e in edges' :: e.to == c
    {
      if c == cur {
        assert edges'[|edges|].to == c;
      } else {
        var e :| e in edges && e.to == c;
        assert e in edges';
      }
    }
    assert forall e | e in edges :: e.to != cur;
  }

  lemma EdgesPass(sc: Scope, dist: map<Pt, int>, edges: seq<Edge>, cur: Pt, len: int)
    requires EdgesFound(sc, dist, edges) && cur !in dist && cur !in sc.others
    ensures EdgesFound(sc, dist[cur := len], edges)
  {
    assert forall e | e in edges :: e.to != cur;
  }

  lemma SearchSkip(sc: Scope, q0: seq<(Pt, int)>, visited: set<Pt>, dist: map<Pt, int>, edges: seq<Edge>)
    requires Searching(sc, q0, visited, dist, edges) && |q0| > 0 && q0[0].0 in visited
    ensures Searching(sc, q0[1..], visited, dist, edges)
  {
    QueueTail(sc, q0);
    FrontierSkip(sc, q0, dist);
  }

  /** Polling an unexplored junction records its corridor. */
  lemma SearchArrive(sc: Scope, q0: seq<(Pt, int)>, visited: set<Pt>, dist: map<Pt, int>, edges: seq<Edge>)
    requires Searching(sc, q0, visited, dist, edges) && |q0| > 0 && q0[0].0 !in visited && q0[0].0 in sc.others
    ensures Searching(sc, q0[1..], visited + {q0[0].0}, dist[q0[0].0 := q0[0].1], edges + [Edge(sc.vertex, q0[0].0, q0[0].1)])
  {
    PolledShortest(sc, q0, visited, dist, edges);
    QueueTail(sc, q0);
    FrontierArrive(sc, q0, dist);
    EdgesArrive(sc, dist, edges, q0[0].0, q0[0].1);
  }

  /** Polling an unexplored tile that is not a junction queues the tiles
    * it leads to, one step further. */
  lemma SearchExpand(sc: Scope, q0: seq<(Pt, int)>, visited: set<Pt>, dist: map<Pt, int>, edges: seq<Edge>)
    requires Closed(sc)
    requires Searching(sc, q0, visited, dist, edges) && |q0| > 0 && q0[0].0 !in visited && q0[0].0 !in sc.others
    ensures Searching(sc, q0[1..] + Queued(sc.succ(q0[0].0), q0[0].1 + 1), visited + {q0[0].0}, dist[q0[0].0 := q0[0].1], edges)
  {
    PolledShortest(sc, q0, visited, dist, edges);
    QueueExtend(sc, q0);
    FrontierExpand(sc, q0, dist);
    EdgesPass(sc, dist, edges, q0[0].0, q0[0].1);
  }

  /** Once the queue is empty every corridor walk ends on an explored tile. */
  lemma {:induction false} SearchedAll(sc: Scope, visited: set<Pt>, dist: map<Pt, int>, edges: seq<Edge>, t: seq<Pt>)
    requires Searching(sc, [], visited, dist, edges) && Trail(sc, t)
    ensures t[|t| - 1] in dist
    decreases |t|
  {
    if |t| >= 2 {
      TrailPrefix(sc, t);
      SearchedAll(sc, visited, dist, edges, t[..|t| - 1]);
      assert t[|t| - 2] !in sc.others && t[|t| - 1] in sc.succ(t[|t| - 2]);
    }
  }

  /** What an exhausted search has found: every corridor, once, at its
    * shortest length. */
  lemma SearchDone(sc: Scope, visited: set<Pt>, dist: map<Pt, int>, edges: seq<Edge>)
    requires Searching(sc, [], visited, dist, edges)
    ensures forall e | e in edges :: e.from == sc.vertex && e.to in sc.others && ShortestTo(sc, e.to, e.length)
    ensures forall i, j | 0 <= i < j < |edges| :: edges[i].to != edges[j].to
    ensures forall t | Trail(sc, t) && t[|t| - 1] in sc.others :: exists e | e in edges :: e.to == t[|t| - 1]
  {
    forall t | Trail(sc, t) && t[|t| - 1] in sc.others
      ensures exists e | e in edges :: e.to == t[|t| - 1]
    {
      SearchedAll(sc, visited, dist, edges, t);
    }
  }

  /** One poll of the search: the head of `q0` is taken off; an unexplored
    * tile is explored, a junction recorded and any other tile expanded. */
  ghost predicate Polled(sc: Scope, q0: seq<(Pt, int)>, visited0: set<Pt>, dist0: map<Pt, int>, edges0: seq<Edge>,
                         queue: seq<(Pt, int)>, visited: set<Pt>, dist: map<Pt, int>, edges: seq<Edge>)
    requires |q0| > 0
  {
    var cur, len := q0[0].0, q0[0].1;
    if cur in visited0 then
      queue == q0[1..] && visited == visited0 && dist == dist0 && edges == edges0
    else
      && visited == visited0 + {cur} && dist == dist0[cur := len]
      && if cur in sc.others then queue == q0[1..] && edges == edges0 + [Edge(sc.vertex, cur, len)]
         else queue == q0[1..] + Queued(sc.succ(cur), len + 1) && edges == edges0
  }

  lemma SearchStep(sc: Scope, q0: seq<(Pt, int)>, visited0: set<Pt>, dist0: map<Pt, int>, edges0: seq<Edge>,
                   queue: seq<(Pt, int)>, visited: set<Pt>, dist: map<Pt, int>, edges: seq<Edge>)
    requires Closed(sc) && Searching(sc, q0, visited0, dist0, edges0) && |q0| > 0
    requires Polled(sc, q0, visited0, dist0, edges0, queue, visited, dist, edges)
    ensures Searching(sc, queue, visited, dist, edges)
    ensures if q0[0].0 in visited0 then visited == visited0 && |queue| < |q0|
            else visited == visited0 + {q0[0].0} && q0[0].0 !in visited0 && q0[0].0 in sc.tiles
  {
    if q0[0].0 in visited0 {
      SearchSkip(sc, q0, visited0, dist0, edges0);
    } else if q0[0].0 in sc.others {
      SearchArrive(sc, q0, visited0, dist0, edges0);
    } else {
      SearchExpand(sc, q0, visited0, dist0, edges0);
    }
  }

  /** One turn of the search loop: poll the head of the queue and, if its
    * tile is unexplored, record it as a corridor end or queue the tiles a
    * hike may step to from it. `sc` is the search on the map. */
  method Poll(m: HikingMap, ignoreSlopes: bool, others: set<Pt>, vertex: Pt, ghost sc: Scope,
              queue: seq<(Pt, int)>, visited: set<Pt>, edges: seq<Edge>, ghost dist: map<Pt, int>)
    returns (queue': seq<(Pt, int)>, visited': set<Pt>, edges': seq<Edge>, ghost dist': map<Pt, int>)
    requires sc.others == others && sc.vertex == vertex && |queue| > 0
    requires sc.succ(queue[0].0) == Moves(m, ignoreSlopes, queue[0].0)
    ensures Polled(sc, queue, visited, dist, edges, queue', visited', dist', edges')
  {
    var cur, len := queue[0].0, queue[0].1;
    queue', visited', edges', dist' := queue[1..], visited, edges, dist;
    if cur !in visited {
      visited' := visited + {cur};
      dist' := dist[cur := len];
      if cur in others {
        edges' := edges + [Edge(vertex, cur, len)];
      } else {
        queue' := queue' + Queued(Moves(m, ignoreSlopes, cur), len + 1);
      }
    }
  }

  /** The corridors from `vertex` to the junctions in `others`, by a
    * breadth-first search over the tiles, each with its length in steps:
    * each one found once, at its shortest length, and none missed. */
  method FindEdges(m: HikingMap, ignoreSlopes: bool, others: set<Pt>, vertex: Pt) returns (edges: seq<Edge>)
    requires InRange(m, vertex) && vertex !in others
    ensures forall e | e in edges :: e.from == vertex && e.to in others && ShortestTo(MapScope(m, ignoreSlopes, others, vertex), e.to, e.length)
    ensures forall i, j | 0 <= i < j < |edges| :: edges[i].to != edges[j].to
    ensures forall t | Trail(MapScope(m, ignoreSlopes, others, vertex), t) && t[|t| - 1] in others ::
              exists e | e in edges :: e.to == t[|t| - 1]
  {
    ghost var sc := MapScope(m, ignoreSlopes, others, vertex);
    var queue := [(vertex, 0)];
    var visited: set<Pt> := {};
    edges := [];
    ghost var dist: map<Pt, int> := map[];
    CellsInRange(m, vertex);
    SearchStart(sc);
    MapClosed(m, ignoreSlopes, others, vertex);
    while |queue| > 0
      invariant Searching(sc, queue, visited, dist, edges)
      decreases Cells(m) - visited, |queue|
    {
      ghost var q0, visited0, dist0, edges0 := queue, visited, dist, edges;
      queue, visited, edges, dist := Poll(m, ignoreSlopes, others, vertex, sc, queue, visited, edges, dist);
      SearchStep(sc, q0, visited0, dist0, edges0, queue, visited, dist, edges);
    }
    SearchDone(sc, visited, dist, edges);
  }

  // ------------------------------------------------------------ all corridors

  /** The points of a sequence, as a set. */
  function Members(s: seq<Pt>): (r: set<Pt>)
    ensures forall p :: p in r <==> p in s
  {
    set p | p in s
  }

  /** `e` is a corridor between two distinct vertices of `vs`, found by the
    * search from its start at its shortest length. */
  ghost predicate CorridorOf(m: HikingMap, ignoreSlopes: bool, vs: set<Pt>, e: Edge)
  {
    && e.from in vs && e.to in vs && e.from != e.to
    && ShortestTo(MapScope(m, ignoreSlopes, vs - {e.from}, e.from), e.to, e.length)
  }

  /** Every vertex a corridor walk from `v` reaches has its edge from `v`. */
  ghost predicate CoversFrom(m: HikingMap, ignoreSlopes: bool, vs: set<Pt>, v: Pt, edges: seq<Edge>)
  {
    forall t | Trail(MapScope(m, ignoreSlopes, vs - {v}, v), t) && t[|t| - 1] in vs - {v} ::
      exists e | e in edges :: e.from == v && e.to == t[|t| - 1]
  }

  /** No start-target pair is listed twice. */
  predicate UniquePairs(edges: seq<Edge>)
  {
    forall i, j | 0 <= i < j < |edges| :: edges[i].from != edges[j].from || edges[i].to != edges[j].to
  }

  /** The corridors between the vertices: each between two of them at its
    * shortest length, each start-target pair once, and none missed. */
  ghost predicate AllCorridors(m: HikingMap, ignoreSlopes: bool, vertices: seq<Pt>, edges: seq<Edge>)
  {
    && (forall e | e in edges :: CorridorOf(m, ignoreSlopes, Members(vertices), e))
    && UniquePairs(edges)
    && (forall v | v in vertices :: CoversFrom(m, ignoreSlopes, Members(vertices), v, edges))
  }

  lemma CoversAppend(m: HikingMap, ignoreSlopes: bool, vs: set<Pt>, v: Pt, a: seq<Edge>, b: seq<Edge>)
    requires CoversFrom(m, ignoreSlopes, vs, v, a) || CoversFrom(m, ignoreSlopes, vs, v, b)
    ensures CoversFrom(m, ignoreSlopes, vs, v, a + b)
  {
    var sc := MapScope(m, ignoreSlopes, vs - {v}, v);
    forall t | Trail(sc, t) && t[|t| - 1] in vs - {v}
      ensures exists e | e in a + b :: e.from == v && e.to == t[|t| - 1]
    {
      if CoversFrom(m, ignoreSlopes, vs, v, a) {
        var e :| e in a && e.from == v && e.to == t[|t| - 1];
        assert e in a + b;
      } else {
        var e :| e in b && e.from == v && e.to == t[|t| - 1];
        assert e in a + b;
      }
    }
  }

  /** What one search from `v` contributes: its corridors, and all of them. */
  lemma FoundFrom(m: HikingMap, ignoreSlopes: bool, vs: set<Pt>, v: Pt, found: seq<Edge>)
    requires v in vs
    requires forall e | e in found :: e.from == v && e.to in vs - {v} && ShortestTo(MapScope(m, ignoreSlopes, vs - {v}, v), e.to, e.length)
    requires forall t | Trail(MapScope(m, ignoreSlopes, vs - {v}, v), t) && t[|t| - 1] in vs - {v} ::
               exists e | e in found :: e.to == t[|t| - 1]
    ensures forall e | e in found :: CorridorOf(m, ignoreSlopes, vs, e) && e.from == v
    ensures CoversFrom(m, ignoreSlopes, vs, v, found)
  {
  }

  /** The search state after the first `k` vertices. */
  ghost predicate Collected(m: HikingMap, ignoreSlopes: bool, vertices: seq<Pt>, k: nat, edges: seq<Edge>)
    requires k <= |vertices|
  {
    && (forall e | e in edges :: CorridorOf(m, ignoreSlopes, Members(vertices), e) && e.from in vertices[..k])
    && UniquePairs(edges)
    && (forall v | v in vertices[..k] :: CoversFrom(m, ignoreSlopes, Members(vertices), v, edges))
  }

  /** Appending edges from a new start keeps the pairs unique. */
  lemma PairsAppend(edges: seq<Edge>, found: seq<Edge>, v: Pt)
    requires UniquePairs(edges) && forall e | e in edges :: e.from != v
    requires forall e | e in found :: e.from == v
    requires forall i, j | 0 <= i < j < |found| :: found[i].to != found[j].to
    ensures UniquePairs(edges + found)
  {
    var r := edges + found;
    forall i, j | 0 <= i < j < |r|
      ensures r[i].from != r[j].from || r[i].to != r[j].to
    {
      if j >= |edges| {
        assert r[j] == found[j - |edges|] && r[j] in found;
        if i >= |edges| {
          assert r[i] == found[i - |edges|];
        } else {
          assert r[i] == edges[i] && r[i] in edges;
        }
      }
    }
  }

  /** Adding the corridors found from the next vertex. */
  lemma CollectNext(m: HikingMap, ignoreSlopes: bool, vertices: seq<Pt>, k: nat, edges: seq<Edge>, found: seq<Edge>)
    requires NoDuplicates(vertices) && k < |vertices| && Collected(m, ignoreSlopes, vertices, k, edges)
    requires forall e | e in found :: CorridorOf(m, ignoreSlopes, Members(vertices), e) && e.from == vertices[k]
    requires forall i, j | 0 <= i < j < |found| :: found[i].to != found[j].to
    requires CoversFrom(m, ignoreSlopes, Members(vertices), vertices[k], found)
    ensures Collected(m, ignoreSlopes, vertices, k + 1, edges + found)
  {
    assert vertices[k] !in vertices[..k];
    PairsAppend(edges, found, vertices[k]);
    CorridorsAppend(m, ignoreSlopes, vertices, k, edges, found);
    CoversAll(m, ignoreSlopes, vertices, k, edges, found);
  }

  lemma CorridorsAppend(m: HikingMap, ignoreSlopes: bool, vertices: seq<Pt>, k: nat, edges: seq<Edge>, found: seq<Edge>)
    requires k < |vertices|
    requires forall e | e in edges :: CorridorOf(m, ignoreSlopes, Members(vertices), e) && e.from in vertices[..k]
    requires forall e | e in found :: CorridorOf(m, ignoreSlopes, Members(vertices), e) && e.from == vertices[k]
    ensures forall e | e in edges + found :: CorridorOf(m, ignoreSlopes, Members(vertices), e) && e.from in vertices[..k + 1]
  {
    assert vertices[..k + 1] == vertices[..k] + [vertices[k]];
  }

  lemma CoversAll(m: HikingMap, ignoreSlopes: bool, vertices: seq<Pt>, k: nat, edges: seq<Edge>, found: seq<Edge>)
    requires k < |vertices|
    requires forall v | v in vertices[..k] :: CoversFrom(m, ignoreSlopes, Members(vertices), v, edges)
    requires CoversFrom(m, ignoreSlopes, Members(vertices), vertices[k], found)
    ensures forall v | v in vertices[..k + 1] :: CoversFrom(m, ignoreSlopes, Members(vertices), v, edges + found)
  {
    assert vertices[..k + 1] == vertices[..k] + [vertices[k]];
    forall u | u in vertices[..k + 1]
      ensures CoversFrom(m, ignoreSlopes, Members(vertices), u, edges + found)
    {
      CoversAppend(m, ignoreSlopes, Members(vertices), u, edges, found);
    }
  }

  /** The corridors out of every vertex, vertex by vertex (Kotlin's
    * `flatMap` over the vertex set). */
  method FindAllEdges(m: HikingMap, ignoreSlopes: bool, vertices: seq<Pt>) returns (edges: seq<Edge>)
    requires NoDuplicates(vertices) && forall v | v in vertices :: InRange(m, v)
    ensures AllCorridors(m, ignoreSlopes, vertices, edges)
  {
    edges := [];
    var k := 0;
    while k < |vertices|
      invariant 0 <= k <= |vertices| && Collected(m, ignoreSlopes, vertices, k, edges)
    {
      var v := vertices[k];
      var found := FindEdges(m, ignoreSlopes, Members(vertices) - {v}, v);
      FoundFrom(m, ignoreSlopes, Members(vertices), v, found);
      CollectNext(m, ignoreSlopes, vertices, k, edges, found);
      edges := edges + found;
      k := k + 1;
    }
    assert vertices[..k] == vertices;
  }

  // ------------------------------------------------------------ the graph

  /** The junction graph: for each junction the junctions its corridors lead
    * to with their lengths, as an association list kept in the order the
    * targets were first seen (Kotlin's `LinkedHashMap`). */
  type Graph = map<Pt, seq<(Pt, int)>>

  /** Whether no target is listed twice. */
  predicate DistinctTargets(l: seq<(Pt, int)>)
  {
    forall i, j | 0 <= i < j < |l| :: l[i].0 != l[j].0
  }

  /** The length listed for `to`, if any. */
  function Lookup(l: seq<(Pt, int)>, to: Pt): (r: Option<int>)
    ensures r.None? <==> forall i | 0 <= i < |l| :: l[i].0 != to
    ensures r.Some? ==> exists i | 0 <= i < |l| :: l[i] == (to, r.value)
  {
    if l == [] then None
    else if l[0].0 == to then Some(l[0].1)
    else
      var r := Lookup(l[1..], to);
      assert forall i | 1 <= i < |l| :: l[i] == l[1..][i - 1];
      r
  }

  /** Kotlin's `associate` adding one pair: a listed target gets the new
    * length in its old place, a new target goes last. */
  function Put(l: seq<(Pt, int)>, to: Pt, length: int): (r: seq<(Pt, int)>)
    ensures |r| == if Lookup(l, to).None? then |l| + 1 else |l|
    ensures forall i | 0 <= i < |l| :: r[i].0 == l[i].0
    ensures Lookup(l, to).None? ==> r[|l|] == (to, length)
  {
    if l == [] then [(to, length)]
    else if l[0].0 == to then [(to, length)] + l[1..]
    else [l[0]] + Put(l[1..], to, length)
  }

  /** `Put` behaves as a map update. */
  lemma {:induction false} PutLookup(l: seq<(Pt, int)>, to: Pt, length: int, p: Pt)
    ensures Lookup(Put(l, to, length), p) == if p == to then Some(length) else Lookup(l, p)
  {
    if l != [] && l[0].0 != to {
      PutLookup(l[1..], to, length, p);
      assert Put(l, to, length)[1..] == Put(l[1..], to, length);
    }
  }

  /** `Put` lists no target twice if `l` did not. */
  lemma PutDistinct(l: seq<(Pt, int)>, to: Pt, length: int)
    requires DistinctTargets(l)
    ensures DistinctTargets(Put(l, to, length))
  {
    var r := Put(l, to, length);
    forall i, j | 0 <= i < j < |r|
      ensures r[i].0 != r[j].0
    {
      if j == |l| {
        assert r[i].0 == l[i].0;
      }
    }
  }

  /** The adjacency list of `a`, empty when `a` has no corridors. */
  function Out(g: Graph, a: Pt): seq<(Pt, int)>
  {
    if a in g then g[a] else []
  }

  /** Kotlin's `groupBy` on the start of each edge followed by `associate`
    * on each group: edges are added in order. */
  function ToGraph(edges: seq<Edge>): Graph
  {
    if edges == [] then map[]
    else
      var g, e := ToGraph(edges[..|edges| - 1]), edges[|edges| - 1];
      g[e.from := Put(Out(g, e.from), e.to, e.length)]
  }

  /** The length of the last of `edges` from `a` to `b`, if any. */
  function LastLength(edges: seq<Edge>, a: Pt, b: Pt): (r: Option<int>)
  {
    if edges == [] then None
    else
      var e := edges[|edges| - 1];
      if e.from == a && e.to == b then Some(e.length) else LastLength(edges[..|edges| - 1], a, b)
  }

  /** There is a last edge from `a` to `b` exactly when there is one. */
  lemma {:induction false} LastLengthNone(edges: seq<Edge>, a: Pt, b: Pt)
    ensures LastLength(edges, a, b).None? <==> forall e | e in edges :: e.from != a || e.to != b
  {
    if edges != [] {
      var init := edges[..|edges| - 1];
      LastLengthNone(init, a, b);
      assert edges == init + [edges[|edges| - 1]];
    }
  }

  /** With every start-target pair listed once, the last edge of a pair is
    * its only one. */
  lemma {:induction false} LastLengthUnique(edges: seq<Edge>, i: nat)
    requires UniquePairs(edges) && i < |edges|
    ensures LastLength(edges, edges[i].from, edges[i].to) == Some(edges[i].length)
  {
    var n := |edges| - 1;
    if i < n {
      assert edges[..n][i] == edges[i];
      LastLengthUnique(edges[..n], i);
    }
  }

  /** The starts of the edges are exactly the keys of the graph. */
  lemma {:induction false} ToGraphKeys(edges: seq<Edge>, a: Pt)
    ensures a in ToGraph(edges) <==> exists e | e in edges :: e.from == a
  {
    if edges != [] {
      var init, e := edges[..|edges| - 1], edges[|edges| - 1];
      ToGraphKeys(init, a);
      assert edges == init + [e];
      if a in ToGraph(edges) && a != e.from {
        var x :| x in init && x.from == a;
      }
    }
  }

  /** The graph lists each start-target pair with the length of its last
    * edge (a later edge overwrites an earlier one, as in `associate`). */
  lemma {:induction false} ToGraphLookup(edges: seq<Edge>, a: Pt, b: Pt)
    ensures Lookup(Out(ToGraph(edges), a), b) == LastLength(edges, a, b)
  {
    if edges != [] {
      var init, e := edges[..|edges| - 1], edges[|edges| - 1];
      ToGraphLookup(init, a, b);
      PutLookup(Out(ToGraph(init), e.from), e.to, e.length, b);
    }
  }

  /** No adjacency list of the graph names a target twice. */
  lemma {:induction false} ToGraphDistinct(edges: seq<Edge>, a: Pt)
    requires a in ToGraph(edges)
    ensures DistinctTargets(ToGraph(edges)[a])
  {
    var init, e := edges[..|edges| - 1], edges[|edges| - 1];
    var g := ToGraph(init);
    if a != e.from {
      ToGraphDistinct(init, a);
    } else if a in g {
      ToGraphDistinct(init, a);
      PutDistinct(g[a], e.to, e.length);
    }
  }

  /** `b` is listed in the adjacency list of `a`. */
  ghost predicate Kid(g: Graph, a: Pt, b: Pt)
  {
    a in g && exists i | 0 <= i < |g[a]| :: g[a][i].0 == b
  }

  /** A start-target pair is in the graph exactly when some edge joins
    * them. */
  lemma KidOfEdges(edges: seq<Edge>, a: Pt, b: Pt)
    ensures Kid(ToGraph(edges), a, b) <==> exists i | 0 <= i < |edges| :: edges[i].from == a && edges[i].to == b
  {
    ToGraphLookup(edges, a, b);
    ToGraphKeys(edges, a);
    LastLengthNone(edges, a, b);
    if exists i | 0 <= i < |edges| :: edges[i].from == a && edges[i].to == b {
      var i :| 0 <= i < |edges| && edges[i].from == a && edges[i].to == b;
      assert edges[i] in edges;
    }
  }

  /** With each pair listed once, the graph keeps every edge's length. */
  lemma StepOfEdges(edges: seq<Edge>, i: nat)
    requires UniquePairs(edges) && i < |edges|
    ensures StepLength(ToGraph(edges), edges[i].from, edges[i].to) == edges[i].length
  {
    ToGraphLookup(edges, edges[i].from, edges[i].to);
    LastLengthUnique(edges, i);
  }

  // ------------------------------------------------------------ longest hike

  /** Every junction some adjacency list leads to. */
  ghost function Targets(g: Graph): set<Pt>
  {
    set p, i | p in g && 0 <= i < |g[p]| :: g[p][i].0
  }

  /** A step to a kid not yet on the path leaves fewer junctions to visit. */
  lemma Closer(g: Graph, p: seq<Pt>, i: nat)
    requires |p| >= 1 && p[|p| - 1] in g && i < |g[p[|p| - 1]]| && g[p[|p| - 1]][i].0 !in p
    ensures Targets(g) - Members(p + [g[p[|p| - 1]][i].0]) < Targets(g) - Members(p)
  {
    var k := g[p[|p| - 1]][i].0;
    assert k in Targets(g);
    assert Members(p + [k]) == Members(p) + {k};
  }

  /** The length of the corridor from `a` to `b` (0 if there is none, which
    * never happens along a path the search builds). */
  function StepLength(g: Graph, a: Pt, b: Pt): int
  {
    match Lookup(Out(g, a), b)
    case Some(length) => length
    case None => 0
  }

  /** The length of a path: the sum of its corridors' lengths (Kotlin's
    * `zipWithNext` and `sum`). */
  function Weight(g: Graph, path: seq<Pt>): int
  {
    if |path| <= 1 then 0
    else Weight(g, path[..|path| - 1]) + StepLength(g, path[|path| - 2], path[|path| - 1])
  }

  /** Combining the outcomes of two parts of the search: the larger length,
    * and failure (`None`, Kotlin's `getValue` throwing) if either fails. */
  function Join(a: Option<int>, b: Option<int>): (r: Option<int>)
    ensures r.Some? <==> a.Some? && b.Some?
    ensures r.Some? ==> r.value >= a.value && r.value >= b.value && (r.value == a.value || r.value == b.value)
  {
    if a.Some? && b.Some? then Some(Max(a.value, b.value)) else None
  }

  /** The outcome of the search below the stack entry `path`: at the finish
    * the path's length (never below the initial 0), at a junction without
    * corridors a failure, elsewhere the best over the junctions not yet on
    * the path that its corridors lead to. */
  ghost function Longest(g: Graph, finish: Pt, path: seq<Pt>): (r: Option<int>)
    requires |path| >= 1
    ensures r.Some? ==> r.value >= 0
    decreases Targets(g) - Members(path), 1, 0
  {
    var pt := path[|path| - 1];
    if pt == finish then Some(Max(0, Weight(g, path)))
    else if pt !in g then None
    else KidsLongest(g, finish, path, 0)
  }

  /** The best outcome over the entries `i` onwards of the adjacency list
    * of the path's last junction. */
  ghost function KidsLongest(g: Graph, finish: Pt, path: seq<Pt>, i: nat): (r: Option<int>)
    requires |path| >= 1 && path[|path| - 1] in g && i <= |g[path[|path| - 1]]|
    ensures r.Some? ==> r.value >= 0
    decreases Targets(g) - Members(path), 0, |g[path[|path| - 1]]| - i
  {
    var kids := g[path[|path| - 1]];
    if i == |kids| then Some(0)
    else
      var k, rest := kids[i].0, KidsLongest(g, finish, path, i + 1);
      if k in path then rest
      else
        Closer(g, path, i);
        Join(Longest(g, finish, path + [k]), rest)
  }

  /** How many stack entries the search below `path` polls. */
  ghost function Size(g: Graph, finish: Pt, path: seq<Pt>): (r: nat)
    requires |path| >= 1
    ensures r >= 1
    decreases Targets(g) - Members(path), 1, 0
  {
    var pt := path[|path| - 1];
    if pt == finish || pt !in g then 1 else 1 + KidsSize(g, finish, path, 0)
  }

  ghost function KidsSize(g: Graph, finish: Pt, path: seq<Pt>, i: nat): nat
    requires |path| >= 1 && path[|path| - 1] in g && i <= |g[path[|path| - 1]]|
    decreases Targets(g) - Members(path), 0, |g[path[|path| - 1]]| - i
  {
    var kids := g[path[|path| - 1]];
    if i == |kids| then 0
    else
      var k, rest := kids[i].0, KidsSize(g, finish, path, i + 1);
      if k in path then rest
      else
        Closer(g, path, i);
        Size(g, finish, path + [k]) + rest
  }

  /** A stack entry: the junction reached and the path to it, ending there. */
  predicate Entry(e: (Pt, seq<Pt>))
  {
    |e.1| >= 1 && e.0 == e.1[|e.1| - 1]
  }

  /** The outcome of the search below every entry of the stack. */
  ghost function StackLongest(g: Graph, finish: Pt, stack: seq<(Pt, seq<Pt>)>): (r: Option<int>)
    requires forall i | 0 <= i < |stack| :: Entry(stack[i])
    ensures r.Some? ==> r.value >= 0
  {
    if stack == [] then Some(0)
    else
      assert Entry(stack[0]);
      Join(Longest(g, finish, stack[0].1), StackLongest(g, finish, stack[1..]))
  }

  ghost function StackSize(g: Graph, finish: Pt, stack: seq<(Pt, seq<Pt>)>): nat
    requires forall i | 0 <= i < |stack| :: Entry(stack[i])
  {
    if stack == [] then 0
    else
      assert Entry(stack[0]);
      Size(g, finish, stack[0].1) + StackSize(g, finish, stack[1..])
  }

  /** Pushes an entry for every junction the corridors out of the path's
    * last junction lead to that is not on the path yet, in list order, so
    * the last one pushed is polled first. */
  method PushKids(g: Graph, finish: Pt, visited: seq<Pt>, rest: seq<(Pt, seq<Pt>)>) returns (stack: seq<(Pt, seq<Pt>)>)
    requires |visited| >= 1 && visited[|visited| - 1] in g
    requires forall j | 0 <= j < |rest| :: Entry(rest[j])
    ensures forall j | 0 <= j < |stack| :: Entry(stack[j])
    ensures StackLongest(g, finish, stack) == Join(KidsLongest(g, finish, visited, 0), StackLongest(g, finish, rest))
    ensures StackSize(g, finish, stack) == KidsSize(g, finish, visited, 0) + StackSize(g, finish, rest)
  {
    var kids := g[visited[|visited| - 1]];
    stack := rest;
    var i := 0;
    while i < |kids|
      invariant 0 <= i <= |kids|
      invariant forall j | 0 <= j < |stack| :: Entry(stack[j])
      invariant Join(StackLongest(g, finish, stack), KidsLongest(g, finish, visited, i))
                == Join(KidsLongest(g, finish, visited, 0), StackLongest(g, finish, rest))
      invariant StackSize(g, finish, stack) + KidsSize(g, finish, visited, i)
                == KidsSize(g, finish, visited, 0) + StackSize(g, finish, rest)
    {
      var to := kids[i].0;
      if to !in visited {
        stack := [(to, visited + [to])] + stack;
      }
      i := i + 1;
    }
  }

  /** The longest hike from `start` to `finish`, by an exhaustive
    * depth-first search over simple paths with an explicit stack (Kotlin's
    * `push` and `poll` on a `LinkedList`). `None` where Kotlin's `getValue`
    * throws: a junction other than the finish without corridors is polled. */
  method FindLongestPathLength(g: Graph, start: Pt, finish: Pt) returns (r: Option<int>)
    ensures r == Longest(g, finish, [start])
  {
    var stack: seq<(Pt, seq<Pt>)> := [(start, [start])];
    var maxLength := 0;
    while |stack| > 0
      invariant forall i | 0 <= i < |stack| :: Entry(stack[i])
      invariant maxLength >= 0
      invariant Join(Some(maxLength), StackLongest(g, finish, stack)) == Longest(g, finish, [start])
      decreases StackSize(g, finish, stack)
    {
      var pt, visited := stack[0].0, stack[0].1;
      var rest := stack[1..];
      assert Entry(stack[0]);
      if pt != finish {
        if pt !in g {
          return None;
        }
        stack := PushKids(g, finish, visited, rest);
      } else {
        maxLength := Max(Weight(g, visited), maxLength);
        stack := rest;
      }
    }
    r := Some(maxLength);
  }

  // ------------------------------------------------------------ what the search finds

  /** A hike through the graph: no junction twice, every step along a listed
    * corridor, and the finish (where the search stops) only at the end. */
  ghost predicate Hike(g: Graph, finish: Pt, p: seq<Pt>)
  {
    && |p| >= 1 && NoDuplicates(p)
    && forall i | 0 <= i < |p| - 1 :: p[i] != finish && Kid(g, p[i], p[i + 1])
  }

  /** `q` goes on from `p`. */
  predicate Continues(p: seq<Pt>, q: seq<Pt>)
  {
    |p| <= |q| && q[..|p|] == p
  }

  lemma ContinuesFurther(p: seq<Pt>, k: Pt, q: seq<Pt>)
    requires Continues(p + [k], q)
    ensures Continues(p, q)
  {
    assert q[..|p|] == (p + [k])[..|p|];
  }

  lemma HikeExtend(g: Graph, finish: Pt, p: seq<Pt>, k: Pt)
    requires Hike(g, finish, p) && p[|p| - 1] != finish && Kid(g, p[|p| - 1], k) && k !in p
    ensures Hike(g, finish, p + [k])
  {
    var q := p + [k];
    assert forall i | 0 <= i < |p| :: q[i] == p[i];
  }

  /** The next junction of a longer hike is a kid of the last one, not yet
    * on the path. */
  lemma HikeNext(g: Graph, finish: Pt, p: seq<Pt>, q: seq<Pt>) returns (i: nat)
    requires |p| >= 1 && Hike(g, finish, q) && Continues(p, q) && |p| < |q|
    ensures p[|p| - 1] != finish && p[|p| - 1] in g
    ensures i < |g[p[|p| - 1]]| && g[p[|p| - 1]][i].0 == q[|p|] && q[|p|] !in p
    ensures Continues(p + [q[|p|]], q)
  {
    assert p[|p| - 1] == q[|p| - 1];
    assert Kid(g, q[|p| - 1], q[|p|]);
    i :| 0 <= i < |g[p[|p| - 1]]| && g[p[|p| - 1]][i].0 == q[|p|];
    assert forall j | 0 <= j < |p| :: p[j] == q[j];
    assert q[..|p| + 1] == p + [q[|p|]];
  }

  lemma {:induction false} KidsBound(g: Graph, finish: Pt, p: seq<Pt>, j: nat, i: nat)
    requires |p| >= 1 && p[|p| - 1] in g && j <= i < |g[p[|p| - 1]]| && g[p[|p| - 1]][i].0 !in p
    requires KidsLongest(g, finish, p, j).Some?
    ensures Longest(g, finish, p + [g[p[|p| - 1]][i].0]).Some?
    ensures Longest(g, finish, p + [g[p[|p| - 1]][i].0]).value <= KidsLongest(g, finish, p, j).value
    decreases i - j
  {
    if j < i {
      KidsBound(g, finish, p, j + 1, i);
    }
  }

  lemma BoundStep(g: Graph, finish: Pt, p: seq<Pt>, q: seq<Pt>)
    requires |p| >= 1 && Hike(g, finish, q) && Continues(p, q) && |p| < |q|
    requires Longest(g, finish, p).Some?
    ensures Continues(p + [q[|p|]], q)
    ensures Longest(g, finish, p + [q[|p|]]).Some? && Longest(g, finish, p + [q[|p|]]).value <= Longest(g, finish, p).value
  {
    var i := HikeNext(g, finish, p, q);
    KidsBound(g, finish, p, 0, i);
  }

  /** No hike on from `p` to the finish is longer than the search's outcome. */
  lemma {:induction false} LongestBound(g: Graph, finish: Pt, p: seq<Pt>, q: seq<Pt>)
    requires |p| >= 1 && Hike(g, finish, q) && Continues(p, q) && q[|q| - 1] == finish
    requires Longest(g, finish, p).Some?
    ensures Weight(g, q) <= Longest(g, finish, p).value
    decreases |q| - |p|
  {
    if |p| < |q| {
      BoundStep(g, finish, p, q);
      LongestBound(g, finish, p + [q[|p|]], q);
    } else {
      assert p == q;
    }
  }

  lemma {:induction false} KidsFail(g: Graph, finish: Pt, p: seq<Pt>, j: nat, i: nat)
    requires |p| >= 1 && p[|p| - 1] in g && j <= i < |g[p[|p| - 1]]| && g[p[|p| - 1]][i].0 !in p
    requires Longest(g, finish, p + [g[p[|p| - 1]][i].0]).None?
    ensures KidsLongest(g, finish, p, j).None?
    decreases i - j
  {
    if j < i {
      KidsFail(g, finish, p, j + 1, i);
    }
  }

  lemma FailStep(g: Graph, finish: Pt, p: seq<Pt>, q: seq<Pt>)
    requires |p| >= 1 && Hike(g, finish, q) && Continues(p, q) && |p| < |q|
    requires Longest(g, finish, p + [q[|p|]]).None?
    ensures Longest(g, finish, p).None?
  {
    var i := HikeNext(g, finish, p, q);
    KidsFail(g, finish, p, 0, i);
  }

  /** A hike on from `p` that ends at a junction other than the finish
    * without corridors makes the search fail. */
  lemma {:induction false} LongestFail(g: Graph, finish: Pt, p: seq<Pt>, q: seq<Pt>)
    requires |p| >= 1 && Hike(g, finish, q) && Continues(p, q)
    requires q[|q| - 1] != finish && q[|q| - 1] !in g
    ensures Longest(g, finish, p).None?
    decreases |q| - |p|
  {
    if |p| < |q| {
      LongestFail(g, finish, p + [q[|p|]], q);
      FailStep(g, finish, p, q);
    } else {
      assert p == q;
    }
  }

  lemma {:induction false} KidsFailWitness(g: Graph, finish: Pt, p: seq<Pt>, j: nat) returns (i: nat)
    requires |p| >= 1 && p[|p| - 1] in g && j <= |g[p[|p| - 1]]|
    requires KidsLongest(g, finish, p, j).None?
    ensures j <= i < |g[p[|p| - 1]]| && g[p[|p| - 1]][i].0 !in p
    ensures Longest(g, finish, p + [g[p[|p| - 1]][i].0]).None?
    decreases |g[p[|p| - 1]]| - j
  {
    var k := g[p[|p| - 1]][j].0;
    if k !in p && Longest(g, finish, p + [k]).None? {
      i := j;
    } else {
      i := KidsFailWitness(g, finish, p, j + 1);
    }
  }

  /** A failing search has a hike on from `p` to a junction other than the
    * finish without corridors. */
  lemma {:induction false} LongestFailWitness(g: Graph, finish: Pt, p: seq<Pt>) returns (q: seq<Pt>)
    requires Hike(g, finish, p) && Longest(g, finish, p).None?
    ensures Hike(g, finish, q) && Continues(p, q) && q[|q| - 1] != finish && q[|q| - 1] !in g
    decreases Targets(g) - Members(p)
  {
    var pt := p[|p| - 1];
    if pt !in g {
      q := p;
    } else {
      var i := KidsFailWitness(g, finish, p, 0);
      var k := g[pt][i].0;
      HikeExtend(g, finish, p, k);
      Closer(g, p, i);
      q := LongestFailWitness(g, finish, p + [k]);
      ContinuesFurther(p, k, q);
    }
  }

  lemma {:induction false} KidsBestWitness(g: Graph, finish: Pt, p: seq<Pt>, j: nat) returns (i: nat)
    requires |p| >= 1 && p[|p| - 1] in g && j <= |g[p[|p| - 1]]|
    requires KidsLongest(g, finish, p, j).Some? && KidsLongest(g, finish, p, j).value > 0
    ensures j <= i < |g[p[|p| - 1]]| && g[p[|p| - 1]][i].0 !in p
    ensures Longest(g, finish, p + [g[p[|p| - 1]][i].0]) == KidsLongest(g, finish, p, j)
    decreases |g[p[|p| - 1]]| - j
  {
    var k := g[p[|p| - 1]][j].0;
    if k !in p && Longest(g, finish, p + [k]) == KidsLongest(g, finish, p, j) {
      i := j;
    } else {
      i := KidsBestWitness(g, finish, p, j + 1);
    }
  }

  lemma BestKid(g: Graph, finish: Pt, p: seq<Pt>) returns (k: Pt)
    requires Hike(g, finish, p) && Longest(g, finish, p).Some? && Longest(g, finish, p).value > 0
    requires p[|p| - 1] != finish
    ensures Hike(g, finish, p + [k]) && Longest(g, finish, p + [k]) == Longest(g, finish, p)
    ensures Targets(g) - Members(p + [k]) < Targets(g) - Members(p)
  {
    var pt := p[|p| - 1];
    assert pt in g && Longest(g, finish, p) == KidsLongest(g, finish, p, 0);
    var i := KidsBestWitness(g, finish, p, 0);
    k := g[pt][i].0;
    HikeExtend(g, finish, p, k);
    Closer(g, p, i);
  }

  /** A positive outcome is that of a hike on from `p` to the finish. */
  lemma {:induction false} LongestWitness(g: Graph, finish: Pt, p: seq<Pt>) returns (q: seq<Pt>)
    requires Hike(g, finish, p) && Longest(g, finish, p).Some? && Longest(g, finish, p).value > 0
    ensures |q| >= 1 && q[|q| - 1] == finish
    ensures Hike(g, finish, q) && Continues(p, q)
    ensures Longest(g, finish, q) == Longest(g, finish, p)
    decreases Targets(g) - Members(p)
  {
    if p[|p| - 1] == finish {
      q := p;
    } else {
      var k := BestKid(g, finish, p);
      q := LongestWitness(g, finish, p + [k]);
      ContinuesFurther(p, k, q);
    }
  }

  /** What the search from `start` computes: it fails exactly when some
    * hike from `start` ends at a junction other than the finish without
    * corridors; otherwise its outcome is the length of the longest hike
    * from `start` to the finish, or 0 when there is none. */
  lemma LongestHike(g: Graph, start: Pt, finish: Pt)
    ensures Longest(g, finish, [start]).None? <==>
              exists q | Hike(g, finish, q) && q[0] == start :: q[|q| - 1] != finish && q[|q| - 1] !in g
    ensures Longest(g, finish, [start]).Some? ==>
              forall q | Hike(g, finish, q) && q[0] == start && q[|q| - 1] == finish :: Weight(g, q) <= Longest(g, finish, [start]).value
    ensures Longest(g, finish, [start]).Some? && Longest(g, finish, [start]).value > 0 ==>
              exists q | Hike(g, finish, q) && q[0] == start && q[|q| - 1] == finish :: Weight(g, q) == Longest(g, finish, [start]).value
  {
    var r := Longest(g, finish, [start]);
    assert Hike(g, finish, [start]);
    forall q | Hike(g, finish, q) && q[0] == start
      ensures Continues([start], q)
    {
      assert q[..1] == [start];
    }
    if r.None? {
      var q := LongestFailWitness(g, finish, [start]);
    } else {
      forall q | Hike(g, finish, q) && q[0] == start
        ensures q[|q| - 1] == finish ==> Weight(g, q) <= r.value
        ensures !(q[|q| - 1] != finish && q[|q| - 1] !in g)
      {
        if q[|q| - 1] == finish {
          LongestBound(g, finish, [start], q);
        }
        if q[|q| - 1] != finish && q[|q| - 1] !in g {
          LongestFail(g, finish, [start], q);
        }
      }
      if r.value > 0 {
        var q := LongestWitness(g, finish, [start]);
        assert Weight(g, q) == r.value;
      }
    }
  }

  // ------------------------------------------------------------ the puzzle

  /** The entrance: the first open tile of the first row. */
  function Start(m: HikingMap): (p: Pt)
    requires WellFormed(m)
    ensures InRange(m, p) && p.y == 0 && m[0][p.x] == '.' && '.' !in m[0][..p.x]
  {
    Pt(FirstIndex(m[0], '.'), 0)
  }

  /** The exit: the first open tile of the last row. */
  function Finish(m: HikingMap): (p: Pt)
    requires WellFormed(m)
    ensures InRange(m, p) && p.y == |m| - 1 && m[|m| - 1][p.x] == '.' && '.' !in m[|m| - 1][..p.x]
  {
    Pt(FirstIndex(m[|m| - 1], '.'), |m| - 1)
  }

  /** The vertices of the graph in Kotlin's set order: the junctions row by
    * row, then the entrance and the exit. */
  function Vertices(m: HikingMap): (r: seq<Pt>)
    requires WellFormed(m)
    ensures NoDuplicates(r) && forall v | v in r :: InRange(m, v)
  {
    Distinct(FindVertices(m, 1) + [Start(m), Finish(m)])
  }

  /** The vertices are the junctions, the entrance and the exit. */
  lemma VerticesIff(m: HikingMap, p: Pt)
    requires WellFormed(m)
    ensures p in Vertices(m) <==> Junction(m, p) || p == Start(m) || p == Finish(m)
  {
    FindVerticesIff(m, 1, p);
  }

  /** A corridor walk from `a` stops at `b`. */
  ghost predicate Reaches(m: HikingMap, ignoreSlopes: bool, vs: set<Pt>, a: Pt, b: Pt)
  {
    exists t | Trail(MapScope(m, ignoreSlopes, vs - {a}, a), t) :: t[|t| - 1] == b
  }

  /** The graph built from any exact and complete list of corridors: `b` is
    * listed after `a` exactly when a corridor walk leads from the vertex
    * `a` to the other vertex `b`, and then with its shortest length. */
  lemma GraphOfCorridors(m: HikingMap, ignoreSlopes: bool, vertices: seq<Pt>, edges: seq<Edge>, a: Pt, b: Pt)
    requires AllCorridors(m, ignoreSlopes, vertices, edges)
    ensures Kid(ToGraph(edges), a, b) <==>
              a in vertices && b in vertices && a != b && Reaches(m, ignoreSlopes, Members(vertices), a, b)
    ensures Kid(ToGraph(edges), a, b) ==>
              ShortestTo(MapScope(m, ignoreSlopes, Members(vertices) - {a}, a), b, StepLength(ToGraph(edges), a, b))
  {
    var vs := Members(vertices);
    KidOfEdges(edges, a, b);
    if Kid(ToGraph(edges), a, b) {
      var i :| 0 <= i < |edges| && edges[i].from == a && edges[i].to == b;
      StepOfEdges(edges, i);
      assert CorridorOf(m, ignoreSlopes, vs, edges[i]);
      var t :| Trail(MapScope(m, ignoreSlopes, vs - {a}, a), t) && |t| == edges[i].length + 1 && t[|t| - 1] == b;
    } else if a in vertices && b in vertices && a != b && Reaches(m, ignoreSlopes, vs, a, b) {
      assert CoversFrom(m, ignoreSlopes, vs, a, edges);
    }
  }

  /** Kotlin's `solve`: the corridors between the vertices, their graph and
    * the longest hike through it from the entrance to the exit. The
    * outcome is the search's on the graph of a corridor list that
    * `AllCorridors` describes; `GraphOfCorridors` and `LongestHike` say
    * what that is. */
  method Solve(m: HikingMap, ignoreSlopes: bool) returns (r: Option<int>)
    requires WellFormed(m)
    ensures exists edges | AllCorridors(m, ignoreSlopes, Vertices(m), edges) ::
              r == Longest(ToGraph(edges), Finish(m), [Start(m)])
  {
    var start, finish := Start(m), Finish(m);
    var vertices := Distinct(FindVertices(m, 1) + [start, finish]);
    var edges := FindAllEdges(m, ignoreSlopes, vertices);
    r := FindLongestPathLength(ToGraph(edges), start, finish);
  }

  /** The first part: slopes are only walked downhill. */
  method Part1(m: HikingMap) returns (r: Option<int>)
    requires WellFormed(m)
    ensures exists edges | AllCorridors(m, false, Vertices(m), edges) ::
              r == Longest(ToGraph(edges), Finish(m), [Start(m)])
  {
    r := Solve(m, false);
  }

  /** The second part: slopes are walked like paths. */
  method Part2(m: HikingMap) returns (r: Option<int>)
    requires WellFormed(m)
    ensures exists edges | AllCorridors(m, true, Vertices(m), edges) ::
              r == Longest(ToGraph(edges), Finish(m), [Start(m)])
  {
    r := Solve(m, true);
  }
}
