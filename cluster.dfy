/** The colour-cluster locator of `MouseMoveColor`: a breadth-first flood
    fill with 4-connectivity and a global visited set
    (`_flood_fill`), and a column-major scan that keeps the strictly largest
    cluster and returns its floor-mean centroid
    (`_find_largest_color_cluster`). The screenshot is an input value:
    `img.at(x, y)` is the pixel in column x and row y of an image
    `img.width` wide and `img.height` high. */
module Cluster {

  datatype Pixel = Pixel(r: int, g: int, b: int)

  /** A screenshot: its size and its pixel access (`screenshot.load()`). */
  datatype Image = Image(width: nat, height: nat, at: (int, int) -> Pixel)

  type Coord = (int, int)

  function Abs(n: int): nat { if n < 0 then -n else n }

  /** All three channels within `tolerance` of the target. */
  predicate Matches(p: Pixel, target: Pixel, tolerance: int)
  {
    Abs(p.r - target.r) <= tolerance && Abs(p.g - target.g) <= tolerance && Abs(p.b - target.b) <= tolerance
  }

  predicate InBounds(c: Coord, width: int, height: int)
  {
    0 <= c.0 < width && 0 <= c.1 < height
  }

  predicate InImage(img: Image, c: Coord)
  {
    InBounds(c, img.width, img.height)
  }

  predicate AllInImage(img: Image, cs: seq<Coord>)
  {
    forall i :: 0 <= i < |cs| ==> InImage(img, cs[i])
  }

  /** The pixel at c matches the target. */
  predicate IsMatch(img: Image, target: Pixel, tolerance: int, c: Coord)
    requires InImage(img, c)
  {
    Matches(img.at(c.0, c.1), target, tolerance)
  }

  /** Every coordinate of a width x height image. */
  function Grid(width: int, height: int): (g: set<Coord>)
    ensures forall c :: c in g <==> InBounds(c, width, height)
  {
    set x: int, y: int | 0 <= x < width && 0 <= y < height :: (x, y)
  }

  /** The four neighbours the fill explores, in its order (left, right, up,
      down), each only when the source's guard lets it in. */
  function Neighbours(c: Coord, width: int, height: int): seq<Coord>
  {
    (if c.0 > 0 then [(c.0 - 1, c.1)] else [])
    + (if c.0 < width - 1 then [(c.0 + 1, c.1)] else [])
    + (if c.1 > 0 then [(c.0, c.1 - 1)] else [])
    + (if c.1 < height - 1 then [(c.0, c.1 + 1)] else [])
  }

  /** 4-connectivity. */
  predicate Adjacent(a: Coord, b: Coord)
  {
    Abs(a.0 - b.0) + Abs(a.1 - b.1) == 1
  }

  /** The neighbours of an in-bounds pixel are exactly its in-bounds
      4-neighbours. */
  lemma NeighboursAreAdjacentInBounds(c: Coord, width: int, height: int)
    requires InBounds(c, width, height)
    ensures forall n :: n in Neighbours(c, width, height) <==> InBounds(n, width, height) && Adjacent(n, c)
  {
    var ns := Neighbours(c, width, height);
    forall n | InBounds(n, width, height) && Adjacent(n, c)
      ensures n in ns
    {
      if n.0 == c.0 - 1 {
        assert n == (c.0 - 1, c.1);
      } else if n.0 == c.0 + 1 {
        assert n == (c.0 + 1, c.1);
      } else if n.1 == c.1 - 1 {
        assert n == (c.0, c.1 - 1);
      } else {
        assert n == (c.0, c.1 + 1);
      }
    }
  }

  /** Popping the front of an in-image queue and enqueueing the neighbours
      of an in-image pixel keeps every queued pixel in the image. */
  lemma EnqueueInImage(img: Image, queue: seq<Coord>, c: Coord)
    requires |queue| > 0 && AllInImage(img, queue) && InImage(img, c)
    ensures AllInImage(img, queue[1..] + Neighbours(c, img.width, img.height))
  {
    var q := queue[1..] + Neighbours(c, img.width, img.height);
    forall k | 0 <= k < |q|
      ensures InImage(img, q[k])
    {
      if k < |queue| - 1 {
        assert q[k] == queue[k + 1];
      } else {
        NeighboursAreAdjacentInBounds(c, img.width, img.height);
        assert q[k] in Neighbours(c, img.width, img.height);
      }
    }
  }

  /** How many pixels of the image are not yet visited: what the fill's
      loop uses up. */
  function Unvisited(img: Image, visited: set<Coord>): nat
  {
    |Grid(img.width, img.height) - visited|
  }

  lemma VisitShrinks(img: Image, visited: set<Coord>, c: Coord)
    requires InImage(img, c) && c !in visited
    ensures Unvisited(img, visited + {c}) < Unvisited(img, visited)
  {
    var g := Grid(img.width, img.height);
    assert g - (visited + {c}) == (g - visited) - {c};
  }

  lemma AppendAssoc(a: seq<Coord>, b: seq<Coord>, c: seq<Coord>)
    ensures a + b + c == a + (b + c)
  {
  }

  // ---------------------------------------------------------------------
  // the flood fill

  /** The four guarded `queue.append` calls of the fill. */
  method Enqueue(queue: seq<Coord>, c: Coord, width: int, height: int) returns (next: seq<Coord>)
    ensures next == queue + Neighbours(c, width, height)
  {
    ghost var left := if c.0 > 0 then [(c.0 - 1, c.1)] else [];
    ghost var right := if c.0 < width - 1 then [(c.0 + 1, c.1)] else [];
    ghost var up := if c.1 > 0 then [(c.0, c.1 - 1)] else [];
    next := queue;
    if c.0 > 0 { next := next + [(c.0 - 1, c.1)]; }
    if c.0 < width - 1 { next := next + [(c.0 + 1, c.1)]; }
    assert next == queue + left + right;
    if c.1 > 0 { next := next + [(c.0, c.1 - 1)]; }
    if c.1 < height - 1 { next := next + [(c.0, c.1 + 1)]; }
    AppendAssoc(queue, left, right);
    AppendAssoc(queue, left + right, up);
    AppendAssoc(queue, left + right + up, if c.1 < height - 1 then [(c.0, c.1 + 1)] else []);
  }

  /** The while loop of `_flood_fill` from a given queue, visited set and
      partial cluster: pop the front; skip it if visited; otherwise mark it
      visited and, when it matches, append it to the cluster and enqueue its
      neighbours. The result is the cluster and the final visited set. */
  function Fill(img: Image, target: Pixel, tolerance: int,
                queue: seq<Coord>, visited: set<Coord>, cluster: seq<Coord>): (seq<Coord>, set<Coord>)
    requires AllInImage(img, queue)
    decreases Unvisited(img, visited), |queue|
  {
    if queue == [] then (cluster, visited)
    else
      var c := queue[0];
      if c in visited then Fill(img, target, tolerance, queue[1..], visited, cluster)
      else
        VisitShrinks(img, visited, c);
        if IsMatch(img, target, tolerance, c) then
          EnqueueInImage(img, queue, c);
          Fill(img, target, tolerance, queue[1..] + Neighbours(c, img.width, img.height),
               visited + {c}, cluster + [c])
        else
          Fill(img, target, tolerance, queue[1..], visited + {c}, cluster)
  }

  /** `_flood_fill(start_x, start_y, img, width, height, target_rgb,
      tolerance, visited)`. The visited set the source updates in place is
      passed in and its new value returned. */
  method FloodFill(startX: int, startY: int, img: Image, target: Pixel, tolerance: int,
                   visited: set<Coord>)
    returns (cluster: seq<Coord>, visitedOut: set<Coord>)
    requires InImage(img, (startX, startY))
    ensures (cluster, visitedOut) == Fill(img, target, tolerance, [(startX, startY)], visited, [])
  {
    var queue := [(startX, startY)];
    cluster := [];
    visitedOut := visited;
    while queue != []
      invariant AllInImage(img, queue)
      invariant Fill(img, target, tolerance, queue, visitedOut, cluster)
                == Fill(img, target, tolerance, [(startX, startY)], visited, [])
      decreases Unvisited(img, visitedOut), |queue|
    {
      var c := queue[0];
      var rest := queue[1..];
      if c in visitedOut {
        queue := rest;
        continue;
      }
      VisitShrinks(img, visitedOut, c);
      var p := img.at(c.0, c.1);
      if Matches(p, target, tolerance) {
        var next := Enqueue(rest, c, img.width, img.height);
        NeighboursAreAdjacentInBounds(c, img.width, img.height);
        assert Fill(img, target, tolerance, queue, visitedOut, cluster)
            == Fill(img, target, tolerance, next, visitedOut + {c}, cluster + [c]);
        cluster := cluster + [c];
        queue := next;
      } else {
        assert Fill(img, target, tolerance, queue, visitedOut, cluster)
            == Fill(img, target, tolerance, rest, visitedOut + {c}, cluster);
        queue := rest;
      }
      visitedOut := visitedOut + {c};
    }
  }

  // ---------------------------------------------------------------------
  // what the fill computes

  /** No pixel occurs twice. */
  predicate Distinct(cs: seq<Coord>)
  {
    forall i, j :: 0 <= i < j < |cs| ==> cs[i] != cs[j]
  }

  /** Every pixel after the first is 4-adjacent to an earlier one, so the
      pixels form one 4-connected region grown from the first. */
  ghost predicate Linked(cs: seq<Coord>)
  {
    forall i :: 0 < i < |cs| ==> exists j :: 0 <= j < i && Adjacent(cs[i], cs[j])
  }

  /** The fill only adds to the visited set and the cluster, and what it adds
      to the cluster is in the image, matches, and was not visited before;
      every newly visited pixel is in the image. */
  lemma {:induction false} FillSound(img: Image, target: Pixel, tolerance: int,
                                     queue: seq<Coord>, visited: set<Coord>, cluster: seq<Coord>)
    requires AllInImage(img, queue)
    ensures var r := Fill(img, target, tolerance, queue, visited, cluster);
      && visited <= r.1
      && |cluster| <= |r.0| && r.0[..|cluster|] == cluster
      && (forall i :: |cluster| <= i < |r.0| ==>
            r.0[i] in r.1 && r.0[i] !in visited && InImage(img, r.0[i]) && IsMatch(img, target, tolerance, r.0[i]))
      && (forall p :: p in r.1 && p !in visited ==> InImage(img, p))
    decreases Unvisited(img, visited), |queue|
  {
    if queue != [] {
      var c := queue[0];
      if c in visited {
        FillSound(img, target, tolerance, queue[1..], visited, cluster);
      } else {
        VisitShrinks(img, visited, c);
        if IsMatch(img, target, tolerance, c) {
          EnqueueInImage(img, queue, c);
          var q := queue[1..] + Neighbours(c, img.width, img.height);
          FillSound(img, target, tolerance, q, visited + {c}, cluster + [c]);
          var r := Fill(img, target, tolerance, q, visited + {c}, cluster + [c]);
          assert r == Fill(img, target, tolerance, queue, visited, cluster);
          assert r.0[..|cluster|] == r.0[..|cluster| + 1][..|cluster|];
        } else {
          FillSound(img, target, tolerance, queue[1..], visited + {c}, cluster);
        }
      }
    }
  }

  /** A pixel the fill newly visits and that matches ends up in the new part
      of the cluster. */
  lemma {:induction false} FillComplete(img: Image, target: Pixel, tolerance: int,
                                        queue: seq<Coord>, visited: set<Coord>, cluster: seq<Coord>)
    requires AllInImage(img, queue)
    ensures var r := Fill(img, target, tolerance, queue, visited, cluster);
      && |cluster| <= |r.0|
      && forall p :: p in r.1 && p !in visited && InImage(img, p) && IsMatch(img, target, tolerance, p) ==>
           p in r.0[|cluster|..]
    decreases Unvisited(img, visited), |queue|
  {
    if queue != [] {
      var c := queue[0];
      if c in visited {
        FillComplete(img, target, tolerance, queue[1..], visited, cluster);
        FillSound(img, target, tolerance, queue[1..], visited, cluster);
      } else {
        VisitShrinks(img, visited, c);
        if IsMatch(img, target, tolerance, c) {
          EnqueueInImage(img, queue, c);
          var q := queue[1..] + Neighbours(c, img.width, img.height);
          FillComplete(img, target, tolerance, q, visited + {c}, cluster + [c]);
          FillSound(img, target, tolerance, q, visited + {c}, cluster + [c]);
          var r := Fill(img, target, tolerance, q, visited + {c}, cluster + [c]);
          assert r == Fill(img, target, tolerance, queue, visited, cluster);
          assert r.0[|cluster|] == c;
          forall p | p in r.1 && p !in visited && InImage(img, p) && IsMatch(img, target, tolerance, p)
            ensures p in r.0[|cluster|..]
          {
            if p != c {
              assert r.0[|cluster| + 1..] == r.0[|cluster|..][1..];
            }
          }
        } else {
          FillComplete(img, target, tolerance, queue[1..], visited + {c}, cluster);
          FillSound(img, target, tolerance, queue[1..], visited + {c}, cluster);
        }
      }
    }
  }

  /** The cluster never holds a pixel twice: a pixel joins it only when
      unvisited and is marked visited at once. */
  lemma {:induction false} FillDistinct(img: Image, target: Pixel, tolerance: int,
                                        queue: seq<Coord>, visited: set<Coord>, cluster: seq<Coord>)
    requires AllInImage(img, queue)
    requires Distinct(cluster) && forall i :: 0 <= i < |cluster| ==> cluster[i] in visited
    ensures var r := Fill(img, target, tolerance, queue, visited, cluster);
      Distinct(r.0) && forall i :: 0 <= i < |r.0| ==> r.0[i] in r.1
    decreases Unvisited(img, visited), |queue|
  {
    if queue != [] {
      var c := queue[0];
      if c in visited {
        FillDistinct(img, target, tolerance, queue[1..], visited, cluster);
      } else {
        VisitShrinks(img, visited, c);
        if IsMatch(img, target, tolerance, c) {
          EnqueueInImage(img, queue, c);
          FillDistinct(img, target, tolerance, queue[1..] + Neighbours(c, img.width, img.height),
                       visited + {c}, cluster + [c]);
        } else {
          FillDistinct(img, target, tolerance, queue[1..], visited + {c}, cluster);
        }
      }
    }
  }

  /** Every neighbour of every pixel of `cluster` is in `visited` or `queue`. */
  ghost predicate NeighboursSeen(img: Image, cluster: seq<Coord>, visited: set<Coord>, queue: seq<Coord>)
  {
    forall i, n :: 0 <= i < |cluster| && n in Neighbours(cluster[i], img.width, img.height) ==>
      n in visited || n in queue
  }

  /** Every neighbour of a cluster pixel is visited by the end: each
      neighbour the fill enqueued was either visited already or popped and
      marked later. */
  lemma {:induction false} FillClosed(img: Image, target: Pixel, tolerance: int,
                                      queue: seq<Coord>, visited: set<Coord>, cluster: seq<Coord>)
    requires AllInImage(img, queue)
    requires NeighboursSeen(img, cluster, visited, queue)
    ensures var r := Fill(img, target, tolerance, queue, visited, cluster);
      NeighboursSeen(img, r.0, r.1, [])
    decreases Unvisited(img, visited), |queue|
  {
    if queue != [] {
      var c := queue[0];
      forall i, n | 0 <= i < |cluster| && n in Neighbours(cluster[i], img.width, img.height) && n !in visited && n != c
        ensures n in queue[1..]
      {
        var k :| 0 <= k < |queue| && queue[k] == n;
        assert queue[1..][k - 1] == n;
      }
      if c in visited {
        assert Fill(img, target, tolerance, queue, visited, cluster)
            == Fill(img, target, tolerance, queue[1..], visited, cluster);
        FillClosed(img, target, tolerance, queue[1..], visited, cluster);
      } else {
        VisitShrinks(img, visited, c);
        if IsMatch(img, target, tolerance, c) {
          EnqueueInImage(img, queue, c);
          var q := queue[1..] + Neighbours(c, img.width, img.height);
          var cl := cluster + [c];
          forall i, n | 0 <= i < |cl| && n in Neighbours(cl[i], img.width, img.height)
            ensures n in visited + {c} || n in q
          {
            if i < |cluster| {
              assert cl[i] == cluster[i];
            }
          }
          assert Fill(img, target, tolerance, queue, visited, cluster)
              == Fill(img, target, tolerance, q, visited + {c}, cl);
          FillClosed(img, target, tolerance, q, visited + {c}, cl);
        } else {
          assert Fill(img, target, tolerance, queue, visited, cluster)
              == Fill(img, target, tolerance, queue[1..], visited + {c}, cluster);
          FillClosed(img, target, tolerance, queue[1..], visited + {c}, cluster);
        }
      }
    } else {
      assert Fill(img, target, tolerance, queue, visited, cluster) == (cluster, visited);
    }
  }

  /** Everything in the queue is the start or adjacent to a cluster pixel. */
  ghost predicate QueueLinked(queue: seq<Coord>, cluster: seq<Coord>, start: Coord)
  {
    forall k :: 0 <= k < |queue| ==>
      queue[k] == start || exists j :: 0 <= j < |cluster| && Adjacent(queue[k], cluster[j])
  }

  /** Every cluster pixel is the start or adjacent to an earlier one. */
  ghost predicate LinkedFrom(cluster: seq<Coord>, start: Coord)
  {
    forall i :: 0 <= i < |cluster| ==>
      cluster[i] == start || exists j :: 0 <= j < i && Adjacent(cluster[i], cluster[j])
  }

  lemma QueueLinkedStep(queue: seq<Coord>, cluster: seq<Coord>, ns: seq<Coord>, start: Coord)
    requires |queue| > 0 && QueueLinked(queue, cluster, start)
    requires forall n :: n in ns ==> Adjacent(n, queue[0])
    ensures QueueLinked(queue[1..] + ns, cluster + [queue[0]], start)
  {
    var q := queue[1..] + ns;
    var cl := cluster + [queue[0]];
    forall k | 0 <= k < |q|
      ensures q[k] == start || exists j :: 0 <= j < |cl| && Adjacent(q[k], cl[j])
    {
      if k < |queue| - 1 {
        assert q[k] == queue[k + 1];
        if q[k] != start {
          var j :| 0 <= j < |cluster| && Adjacent(queue[k + 1], cluster[j]);
          assert cl[j] == cluster[j];
        }
      } else {
        assert q[k] in ns;
        assert Adjacent(q[k], cl[|cluster|]);
      }
    }
  }

  lemma LinkedFromStep(queue: seq<Coord>, cluster: seq<Coord>, start: Coord)
    requires |queue| > 0 && QueueLinked(queue, cluster, start) && LinkedFrom(cluster, start)
    ensures LinkedFrom(cluster + [queue[0]], start)
  {
    var cl := cluster + [queue[0]];
    forall i | 0 <= i < |cl|
      ensures cl[i] == start || exists j :: 0 <= j < i && Adjacent(cl[i], cl[j])
    {
      if i < |cluster| {
        if cluster[i] != start {
          var j :| 0 <= j < i && Adjacent(cluster[i], cluster[j]);
          assert cl[j] == cluster[j];
        }
      } else if queue[0] != start {
        var j :| 0 <= j < |cluster| && Adjacent(queue[0], cluster[j]);
        assert cl[j] == cluster[j];
      }
    }
  }

  /** Every pixel the fill appends is the start or adjacent to a pixel
      appended before it, because everything it enqueues is a neighbour of
      a cluster pixel. */
  lemma {:induction false} FillLinked(img: Image, target: Pixel, tolerance: int,
                                      queue: seq<Coord>, visited: set<Coord>, cluster: seq<Coord>, start: Coord)
    requires AllInImage(img, queue)
    requires QueueLinked(queue, cluster, start) && LinkedFrom(cluster, start)
    ensures LinkedFrom(Fill(img, target, tolerance, queue, visited, cluster).0, start)
    decreases Unvisited(img, visited), |queue|
  {
    if queue != [] {
      var c := queue[0];
      assert QueueLinked(queue[1..], cluster, start) by {
        forall k | 0 <= k < |queue| - 1
          ensures queue[1..][k] == start || exists j :: 0 <= j < |cluster| && Adjacent(queue[1..][k], cluster[j])
        {
          assert queue[1..][k] == queue[k + 1];
        }
      }
      if c in visited {
        assert Fill(img, target, tolerance, queue, visited, cluster)
            == Fill(img, target, tolerance, queue[1..], visited, cluster);
        FillLinked(img, target, tolerance, queue[1..], visited, cluster, start);
      } else {
        VisitShrinks(img, visited, c);
        if IsMatch(img, target, tolerance, c) {
          EnqueueInImage(img, queue, c);
          var q := queue[1..] + Neighbours(c, img.width, img.height);
          QueueLinkedStep(queue, cluster, Neighbours(c, img.width, img.height), start);
          LinkedFromStep(queue, cluster, start);
          assert Fill(img, target, tolerance, queue, visited, cluster)
              == Fill(img, target, tolerance, q, visited + {c}, cluster + [c]);
          FillLinked(img, target, tolerance, q, visited + {c}, cluster + [c], start);
        } else {
          assert Fill(img, target, tolerance, queue, visited, cluster)
              == Fill(img, target, tolerance, queue[1..], visited + {c}, cluster);
          FillLinked(img, target, tolerance, queue[1..], visited + {c}, cluster, start);
        }
      }
    }
  }

  /** `_flood_fill` from an unvisited matching pixel returns that pixel's
      4-connected component of matching pixels, cut off at pixels visited
      before: it starts with the start pixel, holds no pixel twice, holds
      only unvisited matching pixels of the image, each after the first
      adjacent to an earlier one, and every matching neighbour of its pixels
      is in it or was visited before. */
  lemma FloodFillComponent(img: Image, target: Pixel, tolerance: int, x: int, y: int, visited: set<Coord>)
    requires InImage(img, (x, y)) && (x, y) !in visited && IsMatch(img, target, tolerance, (x, y))
    ensures var r := Fill(img, target, tolerance, [(x, y)], visited, []);
      && |r.0| > 0 && r.0[0] == (x, y)
      && Distinct(r.0)
      && Linked(r.0)
      && visited <= r.1
      && (forall i :: 0 <= i < |r.0| ==>
            r.0[i] in r.1 && r.0[i] !in visited && InImage(img, r.0[i]) && IsMatch(img, target, tolerance, r.0[i]))
      && (forall p :: p in r.1 && p !in visited ==> InImage(img, p))
      && (forall p :: p in r.1 && p !in visited && IsMatch(img, target, tolerance, p) ==> p in r.0)
      && (forall i, n :: 0 <= i < |r.0| && InImage(img, n) && Adjacent(n, r.0[i]) && IsMatch(img, target, tolerance, n) ==>
            n in r.0 || n in visited)
  {
    var start := (x, y);
    var r := Fill(img, target, tolerance, [start], visited, []);
    FillSound(img, target, tolerance, [start], visited, []);
    FillComplete(img, target, tolerance, [start], visited, []);
    FillDistinct(img, target, tolerance, [start], visited, []);
    FillClosed(img, target, tolerance, [start], visited, []);
    assert NeighboursSeen(img, r.0, r.1, []);
    FillLinked(img, target, tolerance, [start], visited, [], start);
    NeighboursAreAdjacentInBounds(start, img.width, img.height);
    var q := [start][1..] + Neighbours(start, img.width, img.height);
    assert [] + [start] == [start];
    assert r == Fill(img, target, tolerance, q, visited + {start}, [start]);
    FillSound(img, target, tolerance, q, visited + {start}, [start]);
    assert r.0[..1] == [start];
    assert r.0[0] == start;
    forall i | 0 < i < |r.0|
      ensures exists j :: 0 <= j < i && Adjacent(r.0[i], r.0[j])
    {
      assert r.0[i] != start;
    }
    assert r.0[0..] == r.0;
    forall i, n | 0 <= i < |r.0| && InImage(img, n) && Adjacent(n, r.0[i]) && IsMatch(img, target, tolerance, n)
      ensures n in r.0 || n in visited
    {
      NeighboursAreAdjacentInBounds(r.0[i], img.width, img.height);
      assert n in r.1;
    }
  }

  // ---------------------------------------------------------------------
  // the scan

  /** What the scan has computed so far: the global visited set, the largest
      cluster kept, and (for the specification only) every cluster the fill
      returned, in scan order. */
  datatype ScanState = ScanState(visited: set<Coord>, largest: seq<Coord>, found: seq<seq<Coord>>)

  /** The body of the inner loop at (x, y): an unvisited matching pixel
      starts a fill, whose cluster replaces the kept one only when strictly
      larger. */
  function Visit(img: Image, target: Pixel, tolerance: int, x: int, y: int, st: ScanState): ScanState
    requires InImage(img, (x, y))
  {
    if (x, y) !in st.visited && IsMatch(img, target, tolerance, (x, y)) then
      var r := Fill(img, target, tolerance, [(x, y)], st.visited, []);
      ScanState(r.1, if |r.0| > |st.largest| then r.0 else st.largest, st.found + [r.0])
    else st
  }

  /** The inner loop, `for y in range(height)`, from row y on. */
  function ScanColumn(img: Image, target: Pixel, tolerance: int, x: int, y: int, st: ScanState): ScanState
    requires 0 <= x < img.width && 0 <= y <= img.height
    decreases img.height - y
  {
    if y == img.height then st
    else ScanColumn(img, target, tolerance, x, y + 1, Visit(img, target, tolerance, x, y, st))
  }

  /** The outer loop, `for x in range(width)`, from column x on. */
  function ScanColumns(img: Image, target: Pixel, tolerance: int, x: int, st: ScanState): ScanState
    requires 0 <= x <= img.width
    decreases img.width - x
  {
    if x == img.width then st
    else ScanColumns(img, target, tolerance, x + 1, ScanColumn(img, target, tolerance, x, 0, st))
  }

  /** The whole scan, from an empty visited set and an empty kept cluster. */
  function Scan(img: Image, target: Pixel, tolerance: int): ScanState
  {
    ScanColumns(img, target, tolerance, 0, ScanState({}, [], []))
  }

  function SumX(cs: seq<Coord>): int
  {
    if cs == [] then 0 else SumX(cs[..|cs| - 1]) + cs[|cs| - 1].0
  }

  function SumY(cs: seq<Coord>): int
  {
    if cs == [] then 0 else SumY(cs[..|cs| - 1]) + cs[|cs| - 1].1
  }

  /** `sum(x_coords) // len(x_coords)`, `sum(y_coords) // len(y_coords)`. */
  function Centroid(cs: seq<Coord>): Coord
    requires |cs| > 0
  {
    (SumX(cs) / |cs|, SumY(cs) / |cs|)
  }

  /** What `_find_largest_color_cluster` returns: the centroid, `None`, or
      (when `min_cluster_size <= 0` and nothing matched) the
      `ZeroDivisionError` of averaging an empty cluster. */
  datatype Located = Found(x: int, y: int) | NotFound | ZeroDivision

  /** The locator's answer for a screenshot. */
  function Locate(img: Image, target: Pixel, tolerance: int, minClusterSize: int): Located
  {
    var largest := Scan(img, target, tolerance).largest;
    if |largest| >= minClusterSize then
      if |largest| == 0 then ZeroDivision
      else var c := Centroid(largest); Found(c.0, c.1)
    else NotFound
  }

  /** `_find_largest_color_cluster(target_rgb, tolerance, min_cluster_size)`
      on the screenshot `img`. */
  method FindLargestColorCluster(img: Image, target: Pixel, tolerance: int, minClusterSize: int)
    returns (result: Located)
    ensures result == Locate(img, target, tolerance, minClusterSize)
  {
    var visited: set<Coord> := {};
    var largest: seq<Coord> := [];
    ghost var found: seq<seq<Coord>> := [];
    var x := 0;
    while x < img.width
      invariant 0 <= x <= img.width
      invariant ScanColumns(img, target, tolerance, x, ScanState(visited, largest, found))
                == Scan(img, target, tolerance)
    {
      var y := 0;
      while y < img.height
        invariant 0 <= y <= img.height
        invariant ScanColumns(img, target, tolerance, x + 1,
                    ScanColumn(img, target, tolerance, x, y, ScanState(visited, largest, found)))
                  == Scan(img, target, tolerance)
      {
        if (x, y) !in visited {
          var p := img.at(x, y);
          if Matches(p, target, tolerance) {
            var cluster;
            cluster, visited := FloodFill(x, y, img, target, tolerance, visited);
            found := found + [cluster];
            if |cluster| > |largest| {
              largest := cluster;
            }
          }
        }
        y := y + 1;
      }
      x := x + 1;
    }
    if |largest| >= minClusterSize {
      if |largest| == 0 {
        return ZeroDivision;
      }
      var sumX, sumY := 0, 0;
      for i := 0 to |largest|
        invariant sumX == SumX(largest[..i]) && sumY == SumY(largest[..i])
      {
        assert largest[..i + 1][..i] == largest[..i];
        sumX := sumX + largest[i].0;
        sumY := sumY + largest[i].1;
      }
      assert largest[..|largest|] == largest;
      return Found(sumX / |largest|, sumY / |largest|);
    }
    return NotFound;
  }

  // ---------------------------------------------------------------------
  // what the scan computes

  /** A region of the image the scan may report: nonempty, no pixel twice,
      only matching pixels, 4-connected (grown from its first pixel), and
      closed: every matching 4-neighbour of one of its pixels is in it. So
      it is a whole 4-connected component of matching pixels. */
  ghost predicate IsComponent(img: Image, target: Pixel, tolerance: int, cs: seq<Coord>)
  {
    && |cs| > 0
    && Distinct(cs)
    && Linked(cs)
    && (forall i :: 0 <= i < |cs| ==> InImage(img, cs[i]) && IsMatch(img, target, tolerance, cs[i]))
    && (forall i, n :: 0 <= i < |cs| && InImage(img, n) && Adjacent(n, cs[i]) && IsMatch(img, target, tolerance, n) ==>
          n in cs)
  }

  /** No pixel is in two of the clusters. */
  ghost predicate Disjoint(found: seq<seq<Coord>>)
  {
    forall j, k, i :: 0 <= j < k < |found| && 0 <= i < |found[k]| ==> found[k][i] !in found[j]
  }

  /** The kept cluster is at least as large as every found cluster, and
      (unless nothing was found) it is the first found cluster of that
      size. */
  ghost predicate FirstLargest(largest: seq<Coord>, found: seq<seq<Coord>>)
  {
    && (forall k :: 0 <= k < |found| ==> |found[k]| <= |largest|)
    && (largest == [] ==> found == [])
    && (largest != [] ==>
          exists k :: 0 <= k < |found| && found[k] == largest && forall j :: 0 <= j < k ==> |found[j]| < |largest|)
  }

  /** What holds of the scan state between two steps of the scan. */
  ghost predicate ScanInv(img: Image, target: Pixel, tolerance: int, st: ScanState)
  {
    && (forall p :: p in st.visited ==> InImage(img, p))
    && FirstLargest(st.largest, st.found)
    && (forall k :: 0 <= k < |st.found| ==> IsComponent(img, target, tolerance, st.found[k]))
    && (forall k, i :: 0 <= k < |st.found| && 0 <= i < |st.found[k]| ==> st.found[k][i] in st.visited)
    && Disjoint(st.found)
    && (forall p :: p in st.visited && InImage(img, p) && IsMatch(img, target, tolerance, p) ==>
          exists k :: 0 <= k < |st.found| && p in st.found[k])
  }

  /** Every matching pixel the scan has passed (columns before x, and rows
      before y in column x) is visited. */
  ghost predicate CoveredUpTo(img: Image, target: Pixel, tolerance: int, visited: set<Coord>, x: int, y: int)
  {
    forall p :: InImage(img, p) && (p.0 < x || (p.0 == x && p.1 < y)) && IsMatch(img, target, tolerance, p) ==>
      p in visited
  }

  lemma EmptyScanInv(img: Image, target: Pixel, tolerance: int)
    ensures ScanInv(img, target, tolerance, ScanState({}, [], []))
  {
  }

  /** Every pixel of a found cluster is visited. */
  lemma FoundIsVisited(img: Image, target: Pixel, tolerance: int, st: ScanState)
    requires ScanInv(img, target, tolerance, st)
    ensures forall k, p :: 0 <= k < |st.found| && p in st.found[k] ==> p in st.visited
  {
    forall k, p | 0 <= k < |st.found| && p in st.found[k]
      ensures p in st.visited
    {
      var m :| 0 <= m < |st.found[k]| && st.found[k][m] == p;
    }
  }

  /** A matching pixel next to a visited matching pixel is visited too: the
      visited one lies in a found cluster, which is closed. */
  lemma VisitedNeighbourPullsIn(img: Image, target: Pixel, tolerance: int, st: ScanState, c: Coord)
    requires ScanInv(img, target, tolerance, st)
    requires InImage(img, c) && IsMatch(img, target, tolerance, c)
    ensures forall n :: n in st.visited && InImage(img, n) && IsMatch(img, target, tolerance, n) && Adjacent(n, c) ==>
              c in st.visited
  {
    FoundIsVisited(img, target, tolerance, st);
    forall n | n in st.visited && InImage(img, n) && IsMatch(img, target, tolerance, n) && Adjacent(n, c)
      ensures c in st.visited
    {
      var k :| 0 <= k < |st.found| && n in st.found[k];
      assert IsComponent(img, target, tolerance, st.found[k]);
      var m :| 0 <= m < |st.found[k]| && st.found[k][m] == n;
      assert Adjacent(c, st.found[k][m]);
    }
  }

  /** A new cluster from the fill is a whole component: a matching
      neighbour that was visited before would lie in an earlier (closed)
      cluster, which would then hold the new pixel too, but that pixel was
      unvisited. */
  lemma NewClusterClosed(img: Image, target: Pixel, tolerance: int, st: ScanState, x: int, y: int)
    requires ScanInv(img, target, tolerance, st)
    requires InImage(img, (x, y)) && (x, y) !in st.visited && IsMatch(img, target, tolerance, (x, y))
    ensures IsComponent(img, target, tolerance, Fill(img, target, tolerance, [(x, y)], st.visited, []).0)
  {
    var r := Fill(img, target, tolerance, [(x, y)], st.visited, []);
    FloodFillComponent(img, target, tolerance, x, y, st.visited);
    forall i, n | 0 <= i < |r.0| && InImage(img, n) && Adjacent(n, r.0[i]) && IsMatch(img, target, tolerance, n)
      ensures n in r.0
    {
      VisitedNeighbourPullsIn(img, target, tolerance, st, r.0[i]);
    }
  }

  /** Keeping the new cluster only when strictly larger keeps the kept one
      the first of the largest. */
  lemma KeepLargerStep(largest: seq<Coord>, found: seq<seq<Coord>>, cluster: seq<Coord>)
    requires FirstLargest(largest, found) && |cluster| > 0
    ensures FirstLargest(if |cluster| > |largest| then cluster else largest, found + [cluster])
  {
    var found' := found + [cluster];
    if |cluster| > |largest| {
      assert found'[|found|] == cluster;
      forall j | 0 <= j < |found|
        ensures |found'[j]| < |cluster|
      {
        assert found'[j] == found[j];
      }
    } else {
      var k :| 0 <= k < |found| && found[k] == largest && forall j :: 0 <= j < k ==> |found[j]| < |largest|;
      assert found'[k] == found[k];
      forall j | 0 <= j < k
        ensures |found'[j]| < |largest|
      {
        assert found'[j] == found[j];
      }
    }
  }

  /** A cluster of pixels none of which was visited shares no pixel with the
      clusters found before. */
  lemma DisjointStep(found: seq<seq<Coord>>, visited: set<Coord>, cluster: seq<Coord>)
    requires Disjoint(found)
    requires forall k, p :: 0 <= k < |found| && p in found[k] ==> p in visited
    requires forall i :: 0 <= i < |cluster| ==> cluster[i] !in visited
    ensures Disjoint(found + [cluster])
  {
    var found' := found + [cluster];
    forall j, k, i | 0 <= j < k < |found'| && 0 <= i < |found'[k]|
      ensures found'[k][i] !in found'[j]
    {
      assert found'[j] == found[j];
      if k < |found| {
        assert found'[k] == found[k];
      }
    }
  }

  lemma ComponentsStep(img: Image, target: Pixel, tolerance: int, found: seq<seq<Coord>>, cluster: seq<Coord>)
    requires forall k :: 0 <= k < |found| ==> IsComponent(img, target, tolerance, found[k])
    requires IsComponent(img, target, tolerance, cluster)
    ensures forall k :: 0 <= k < |found + [cluster]| ==> IsComponent(img, target, tolerance, (found + [cluster])[k])
  {
    forall k | 0 <= k < |found + [cluster]|
      ensures IsComponent(img, target, tolerance, (found + [cluster])[k])
    {
      if k < |found| {
        assert (found + [cluster])[k] == found[k];
      }
    }
  }

  lemma FoundVisitedStep(found: seq<seq<Coord>>, visited: set<Coord>, visited': set<Coord>, cluster: seq<Coord>)
    requires forall k, i :: 0 <= k < |found| && 0 <= i < |found[k]| ==> found[k][i] in visited
    requires visited <= visited' && forall i :: 0 <= i < |cluster| ==> cluster[i] in visited'
    ensures forall k, i :: 0 <= k < |found + [cluster]| && 0 <= i < |(found + [cluster])[k]| ==>
              (found + [cluster])[k][i] in visited'
  {
    forall k, i | 0 <= k < |found + [cluster]| && 0 <= i < |(found + [cluster])[k]|
      ensures (found + [cluster])[k][i] in visited'
    {
      if k < |found| {
        assert (found + [cluster])[k] == found[k];
      }
    }
  }

  lemma CoverageStep(img: Image, target: Pixel, tolerance: int, found: seq<seq<Coord>>,
                     visited: set<Coord>, visited': set<Coord>, cluster: seq<Coord>)
    requires forall p :: p in visited && InImage(img, p) && IsMatch(img, target, tolerance, p) ==>
               exists k :: 0 <= k < |found| && p in found[k]
    requires forall p :: p in visited' && p !in visited && InImage(img, p) && IsMatch(img, target, tolerance, p) ==>
               p in cluster
    ensures forall p :: p in visited' && InImage(img, p) && IsMatch(img, target, tolerance, p) ==>
              exists k :: 0 <= k < |found + [cluster]| && p in (found + [cluster])[k]
  {
    forall p | p in visited' && InImage(img, p) && IsMatch(img, target, tolerance, p)
      ensures exists k :: 0 <= k < |found + [cluster]| && p in (found + [cluster])[k]
    {
      if p in visited {
        var k :| 0 <= k < |found| && p in found[k];
        assert (found + [cluster])[k] == found[k];
      } else {
        assert p in (found + [cluster])[|found|];
      }
    }
  }

  /** One step of the scan keeps the invariant, only adds to the visited
      set, and visits (x, y) when it matches. */
  lemma VisitInv(img: Image, target: Pixel, tolerance: int, x: int, y: int, st: ScanState)
    requires InImage(img, (x, y)) && ScanInv(img, target, tolerance, st)
    ensures var st' := Visit(img, target, tolerance, x, y, st);
      && ScanInv(img, target, tolerance, st')
      && st.visited <= st'.visited
      && (IsMatch(img, target, tolerance, (x, y)) ==> (x, y) in st'.visited)
  {
    if (x, y) !in st.visited && IsMatch(img, target, tolerance, (x, y)) {
      var r := Fill(img, target, tolerance, [(x, y)], st.visited, []);
      FloodFillComponent(img, target, tolerance, x, y, st.visited);
      NewClusterClosed(img, target, tolerance, st, x, y);
      FoundIsVisited(img, target, tolerance, st);
      DisjointStep(st.found, st.visited, r.0);
      KeepLargerStep(st.largest, st.found, r.0);
      ComponentsStep(img, target, tolerance, st.found, r.0);
      FoundVisitedStep(st.found, st.visited, r.1, r.0);
      CoverageStep(img, target, tolerance, st.found, st.visited, r.1, r.0);
    }
  }

  /** Scanning (x, y) extends the covered region by one pixel. */
  lemma CoveredStep(img: Image, target: Pixel, tolerance: int, visited: set<Coord>, visited': set<Coord>, x: int, y: int)
    requires CoveredUpTo(img, target, tolerance, visited, x, y) && visited <= visited'
    requires InImage(img, (x, y)) && IsMatch(img, target, tolerance, (x, y)) ==> (x, y) in visited'
    ensures CoveredUpTo(img, target, tolerance, visited', x, y + 1)
  {
  }

  /** Covering a whole column is covering up to the start of the next. */
  lemma CoveredColumn(img: Image, target: Pixel, tolerance: int, visited: set<Coord>, x: int)
    requires CoveredUpTo(img, target, tolerance, visited, x, img.height)
    ensures CoveredUpTo(img, target, tolerance, visited, x + 1, 0)
  {
  }

  /** The inner loop keeps the invariant and visits every matching pixel of
      its column. */
  lemma {:induction false} ScanColumnInv(img: Image, target: Pixel, tolerance: int, x: int, y: int, st: ScanState)
    requires 0 <= x < img.width && 0 <= y <= img.height
    requires ScanInv(img, target, tolerance, st) && CoveredUpTo(img, target, tolerance, st.visited, x, y)
    ensures var st' := ScanColumn(img, target, tolerance, x, y, st);
      ScanInv(img, target, tolerance, st') && CoveredUpTo(img, target, tolerance, st'.visited, x + 1, 0)
    decreases img.height - y
  {
    if y < img.height {
      var st1 := Visit(img, target, tolerance, x, y, st);
      VisitInv(img, target, tolerance, x, y, st);
      CoveredStep(img, target, tolerance, st.visited, st1.visited, x, y);
      assert ScanColumn(img, target, tolerance, x, y, st) == ScanColumn(img, target, tolerance, x, y + 1, st1);
      ScanColumnInv(img, target, tolerance, x, y + 1, st1);
    } else {
      CoveredColumn(img, target, tolerance, st.visited, x);
    }
  }

  /** The outer loop keeps the invariant and visits every matching pixel of
      the image. */
  lemma {:induction false} ScanColumnsInv(img: Image, target: Pixel, tolerance: int, x: int, st: ScanState)
    requires 0 <= x <= img.width
    requires ScanInv(img, target, tolerance, st) && CoveredUpTo(img, target, tolerance, st.visited, x, 0)
    ensures var st' := ScanColumns(img, target, tolerance, x, st);
      ScanInv(img, target, tolerance, st') && CoveredUpTo(img, target, tolerance, st'.visited, img.width, 0)
    decreases img.width - x
  {
    if x < img.width {
      ScanColumnInv(img, target, tolerance, x, 0, st);
      ScanColumnsInv(img, target, tolerance, x + 1, ScanColumn(img, target, tolerance, x, 0, st));
    }
  }

  /** The scan splits the matching pixels of the image into its 4-connected
      components: every found cluster is a whole component, no two share a
      pixel, and every matching pixel is in one of them. The kept cluster is
      the first found of the largest size, and it is empty exactly when no
      pixel matches. */
  lemma ScanFindsComponents(img: Image, target: Pixel, tolerance: int)
    ensures var st := Scan(img, target, tolerance);
      && (forall k :: 0 <= k < |st.found| ==> IsComponent(img, target, tolerance, st.found[k]))
      && Disjoint(st.found)
      && (forall p :: InImage(img, p) && IsMatch(img, target, tolerance, p) ==>
            exists k :: 0 <= k < |st.found| && p in st.found[k])
      && FirstLargest(st.largest, st.found)
      && (st.largest == [] <==> forall p :: InImage(img, p) ==> !IsMatch(img, target, tolerance, p))
  {
    var st := Scan(img, target, tolerance);
    EmptyScanInv(img, target, tolerance);
    ScanColumnsInv(img, target, tolerance, 0, ScanState({}, [], []));
    if st.largest == [] {
      assert st.found == [];
    } else {
      var k :| 0 <= k < |st.found| && st.found[k] == st.largest;
      assert IsComponent(img, target, tolerance, st.found[k]);
      assert InImage(img, st.largest[0]) && IsMatch(img, target, tolerance, st.largest[0]);
    }
  }

  // ---------------------------------------------------------------------
  // the centroid

  lemma {:induction false} SumBounds(cs: seq<Coord>, lo0: int, hi0: int, lo1: int, hi1: int)
    requires forall i :: 0 <= i < |cs| ==> lo0 <= cs[i].0 <= hi0 && lo1 <= cs[i].1 <= hi1
    ensures |cs| * lo0 <= SumX(cs) <= |cs| * hi0
    ensures |cs| * lo1 <= SumY(cs) <= |cs| * hi1
  {
    if cs != [] {
      SumBounds(cs[..|cs| - 1], lo0, hi0, lo1, hi1);
      assert |cs| * lo0 == (|cs| - 1) * lo0 + lo0;
      assert |cs| * hi0 == (|cs| - 1) * hi0 + hi0;
      assert |cs| * lo1 == (|cs| - 1) * lo1 + lo1;
      assert |cs| * hi1 == (|cs| - 1) * hi1 + hi1;
    }
  }

  lemma NegativeFactor(x: int, n: int)
    requires n > 0 && x * n < 0
    ensures x < 0
  {
  }

  /** Floor division of a sum of n values in [lo, hi] by n is in [lo, hi]. */
  lemma DivBounds(s: int, n: int, lo: int, hi: int)
    requires n > 0 && n * lo <= s <= n * hi
    ensures lo <= s / n <= hi
  {
    var q, r := s / n, s % n;
    assert s == q * n + r && 0 <= r < n;
    assert (lo - q - 1) * n == n * lo - q * n - n;
    NegativeFactor(lo - q - 1, n);
    assert (hi - q) * n == n * hi - q * n;
    assert (q - hi - 1) * n == q * n - n * hi - n;
    NegativeFactor(q - hi - 1, n);
  }

  /** The floor-mean centroid of a cluster lies in every box that holds the
      cluster. */
  lemma CentroidInBox(cs: seq<Coord>, lo0: int, hi0: int, lo1: int, hi1: int)
    requires |cs| > 0
    requires forall i :: 0 <= i < |cs| ==> lo0 <= cs[i].0 <= hi0 && lo1 <= cs[i].1 <= hi1
    ensures lo0 <= Centroid(cs).0 <= hi0 && lo1 <= Centroid(cs).1 <= hi1
  {
    SumBounds(cs, lo0, hi0, lo1, hi1);
    DivBounds(SumX(cs), |cs|, lo0, hi0);
    DivBounds(SumY(cs), |cs|, lo1, hi1);
  }

  /** What the locator answers: nothing when the largest cluster is below
      the minimum size; the division error exactly when the minimum is at
      most zero and no pixel matches; otherwise the centroid of the first
      largest component, which lies in the image. */
  lemma LocateOutcomes(img: Image, target: Pixel, tolerance: int, minClusterSize: int)
    ensures var st := Scan(img, target, tolerance);
      var r := Locate(img, target, tolerance, minClusterSize);
      && (r == NotFound <==> |st.largest| < minClusterSize)
      && (r == ZeroDivision <==>
            minClusterSize <= 0 && forall p :: InImage(img, p) ==> !IsMatch(img, target, tolerance, p))
      && (r.Found? ==>
            && IsComponent(img, target, tolerance, st.largest)
            && |st.largest| >= minClusterSize
            && InImage(img, (r.x, r.y)))
  {
    var st := Scan(img, target, tolerance);
    ScanFindsComponents(img, target, tolerance);
    if st.largest != [] {
      var k :| 0 <= k < |st.found| && st.found[k] == st.largest;
      assert IsComponent(img, target, tolerance, st.largest);
      CentroidInBox(st.largest, 0, img.width - 1, 0, img.height - 1);
    }
  }
}
