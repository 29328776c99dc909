/** The orbit trail of a planet: `update_position` appends the new position to
    `orbit` and, once the list is longer than 400, keeps only its last 400
    entries. The trail is a bounded FIFO: the oldest point goes first, the order
    of the rest is kept. */
module Trail {

  /** How many points a trail keeps. */
  const CAPACITY: nat := 400

  function Min(a: nat, b: nat): nat {
    if a <= b then a else b
  }

  /** The trail after appending `point` to `trail`, cut back to the newest
      CAPACITY entries when it grew longer than that. */
  function Retain<T>(trail: seq<T>, point: T): (r: seq<T>)
    ensures |r| == Min(|trail| + 1, CAPACITY) && 0 < |r| <= CAPACITY
    ensures r[|r| - 1] == point
    ensures r[..|r| - 1] == trail[|trail| + 1 - |r|..]
  {
    var grown := trail + [point];
    if |grown| > CAPACITY then grown[|grown| - CAPACITY..] else grown
  }

  /** The trail left by appending the points of `points`, in order, to an
      empty trail. */
  function Record<T>(points: seq<T>): seq<T> {
    if points == [] then [] else Retain(Record(points[..|points| - 1]), points[|points| - 1])
  }

  /** Whatever the history, a trail holds exactly the newest
      min(n, CAPACITY) of the n points recorded, oldest first. */
  lemma {:induction false} RecordKeepsNewest<T>(points: seq<T>)
    ensures Record(points) == points[|points| - Min(|points|, CAPACITY)..]
  {
    if points != [] {
      var n := |points|;
      var init := points[..n - 1];
      RecordKeepsNewest(init);
      RetainSuffix(points, Record(init));
    }
  }

  /** One step of RecordKeepsNewest: retaining the last point onto the
      newest part of the earlier points gives the newest part of all of them. */
  lemma RetainSuffix<T>(points: seq<T>, kept: seq<T>)
    requires points != []
    requires kept == points[..|points| - 1][|points| - 1 - Min(|points| - 1, CAPACITY)..]
    ensures Retain(kept, points[|points| - 1]) == points[|points| - Min(|points|, CAPACITY)..]
  {
    var n := |points|;
    var last := points[n - 1];
    if n - 1 < CAPACITY {
      assert kept == points[..n - 1];
      assert Retain(kept, last) == points[..n - 1] + [last];
      assert points[..n - 1] + [last] == points;
    } else {
      assert kept == points[n - 1 - CAPACITY..n - 1];
      assert Retain(kept, last) == (kept + [last])[1..];
      assert (kept + [last])[1..] == points[n - CAPACITY..n - 1] + [last];
      assert points[n - CAPACITY..n - 1] + [last] == points[n - CAPACITY..];
    }
  }

  /** After CAPACITY or more steps the trail is exactly CAPACITY long, and
      every step adds exactly the new point at the newest end. */
  lemma TrailFull<T>(points: seq<T>)
    requires |points| >= CAPACITY
    ensures |Record(points)| == CAPACITY
    ensures Record(points)[CAPACITY - 1] == points[|points| - 1]
  {
    RecordKeepsNewest(points);
  }
}
