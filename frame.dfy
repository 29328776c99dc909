/** One frame of the main loop: unless paused, every planet in the list runs
    `update_position(planets)` once, in list order, in place. A planet's
    forces therefore see the planets before it already moved and the planets
    after it not yet moved. An exception from `update_position` leaves the
    loop (and the program) at that planet. */
module Frame {
  import opened Planets

  /** The bodies after part of a frame, and the fault that stopped it. */
  datatype Progress = Progress(bodies: seq<Body>, fault: Option<Fault>)

  /** `s` without its entry at `k`: the other planets, in list order. */
  function Remove<T>(s: seq<T>, k: nat): (r: seq<T>)
    requires k < |s|
    ensures |r| == |s| - 1
  {
    s[..k] + s[k + 1..]
  }

  /** How one body is updated against the others: `update_position`. */
  type Update = (Body, seq<Body>) -> Outcome

  function UpdatePosition(m: MathLib): Update {
    (me, others) => Advance(m, me, others)
  }

  /** The frame loop over `bs` after its first `k` turns: turn i replaces body
      i by the outcome of `step` against the current values of all the other
      bodies. The first fault ends the frame. */
  function Stepped(step: Update, bs: seq<Body>, k: nat): (r: Progress)
    requires k <= |bs|
    ensures |r.bodies| == |bs|
  {
    if k == 0 then Progress(bs, None)
    else
      var p := Stepped(step, bs, k - 1);
      if p.fault.Some? then p
      else
        var o := step(p.bodies[k - 1], Remove(p.bodies, k - 1));
        Progress(p.bodies[k - 1 := o.body], o.fault)
  }

  /** A whole frame over `bs`. */
  function Frame(m: MathLib, bs: seq<Body>): Progress {
    Stepped(UpdatePosition(m), bs, |bs|)
  }

  // ----- Properties of a frame -----

  /** Before turn k the bodies from k on are untouched. */
  lemma {:induction false} LaterUntouched(step: Update, bs: seq<Body>, k: nat)
    requires k <= |bs|
    ensures Stepped(step, bs, k).bodies[k..] == bs[k..]
  {
    if k > 0 {
      LaterUntouched(step, bs, k - 1);
      var p := Stepped(step, bs, k - 1);
      assert p.bodies[k..] == p.bodies[k - 1..][1..];
    }
  }

  /** Once turn j is over, bodies 0..j-1 never change again in the frame:
      each body is updated at most once. */
  lemma {:induction false} EarlierSettled(step: Update, bs: seq<Body>, j: nat, i: nat)
    requires j <= i <= |bs|
    ensures Stepped(step, bs, i).bodies[..j] == Stepped(step, bs, j).bodies[..j]
  {
    if j < i {
      EarlierSettled(step, bs, j, i - 1);
      var p := Stepped(step, bs, i - 1);
      if p.fault.None? {
        var o := step(p.bodies[i - 1], Remove(p.bodies, i - 1));
        assert p.bodies[i - 1 := o.body][..j] == p.bodies[..j];
      }
    }
  }

  /** A fault ends the frame: the turns after it change nothing. */
  lemma {:induction false} FaultSticks(step: Update, bs: seq<Body>, j: nat, i: nat)
    requires j <= i <= |bs|
    requires Stepped(step, bs, j).fault.Some?
    ensures Stepped(step, bs, i) == Stepped(step, bs, j)
  {
    if j < i {
      FaultSticks(step, bs, j, i - 1);
    }
  }

  /** A fault before turn i would have stopped the frame there. */
  lemma NoFaultBefore(step: Update, bs: seq<Body>, j: nat, i: nat)
    requires j <= i <= |bs|
    requires Stepped(step, bs, i).fault.None?
    ensures Stepped(step, bs, j).fault.None?
  {
    if Stepped(step, bs, j).fault.Some? {
      FaultSticks(step, bs, j, i);
    }
  }

  /** In a frame without a fault, body k is updated from its own old state
      against the already updated bodies before it and the old bodies after
      it. */
  lemma StepOrder(step: Update, bs: seq<Body>, k: nat)
    requires Stepped(step, bs, |bs|).fault.None? && k < |bs|
    ensures var after := Stepped(step, bs, |bs|).bodies;
      after[k] == step(bs[k], after[..k] + bs[k + 1..]).body
  {
    BeforeTurn(step, bs, k);
    AtTurn(step, bs, k);
  }

  /** When turn k starts, body k is still the old one, the bodies before it
      are already as the frame leaves them, and those after it are old. */
  lemma BeforeTurn(step: Update, bs: seq<Body>, k: nat)
    requires k < |bs|
    ensures var p := Stepped(step, bs, k).bodies;
      p[k] == bs[k] && Remove(p, k) == Stepped(step, bs, |bs|).bodies[..k] + bs[k + 1..]
  {
    var p := Stepped(step, bs, k).bodies;
    LaterUntouched(step, bs, k);
    Untouched(p, bs, k);
    EarlierSettled(step, bs, k, |bs|);
  }

  /** In a frame without a fault, turn k decides body k for good. */
  lemma AtTurn(step: Update, bs: seq<Body>, k: nat)
    requires Stepped(step, bs, |bs|).fault.None? && k < |bs|
    ensures var p := Stepped(step, bs, k).bodies;
      Stepped(step, bs, |bs|).bodies[k] == step(p[k], Remove(p, k)).body
  {
    var after := Stepped(step, bs, |bs|).bodies;
    var q := Stepped(step, bs, k + 1).bodies;
    NoFaultBefore(step, bs, k, |bs|);
    StepAt(step, bs, k);
    EarlierSettled(step, bs, k + 1, |bs|);
    assert after[k] == after[..k + 1][k];
  }

  lemma Untouched(p: seq<Body>, bs: seq<Body>, k: nat)
    requires k < |p| == |bs| && p[k..] == bs[k..]
    ensures p[k] == bs[k] && Remove(p, k) == p[..k] + bs[k + 1..]
  {
    assert p[k] == p[k..][0];
    assert p[k + 1..] == p[k..][1..];
  }

  lemma StepAt(step: Update, bs: seq<Body>, k: nat)
    requires k < |bs| && Stepped(step, bs, k).fault.None?
    ensures var p := Stepped(step, bs, k).bodies;
      var o := step(p[k], Remove(p, k));
      Stepped(step, bs, k + 1) == Progress(p[k := o.body], o.fault)
  {
  }

  /** The sequential, in-place order of the main loop: in a frame without a
      fault, planet k moves by `update_position` against the planets before
      it as already moved this frame and the planets after it as they were. */
  lemma FrameOrder(m: MathLib, bs: seq<Body>, k: nat)
    requires Frame(m, bs).fault.None? && k < |bs|
    ensures var after := Frame(m, bs).bodies;
      after[k] == Advance(m, bs[k], after[..k] + bs[k + 1..]).body
  {
    StepOrder(UpdatePosition(m), bs, k);
  }

  /** A frame keeps every planet's mass and its sun flag. */
  lemma FrameKeepsMasses(m: MathLib, bs: seq<Body>, k: nat)
    requires k <= |bs|
    ensures var after := Stepped(UpdatePosition(m), bs, k).bodies;
      forall i :: 0 <= i < |bs| ==> after[i].mass == bs[i].mass && after[i].sun == bs[i].sun
  {
    SteppedKeepsMasses(UpdatePosition(m), bs, k);
  }

  /** A step that keeps mass and sun flag. */
  ghost predicate KeepsMass(step: Update) {
    forall me, others :: step(me, others).body.mass == me.mass && step(me, others).body.sun == me.sun
  }

  lemma {:induction false} SteppedKeepsMasses(step: Update, bs: seq<Body>, k: nat)
    requires KeepsMass(step) && k <= |bs|
    ensures var after := Stepped(step, bs, k).bodies;
      forall i :: 0 <= i < |bs| ==> after[i].mass == bs[i].mass && after[i].sun == bs[i].sun
  {
    if k > 0 {
      SteppedKeepsMasses(step, bs, k - 1);
    }
  }

  /** For a list without repeats, the planets `update_position` of planet k
      sums over are the others, in list order. */
  lemma {:induction false} WithoutDistinct(planets: seq<Planet>, k: nat)
    requires k < |planets|
    requires forall i, j :: 0 <= i < j < |planets| ==> planets[i] != planets[j]
    ensures Without(planets, planets[k]) == Remove(planets, k)
  {
    var n := |planets|;
    if k < n - 1 {
      var init := planets[..n - 1];
      WithoutDistinct(init, k);
      assert Remove(init, k) + [planets[n - 1]] == Remove(planets, k);
    } else {
      WithoutAbsent(planets[..n - 1], planets[k]);
      assert planets[..n - 1] == Remove(planets, k);
    }
  }

  /** Skipping a planet that is not in the list skips nothing. */
  lemma {:induction false} WithoutAbsent(planets: seq<Planet>, p: Planet)
    requires p !in planets
    ensures Without(planets, p) == planets
  {
    if planets != [] {
      WithoutAbsent(planets[..|planets| - 1], p);
    }
  }

  /** What drawing a planet shows besides its position: name, description,
      radius and colour. */
  datatype Label = Label(name: string, description: string, radius: int, color: (int, int, int))

  function LabelOf(p: Planet): Label
    reads p`name, p`description, p`radius, p`color
  {
    Label(p.name, p.description, p.radius, p.color)
  }

  /** The labels of `planets`, in order. */
  function Labels(planets: seq<Planet>): (r: seq<Label>)
    reads planets`name, planets`description, planets`radius, planets`color
    ensures |r| == |planets|
    ensures forall i :: 0 <= i < |planets| ==> r[i] == LabelOf(planets[i])
  {
    if planets == [] then [] else Labels(planets[..|planets| - 1]) + [LabelOf(planets[|planets| - 1])]
  }

  /** The main loop's frame update: unless `paused`, `update_position(planets)`
      for each planet of `planets` in list order. The planets end as Frame
      says, or unchanged when paused; their labels never change. */
  method UpdateFrame(planets: seq<Planet>, paused: bool, m: MathLib) returns (fault: Option<Fault>)
    requires forall i, j :: 0 <= i < j < |planets| ==> planets[i] != planets[j]
    modifies planets`x, planets`y, planets`xVel, planets`yVel, planets`orbit, planets`distanceToSun
    ensures var r := if paused then Progress(old(Bodies(planets)), None) else Frame(m, old(Bodies(planets)));
      Bodies(planets) == r.bodies && fault == r.fault
    ensures Labels(planets) == old(Labels(planets))
  {
    if paused {
      return None;
    }
    fault := RunFrame(planets, m, UpdatePosition(m));
  }

  /** The unpaused frame: `for planet in planets: planet.update_position(planets)`. */
  method RunFrame(planets: seq<Planet>, m: MathLib, ghost step: Update) returns (fault: Option<Fault>)
    requires forall i, j :: 0 <= i < j < |planets| ==> planets[i] != planets[j]
    requires forall me, others {:trigger Advance(m, me, others)} :: step(me, others) == Advance(m, me, others)
    modifies planets`x, planets`y, planets`xVel, planets`yVel, planets`orbit, planets`distanceToSun
    ensures var r := Stepped(step, old(Bodies(planets)), |planets|);
      Bodies(planets) == r.bodies && fault == r.fault
    ensures Labels(planets) == old(Labels(planets))
  {
    fault := None;
    ghost var bs := Bodies(planets);
    for k := 0 to |planets|
      invariant Stepped(step, bs, k) == Progress(Bodies(planets), None) && fault.None?
      invariant Labels(planets) == old(Labels(planets))
    {
      fault := Turn(planets, k, m, step, bs);
      if fault.Some? {
        FaultSticks(step, bs, k + 1, |planets|);
        return;
      }
    }
  }

  /** Turn k of the frame loop: `planets[k].update_position(planets)`, which
      changes planet k alone, as Stepped says. */
  method Turn(planets: seq<Planet>, k: nat, m: MathLib, ghost step: Update, ghost bs: seq<Body>) returns (fault: Option<Fault>)
    requires forall i, j :: 0 <= i < j < |planets| ==> planets[i] != planets[j]
    requires forall me, others {:trigger Advance(m, me, others)} :: step(me, others) == Advance(m, me, others)
    requires k < |planets| == |bs| && Stepped(step, bs, k) == Progress(Bodies(planets), None)
    modifies {planets[k]}`x, {planets[k]}`y, {planets[k]}`xVel, {planets[k]}`yVel, {planets[k]}`orbit, {planets[k]}`distanceToSun
    ensures Stepped(step, bs, k + 1) == Progress(Bodies(planets), fault)
    ensures Labels(planets) == old(Labels(planets))
  {
    ghost var before := Bodies(planets);
    ghost var labels := Labels(planets);
    BodiesWithout(planets, k);
    fault := planets[k].UpdatePosition(planets, m);
    BodiesReplace(planets, k, before);
    StepAt(step, bs, k);
    assert LabelOf(planets[k]) == labels[k];
    LabelsUnchanged(planets, labels);
  }

  /** Planets that each show the label they showed before show the same
      labels, in order. */
  lemma LabelsUnchanged(planets: seq<Planet>, labels: seq<Label>)
    requires |labels| == |planets|
    requires forall i :: 0 <= i < |planets| ==> LabelOf(planets[i]) == labels[i]
    ensures Labels(planets) == labels
  {
  }

  /** The snapshots of the planets planet k sums over are those of the list
      with entry k removed. */
  lemma BodiesWithout(planets: seq<Planet>, k: nat)
    requires k < |planets|
    requires forall i, j :: 0 <= i < j < |planets| ==> planets[i] != planets[j]
    ensures Bodies(Without(planets, planets[k])) == Remove(Bodies(planets), k)
  {
    WithoutDistinct(planets, k);
    BodiesRemove(planets, k);
  }

  lemma BodiesRemove(planets: seq<Planet>, k: nat)
    requires k < |planets|
    ensures Bodies(Remove(planets, k)) == Remove(Bodies(planets), k)
  {
    var front, back := planets[..k], planets[k + 1..];
    Split(planets, k);
    BodiesConcat(front + [planets[k]], back);
    BodiesConcat(front, [planets[k]]);
    BodiesConcat(front, back);
    Unsplit(Bodies(front), Bodies([planets[k]]), Bodies(back));
  }

  /** Kept apart from BodiesRemove so that these sequence facts are proved
      without the heap in scope. */
  lemma Split<T>(s: seq<T>, k: nat)
    requires k < |s|
    ensures s == s[..k] + [s[k]] + s[k + 1..] && Remove(s, k) == s[..k] + s[k + 1..]
  {
  }

  lemma Unsplit<T>(a: seq<T>, b: seq<T>, c: seq<T>)
    requires |b| == 1
    ensures Remove(a + b + c, |a|) == a + c
  {
    assert (a + b + c)[..|a|] == a;
    assert (a + b + c)[|a| + 1..] == c;
  }

  lemma {:induction false} BodiesConcat(front: seq<Planet>, back: seq<Planet>)
    ensures Bodies(front + back) == Bodies(front) + Bodies(back)
  {
    if back != [] {
      var n := |back|;
      assert front + back == (front + back[..n - 1]) + [back[n - 1]];
      BodiesConcat(front, back[..n - 1]);
    } else {
      assert front + back == front;
    }
  }

  /** When only planet k changed, the snapshots are the old ones with entry
      k replaced. */
  lemma BodiesReplace(planets: seq<Planet>, k: nat, before: seq<Body>)
    requires k < |planets| == |before|
    requires forall i :: 0 <= i < |planets| && i != k ==> planets[i].Snapshot() == before[i]
    ensures Bodies(planets) == before[k := planets[k].Snapshot()]
  {
  }
}
