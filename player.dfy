/** Player movement and the desk proximity hint
    (`salaryman_simulator/src/player.rs`; `player_movement` in
    `salaryman_simulator/src/main.rs` is the same code and is modelled here too). */
module Player {
  import opened Common
  import opened Components

  // ---------------------------------------------------------------------------
  // Movement

  /** The movement keys that `player_movement` asks about. */
  datatype Key = KeyW | KeyA | KeyS | KeyD

  /** A player entity as the movement query yields it: its transform and its person. */
  datatype PlayerEntity = PlayerEntity(transform: Transform, person: Person)

  /** The distance moved per tick is the speed times this factor. */
  const STEP_PER_SPEED: real := 0.02

  /** The reciprocal of the length of a diagonal direction, 1/sqrt 2, as f32
      represents it; `normalize` multiplies a diagonal direction by it. */
  const DIAGONAL_RECIP: real := 0.70710677

  const ZERO: Vec3 := Vec3(0.0, 0.0, 0.0)

  /** The net direction of the pressed keys. W and S, and A and D, cancel. */
  function NetDirection(pressed: set<Key>): (d: Vec3)
    ensures d.x in {-1.0, 0.0, 1.0} && d.y in {-1.0, 0.0, 1.0} && d.z == 0.0
    ensures d.x == 1.0 <==> KeyD in pressed && KeyA !in pressed
    ensures d.x == -1.0 <==> KeyA in pressed && KeyD !in pressed
    ensures d.y == 1.0 <==> KeyW in pressed && KeyS !in pressed
    ensures d.y == -1.0 <==> KeyS in pressed && KeyW !in pressed
    ensures d == ZERO <==> (KeyW in pressed <==> KeyS in pressed) && (KeyA in pressed <==> KeyD in pressed)
  {
    Vec3((if KeyD in pressed then 1.0 else 0.0) - (if KeyA in pressed then 1.0 else 0.0),
         (if KeyW in pressed then 1.0 else 0.0) - (if KeyS in pressed then 1.0 else 0.0),
         0.0)
  }

  function LengthSquared(v: Vec3): real {
    v.x * v.x + v.y * v.y + v.z * v.z
  }

  function Scale(v: Vec3, k: real): Vec3 {
    Vec3(v.x * k, v.y * k, v.z * k)
  }

  function Add(a: Vec3, b: Vec3): Vec3 {
    Vec3(a.x + b.x, a.y + b.y, a.z + b.z)
  }

  /** `normalize` on a direction built from the keys: an axis direction has
      length 1 already; a diagonal is scaled by DIAGONAL_RECIP. */
  function Normalize(d: Vec3): Vec3 {
    if d.x != 0.0 && d.y != 0.0 then Scale(d, DIAGONAL_RECIP) else d
  }

  /** The player's transform after one step in direction `d`. */
  function Step(e: PlayerEntity, d: Vec3): PlayerEntity {
    e.(transform := e.transform.(translation :=
      Add(e.transform.translation, Scale(Normalize(d), e.person.speed * STEP_PER_SPEED))))
  }

  /** The direction of `player_movement`, accumulated key by key. */
  method Direction(pressed: set<Key>) returns (direction: Vec3)
    ensures direction == NetDirection(pressed)
  {
    direction := ZERO;
    if KeyW in pressed {
      direction := direction.(y := direction.y + 1.0);
    }
    if KeyA in pressed {
      direction := direction.(x := direction.x - 1.0);
    }
    if KeyS in pressed {
      direction := direction.(y := direction.y - 1.0);
    }
    if KeyD in pressed {
      direction := direction.(x := direction.x + 1.0);
    }
  }

  /** `player_movement`: every player steps in the net direction of the
      pressed keys; when the keys cancel out, nobody moves. */
  method PlayerMovement(pressed: set<Key>, players: array<PlayerEntity>)
    modifies players
    ensures NetDirection(pressed) == ZERO ==> players[..] == old(players[..])
    ensures NetDirection(pressed) != ZERO ==>
              forall i :: 0 <= i < players.Length ==> players[i] == Step(old(players[i]), NetDirection(pressed))
  {
    var i := 0;
    while i < players.Length
      invariant 0 <= i <= players.Length
      invariant forall j :: i <= j < players.Length ==> players[j] == old(players[j])
      invariant NetDirection(pressed) == ZERO ==> forall j :: 0 <= j < i ==> players[j] == old(players[j])
      invariant NetDirection(pressed) != ZERO ==>
                  forall j :: 0 <= j < i ==> players[j] == Step(old(players[j]), NetDirection(pressed))
    {
      var direction := Direction(pressed);
      NonZeroHasLength(direction);
      if LengthSquared(direction) > 0.0 {
        players[i] := Step(players[i], direction);
      }
      i := i + 1;
    }
  }

  /** A key direction has positive squared length exactly when it is not zero. */
  lemma NonZeroHasLength(d: Vec3)
    requires d.x in {-1.0, 0.0, 1.0} && d.y in {-1.0, 0.0, 1.0} && d.z == 0.0
    ensures LengthSquared(d) > 0.0 <==> d != ZERO
  {
    if d.x != 0.0 {
      assert d.x * d.x == 1.0;
    }
    if d.y != 0.0 {
      assert d.y * d.y == 1.0;
    }
  }

  /** A step moves the player along the direction: each coordinate changes
      with the sign of the direction's component, and never in z. */
  lemma StepFollowsDirection(e: PlayerEntity, pressed: set<Key>)
    requires e.person.speed > 0.0
    ensures var d, t, t' := NetDirection(pressed), e.transform.translation,
                            Step(e, NetDirection(pressed)).transform.translation;
            (d.x > 0.0 <==> t'.x > t.x) && (d.x < 0.0 <==> t'.x < t.x) &&
            (d.y > 0.0 <==> t'.y > t.y) && (d.y < 0.0 <==> t'.y < t.y) &&
            t'.z == t.z
  {
    var d := NetDirection(pressed);
    var k := e.person.speed * STEP_PER_SPEED;
    assert k > 0.0;
    var n := Normalize(d);
    assert n.x > 0.0 <==> d.x > 0.0;
    assert n.x < 0.0 <==> d.x < 0.0;
    assert n.y > 0.0 <==> d.y > 0.0;
    assert n.y < 0.0 <==> d.y < 0.0;
    assert n.z == 0.0;
    MulSign(n.x, k);
    MulSign(n.y, k);
  }

  lemma MulSign(a: real, k: real)
    requires k > 0.0
    ensures (a * k > 0.0 <==> a > 0.0) && (a * k < 0.0 <==> a < 0.0)
  {
    if a > 0.0 {
      assert a * k > 0.0;
    } else if a < 0.0 {
      assert a * k < 0.0;
    } else {
      assert a * k == 0.0;
    }
  }

  /** With `Person::default()` speed, holding W alone moves 4 units up per tick. */
  lemma DefaultSpeedStep(t: Transform)
    ensures var e := PlayerEntity(t, DefaultPerson());
            var t' := Step(e, NetDirection({KeyW})).transform;
            t'.translation == Vec3(t.translation.x, t.translation.y + 4.0, t.translation.z) &&
            t'.rotation == t.rotation && t'.scale == t.scale
  {
  }

  // ---------------------------------------------------------------------------
  // Proximity hint

  /** A desk is close enough for the hint when it is nearer than this. */
  const HINT_DISTANCE: real := 60.0

  /** The hint entity: its visibility, the value of its first text section,
      and the template text of its `InteractionHintUI`. */
  datatype InteractionHint = InteractionHint(visibility: Visibility, text: string, template: string)

  /** The range test on squared distances. */
  predicate InRange(player: Vec3, desk: Vec3) {
    DistanceSquared(player, desk) < HINT_DISTANCE * HINT_DISTANCE
  }

  /** Comparing squares is the same as comparing the Euclidean distance with 60. */
  lemma InRangeMatchesDistance(player: Vec3, desk: Vec3, distance: real)
    requires distance >= 0.0 && distance * distance == DistanceSquared(player, desk)
    ensures InRange(player, desk) <==> distance < HINT_DISTANCE
  {
    if distance < HINT_DISTANCE {
      assert distance * distance <= distance * HINT_DISTANCE;
      assert distance * HINT_DISTANCE < HINT_DISTANCE * HINT_DISTANCE;
    } else {
      assert distance * distance >= distance * HINT_DISTANCE;
      assert distance * HINT_DISTANCE >= HINT_DISTANCE * HINT_DISTANCE;
    }
  }

  /** What one (player, desk) pair does to a hint. In range, a hint that is
      not Visible is shown and its text set to the template; out of range, a
      Visible hint is hidden. Nothing is written otherwise. */
  function StepHint(h: InteractionHint, inRange: bool): (r: InteractionHint)
    ensures r.template == h.template
    ensures inRange ==> r.visibility == Visible
    ensures !inRange ==> r.visibility != Visible
    ensures inRange && h.visibility == Visible ==> r == h
    ensures inRange && h.visibility != Visible ==> r.text == h.template
    ensures !inRange ==> r.text == h.text
    ensures !inRange && h.visibility != Visible ==> r == h
  {
    if inRange then
      if h.visibility != Visible then h.(visibility := Visible, text := h.template) else h
    else
      if h.visibility == Visible then h.(visibility := Hidden) else h
  }

  /** The verdicts of the desks, in the desk query's order, for one player. */
  function Row(player: Vec3, desks: seq<Vec3>): (vs: seq<bool>)
    ensures |vs| == |desks|
    ensures forall j :: 0 <= j < |desks| ==> vs[j] == InRange(player, desks[j])
  {
    if desks == [] then []
    else Row(player, desks[..|desks| - 1]) + [InRange(player, desks[|desks| - 1])]
  }

  /** The verdicts of all (player, desk) pairs in the order of the nested loops. */
  function Verdicts(players: seq<Vec3>, desks: seq<Vec3>): seq<bool> {
    if players == [] then []
    else Verdicts(players[..|players| - 1], desks) + Row(players[|players| - 1], desks)
  }

  /** A hint after the given verdicts, taken in order. */
  function HintAfter(h: InteractionHint, vs: seq<bool>): InteractionHint {
    if vs == [] then h else StepHint(HintAfter(h, vs[..|vs| - 1]), vs[|vs| - 1])
  }

  lemma HintAfterAppend(h: InteractionHint, vs: seq<bool>, v: bool)
    ensures HintAfter(h, vs + [v]) == StepHint(HintAfter(h, vs), v)
  {
    assert (vs + [v])[..|vs|] == vs;
  }

  /** Every hint takes the step of one pair. */
  method ShowOrHideHints(hints: array<InteractionHint>, inRange: bool)
    modifies hints
    ensures forall k :: 0 <= k < hints.Length ==> hints[k] == StepHint(old(hints[k]), inRange)
  {
    var k := 0;
    while k < hints.Length
      invariant 0 <= k <= hints.Length
      invariant forall j :: 0 <= j < k ==> hints[j] == StepHint(old(hints[j]), inRange)
      invariant forall j :: k <= j < hints.Length ==> hints[j] == old(hints[j])
    {
      if inRange {
        if hints[k].visibility != Visible {
          hints[k] := hints[k].(visibility := Visible, text := hints[k].template);
        }
      } else {
        if hints[k].visibility == Visible {
          hints[k] := hints[k].(visibility := Hidden);
        }
      }
      k := k + 1;
    }
  }

  /** `player_check_collision`: for every player and, inside, every desk, the
      hints are shown or hidden by that pair's range test. */
  method PlayerCheckCollision(players: seq<Vec3>, desks: seq<Vec3>, hints: array<InteractionHint>)
    modifies hints
    ensures forall k :: 0 <= k < hints.Length ==>
              hints[k] == HintAfter(old(hints[k]), Verdicts(players, desks))
  {
    var p := 0;
    while p < |players|
      invariant 0 <= p <= |players|
      invariant forall k :: 0 <= k < hints.Length ==>
                  hints[k] == HintAfter(old(hints[k]), Verdicts(players[..p], desks))
    {
      var d := 0;
      assert desks[..0] == [];
      assert Verdicts(players[..p], desks) + Row(players[p], desks[..0]) == Verdicts(players[..p], desks);
      while d < |desks|
        invariant 0 <= d <= |desks|
        invariant forall k :: 0 <= k < hints.Length ==>
                    hints[k] == HintAfter(old(hints[k]), Verdicts(players[..p], desks) + Row(players[p], desks[..d]))
      {
        ghost var before := Verdicts(players[..p], desks) + Row(players[p], desks[..d]);
        var inRange := DistanceSquared(players[p], desks[d]) < HINT_DISTANCE * HINT_DISTANCE;
        ShowOrHideHints(hints, inRange);
        assert desks[..d + 1][..d] == desks[..d];
        assert Verdicts(players[..p], desks) + Row(players[p], desks[..d + 1]) == before + [inRange];
        forall k | 0 <= k < hints.Length
          ensures hints[k] == HintAfter(old(hints[k]), before + [inRange])
        {
          HintAfterAppend(old(hints[k]), before, inRange);
        }
        d := d + 1;
      }
      assert desks[..d] == desks;
      assert players[..p + 1][..p] == players[..p];
      p := p + 1;
    }
    assert players[..p] == players;
  }

  // Properties of the hint after a tick

  /** The pairs are visited player by player, desk by desk. */
  lemma {:induction false} VerdictsLength(players: seq<Vec3>, desks: seq<Vec3>)
    ensures |Verdicts(players, desks)| == |players| * |desks|
  {
    if players != [] {
      var n := |players| - 1;
      VerdictsLength(players[..n], desks);
      assert |Verdicts(players, desks)| == n * |desks| + |desks|;
      assert n * |desks| + |desks| == (n + 1) * |desks|;
    }
  }

  /** The last verdict is that of the last player and the last desk. */
  lemma LastVerdict(players: seq<Vec3>, desks: seq<Vec3>)
    requires players != [] && desks != []
    ensures var vs := Verdicts(players, desks);
            |vs| > 0 && vs[|vs| - 1] == InRange(players[|players| - 1], desks[|desks| - 1])
  {
  }

  /** With no player or no desk, there are no verdicts. */
  lemma {:induction false} NoPairs(players: seq<Vec3>, desks: seq<Vec3>)
    requires players == [] || desks == []
    ensures Verdicts(players, desks) == []
  {
    if players != [] {
      NoPairs(players[..|players| - 1], desks);
    }
  }

  /** The final visibility is the verdict of the last (player, desk) pair:
      the last pair overrides every earlier one; with no pair, nothing changes. */
  lemma FinalVisibilityIsLastPair(h: InteractionHint, players: seq<Vec3>, desks: seq<Vec3>)
    ensures players == [] || desks == [] ==> HintAfter(h, Verdicts(players, desks)) == h
    ensures players != [] && desks != [] ==>
              (HintAfter(h, Verdicts(players, desks)).visibility == Visible <==>
               InRange(players[|players| - 1], desks[|desks| - 1]))
  {
    if players == [] || desks == [] {
      NoPairs(players, desks);
    } else {
      LastVerdict(players, desks);
    }
  }

  /** The template is never changed, and the text either keeps its value or
      becomes the template. */
  lemma {:induction false} TextIsOldOrTemplate(h: InteractionHint, vs: seq<bool>)
    ensures HintAfter(h, vs).template == h.template
    ensures HintAfter(h, vs).text == h.text || HintAfter(h, vs).text == h.template
  {
    if vs != [] {
      TextIsOldOrTemplate(h, vs[..|vs| - 1]);
    }
  }

  /** A hint that is already Visible and stays in range is never written:
      its text is not refreshed. */
  lemma {:induction false} VisibleHintNotRewritten(h: InteractionHint, vs: seq<bool>)
    requires h.visibility == Visible
    requires forall j :: 0 <= j < |vs| ==> vs[j]
    ensures HintAfter(h, vs) == h
  {
    if vs != [] {
      VisibleHintNotRewritten(h, vs[..|vs| - 1]);
    }
  }

  /** Out of range, the text is never touched; a Visible hint ends Hidden and
      any other visibility is kept. */
  lemma {:induction false} OutOfRangeOnlyHides(h: InteractionHint, vs: seq<bool>)
    requires forall j :: 0 <= j < |vs| ==> !vs[j]
    ensures HintAfter(h, vs).text == h.text
    ensures vs != [] && h.visibility == Visible ==> HintAfter(h, vs) == h.(visibility := Hidden)
    ensures h.visibility != Visible ==> HintAfter(h, vs) == h
  {
    if vs != [] {
      OutOfRangeOnlyHides(h, vs[..|vs| - 1]);
    }
  }

  /** The hint does not follow the closest desk: a desk in range is
      overridden by a later desk out of range, and the hint ends hidden. */
  lemma LaterFarDeskHidesHint(h: InteractionHint, player: Vec3, near: Vec3, far: Vec3)
    requires InRange(player, near) && !InRange(player, far)
    ensures HintAfter(h, Verdicts([player], [near, far])).visibility != Visible
  {
    FinalVisibilityIsLastPair(h, [player], [near, far]);
  }

  /** For instance, desks 10 and 200 units from the player. */
  lemma NearAndFarDesks()
    ensures InRange(Vec3(0.0, 0.0, 0.0), Vec3(0.0, 10.0, 0.0))
    ensures !InRange(Vec3(0.0, 0.0, 0.0), Vec3(0.0, 200.0, 0.0))
  {
  }
}
