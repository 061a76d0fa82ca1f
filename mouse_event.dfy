/** Pointer tracking and hover picking (`salaryman_simulator/src/mouse_event.rs`).

    Each tick `listen_mouse_input` stores the cursor position in screen and
    world space, and `mouse_event` picks the first selectable whose rectangle,
    magnified by SELECT_SCALE, strictly contains the pointer. The pick goes
    into every `CurrentHovered` and moves the hover hint over the hit. Bevy's
    query results are given as sequences (read-only queries) or arrays
    (queries whose components are written), in the query's iteration order. */
module MouseEvent {
  import opened Common

  /** How much larger world placement is than the frame a rectangle is authored in. */
  const SELECT_SCALE: real := 8.0

  /** The factor from a rectangle's extent to the hover hint's scale. */
  const HINT_SCALE: real := 0.1

  /** The `MouseSelectable` component: its selection rectangle. */
  datatype Selectable = Selectable(selectRect: Rect)

  /** One item of the selectables query: the entity's transform and its selectable. */
  datatype Placed = Placed(transform: Transform, selectable: Selectable)

  /** The `CurrentHovered` component. */
  datatype CurrentHovered = CurrentHovered(selectable: Option<Selectable>)

  /** The hover-hint entity's transform and visibility. */
  datatype HoverHint = HoverHint(transform: Transform, visibility: Visibility)

  /** The `MouseInput` component: the last known cursor position on screen and in the world. */
  class MouseInput {
    var cameraPosition: Vec2
    var worldPosition: Vec2

    /** `listen_mouse_input`. `cursor` is what the window reports this tick;
        `viewportToWorld` is the camera's conversion to a world-space ray,
        given by the origin of that ray (or None when the camera cannot
        convert). A position that is not reported keeps the last one. */
    method Listen(cursor: Option<Vec2>, viewportToWorld: Vec2 -> Option<Vec3>)
      modifies this
      ensures cursor.None? ==> cameraPosition == old(cameraPosition)
      ensures cursor.None? ==> worldPosition == old(worldPosition)
      ensures cursor.Some? ==> cameraPosition == cursor.value
      ensures cursor.Some? && viewportToWorld(cursor.value).Some? ==>
                worldPosition.x == viewportToWorld(cursor.value).value.x &&
                worldPosition.y == viewportToWorld(cursor.value).value.y
      ensures cursor.Some? && viewportToWorld(cursor.value).None? ==>
                worldPosition == old(worldPosition)
    {
      if cursor.Some? {
        cameraPosition := cursor.value;
      }
      var ray := if cursor.Some? then viewportToWorld(cursor.value) else None;
      if ray.Some? {
        worldPosition := Truncate(ray.value);
      }
    }
  }

  /** `Vec3::truncate`: drop the z coordinate. */
  function Truncate(v: Vec3): Vec2
  {
    Vec2(v.x, v.y)
  }

  /** The pointer relative to a selectable's translation, on the x/y plane. */
  function Offset(pointer: Vec2, p: Placed): Vec2 {
    Vec2(pointer.x - p.transform.translation.x, pointer.y - p.transform.translation.y)
  }

  /** The hit test: every one of the four comparisons is strict. */
  predicate IsHit(pointer: Vec2, p: Placed) {
    var d := Offset(pointer, p);
    var r := p.selectable.selectRect;
    d.x > r.min.x * SELECT_SCALE && d.x < r.max.x * SELECT_SCALE &&
    d.y > r.min.y * SELECT_SCALE && d.y < r.max.y * SELECT_SCALE
  }

  /** The index of the first selectable that the pointer hits, if any. */
  function FirstHit(pointer: Vec2, items: seq<Placed>): (k: Option<nat>)
    ensures k.Some? ==> k.value < |items| && IsHit(pointer, items[k.value])
    ensures k.Some? ==> forall j :: 0 <= j < k.value ==> !IsHit(pointer, items[j])
    ensures k.None? <==> forall j :: 0 <= j < |items| ==> !IsHit(pointer, items[j])
    decreases |items|
  {
    if items == [] then None
    else if IsHit(pointer, items[0]) then Some(0)
    else match FirstHit(pointer, items[1..])
      case None => None
      case Some(k) => Some(k + 1)
  }

  /** The selectable that `mouse_event` publishes for the pointer. */
  function Hovered(pointer: Vec2, items: seq<Placed>): (r: Option<Selectable>)
    ensures r.None? <==> forall j :: 0 <= j < |items| ==> !IsHit(pointer, items[j])
    ensures r.Some? ==> exists j :: 0 <= j < |items| && IsHit(pointer, items[j]) && r.value == items[j].selectable &&
                                   forall i :: 0 <= i < j ==> !IsHit(pointer, items[i])
  {
    match FirstHit(pointer, items)
    case None => None
    case Some(k) => Some(items[k].selectable)
  }

  /** The hint placed over a hit: shown, moved to the hit's x and y, and
      scaled by the rectangle's extents; its z, rotation and z scale stay. */
  function ShowOver(h: HoverHint, target: Placed): (r: HoverHint)
    ensures r.visibility == Visible
    ensures r.transform.translation.x == target.transform.translation.x
    ensures r.transform.translation.y == target.transform.translation.y
    ensures r.transform.scale.x == target.selectable.selectRect.Width() * HINT_SCALE
    ensures r.transform.scale.y == target.selectable.selectRect.Height() * HINT_SCALE
    ensures r.transform.translation.z == h.transform.translation.z
    ensures r.transform.rotation == h.transform.rotation
    ensures r.transform.scale.z == h.transform.scale.z
  {
    var rect := target.selectable.selectRect;
    var t := h.transform;
    HoverHint(
      Transform(
        Vec3(target.transform.translation.x, target.transform.translation.y, t.translation.z),
        t.rotation,
        Vec3(rect.Width() * HINT_SCALE, rect.Height() * HINT_SCALE, t.scale.z)),
      Visible)
  }

  /** The scan of `mouse_event`: a linear search that stops at the first hit. */
  method FindHovered(pointer: Vec2, items: seq<Placed>) returns (k: Option<nat>)
    ensures k == FirstHit(pointer, items)
  {
    var i := 0;
    while i < |items|
      invariant i <= |items|
      invariant forall j :: 0 <= j < i ==> !IsHit(pointer, items[j])
    {
      if IsHit(pointer, items[i]) {
        k := Some(i);
        FirstHitIsUnique(pointer, items, i);
        return;
      }
      i := i + 1;
    }
    k := None;
  }

  /** `mouse_event`: the scan; then every `CurrentHovered` is set to the hit
      (or cleared); then the hint is moved over the hit, or, when nothing is
      hit, the first hint is hidden and the system returns at once. */
  method MouseEventSystem(input: MouseInput, items: seq<Placed>,
                          hovered: array<CurrentHovered>, hints: array<HoverHint>)
    modifies hovered, hints
    ensures forall i :: 0 <= i < hovered.Length ==>
              hovered[i] == CurrentHovered(Hovered(input.worldPosition, items))
    ensures FirstHit(input.worldPosition, items).Some? ==>
              forall i :: 0 <= i < hints.Length ==>
                hints[i] == ShowOver(old(hints[i]), items[FirstHit(input.worldPosition, items).value])
    ensures FirstHit(input.worldPosition, items).None? && hints.Length > 0 ==>
              hints[0] == old(hints[0]).(visibility := Hidden)
    ensures FirstHit(input.worldPosition, items).None? ==>
              forall i :: 1 <= i < hints.Length ==> hints[i] == old(hints[i])
  {
    var pointer := input.worldPosition;
    var k := FindHovered(pointer, items);
    var target := if k.Some? then Some(items[k.value]) else None;

    var i := 0;
    while i < hovered.Length
      modifies hovered
      invariant 0 <= i <= hovered.Length
      invariant forall j :: 0 <= j < i ==> hovered[j] == CurrentHovered(Hovered(pointer, items))
    {
      if target.Some? {
        hovered[i] := CurrentHovered(Some(target.value.selectable));
      } else {
        hovered[i] := CurrentHovered(None);
      }
      i := i + 1;
    }

    i := 0;
    while i < hints.Length
      modifies hints
      invariant 0 <= i <= hints.Length
      invariant k.None? ==> i == 0
      invariant k.Some? ==> forall j :: 0 <= j < i ==> hints[j] == ShowOver(old(hints[j]), items[k.value])
      invariant forall j :: i <= j < hints.Length ==> hints[j] == old(hints[j])
    {
      if target.Some? {
        hints[i] := ShowOver(hints[i], target.value);
      } else {
        hints[i] := hints[i].(visibility := Hidden);
        return;
      }
      i := i + 1;
    }
  }

  /** The three properties of FirstHit pin down the index. */
  lemma FirstHitIsUnique(pointer: Vec2, items: seq<Placed>, k: nat)
    requires k < |items| && IsHit(pointer, items[k])
    requires forall j :: 0 <= j < k ==> !IsHit(pointer, items[j])
    ensures FirstHit(pointer, items) == Some(k)
  {
  }

  /** Selectables after the first hit are never looked at: appending any
      selectables leaves the pick unchanged. */
  lemma {:induction false} LaterItemsIgnored(pointer: Vec2, items: seq<Placed>, more: seq<Placed>)
    requires FirstHit(pointer, items).Some?
    ensures FirstHit(pointer, items + more) == FirstHit(pointer, items)
  {
    var k := FirstHit(pointer, items).value;
    forall j | 0 <= j < k ensures !IsHit(pointer, (items + more)[j]) {
      assert (items + more)[j] == items[j];
    }
    assert (items + more)[k] == items[k];
    FirstHitIsUnique(pointer, items + more, k);
  }

  /** With no hit among the first selectables, the pick is made among the rest. */
  lemma {:induction false} MissesAreSkipped(pointer: Vec2, items: seq<Placed>, more: seq<Placed>)
    requires FirstHit(pointer, items).None?
    ensures FirstHit(pointer, items + more) ==
              match FirstHit(pointer, more)
              case None => None
              case Some(k) => Some(|items| + k)
  {
    if items != [] {
      var all := items + more;
      assert all[0] == items[0];
      assert all[1..] == items[1..] + more;
      assert !IsHit(pointer, items[0]);
      assert FirstHit(pointer, items[1..]).None?;
      MissesAreSkipped(pointer, items[1..], more);
      assert FirstHit(pointer, all) ==
               match FirstHit(pointer, all[1..])
               case None => None
               case Some(k) => Some(k + 1);
    } else {
      assert items + more == more;
    }
  }

  /** Placing the hint over the same hit twice is the same as placing it
      once: a tick with an unchanged pointer leaves the hint where it is. */
  lemma ShowOverIdempotent(h: HoverHint, target: Placed)
    ensures ShowOver(ShowOver(h, target), target) == ShowOver(h, target)
  {
  }

  /** A pointer on one of the four magnified edges is not a hit. */
  lemma EdgeIsNotHit(pointer: Vec2, p: Placed)
    requires var d, r := Offset(pointer, p), p.selectable.selectRect;
             d.x == r.min.x * SELECT_SCALE || d.x == r.max.x * SELECT_SCALE ||
             d.y == r.min.y * SELECT_SCALE || d.y == r.max.y * SELECT_SCALE
    ensures !IsHit(pointer, p)
  {
  }

  /** A pointer at the centre of the magnified rectangle is a hit exactly
      when the rectangle has positive width and height. */
  lemma CenterIsHit(p: Placed)
    ensures var r, t := p.selectable.selectRect, p.transform.translation;
            var centre := Vec2(t.x + (r.min.x + r.max.x) * SELECT_SCALE / 2.0,
                               t.y + (r.min.y + r.max.y) * SELECT_SCALE / 2.0);
            IsHit(centre, p) <==> r.Width() > 0.0 && r.Height() > 0.0
  {
  }
}
