/** The snap registry of Assets/Scripts/SnapController.cs: snaps are
    registered with consecutive ids, can be disabled and enabled again, and
    the first enabled snap for the type of the object under the mouse takes
    the cursor, which is let go when the mouse leaves the object. Sprites are
    identifiers; the cursor's colour and scale are not part of this model. */
module SnapControllers {
  import opened Wrappers
  import opened Geometry

  /** The run-time type of a map object: a street segment or another type. */
  datatype ObjType = StreetSegmentType | OtherType(name: string)

  /** `SnapSettings`: which callbacks are set (`?.Invoke` on an unset one
      does nothing) and how a street snap behaves. */
  datatype SnapSettings = SnapSettings(snapCursor: int, onSnapEnter: bool, onSnapOver: bool, onSnapExit: bool,
                                       hideCursor: bool, snapToEnd: bool, snapToLane: bool, snapToRivers: bool)

  /** A `StreetSnap` applies to street segments, a `MapObjectSnap` to its
      type. */
  datatype SnapKind = StreetSnap | MapObjectSnap(objType: ObjType)

  datatype ActiveSnap = ActiveSnap(id: int, settings: SnapSettings, kind: SnapKind)

  /** `GetApplicableType`. */
  function ApplicableType(s: ActiveSnap): ObjType
  {
    match s.kind
    case StreetSnap => StreetSegmentType
    case MapObjectSnap(t) => t
  }

  /** A map object under the mouse: its type, whether it is a river street,
      its position and, for a street, its first and last drivable
      positions. */
  datatype MapObject = MapObject(objType: ObjType, isRiver: bool, position: Vec2, first: Vec2, last: Vec2)

  /** An invoked callback of a snap's settings. */
  datatype Callback = Enter(id: int) | Over(id: int) | Exit(id: int)

  /** The settings `AddStreetSnap` and the first `AddSnap` build: no
      callbacks, the cursor shown. */
  function PlainSettings(snapCursor: int, snapToEnd: bool, snapToLane: bool, snapToRivers: bool): SnapSettings
  {
    SnapSettings(snapCursor, false, false, false, false, snapToEnd, snapToLane, snapToRivers)
  }

  /** A snap that `GetSnapForObject` may return for objects of type `t`. */
  predicate Applies(s: ActiveSnap, disabled: set<int>, t: ObjType)
  {
    s.id !in disabled && ApplicableType(s) == t
  }

  /** The first snap, in the order added, that is not disabled and applies
      to the type. */
  function FirstEnabled(snaps: seq<ActiveSnap>, disabled: set<int>, t: ObjType): Option<ActiveSnap>
    decreases |snaps|
  {
    if snaps == [] then None
    else if Applies(snaps[0], disabled, t) then Some(snaps[0])
    else FirstEnabled(snaps[1..], disabled, t)
  }

  /** `FirstEnabled` finds a snap exactly when some snap applies, and then
      the one at the lowest position that applies. */
  lemma {:induction false} FirstEnabledIsFirst(snaps: seq<ActiveSnap>, disabled: set<int>, t: ObjType)
    ensures FirstEnabled(snaps, disabled, t).Some? <==> exists k :: 0 <= k < |snaps| && Applies(snaps[k], disabled, t)
    ensures FirstEnabled(snaps, disabled, t).Some? ==>
      exists k :: 0 <= k < |snaps| && snaps[k] == FirstEnabled(snaps, disabled, t).value
        && Applies(snaps[k], disabled, t) && forall k' :: 0 <= k' < k ==> !Applies(snaps[k'], disabled, t)
    decreases |snaps|
  {
    if snaps != [] && !Applies(snaps[0], disabled, t) {
      var rest := snaps[1..];
      FirstEnabledIsFirst(rest, disabled, t);
      assert forall k :: 1 <= k < |snaps| ==> snaps[k] == rest[k - 1];
      if FirstEnabled(rest, disabled, t).Some? {
        var k :| 0 <= k < |rest| && rest[k] == FirstEnabled(rest, disabled, t).value
          && Applies(rest[k], disabled, t) && forall k' :: 0 <= k' < k ==> !Applies(rest[k'], disabled, t);
        assert snaps[k + 1] == rest[k];
        forall k' | 0 <= k' < k + 1
          ensures !Applies(snaps[k'], disabled, t)
        {
          if k' > 0 {
            assert snaps[k'] == rest[k' - 1];
          }
        }
      }
    }
  }

  /** Disabling a snap keeps `GetSnapForObject` from returning it, and
      changes nothing when another snap was found. */
  lemma {:induction false} DisableSkips(snaps: seq<ActiveSnap>, disabled: set<int>, t: ObjType, id: int)
    ensures FirstEnabled(snaps, disabled + {id}, t).None? || FirstEnabled(snaps, disabled + {id}, t).value.id != id
    ensures FirstEnabled(snaps, disabled, t).Some? && FirstEnabled(snaps, disabled, t).value.id != id ==>
      FirstEnabled(snaps, disabled + {id}, t) == FirstEnabled(snaps, disabled, t)
    decreases |snaps|
  {
    if snaps != [] {
      DisableSkips(snaps[1..], disabled, t, id);
    }
  }

  /** Enabling a snap either leaves the result as it was or makes that snap
      the result. */
  lemma {:induction false} EnableOutcome(snaps: seq<ActiveSnap>, disabled: set<int>, t: ObjType, id: int)
    ensures FirstEnabled(snaps, disabled - {id}, t) == FirstEnabled(snaps, disabled, t)
         || (FirstEnabled(snaps, disabled - {id}, t).Some? && FirstEnabled(snaps, disabled - {id}, t).value.id == id)
    decreases |snaps|
  {
    if snaps != [] {
      EnableOutcome(snaps[1..], disabled, t, id);
    }
  }

  /** `SnapToStreet`'s filter (lines 236-246): a river snap only takes
      rivers, any other snap only other streets. */
  function StreetAccepts(settings: SnapSettings, isRiver: bool): (r: bool)
    ensures r <==> (settings.snapToRivers <==> isRiver)
  {
    if settings.snapToRivers then isRiver else !isRiver
  }

  /** `endSnapThreshold`. */
  const EndSnapThreshold: real := 5.0

  /** The end snapping of `SnapToStreet` (lines 275-290): a point closer to
      the street's first position than the threshold moves onto it, and the
      point then closer to its last position than the threshold moves onto
      that one. `distance(p, q)` stands for `(p - q).magnitude`. */
  function EndSnap(closest: Vec2, first: Vec2, last: Vec2, distance: (Vec2, Vec2) -> real): (r: Vec2)
    ensures r == closest || r == first || r == last
    ensures distance(first, closest) >= EndSnapThreshold && distance(last, closest) >= EndSnapThreshold ==> r == closest
    ensures distance(last, if distance(first, closest) < EndSnapThreshold then first else closest) < EndSnapThreshold
            ==> r == last
  {
    var p := if distance(first, closest) < EndSnapThreshold then first else closest;
    if distance(last, p) < EndSnapThreshold then last else p
  }

  class SnapController {
    var snapCount: int
    var activeSnaps: seq<ActiveSnap>
    var disabledSnaps: set<int>
    var activeSnap: Option<ActiveSnap>
    /** The callbacks invoked so far, in order. */
    var callbacks: seq<Callback>
    /** `Cursor.visible`, the cursor sprite's active flag, sprite and place. */
    var cursorVisible: bool
    var cursorShown: bool
    var cursorSprite: int
    var cursorPosition: Vec2

    /** Every snap's id is its position in the list, and the count is the
        number of snaps. */
    ghost predicate Valid()
      reads this
    {
      snapCount == |activeSnaps| && forall k :: 0 <= k < |activeSnaps| ==> activeSnaps[k].id == k
    }

    /** Lines 63-80; the mouse listeners become `HandleMouseOver` and
        `HandleMouseExit` being called. */
    constructor (cursorVisible: bool, cursorShown: bool, cursorSprite: int, cursorPosition: Vec2)
      ensures snapCount == 0 && activeSnaps == [] && disabledSnaps == {} && activeSnap == None && callbacks == []
      ensures this.cursorVisible == cursorVisible && this.cursorShown == cursorShown
      ensures this.cursorSprite == cursorSprite && this.cursorPosition == cursorPosition
      ensures Valid()
    {
      snapCount := 0;
      activeSnaps := [];
      disabledSnaps := {};
      activeSnap := None;
      callbacks := [];
      this.cursorVisible := cursorVisible;
      this.cursorShown := cursorShown;
      this.cursorSprite := cursorSprite;
      this.cursorPosition := cursorPosition;
    }

    /** `AddStreetSnap` (lines 82-104): the next id, for a street snap. */
    method AddStreetSnap(snapCursor: int, snapToEnd: bool, snapToLane: bool, snapToRivers: bool) returns (id: int)
      modifies this`snapCount, this`activeSnaps
      ensures id == old(snapCount) && snapCount == old(snapCount) + 1
      ensures activeSnaps == old(activeSnaps) + [ActiveSnap(id, PlainSettings(snapCursor, snapToEnd, snapToLane, snapToRivers), StreetSnap)]
      ensures old(Valid()) ==> Valid() && activeSnaps[id].id == id
    {
      id := snapCount;
      snapCount := snapCount + 1;
      var settings := PlainSettings(snapCursor, snapToEnd, snapToLane, snapToRivers);
      var snap := ActiveSnap(id, settings, StreetSnap);
      activeSnaps := activeSnaps + [snap];
    }

    /** The first `AddSnap` (lines 106-126): the next id, for a snap of the
        given type; it is a map-object snap even for street segments. */
    method AddObjectSnap(snapCursor: int, t: ObjType) returns (id: int)
      modifies this`snapCount, this`activeSnaps
      ensures id == old(snapCount) && snapCount == old(snapCount) + 1
      ensures activeSnaps == old(activeSnaps) + [ActiveSnap(id, PlainSettings(snapCursor, false, false, false), MapObjectSnap(t))]
      ensures old(Valid()) ==> Valid() && activeSnaps[id].id == id
    {
      id := snapCount;
      snapCount := snapCount + 1;
      var settings := PlainSettings(snapCursor, false, false, false);
      var snap := ActiveSnap(id, settings, MapObjectSnap(t));
      activeSnaps := activeSnaps + [snap];
    }

    /** The second `AddSnap` (lines 128-159): the next id, for a street snap
        when the type is the street segment's and a map-object snap
        otherwise; a snap added as not enabled starts disabled. */
    method AddSnap(t: ObjType, settings: SnapSettings, enabled: bool) returns (id: int)
      modifies this`snapCount, this`activeSnaps, this`disabledSnaps
      ensures id == old(snapCount) && snapCount == old(snapCount) + 1
      ensures activeSnaps == old(activeSnaps)
        + [ActiveSnap(id, settings, if t == StreetSegmentType then StreetSnap else MapObjectSnap(t))]
      ensures disabledSnaps == if enabled then old(disabledSnaps) else old(disabledSnaps) + {id}
      ensures old(Valid()) ==> Valid() && activeSnaps[id].id == id && ApplicableType(activeSnaps[id]) == t
    {
      id := snapCount;
      snapCount := snapCount + 1;
      var snap;
      if t == StreetSegmentType {
        snap := ActiveSnap(id, settings, StreetSnap);
      } else {
        snap := ActiveSnap(id, settings, MapObjectSnap(t));
      }
      activeSnaps := activeSnaps + [snap];
      if !enabled {
        disabledSnaps := disabledSnaps + {id};
      }
    }

    /** `EnableSnap` (lines 161-164). */
    method EnableSnap(id: int)
      modifies this`disabledSnaps
      ensures disabledSnaps == old(disabledSnaps) - {id}
    {
      disabledSnaps := disabledSnaps - {id};
    }

    /** `DisableSnap` (lines 166-169). */
    method DisableSnap(id: int)
      modifies this`disabledSnaps
      ensures disabledSnaps == old(disabledSnaps) + {id}
    {
      disabledSnaps := disabledSnaps + {id};
    }

    /** `GetSnapForObject` (lines 171-188): the first enabled snap for the
        object's type, or none. */
    method GetSnapForObject(obj: MapObject) returns (r: Option<ActiveSnap>)
      ensures r == FirstEnabled(activeSnaps, disabledSnaps, obj.objType)
      ensures r.Some? ==> r.value in activeSnaps && Applies(r.value, disabledSnaps, obj.objType)
      ensures r.None? ==> forall k :: 0 <= k < |activeSnaps| ==> !Applies(activeSnaps[k], disabledSnaps, obj.objType)
    {
      FirstEnabledIsFirst(activeSnaps, disabledSnaps, obj.objType);
      var i := 0;
      while i < |activeSnaps|
        invariant 0 <= i <= |activeSnaps|
        invariant FirstEnabled(activeSnaps[i..], disabledSnaps, obj.objType) == FirstEnabled(activeSnaps, disabledSnaps, obj.objType)
      {
        var snap := activeSnaps[i];
        assert activeSnaps[i..][1..] == activeSnaps[i + 1..];
        if snap.id in disabledSnaps {
          i := i + 1;
          continue;
        }
        if ApplicableType(snap) != obj.objType {
          i := i + 1;
          continue;
        }
        return Some(snap);
      }
      return None;
    }

    /** `HandleMouseOver` (lines 190-219) with `SnapToStreet` (234-304) and
        `SnapToMapObject` (306-322). The snap found takes over, its enter
        callback runs when it was not the active one, its over callback runs,
        and the cursor sprite is shown on the object's position or, for an
        accepted street, on the street point nearest the cursor after end
        snapping. `closest` is that nearest point (on the lane when the snap
        asks for lanes). */
    method HandleMouseOver(obj: MapObject, closest: Vec2, distance: (Vec2, Vec2) -> real)
      modifies this`activeSnap, this`callbacks, this`cursorVisible, this`cursorShown, this`cursorSprite, this`cursorPosition
      ensures var found := FirstEnabled(activeSnaps, disabledSnaps, obj.objType);
        if found.None? then
          activeSnap == old(activeSnap) && callbacks == old(callbacks) && cursorVisible == old(cursorVisible)
          && cursorShown == old(cursorShown) && cursorSprite == old(cursorSprite) && cursorPosition == old(cursorPosition)
        else
          var s := found.value;
          activeSnap == Some(s)
          && callbacks == old(callbacks)
             + (if old(activeSnap) != Some(s) && s.settings.onSnapEnter then [Enter(s.id)] else [])
             + (if s.settings.onSnapOver then [Over(s.id)] else [])
          && (if s.kind.StreetSnap? && !StreetAccepts(s.settings, obj.isRiver) then
                cursorVisible == old(cursorVisible) && cursorShown == old(cursorShown)
                && cursorSprite == old(cursorSprite) && cursorPosition == old(cursorPosition)
              else
                cursorShown && cursorSprite == s.settings.snapCursor
                && cursorVisible == (if s.kind.StreetSnap? then old(cursorVisible) && !s.settings.hideCursor else false)
                && cursorPosition == (if s.kind.StreetSnap? then
                                        (if s.settings.snapToEnd then EndSnap(closest, obj.first, obj.last, distance) else closest)
                                      else obj.position))
    {
      var snap := GetSnapForObject(obj);
      if snap.None? {
        return;
      }
      var s := snap.value;
      if ApplicableType(s) != obj.objType {
        return;
      }
      if activeSnap != Some(s) {
        activeSnap := Some(s);
        if s.settings.onSnapEnter {
          callbacks := callbacks + [Enter(s.id)];
        }
      }
      if s.settings.onSnapOver {
        callbacks := callbacks + [Over(s.id)];
      }
      if s.kind.StreetSnap? {
        SnapToStreet(s.settings, obj, closest, distance);
      } else {
        SnapToMapObject(s.settings, obj);
      }
    }

    /** `SnapToStreet` (lines 234-304). */
    method SnapToStreet(settings: SnapSettings, street: MapObject, closest: Vec2, distance: (Vec2, Vec2) -> real)
      modifies this`cursorVisible, this`cursorShown, this`cursorSprite, this`cursorPosition
      ensures if !StreetAccepts(settings, street.isRiver) then
          cursorVisible == old(cursorVisible) && cursorShown == old(cursorShown)
          && cursorSprite == old(cursorSprite) && cursorPosition == old(cursorPosition)
        else
          cursorVisible == (old(cursorVisible) && !settings.hideCursor) && cursorShown
          && cursorSprite == settings.snapCursor
          && cursorPosition == if settings.snapToEnd then EndSnap(closest, street.first, street.last, distance) else closest
    {
      if settings.snapToRivers {
        if !street.isRiver {
          return;
        }
      } else if street.isRiver {
        return;
      }
      if settings.hideCursor {
        cursorVisible := false;
      }
      var closestPt := closest;
      if settings.snapToEnd {
        var distanceFromStart := distance(street.first, closestPt);
        if distanceFromStart < EndSnapThreshold {
          closestPt := street.first;
        }
        var distanceFromEnd := distance(street.last, closestPt);
        if distanceFromEnd < EndSnapThreshold {
          closestPt := street.last;
        }
      }
      cursorSprite := settings.snapCursor;
      cursorShown := true;
      cursorPosition := closestPt;
    }

    /** `SnapToMapObject` (lines 306-322): the cursor sprite on the object,
        the system cursor hidden. */
    method SnapToMapObject(settings: SnapSettings, obj: MapObject)
      modifies this`cursorVisible, this`cursorShown, this`cursorSprite, this`cursorPosition
      ensures !cursorVisible && cursorShown && cursorSprite == settings.snapCursor && cursorPosition == obj.position
    {
      cursorSprite := settings.snapCursor;
      cursorVisible := false;
      cursorShown := true;
      cursorPosition := obj.position;
    }

    /** `HandleMouseExit` (lines 221-230) with `Unsnap` (324-330): the active
        snap's exit callback runs, the system cursor comes back, the cursor
        sprite is hidden and no snap is active any more. */
    method HandleMouseExit()
      modifies this`activeSnap, this`callbacks, this`cursorVisible, this`cursorShown
      ensures activeSnap == None && cursorVisible && !cursorShown
      ensures callbacks == old(callbacks)
        + (if old(activeSnap).Some? && old(activeSnap).value.settings.onSnapExit then [Exit(old(activeSnap).value.id)] else [])
    {
      if activeSnap.Some? && activeSnap.value.settings.onSnapExit {
        callbacks := callbacks + [Exit(activeSnap.value.id)];
      }
      cursorVisible := true;
      cursorShown := false;
      activeSnap := None;
    }
  }

  /** Ids are issued one after the other from 0, so no two snaps share
      one, and the snap with id `k` is the `k`-th added. */
  lemma IdsDistinct(c: SnapController, i: int, j: int)
    requires c.Valid() && 0 <= i < |c.activeSnaps| && 0 <= j < |c.activeSnaps|
    ensures c.activeSnaps[i].id == c.activeSnaps[j].id <==> i == j
    ensures 0 <= c.activeSnaps[i].id < c.snapCount
  {
  }
}
