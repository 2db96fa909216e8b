/**
 * The `Scene` component (frontend/src/App.jsx): `focusOnStar` and
 * `resetView` command the camera controls, and a click is delivered to the
 * objects under the pointer nearest first until a handler stops its
 * propagation. Only the commanded look-at arguments are modelled, not the
 * animation towards them.
 */
module Scene {
  import opened Wrappers
  import opened Layout

  /** A `setLookAt` command: where the camera sits and what it looks at. */
  datatype LookAt = LookAt(position: Vec3, target: Vec3)

  /** How far in front of a star the camera stops. */
  const FocusOffset := 2.5

  /** The `Canvas` camera and `resetView`'s command: from (0, 0, 12) towards the origin. */
  const DefaultView := LookAt(Vec3(0.0, 0.0, 12.0), Vec3(0.0, 0.0, 0.0))

  /** `CameraControls`' `minDistance` and `maxDistance`. */
  const MinDistance := 1.0
  const MaxDistance := 30.0

  /** `focusOnStar(p)`: look at p from 2.5 units further along z. */
  function FocusOn(p: Vec3): (v: LookAt)
    ensures v.target == p
    ensures v.position.x == p.x && v.position.y == p.y && v.position.z > p.z
    ensures SqDist(v.position, v.target) == FocusOffset * FocusOffset
  {
    LookAt(Vec3(p.x, p.y, p.z + FocusOffset), p)
  }

  /**
   * Both commands put the camera at a distance within the controls' limits,
   * so neither is altered by the distance clamp.
   */
  lemma CommandsWithinLimits(p: Vec3)
    ensures MinDistance * MinDistance <= SqDist(FocusOn(p).position, FocusOn(p).target) <= MaxDistance * MaxDistance
    ensures MinDistance * MinDistance <= SqDist(DefaultView.position, DefaultView.target) <= MaxDistance * MaxDistance
  {
  }

  /** An object under the pointer: a crystal at its layout position, or the invisible background plane. */
  datatype Hit = CrystalHit(position: Vec3) | BackgroundHit

  /**
   * The handlers a click runs, given the objects under the pointer nearest
   * first: a crystal's handler stops propagation, the background plane's
   * does not.
   */
  function Fired(hits: seq<Hit>): (fired: seq<Hit>)
    ensures |fired| <= |hits| && fired == hits[..|fired|]
    ensures forall k :: 0 <= k < |fired| - 1 ==> fired[k].BackgroundHit?
    ensures |fired| < |hits| ==> fired != [] && fired[|fired| - 1].CrystalHit?
  {
    if hits == [] then []
    else if hits[0].CrystalHit? then [hits[0]]
    else
      var rest := Fired(hits[1..]);
      assert hits[..1 + |rest|] == [hits[0]] + hits[1..][..|rest|];
      [hits[0]] + rest
  }

  /** The command a handler issues. */
  function Command(h: Hit): LookAt
  {
    match h
    case CrystalHit(p) => FocusOn(p)
    case BackgroundHit => DefaultView
  }

  /**
   * The last command a click issues: the nearest crystal under the pointer
   * wins, even over a background plane in front of it; with no crystal, a
   * hit on the background resets the view; with nothing hit, no command.
   */
  lemma {:induction false} LastCommand(hits: seq<Hit>)
    ensures (exists k :: 0 <= k < |hits| && hits[k].CrystalHit?) ==>
      var c := FirstCrystal(hits);
      Fired(hits) != [] && Command(Fired(hits)[|Fired(hits)| - 1]) == FocusOn(hits[c].position)
    ensures (forall k :: 0 <= k < |hits| ==> hits[k].BackgroundHit?) && hits != [] ==>
      Fired(hits) == hits && Command(Fired(hits)[|Fired(hits)| - 1]) == DefaultView
    ensures hits == [] ==> Fired(hits) == []
  {
    FiredStopsAtFirstCrystal(hits);
    var fired, c := Fired(hits), FirstCrystal(hits);
    if exists k :: 0 <= k < |hits| && hits[k].CrystalHit? {
      assert c < |hits|;
      assert fired[c] == hits[c];
    } else if hits != [] {
      assert fired == hits[..|hits|] == hits;
    }
  }

  /** A click runs the handlers up to and including the nearest crystal's, or all of them. */
  lemma {:induction false} FiredStopsAtFirstCrystal(hits: seq<Hit>)
    ensures |Fired(hits)| == if FirstCrystal(hits) < |hits| then FirstCrystal(hits) + 1 else |hits|
  {
    if hits != [] && hits[0].BackgroundHit? {
      FiredStopsAtFirstCrystal(hits[1..]);
    }
  }

  /** The index of the nearest crystal hit, if there is one. */
  function FirstCrystal(hits: seq<Hit>): (c: nat)
    ensures c <= |hits|
    ensures forall k :: 0 <= k < c ==> hits[k].BackgroundHit?
    ensures c < |hits| ==> hits[c].CrystalHit?
  {
    if hits == [] || hits[0].CrystalHit? then 0 else 1 + FirstCrystal(hits[1..])
  }

  /** The camera controls as `Scene` drives them. */
  class Scene {
    /** Whether `controlsRef.current` is set. */
    var controlsReady: bool
    var camera: LookAt

    constructor ()
      ensures !controlsReady && camera == DefaultView
    {
      controlsReady, camera := false, DefaultView;
    }

    /** `CameraControls` mounts and fills the ref. */
    method ControlsMounted()
      modifies this`controlsReady
      ensures controlsReady
    {
      controlsReady := true;
    }

    /** `focusOnStar`: a no-op while the ref is empty. */
    method FocusOnStar(p: Vec3)
      modifies this`camera
      ensures camera == if controlsReady then FocusOn(p) else old(camera)
    {
      if controlsReady {
        camera := FocusOn(p);
      }
    }

    /** `resetView`: a no-op while the ref is empty. */
    method ResetView()
      modifies this`camera
      ensures camera == if controlsReady then DefaultView else old(camera)
    {
      if controlsReady {
        camera := DefaultView;
      }
    }

    /** A click: the fired handlers run nearest first; the last command wins. */
    method Click(hits: seq<Hit>)
      modifies this`camera
      ensures camera == if controlsReady && Fired(hits) != [] then Command(Fired(hits)[|Fired(hits)| - 1]) else old(camera)
    {
      var fired := Fired(hits);
      var k := 0;
      while k < |fired|
        invariant 0 <= k <= |fired|
        invariant camera == if controlsReady && k > 0 then Command(fired[k - 1]) else old(camera)
      {
        match fired[k] {
          case CrystalHit(p) => FocusOnStar(p);
          case BackgroundHit => ResetView();
        }
        k := k + 1;
      }
    }
  }
}
