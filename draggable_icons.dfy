/** DraggableIcons ("My Design Arsenal"): seven app icons scattered over a
    container without overlapping, which the user can drag around.

    Placement runs once, 100 ms after mount: for each app in turn up to 50
    random candidates are drawn until one lies at least 68 px (icon 48 +
    spacing 20) from every icon already placed; when 50 attempts have been
    used, the app is put on a grid instead. Dragging stores the clamped
    pointer position and lets an animation frame move the dragged app there;
    releasing the mouse ends the drag and cancels the frame.

    The container rectangle (None when the ref is not attached), the
    `Math.random()` draws and the pointer coordinates are inputs. Positions
    are exact reals; `NotANumber` stands for the NaN the grid formula gives
    when the container is too narrow for one column. */
module DraggableIcons {
  import opened Util

  const AppSize: real := 48.0
  const MinSpacing: real := 20.0
  const Cell: int := 68
  const MaxAttempts: nat := 50

  datatype AppInfo = AppInfo(id: string, name: string)

  const DesignApps: seq<AppInfo> := [
    AppInfo("figma", "Figma"),
    AppInfo("canva", "Canva"),
    AppInfo("framer", "Framer"),
    AppInfo("vscode", "VS Code"),
    AppInfo("sketch", "Sketch"),
    AppInfo("photoshop", "Photoshop"),
    AppInfo("illustrator", "Illustrator")
  ]

  datatype Rect = Rect(left: real, top: real, width: real, height: real)

  datatype Pos = Point(x: real, y: real) | NotANumber

  datatype App = App(id: string, name: string, pos: Pos, rotation: real)

  /** One pair of `Math.random()` draws for a candidate position. */
  datatype Draw = Draw(rx: real, ry: real)

  predicate IsRandom(r: real)
  {
    0.0 <= r < 1.0
  }

  /** `distance >= appSize + minSpacing`, compared on squares (both sides
      are non-negative, so this is the same test without the square root).
      A NaN position fails every comparison. */
  predicate FarEnough(p: Pos, x: real, y: real): (b: bool)
    ensures b ==> p.Point?
    ensures p.Point? && (p.x + AppSize + MinSpacing <= x || x + AppSize + MinSpacing <= p.x) ==> b
    ensures p.Point? && (p.y + AppSize + MinSpacing <= y || y + AppSize + MinSpacing <= p.y) ==> b
  {
    p.Point? && (x - p.x) * (x - p.x) + (y - p.y) * (y - p.y) >= (AppSize + MinSpacing) * (AppSize + MinSpacing)
  }

  /** `isPositionValid`: far enough from every position placed so far. With
      nothing placed every candidate is valid; a NaN among the placed
      positions makes every candidate invalid. */
  predicate IsPositionValid(positions: seq<Pos>, x: real, y: real): (b: bool)
    ensures positions == [] ==> b
    ensures b ==> forall i :: 0 <= i < |positions| ==> positions[i].Point?
  {
    forall i :: 0 <= i < |positions| ==> FarEnough(positions[i], x, y)
  }

  /** A random candidate inside the 20 px margin. */
  function Candidate(d: Draw, r: Rect): (p: Pos)
    requires IsRandom(d.rx) && IsRandom(d.ry)
    ensures p.Point?
    ensures r.width - AppSize - 40.0 >= 0.0 ==> 20.0 <= p.x <= r.width - AppSize - 20.0
    ensures r.height - AppSize - 40.0 >= 0.0 ==> 20.0 <= p.y <= r.height - AppSize - 20.0
  {
    var w := r.width - AppSize - 40.0;
    var h := r.height - AppSize - 40.0;
    assert w >= 0.0 ==> d.rx * w <= w;
    assert h >= 0.0 ==> d.ry * h <= h;
    Point(d.rx * w + 20.0, d.ry * h + 20.0)
  }

  predicate ValidDraws(ds: seq<Draw>)
  {
    forall i :: 0 <= i < |ds| ==> IsRandom(ds[i].rx) && IsRandom(ds[i].ry)
  }

  /** `Math.floor(a / b)` for an integer quotient. */
  function FloorDiv(a: int, b: int): (q: int)
    requires b != 0
    ensures b > 0 ==> q * b <= a < q * b + b
    ensures b < 0 ==> q * b >= a > q * b + b
  {
    if b > 0 then a / b
    else
      var m := -b;
      var q := a / m;
      if a % m == 0 then -q else -q - 1
  }

  /** `a % b` for a non-negative dividend: the sign of the divisor does not
      matter to a truncating remainder. */
  function JsRem(a: nat, b: int): (r: nat)
    requires b != 0
    ensures r < (if b > 0 then b else -b)
    ensures b > 0 ==> r == a % b
  {
    a % (if b > 0 then b else -b)
  }

  /** `Math.floor((width - 40) / (appSize + minSpacing))`: the number of
      whole 68 px cells across the width left after the margins. */
  function Columns(width: real): (c: int)
    ensures (c as real) * (AppSize + MinSpacing) <= width - 40.0 < ((c + 1) as real) * (AppSize + MinSpacing)
    ensures c == 0 <==> 40.0 <= width < 40.0 + AppSize + MinSpacing
  {
    ((width - 40.0) / (AppSize + MinSpacing)).Floor
  }

  /** The grid fallback for app `index`. With no column the division by zero
      makes the position NaN. */
  function Grid(index: nat, width: real): (p: Pos)
    ensures Columns(width) == 0 <==> p == NotANumber
    ensures Columns(width) > 0 ==>
      p == Point(20.0 + ((index % Columns(width)) * Cell) as real, 20.0 + ((index / Columns(width)) * Cell) as real)
    ensures Columns(width) < 0 ==> p.Point? && p.y <= 20.0
    ensures Columns(width) < 0 ==>
      p == Point(20.0 + (JsRem(index, Columns(width)) * Cell) as real, 20.0 + (FloorDiv(index, Columns(width)) * Cell) as real)
  {
    var cols := Columns(width);
    if cols == 0 then NotANumber
    else
      var row := FloorDiv(index, cols);
      var col := JsRem(index, cols);
      Point(20.0 + (col * Cell) as real, 20.0 + (row * Cell) as real)
  }

  /** With at least one column, distinct apps get grid cells at least 68 px
      apart in x or in y. */
  lemma GridDistinct(i: nat, j: nat, width: real)
    requires i != j && Columns(width) > 0
    ensures Grid(i, width).Point? && Grid(j, width).Point?
    ensures var a := Grid(i, width); var b := Grid(j, width);
      (a.x - b.x >= Cell as real || b.x - a.x >= Cell as real) ||
      (a.y - b.y >= Cell as real || b.y - a.y >= Cell as real)
  {
    var c := Columns(width);
    var ri, ci, rj, cj := i / c, i % c, j / c, j % c;
    assert i == ri * c + ci && j == rj * c + cj;
    if ri == rj {
      assert ci != cj;
      if ci < cj {
        assert (cj * Cell) - (ci * Cell) == (cj - ci) * Cell;
      } else {
        assert (ci * Cell) - (cj * Cell) == (ci - cj) * Cell;
      }
    } else if ri < rj {
      assert (rj * Cell) - (ri * Cell) == (rj - ri) * Cell;
    } else {
      assert (ri * Cell) - (rj * Cell) == (ri - rj) * Cell;
    }
  }

  /** The index of the first of the draws whose candidate is valid. */
  function FirstValid(positions: seq<Pos>, ds: seq<Draw>, r: Rect): (k: Option<nat>)
    requires ValidDraws(ds)
    ensures k.Some? ==> k.value < |ds| && IsPositionValid(positions, Candidate(ds[k.value], r).x, Candidate(ds[k.value], r).y)
    ensures k.Some? ==> forall j :: 0 <= j < k.value ==> !IsPositionValid(positions, Candidate(ds[j], r).x, Candidate(ds[j], r).y)
    ensures k.None? ==> forall j :: 0 <= j < |ds| ==> !IsPositionValid(positions, Candidate(ds[j], r).x, Candidate(ds[j], r).y)
    decreases |ds|
  {
    if ds == [] then None
    else
      var c := Candidate(ds[0], r);
      if IsPositionValid(positions, c.x, c.y) then Some(0)
      else match FirstValid(positions, ds[1..], r)
        case None => None
        case Some(k) => Some(k + 1)
  }

  /** Where app `index` lands: the first valid candidate among the first 49;
      otherwise the grid (the 50th attempt leaves `attempts` at 50, so the
      grid is used even when the 50th candidate is valid). */
  function Placement(positions: seq<Pos>, ds: seq<Draw>, index: nat, r: Rect): (p: Pos)
    requires |ds| == MaxAttempts && ValidDraws(ds)
    ensures p == Grid(index, r.width) || (p.Point? && IsPositionValid(positions, p.x, p.y))
  {
    match FirstValid(positions, ds[..MaxAttempts - 1], r)
    case Some(k) => Candidate(ds[k], r)
    case None => Grid(index, r.width)
  }

  /** One app's do-while retry loop followed by the grid check. */
  method Place(positions: seq<Pos>, ds: seq<Draw>, index: nat, r: Rect) returns (p: Pos, attempts: nat)
    requires |ds| == MaxAttempts && ValidDraws(ds)
    ensures p == Placement(positions, ds, index, r)
    ensures 1 <= attempts <= MaxAttempts
    ensures attempts == match FirstValid(positions, ds, r) case Some(k) => k + 1 case None => MaxAttempts
  {
    attempts := 0;
    p := Candidate(ds[attempts], r);
    attempts := attempts + 1;
    while !IsPositionValid(positions, p.x, p.y) && attempts < MaxAttempts
      invariant 1 <= attempts <= MaxAttempts
      invariant p == Candidate(ds[attempts - 1], r)
      invariant forall j :: 0 <= j < attempts - 1 ==> !IsPositionValid(positions, Candidate(ds[j], r).x, Candidate(ds[j], r).y)
      decreases MaxAttempts - attempts
    {
      p := Candidate(ds[attempts], r);
      attempts := attempts + 1;
    }
    var early := FirstValid(positions, ds[..MaxAttempts - 1], r);
    assert forall j :: 0 <= j < MaxAttempts - 1 ==> ds[..MaxAttempts - 1][j] == ds[j];
    if attempts >= MaxAttempts {
      p := Grid(index, r.width);
    }
  }

  /** The grid is used exactly when the retry loop used all 50 attempts,
      including the case where only the 50th candidate is valid. */
  lemma {:induction false} PlacementByAttempts(positions: seq<Pos>, ds: seq<Draw>, index: nat, r: Rect)
    requires |ds| == MaxAttempts && ValidDraws(ds)
    ensures var k := FirstValid(positions, ds, r);
      Placement(positions, ds, index, r) ==
        if k.Some? && k.value < MaxAttempts - 1 then Candidate(ds[k.value], r) else Grid(index, r.width)
  {
    var early := FirstValid(positions, ds[..MaxAttempts - 1], r);
    assert forall j :: 0 <= j < MaxAttempts - 1 ==> ds[..MaxAttempts - 1][j] == ds[j];
  }

  /** The random draws for one app: its 50 candidates and its rotation. */
  datatype AppDraws = AppDraws(candidates: seq<Draw>, spin: real)

  predicate ValidAppDraws(ds: seq<AppDraws>)
  {
    forall i :: 0 <= i < |ds| ==> |ds[i].candidates| == MaxAttempts && ValidDraws(ds[i].candidates) && IsRandom(ds[i].spin)
  }

  /** `(Math.random() - 0.5) * 10`: between -5 and +5 degrees. */
  function Rotation(spin: real): (deg: real)
    requires IsRandom(spin)
    ensures -5.0 <= deg < 5.0
  {
    (spin - 0.5) * 10.0
  }

  /** The positions of the first k apps, each placed against the earlier ones. */
  function Positions(ds: seq<AppDraws>, k: nat, r: Rect): (ps: seq<Pos>)
    requires k <= |ds| && ValidAppDraws(ds)
    ensures |ps| == k
    decreases k
  {
    if k == 0 then []
    else
      var prev := Positions(ds, k - 1, r);
      prev + [Placement(prev, ds[k - 1].candidates, k - 1, r)]
  }

  lemma PositionsNext(ds: seq<AppDraws>, k: nat, r: Rect)
    requires k < |ds| && ValidAppDraws(ds)
    ensures |ds[k].candidates| == MaxAttempts && ValidDraws(ds[k].candidates)
    ensures Positions(ds, k + 1, r) == Positions(ds, k, r) + [Placement(Positions(ds, k, r), ds[k].candidates, k, r)]
  {
  }

  /** Every app not put on the grid is at least 68 px from every app placed
      before it. */
  lemma {:induction false} PositionsSpaced(ds: seq<AppDraws>, k: nat, r: Rect)
    requires k <= |ds| && ValidAppDraws(ds)
    ensures var ps := Positions(ds, k, r);
      forall j :: 0 <= j < k ==> ps[j] == Grid(j, r.width) || (ps[j].Point? && IsPositionValid(ps[..j], ps[j].x, ps[j].y))
    decreases k
  {
    if k > 0 {
      PositionsSpaced(ds, k - 1, r);
      var prev := Positions(ds, k - 1, r);
      var ps := Positions(ds, k, r);
      assert ps[..k - 1] == prev;
      forall j | 0 <= j < k - 1 ensures ps[..j] == prev[..j] && ps[j] == prev[j] { }
    }
  }

  /** The apps as `initializeApps` sets them. */
  function Layout(ds: seq<AppDraws>, r: Rect): (apps: seq<App>)
    requires |ds| == |DesignApps| && ValidAppDraws(ds)
    ensures |apps| == |DesignApps|
    ensures forall i :: 0 <= i < |apps| ==> apps[i].id == DesignApps[i].id && apps[i].name == DesignApps[i].name
    ensures forall i :: 0 <= i < |apps| ==> apps[i].pos == Positions(ds, |DesignApps|, r)[i] && -5.0 <= apps[i].rotation < 5.0
  {
    var ps := Positions(ds, |DesignApps|, r);
    seq(|DesignApps|, i requires 0 <= i < |DesignApps| => MakeApp(ds, i, ps[i]))
  }

  /** The object returned for app i of `designApps`. */
  function MakeApp(ds: seq<AppDraws>, i: nat, p: Pos): (a: App)
    requires i < |DesignApps| && i < |ds| && ValidAppDraws(ds)
    ensures a.id == DesignApps[i].id && a.name == DesignApps[i].name && a.pos == p && -5.0 <= a.rotation < 5.0
  {
    App(DesignApps[i].id, DesignApps[i].name, p, Rotation(ds[i].spin))
  }

  /** `designApps.map(...)`, pushing each app's position for the next. */
  method PlaceApps(ds: seq<AppDraws>, r: Rect) returns (placed: seq<App>)
    requires |ds| == |DesignApps| && ValidAppDraws(ds)
    ensures placed == Layout(ds, r)
  {
    var positions: seq<Pos> := [];
    placed := [];
    for index := 0 to |DesignApps|
      invariant positions == Positions(ds, index, r)
      invariant |placed| == index
      invariant forall i :: 0 <= i < index ==> placed[i] == MakeApp(ds, i, positions[i])
    {
      var p, _ := Place(positions, ds[index].candidates, index, r);
      PositionsNext(ds, index, r);
      var app := MakeApp(ds, index, p);
      forall i | 0 <= i <= index
        ensures (placed + [app])[i] == MakeApp(ds, i, (positions + [p])[i])
      {
        if i < index {
          assert (placed + [app])[i] == placed[i] && (positions + [p])[i] == positions[i];
        } else {
          assert (placed + [app])[i] == app && (positions + [p])[i] == p;
        }
      }
      positions := positions + [p];
      placed := placed + [app];
    }
    var layout := Layout(ds, r);
    assert forall i :: 0 <= i < |DesignApps| ==> placed[i] == layout[i];
  }

  /** `Math.max(0, Math.min(v, extent - 48))`. */
  function Clamp(v: real, extent: real): (c: real)
    ensures c >= 0.0
    ensures extent >= AppSize ==> c <= extent - AppSize
    ensures 0.0 <= v <= extent - AppSize ==> c == v
    ensures v <= 0.0 ==> c == 0.0
  {
    var m := if v <= extent - AppSize then v else extent - AppSize;
    if m >= 0.0 then m else 0.0
  }

  /** The `setApps(prev => prev.map(...))` of the animation frame. */
  function MoveApp(apps: seq<App>, id: string, to: Pos): (r: seq<App>)
    ensures |r| == |apps|
    ensures forall i :: 0 <= i < |apps| ==> r[i].id == apps[i].id && r[i].name == apps[i].name && r[i].rotation == apps[i].rotation
    ensures forall i :: 0 <= i < |apps| ==> r[i].pos == (if apps[i].id == id then to else apps[i].pos)
  {
    seq(|apps|, i requires 0 <= i < |apps| => if apps[i].id == id then apps[i].(pos := to) else apps[i])
  }

  /** Two frames for the same app: the later position wins. */
  lemma MoveAppTwice(apps: seq<App>, id: string, p: Pos, q: Pos)
    ensures MoveApp(MoveApp(apps, id, p), id, q) == MoveApp(apps, id, q)
  {
    var a := MoveApp(MoveApp(apps, id, p), id, q);
    var b := MoveApp(apps, id, q);
    assert forall i :: 0 <= i < |a| ==> a[i] == b[i];
  }

  /** The design apps have distinct ids, so a move changes exactly one app. */
  lemma MoveAppChangesOne(ds: seq<AppDraws>, r: Rect, k: nat, to: Pos)
    requires |ds| == |DesignApps| && ValidAppDraws(ds) && k < |DesignApps|
    ensures var apps := Layout(ds, r); var moved := MoveApp(apps, DesignApps[k].id, to);
      moved[k].pos == to && forall i :: 0 <= i < |apps| && i != k ==> moved[i] == apps[i]
  {
    var apps := Layout(ds, r);
    var moved := MoveApp(apps, DesignApps[k].id, to);
    forall i | 0 <= i < |apps| && i != k ensures moved[i] == apps[i] {
      assert DesignApps[i].id != DesignApps[k].id by {
        assert DesignApps[i].id[..2] != DesignApps[k].id[..2] || DesignApps[i].id[2] != DesignApps[k].id[2];
      }
    }
  }

  /** The state of the component: `apps`, `draggedApp`, `dragOffset`, the
      `dragStateRef` position and the pending animation frame, which
      remembers the id its closure captured. */
  datatype State = State(apps: seq<App>, draggedApp: Option<string>, dragOffset: Offset, dragState: Option<Pos>, frame: Option<string>)

  /** Where inside the icon the pointer grabbed it; always two numbers,
      since `handleMouseDown` stores one before any move reads it. */
  datatype Offset = Offset(x: real, y: real)

  const Initial: State := State([], None, Offset(0.0, 0.0), None, None)

  ghost predicate Inv(s: State)
  {
    && (s.frame.Some? ==> s.dragState.Some?)
    && (s.draggedApp.None? ==> s.frame.None?)
    && (s.apps == [] || (|s.apps| == |DesignApps| && forall i :: 0 <= i < |s.apps| ==> s.apps[i].id == DesignApps[i].id))
  }

  /** The placement timeout; with no container it does nothing. */
  function Initialize(s: State, container: Option<Rect>, ds: seq<AppDraws>): (t: State)
    requires |ds| == |DesignApps| && ValidAppDraws(ds)
    ensures container.None? ==> t == s
    ensures container.Some? ==> t == s.(apps := Layout(ds, container.value))
    ensures Inv(s) ==> Inv(t)
  {
    if container.None? then s else s.(apps := Layout(ds, container.value))
  }

  /** `handleMouseDown`: the app and where in it the pointer grabbed. */
  function MouseDown(s: State, id: string, clientX: real, clientY: real, target: Rect): (t: State)
    ensures t.draggedApp == Some(id) && t.dragOffset == Offset(clientX - target.left, clientY - target.top)
    ensures t.apps == s.apps && t.dragState == s.dragState && t.frame == s.frame
    ensures Inv(s) ==> Inv(t)
  {
    s.(draggedApp := Some(id), dragOffset := Offset(clientX - target.left, clientY - target.top))
  }

  /** `handleMouseMove`: with an app dragged and the container present, the
      clamped position is stored and a new frame replaces the pending one. */
  function MouseMove(s: State, container: Option<Rect>, clientX: real, clientY: real): (t: State)
    ensures s.draggedApp.None? || container.None? ==> t == s
    ensures t.apps == s.apps && t.draggedApp == s.draggedApp && t.dragOffset == s.dragOffset
    ensures s.draggedApp.Some? && container.Some? ==> var c := container.value;
      && t.frame == s.draggedApp
      && t.dragState == Some(Point(Clamp(clientX - c.left - s.dragOffset.x, c.width), Clamp(clientY - c.top - s.dragOffset.y, c.height)))
    ensures s.draggedApp.Some? && container.Some? ==> var c := container.value; var p := t.dragState.value;
      0.0 <= p.x && 0.0 <= p.y &&
      (c.width >= AppSize ==> p.x <= c.width - AppSize) && (c.height >= AppSize ==> p.y <= c.height - AppSize)
    ensures Inv(s) ==> Inv(t)
  {
    if s.draggedApp.None? || container.None? then s
    else
      var c := container.value;
      var newX := clientX - c.left - s.dragOffset.x;
      var newY := clientY - c.top - s.dragOffset.y;
      s.(dragState := Some(Point(Clamp(newX, c.width), Clamp(newY, c.height))), frame := s.draggedApp)
  }

  /** The animation frame runs: the app it captured moves to the latest
      stored position. */
  function Frame(s: State): (t: State)
    requires s.frame.Some?
    ensures t.frame.None? && t.draggedApp == s.draggedApp && t.dragState == s.dragState
    ensures t.apps == (if s.dragState.Some? then MoveApp(s.apps, s.frame.value, s.dragState.value) else s.apps)
    ensures Inv(s) ==> Inv(t)
  {
    var apps := if s.dragState.Some? then MoveApp(s.apps, s.frame.value, s.dragState.value) else s.apps;
    s.(apps := apps, frame := None)
  }

  /** `handleMouseUp`: the drag ends and the pending frame is cancelled. */
  function MouseUp(s: State): (t: State)
    ensures t.draggedApp.None? && t.dragState.None? && t.frame.None?
    ensures t.apps == s.apps && t.dragOffset == s.dragOffset
    ensures Inv(s) ==> Inv(t)
  {
    s.(draggedApp := None, dragState := None, frame := None)
  }

  /** After the mouse is released no pending frame can move an app. */
  lemma NoMoveAfterRelease(s: State, container: Option<Rect>, x: real, y: real)
    ensures MouseMove(MouseUp(s), container, x, y) == MouseUp(s)
  {
  }

  /** The mounted component. */
  class Desk {
    var apps: seq<App>
    var draggedApp: Option<string>
    var dragOffset: Offset
    var dragState: Option<Pos>
    var frame: Option<string>

    function Snapshot(): State
      reads this
    {
      State(apps, draggedApp, dragOffset, dragState, frame)
    }

    ghost predicate Valid()
      reads this
    {
      Inv(Snapshot())
    }

    constructor ()
      ensures Snapshot() == Initial && Valid()
    {
      apps, draggedApp, dragOffset, dragState, frame := [], None, Offset(0.0, 0.0), None, None;
    }

    /** `initializeApps`; with no container it returns at once. */
    method InitializeApps(container: Option<Rect>, ds: seq<AppDraws>)
      requires Valid() && |ds| == |DesignApps| && ValidAppDraws(ds)
      modifies this
      ensures Valid() && Snapshot() == Initialize(old(Snapshot()), container, ds)
    {
      if container.None? {
        return;
      }
      var placed := PlaceApps(ds, container.value);
      apps := placed;
    }

    method HandleMouseDown(id: string, clientX: real, clientY: real, target: Rect)
      requires Valid()
      modifies this
      ensures Valid() && Snapshot() == MouseDown(old(Snapshot()), id, clientX, clientY, target)
    {
      draggedApp := Some(id);
      dragOffset := Offset(clientX - target.left, clientY - target.top);
    }

    method HandleMouseMove(container: Option<Rect>, clientX: real, clientY: real)
      requires Valid()
      modifies this
      ensures Valid() && Snapshot() == MouseMove(old(Snapshot()), container, clientX, clientY)
    {
      if draggedApp.None? || container.None? {
        return;
      }
      var c := container.value;
      var newX := clientX - c.left - dragOffset.x;
      var newY := clientY - c.top - dragOffset.y;
      dragState := Some(Point(Clamp(newX, c.width), Clamp(newY, c.height)));
      frame := draggedApp;
    }

    method OnAnimationFrame()
      requires Valid() && frame.Some?
      modifies this
      ensures Valid() && Snapshot() == Frame(old(Snapshot()))
    {
      if dragState.Some? {
        apps := MoveApp(apps, frame.value, dragState.value);
      }
      frame := None;
    }

    method HandleMouseUp()
      requires Valid()
      modifies this
      ensures Valid() && Snapshot() == MouseUp(old(Snapshot()))
    {
      draggedApp := None;
      dragState := None;
      frame := None;
    }
  }
}
