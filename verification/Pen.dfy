/**
  The drawing pen: it records what is drawn in a log that holds only the settings that have changed, and the log is
  painted later. What the log means is what drawing at once would have done.
 */
module Pens {

  // ---- values; what the toolkit computes with them is kept symbolic ----

  datatype Transform =
    | Identity | Translated(of: Transform, x: real, y: real) | Scaled(of: Transform, x: real, y: real)
    | Sheared(of: Transform, x: real, y: real) | Rotated(of: Transform, angle: real)
    | Times(left: Transform, right: Transform) | Given(name: nat)

  datatype Line = NoPen | Line(color: nat, width: real)

  datatype Brush = NoBrush | Brush(color: nat)

  /** The font that the painter comes with, or one that has been set. */
  datatype Font = PaintersFont | Font(name: nat)

  datatype Point = Point(x: real, y: real)

  datatype Rect = Rect(corner: Point, size: Point)

  datatype PathElement =
    | MoveTo(to: Point) | LineTo(to: Point) | CubicTo(c1: Point, c2: Point, to: Point) | QuadTo(c: Point, to: Point)
    | AddRect(rect: Rect) | AddEllipse(rect: Rect) | AddWedge(center: Point, radius: real, start: real, sweep: real)
    | AddAnnularWedge(center: Point, inner: real, outer: real, start: real, sweep: real)

  type Path = seq<PathElement>

  datatype Settings = Settings(transform: Transform, pen: Line, brush: Brush, font: Font, antiAliasing: bool)

  /** Which settings have changed since they were last written to the log. */
  datatype Flags = Flags(transform: bool, pen: bool, brush: bool, font: bool, antiAliasing: bool)

  const CLEAN := Flags(false, false, false, false, false)

  datatype Environment = Environment(settings: Settings, flags: Flags)

  const DEFAULTS := Settings(Identity, Line(0, 0.0), NoBrush, PaintersFont, false)

  // ---- the painter ----

  datatype ClipPath = Unclipped | ClipTo(path: Path, under: Transform)

  datatype Ink = Ink(transform: Transform, pen: Line, brush: Brush, font: Font, antiAliasing: bool, clip: ClipPath)

  datatype Mark =
    | Shape(path: Path, ink: Ink) | TextAt(point: Point, text: string, ink: Ink) | TextIn(rect: Rect, text: string, ink: Ink)

  datatype Drawing = Drawing(ink: Ink, saved: seq<Ink>, canvas: seq<Mark>)

  datatype Action = FillAndStroke | Fill | Stroke | Clip | StringAtPoint | StringInRect | Save | Restore

  function Styled(action: Action, ink: Ink): Ink {
    match action
    case Fill => ink.(pen := NoPen)
    case Stroke => ink.(brush := NoBrush)
    case _ => ink
  }

  function StyleAction(style: int): Action {
    if style == 0 || style == 1 then Fill else if style == 2 then Stroke else FillAndStroke
  }

  // ---- drawing at once ----

  datatype Change =
    | FillColor(color: nat) | StrokeColor(color: nat) | Width(width: real) | SetFont(name: nat) | AntiAliasing(on: bool)
    | Translate(x: real, y: real) | Scale(x: real, y: real) | Shear(x: real, y: real)
    | Rotate(angle: real, x: real, y: real) | SetTransform(transform: Transform)

  datatype Command =
    | Set(change: Change) | AddToPath(element: PathElement) | ClearPath | DoSave | DoRestore | Draw(style: int) | DoClip
    | DrawTextAt(point: Point, text: string) | DrawTextIn(rect: Rect, text: string)

  /** The settings after a change; the width or the color of a pen keeps the rest of the pen. */
  function Changed(s: Settings, c: Change): Settings {
    match c
    case FillColor(color) => s.(brush := Brush(color))
    case StrokeColor(color) => s.(pen := Line(color, if s.pen.Line? then s.pen.width else 0.0))
    case Width(width) => s.(pen := Line(if s.pen.Line? then s.pen.color else 0, width))
    case SetFont(name) => s.(font := Font(name))
    case AntiAliasing(on) => s.(antiAliasing := on)
    case Translate(x, y) => s.(transform := Translated(s.transform, x, y))
    case Scale(x, y) => s.(transform := Scaled(s.transform, x, y))
    case Shear(x, y) => s.(transform := Sheared(s.transform, x, y))
    case Rotate(angle, x, y) => s.(transform := Translated(Rotated(Translated(s.transform, x, y), angle), -x, -y))
    case SetTransform(transform) => s.(transform := transform)
  }

  function ChangedFlags(c: Change): Flags {
    match c
    case FillColor(_) => CLEAN.(brush := true)
    case StrokeColor(_) => CLEAN.(pen := true)
    case Width(_) => CLEAN.(pen := true)
    case SetFont(_) => CLEAN.(font := true)
    case AntiAliasing(_) => CLEAN.(antiAliasing := true)
    case _ => CLEAN.(transform := true)
  }

  function Both(f: Flags, g: Flags): Flags {
    Flags(f.transform || g.transform, f.pen || g.pen, f.brush || g.brush, f.font || g.font,
          f.antiAliasing || g.antiAliasing)
  }

  /** A transform on top of a base; the identity makes no difference. */
  function Under(t: Transform, base: Transform): Transform { if t.Identity? then base else Times(t, base) }

  /** Gives a painter the settings that are flagged, but for the font; transforms are relative to a base. */
  function Apply(base: Transform, s: Settings, f: Flags, ink: Ink): Ink {
    Ink(if f.transform then Under(s.transform, base) else ink.transform,
        if f.pen then s.pen else ink.pen,
        if f.brush then s.brush else ink.brush,
        ink.font,
        if f.antiAliasing then s.antiAliasing else ink.antiAliasing,
        ink.clip)
  }

  /** The painter after a setting has been given to it at once. */
  function Shown(base: Transform, s: Settings, c: Change, ink: Ink): Ink {
    match c
    case FillColor(_) => ink.(brush := s.brush)
    case StrokeColor(_) => ink.(pen := s.pen)
    case Width(_) => ink.(pen := s.pen)
    case SetFont(_) => ink.(font := s.font)
    case AntiAliasing(_) => ink.(antiAliasing := s.antiAliasing)
    case Translate(_, _) => ink.(transform := Under(s.transform, base))
    case Scale(_, _) => ink.(transform := Under(s.transform, base))
    case Shear(_, _) => ink.(transform := Under(s.transform, base))
    case Rotate(_, _, _) => ink.(transform := Under(s.transform, base))
    case SetTransform(_) => ink.(transform := Under(s.transform, base))
  }

  /** A pen that draws at once: every change goes to the painter, and saving saves both. */
  datatype Direct = Direct(settings: Settings, path: Path, saved: seq<Settings>, drawing: Drawing)

  function Marked(d: Direct, m: Mark): Direct { d.(drawing := d.drawing.(canvas := d.drawing.canvas + [m])) }

  function Do(base: Transform, d: Direct, c: Command): Direct {
    var g := d.drawing;
    match c
    case Set(change) =>
      var s := Changed(d.settings, change);
      d.(settings := s, drawing := g.(ink := Shown(base, s, change, g.ink)))
    case AddToPath(element) => d.(path := d.path + [element])
    case ClearPath => d.(path := [])
    case DoSave => d.(saved := d.saved + [d.settings], drawing := g.(saved := g.saved + [g.ink]))
    case DoRestore =>
      if d.saved == [] || g.saved == [] then d
      else
        var n, m := |d.saved| - 1, |g.saved| - 1;
        d.(settings := d.saved[n], saved := d.saved[..n], drawing := g.(ink := g.saved[m], saved := g.saved[..m]))
    case Draw(style) => Marked(d, Shape(d.path, Styled(StyleAction(style), g.ink))).(path := [])
    case DoClip => d.(drawing := g.(ink := g.ink.(clip := ClipTo(d.path, g.ink.transform))))
    case DrawTextAt(point, text) => Marked(d, TextAt(point, text, g.ink))
    case DrawTextIn(rect, text) => Marked(d, TextIn(rect, text, g.ink))
  }

  /** The painter at the start: any settings, under the base transform. */
  datatype Start = Start(base: Transform, ink: Ink)

  function Opened(s: Start): Drawing { Drawing(s.ink.(transform := s.base), [], []) }

  function DirectRun(s: Start, history: seq<Command>): Direct {
    if history == [] then Direct(DEFAULTS, [], [], Opened(s))
    else Do(s.base, DirectRun(s, history[..|history| - 1]), history[|history| - 1])
  }

  // ---- drawing with the whole environment each time ----

  /** A pen without a painter: every mark is made under all the settings there are. */
  datatype Full = Full(settings: Settings, clip: ClipPath, path: Path, saved: seq<(Settings, ClipPath)>, canvas: seq<Mark>)

  function FullInk(start: Start, s: Settings, clip: ClipPath): Ink {
    var font := if s.font.PaintersFont? then start.ink.font else s.font;
    Ink(Under(s.transform, start.base), s.pen, s.brush, font, s.antiAliasing, clip)
  }

  function FullDo(start: Start, f: Full, c: Command): Full {
    var ink := FullInk(start, f.settings, f.clip);
    match c
    case Set(change) => f.(settings := Changed(f.settings, change))
    case AddToPath(element) => f.(path := f.path + [element])
    case ClearPath => f.(path := [])
    case DoSave => f.(saved := f.saved + [(f.settings, f.clip)])
    case DoRestore =>
      if f.saved == [] then f
      else
        var n := |f.saved| - 1;
        f.(settings := f.saved[n].0, clip := f.saved[n].1, saved := f.saved[..n])
    case Draw(style) => f.(canvas := f.canvas + [Shape(f.path, Styled(StyleAction(style), ink))], path := [])
    case DoClip => f.(clip := ClipTo(f.path, ink.transform))
    case DrawTextAt(point, text) => f.(canvas := f.canvas + [TextAt(point, text, ink)])
    case DrawTextIn(rect, text) => f.(canvas := f.canvas + [TextIn(rect, text, ink)])
  }

  function FullRun(start: Start, history: seq<Command>): Full {
    if history == [] then Full(DEFAULTS, start.ink.clip, [], [], [])
    else FullDo(start, FullRun(start, history[..|history| - 1]), history[|history| - 1])
  }

  /** A painter that has the settings of a new pen. */
  predicate AtDefaults(ink: Ink) {
    ink.pen == DEFAULTS.pen && ink.brush == DEFAULTS.brush && ink.antiAliasing == DEFAULTS.antiAliasing
  }

  /** The painter, and every saved state of it, has the whole environment. */
  ghost predicate IsFull(start: Start, d: Direct, f: Full) {
    && d.settings == f.settings && d.path == f.path && d.drawing.canvas == f.canvas
    && d.drawing.ink == FullInk(start, f.settings, f.clip)
    && |d.saved| == |d.drawing.saved| == |f.saved|
    && forall k :: 0 <= k < |f.saved| ==>
         d.saved[k] == f.saved[k].0 && d.drawing.saved[k] == FullInk(start, f.saved[k].0, f.saved[k].1)
  }

  /** Giving each change to the painter at once keeps the whole environment in it. */
  lemma {:induction false} DirectIsFull(s: Start, history: seq<Command>)
    requires AtDefaults(s.ink)
    ensures IsFull(s, DirectRun(s, history), FullRun(s, history))
  {
    if history != [] {
      var before := history[..|history| - 1];
      DirectIsFull(s, before);
      FullStep(s, DirectRun(s, before), FullRun(s, before), history[|history| - 1]);
    }
  }

  lemma FullStep(start: Start, d: Direct, f: Full, c: Command)
    requires IsFull(start, d, f)
    ensures IsFull(start, Do(start.base, d, c), FullDo(start, f, c))
  {
    match c
    case Set(change) => FullSet(start, f.settings, f.clip, change);
    case _ =>
  }

  lemma FullSet(start: Start, s: Settings, clip: ClipPath, c: Change)
    ensures Shown(start.base, Changed(s, c), c, FullInk(start, s, clip)) == FullInk(start, Changed(s, c), clip)
  {
  }

  // ---- what the settings mean ----

  /** What the toolkit makes of turning a point about the origin, and of transforms that are given to it. */
  datatype Meaning = Meaning(turned: (real, Point) -> Point, given: (nat, Point) -> Point)

  function Plus(p: Point, q: Point): Point { Point(p.x + q.x, p.y + q.y) }

  function Stretched(p: Point, x: real, y: real): Point { Point(p.x * x, p.y * y) }

  function Skewed(p: Point, x: real, y: real): Point { Point(p.x + p.y * x, p.y + p.x * y) }

  function Minus(p: Point, q: Point): Point { Point(p.x - q.x, p.y - q.y) }

  /** Where a transform takes a point. What was added last is applied first, and a transform before its base. */
  function Image(m: Meaning, t: Transform, p: Point): Point {
    match t
    case Identity => p
    case Translated(of, x, y) => Image(m, of, Point(p.x + x, p.y + y))
    case Scaled(of, x, y) => Image(m, of, Stretched(p, x, y))
    case Sheared(of, x, y) => Image(m, of, Skewed(p, x, y))
    case Rotated(of, angle) => Image(m, of, m.turned(angle, p))
    case Times(left, right) => Image(m, right, Image(m, left, p))
    case Given(name) => m.given(name, p)
  }

  lemma UnderMeans(m: Meaning, t: Transform, base: Transform, p: Point)
    ensures Image(m, Under(t, base), p) == Image(m, base, Image(m, t, p))
  {
  }

  /** A setter of the transform changes where points go to, as its name says, and no other setting. */
  lemma TransformMeans(m: Meaning, s: Settings, c: Change, p: Point)
    requires c.Translate? || c.Scale? || c.Shear? || c.Rotate? || c.SetTransform?
    ensures Changed(s, c).(transform := s.transform) == s
    ensures Image(m, Changed(s, c).transform, p)
         == if c.Translate? then Image(m, s.transform, Point(p.x + c.x, p.y + c.y))
            else if c.Scale? then Image(m, s.transform, Stretched(p, c.x, c.y))
            else if c.Shear? then Image(m, s.transform, Skewed(p, c.x, c.y))
            else if c.Rotate? then
              Image(m, s.transform, Plus(m.turned(c.angle, Minus(p, Point(c.x, c.y))), Point(c.x, c.y)))
            else Image(m, c.transform, p)
  {
    hide Stretched, Skewed;
    if c.Rotate? {
      var q := Minus(p, Point(c.x, c.y));
      var inner := Translated(s.transform, c.x, c.y);
      assert Image(m, Translated(Rotated(inner, c.angle), -c.x, -c.y), p)
          == Image(m, Rotated(inner, c.angle), Point(p.x + -c.x, p.y + -c.y));
      assert Point(p.x + -c.x, p.y + -c.y) == q;
      assert Image(m, Rotated(inner, c.angle), q) == Image(m, inner, m.turned(c.angle, q));
      assert Image(m, inner, m.turned(c.angle, q)) == Image(m, s.transform, Plus(m.turned(c.angle, q), Point(c.x, c.y)));
    }
  }

  /** Turning about a point leaves that point where it was, whatever the angle. */
  lemma CenterStays(m: Meaning, s: Settings, angle: real, center: Point)
    requires m.turned(angle, Point(0.0, 0.0)) == Point(0.0, 0.0)
    ensures Image(m, Changed(s, Rotate(angle, center.x, center.y)).transform, center) == Image(m, s.transform, center)
  {
    TransformMeans(m, s, Rotate(angle, center.x, center.y), center);
    assert Minus(center, center) == Point(0.0, 0.0) && Plus(Point(0.0, 0.0), center) == center;
  }

  /** Every other setter changes the one setting that it is named after. */
  lemma SetterMeans(s: Settings, c: Change)
    ensures var s' := Changed(s, c);
            match c
            case FillColor(color) => s'.brush == Brush(color) && s'.(brush := s.brush) == s
            case StrokeColor(color) =>
              s'.pen.Line? && s'.pen.color == color && s'.pen.width == (if s.pen.Line? then s.pen.width else 0.0)
              && s'.(pen := s.pen) == s
            case Width(width) =>
              s'.pen.Line? && s'.pen.width == width && s'.pen.color == (if s.pen.Line? then s.pen.color else 0)
              && s'.(pen := s.pen) == s
            case SetFont(name) => s'.font == Font(name) && s'.(font := s.font) == s
            case AntiAliasing(on) => s'.antiAliasing == on && s'.(antiAliasing := s.antiAliasing) == s
            case _ => true
  {
  }

  /** Styles 0 and 1 fill a path without its outline, style 2 draws the outline alone, and all others do both. */
  lemma StyleMeans(base: Transform, d: Direct, style: int)
    ensures var d' := Do(base, d, Draw(style));
            && |d'.drawing.canvas| == |d.drawing.canvas| + 1 && d'.path == []
            && var mark := d'.drawing.canvas[|d.drawing.canvas|];
               && mark.Shape? && mark.path == d.path
               && mark.ink.pen == (if style == 0 || style == 1 then NoPen else d.drawing.ink.pen)
               && mark.ink.brush == (if style == 2 then NoBrush else d.drawing.ink.brush)
               && mark.ink.(pen := d.drawing.ink.pen, brush := d.drawing.ink.brush) == d.drawing.ink
  {
  }

  // ---- the log ----

  datatype Datum =
    | ActionD(action: Action) | FlagsD(flags: Flags) | TransformD(transform: Transform) | PenD(pen: Line)
    | BrushD(brush: Brush) | BoolD(b: bool) | PathD(path: Path) | PointD(point: Point) | RectD(rect: Rect)
    | StringD(text: string)

  function If(flagged: bool, datum: Datum): seq<Datum> { if flagged then [datum] else [] }

  /** The flags, and then the settings that they flag, but for the font. */
  function EnvironmentData(e: Environment): seq<Datum> {
    var f, s := e.flags, e.settings;
    [FlagsD(f)] + (If(f.transform, TransformD(s.transform)) + (If(f.pen, PenD(s.pen))
    + (If(f.brush, BrushD(s.brush)) + If(f.antiAliasing, BoolD(s.antiAliasing)))))
  }

  datatype Read<T> = Got(value: T, rest: seq<Datum>) | Bad

  predicate SameKind(a: Datum, b: Datum) {
    || (a.TransformD? && b.TransformD?) || (a.PenD? && b.PenD?) || (a.BrushD? && b.BrushD?) || (a.BoolD? && b.BoolD?)
  }

  /** Reads a value of some kind if it is flagged. */
  function ReadIf(flagged: bool, like: Datum, s: seq<Datum>): (r: Read<Datum>)
    requires SameKind(like, like)
    ensures r.Got? ==> SameKind(r.value, like) && |r.rest| <= |s|
  {
    if !flagged then Got(like, s)
    else if s != [] && SameKind(s[0], like) then Got(s[0], s[1..])
    else Bad
  }

  function ReadEnvironment(s: seq<Datum>): (r: Read<Environment>)
    ensures r.Got? ==> |r.rest| < |s|
  {
    if s == [] || !s[0].FlagsD? then Bad
    else
      var f := s[0].flags;
      var t := ReadIf(f.transform, TransformD(DEFAULTS.transform), s[1..]);
      if t.Bad? then Bad else
      var p := ReadIf(f.pen, PenD(DEFAULTS.pen), t.rest);
      if p.Bad? then Bad else
      var b := ReadIf(f.brush, BrushD(DEFAULTS.brush), p.rest);
      if b.Bad? then Bad else
      var a := ReadIf(f.antiAliasing, BoolD(DEFAULTS.antiAliasing), b.rest);
      if a.Bad? then Bad
      else Got(Environment(Settings(t.value.transform, p.value.pen, b.value.brush, DEFAULTS.font, a.value.b), f), a.rest)
  }

  lemma ReadIfBack(flagged: bool, datum: Datum, like: Datum, rest: seq<Datum>)
    requires SameKind(datum, like) && SameKind(like, like)
    ensures ReadIf(flagged, like, If(flagged, datum) + rest) == Got(if flagged then datum else like, rest)
  {
    assert If(false, datum) + rest == rest;
  }

  lemma ReadIfAlone(flagged: bool, like: Datum, s: seq<Datum>, more: seq<Datum>)
    requires SameKind(like, like) && ReadIf(flagged, like, s).Got?
    ensures var r := ReadIf(flagged, like, s); ReadIf(flagged, like, s + more) == Got(r.value, r.rest + more)
  {
    assert flagged ==> (s + more)[1..] == s[1..] + more;
  }

  lemma Regroup(a: seq<Datum>, b: seq<Datum>, c: seq<Datum>, d: seq<Datum>, e: seq<Datum>)
    ensures (a + (b + (c + d))) + e == a + (b + (c + (d + e)))
  {
    assert (c + d) + e == c + (d + e);
    assert (b + (c + d)) + e == b + ((c + d) + e);
    assert (a + (b + (c + d))) + e == a + ((b + (c + d)) + e);
  }

  /** What is read is what was written, as far as it is flagged. */
  lemma EnvironmentReadBack(e: Environment, rest: seq<Datum>)
    ensures var r := ReadEnvironment(EnvironmentData(e) + rest);
            && r.Got? && r.rest == rest && r.value.flags == e.flags
            && forall base, ink :: Apply(base, r.value.settings, e.flags, ink) == Apply(base, e.settings, e.flags, ink)
  {
    hide If, ReadIf;
    var f, s := e.flags, e.settings;
    var d := If(f.antiAliasing, BoolD(s.antiAliasing)) + rest;
    var c := If(f.brush, BrushD(s.brush)) + d;
    var b := If(f.pen, PenD(s.pen)) + c;
    Regroup(If(f.transform, TransformD(s.transform)), If(f.pen, PenD(s.pen)), If(f.brush, BrushD(s.brush)),
            If(f.antiAliasing, BoolD(s.antiAliasing)), rest);
    assert (EnvironmentData(e) + rest)[1..] == EnvironmentData(e)[1..] + rest;
    ReadIfBack(f.transform, TransformD(s.transform), TransformD(DEFAULTS.transform), b);
    ReadIfBack(f.pen, PenD(s.pen), PenD(DEFAULTS.pen), c);
    ReadIfBack(f.brush, BrushD(s.brush), BrushD(DEFAULTS.brush), d);
    ReadIfBack(f.antiAliasing, BoolD(s.antiAliasing), BoolD(DEFAULTS.antiAliasing), rest);
  }

  /** Whatever follows an environment does not change how it is read. */
  lemma EnvironmentAlone(s: seq<Datum>, more: seq<Datum>)
    requires ReadEnvironment(s).Got?
    ensures var r := ReadEnvironment(s); ReadEnvironment(s + more) == Got(r.value, r.rest + more)
  {
    hide ReadIf;
    var f := s[0].flags;
    assert (s + more)[1..] == s[1..] + more;
    var t := ReadIf(f.transform, TransformD(DEFAULTS.transform), s[1..]);
    ReadIfAlone(f.transform, TransformD(DEFAULTS.transform), s[1..], more);
    var p := ReadIf(f.pen, PenD(DEFAULTS.pen), t.rest);
    ReadIfAlone(f.pen, PenD(DEFAULTS.pen), t.rest, more);
    var b := ReadIf(f.brush, BrushD(DEFAULTS.brush), p.rest);
    ReadIfAlone(f.brush, BrushD(DEFAULTS.brush), p.rest, more);
    ReadIfAlone(f.antiAliasing, BoolD(DEFAULTS.antiAliasing), b.rest, more);
  }

  // ---- painting the log ----

  datatype Painted = Painted(drawing: Drawing, rest: seq<Datum>) | Aborted

  /** Paints what follows the environment of an entry. */
  function PaintRest(action: Action, s: seq<Datum>, d: Drawing): (p: Painted)
    requires !action.Restore? && !action.Clip?
    ensures p.Painted? ==> |p.rest| <= |s|
  {
    if action.Save? then Painted(d.(saved := d.saved + [d.ink]), s)
    else if action.StringAtPoint? then
      if |s| > 1 && s[0].PointD? && s[1].StringD?
      then Painted(d.(canvas := d.canvas + [TextAt(s[0].point, s[1].text, d.ink)]), s[2..]) else Aborted
    else if action.StringInRect? then
      if |s| > 1 && s[0].RectD? && s[1].StringD?
      then Painted(d.(canvas := d.canvas + [TextIn(s[0].rect, s[1].text, d.ink)]), s[2..]) else Aborted
    else if |s| > 0 && s[0].PathD?
    then Painted(d.(canvas := d.canvas + [Shape(s[0].path, Styled(action, d.ink))]), s[1..]) else Aborted
  }

  /** Paints one entry of the log. */
  function PaintEntry(base: Transform, s: seq<Datum>, d: Drawing): (p: Painted)
    requires s != []
    ensures p.Painted? ==> |p.rest| < |s|
  {
    if !s[0].ActionD? then Aborted
    else if s[0].action.Restore? then
      if d.saved == [] then Painted(d, s[1..])
      else Painted(d.(ink := d.saved[|d.saved| - 1], saved := d.saved[..|d.saved| - 1]), s[1..])
    else if s[0].action.Clip? then
      if |s| > 1 && s[1].PathD?
      then Painted(d.(ink := d.ink.(clip := ClipTo(s[1].path, d.ink.transform))), s[2..]) else Aborted
    else
      var e := ReadEnvironment(s[1..]);
      if e.Bad? then Aborted
      else PaintRest(s[0].action, e.rest, d.(ink := Apply(base, e.value.settings, e.value.flags, d.ink)))
  }

  /** Paints a whole log. */
  function PaintAll(base: Transform, s: seq<Datum>, d: Drawing): Painted
    decreases |s|
  {
    if s == [] then Painted(d, [])
    else
      var p := PaintEntry(base, s, d);
      if p.Aborted? then Aborted else PaintAll(base, p.rest, p.drawing)
  }

  /** Whatever follows an entry does not change how it is painted. */
  lemma EntryAlone(base: Transform, s: seq<Datum>, more: seq<Datum>, d: Drawing)
    requires s != [] && PaintEntry(base, s, d).Painted?
    ensures var p := PaintEntry(base, s, d); PaintEntry(base, s + more, d) == Painted(p.drawing, p.rest + more)
  {
    hide ReadEnvironment, PaintRest, Apply;
    assert (s + more)[1..] == s[1..] + more;
    if s[0].action.Clip? {
      assert (s + more)[2..] == s[2..] + more;
    } else if !s[0].action.Restore? {
      EnvironmentAlone(s[1..], more);
      var e := ReadEnvironment(s[1..]);
      RestAlone(s[0].action, e.rest, more, d.(ink := Apply(base, e.value.settings, e.value.flags, d.ink)));
    }
  }

  lemma RestAlone(action: Action, s: seq<Datum>, more: seq<Datum>, d: Drawing)
    requires !action.Restore? && !action.Clip? && PaintRest(action, s, d).Painted?
    ensures var p := PaintRest(action, s, d); PaintRest(action, s + more, d) == Painted(p.drawing, p.rest + more)
  {
    assert |s| > 1 ==> (s + more)[2..] == s[2..] + more;
    assert |s| > 0 ==> (s + more)[1..] == s[1..] + more;
  }

  /** A log can be painted up to some point, and then on. */
  lemma {:induction false} PaintOn(base: Transform, s: seq<Datum>, more: seq<Datum>, d: Drawing)
    requires PaintAll(base, s, d).Painted?
    ensures PaintAll(base, s + more, d) == PaintAll(base, more, PaintAll(base, s, d).drawing)
    decreases |s|
  {
    if s == [] {
      assert s + more == more;
    } else {
      var p := PaintEntry(base, s, d);
      EntryAlone(base, s, more, d);
      PaintOn(base, p.rest, more, p.drawing);
    }
  }

  // ---- the log means what drawing at once does ----

  /** The same ink, as far as clips are looked at; fonts are looked at below. */
  predicate SameInk(clips: bool, a: Ink, b: Ink) {
    a.(clip := b.clip, font := b.font) == b && (clips ==> a.clip == b.clip)
  }

  predicate SameMark(clips: bool, a: Mark, b: Mark) {
    match a
    case Shape(path, ink) => b.Shape? && path == b.path && SameInk(clips, ink, b.ink)
    case TextAt(point, text, ink) => b.TextAt? && point == b.point && text == b.text && SameInk(clips, ink, b.ink)
    case TextIn(rect, text, ink) => b.TextIn? && rect == b.rect && text == b.text && SameInk(clips, ink, b.ink)
  }

  predicate SameMarks(clips: bool, a: seq<Mark>, b: seq<Mark>) {
    |a| == |b| && forall k :: 0 <= k < |a| ==> SameMark(clips, a[k], b[k])
  }

  predicate SameInks(clips: bool, a: seq<Ink>, b: seq<Ink>) {
    |a| == |b| && forall k :: 0 <= k < |a| ==> SameInk(clips, a[k], b[k])
  }

  /** What a pen holds: its settings, path, saved environments and log. */
  datatype Record = Record(env: Environment, path: Path, envs: seq<Environment>, score: seq<Datum>)

  /**
    The painter, after the log and with the settings that are still flagged, is where drawing at once would be; and so
    is every saved state.
   */
  ghost predicate Faithful(clips: bool, r: Record, history: seq<Command>, start: Start) {
    var p, d := PaintAll(start.base, r.score, Opened(start)), DirectRun(start, history);
    p.Painted? && Matches(clips, start.base, r, p.drawing, d)
  }

  ghost predicate Matches(clips: bool, base: Transform, r: Record, p: Drawing, d: Direct) {
    && d.settings == r.env.settings && d.path == r.path
    && SameMarks(clips, p.canvas, d.drawing.canvas) && SameInks(clips, p.saved, d.drawing.saved)
    && SameInk(clips, Apply(base, r.env.settings, r.env.flags, p.ink), d.drawing.ink)
    && |r.envs| == |d.saved| == |p.saved|
    && forall k :: 0 <= k < |r.envs| ==> r.envs[k].flags == CLEAN && r.envs[k].settings == d.saved[k]
  }

  function Flushed(e: Environment): Environment { e.(flags := CLEAN) }

  /** What a command adds to the log. */
  function Entry(r: Record, c: Command): seq<Datum> {
    match c
    case DoSave => [ActionD(Save)] + EnvironmentData(r.env)
    case DoRestore => if r.envs == [] then [] else [ActionD(Restore)]
    case Draw(style) => [ActionD(StyleAction(style))] + EnvironmentData(r.env) + [PathD(r.path)]
    case DoClip => [ActionD(Clip), PathD(r.path)]
    case DrawTextAt(point, text) => [ActionD(StringAtPoint)] + EnvironmentData(r.env) + [PointD(point), StringD(text)]
    case DrawTextIn(rect, text) => [ActionD(StringInRect)] + EnvironmentData(r.env) + [RectD(rect), StringD(text)]
    case _ => []
  }

  /** What a pen holds after a command. */
  function Recorded(r: Record, c: Command): Record {
    var score := r.score + Entry(r, c);
    match c
    case Set(change) =>
      r.(env := Environment(Changed(r.env.settings, change), Both(r.env.flags, ChangedFlags(change))), score := score)
    case AddToPath(element) => r.(path := r.path + [element], score := score)
    case ClearPath => r.(path := [], score := score)
    case DoSave => Record(Flushed(r.env), r.path, r.envs + [Flushed(r.env)], score)
    case DoRestore =>
      if r.envs == [] then r.(score := score)
      else r.(env := r.envs[|r.envs| - 1], envs := r.envs[..|r.envs| - 1], score := score)
    case Draw(_) => r.(env := Flushed(r.env), path := [], score := score)
    case DoClip => r.(score := score)
    case DrawTextAt(_, _) => r.(env := Flushed(r.env), score := score)
    case DrawTextIn(_, _) => r.(env := Flushed(r.env), score := score)
  }

  /** How an entry that begins with the environment is painted. */
  lemma PaintedEntry(base: Transform, action: Action, e: Environment, rest: seq<Datum>, d: Drawing)
    requires !action.Restore? && !action.Clip?
    ensures var now := d.(ink := Apply(base, e.settings, e.flags, d.ink));
            PaintEntry(base, [ActionD(action)] + EnvironmentData(e) + rest, d) == PaintRest(action, rest, now)
  {
    var s := [ActionD(action)] + EnvironmentData(e) + rest;
    assert s[1..] == EnvironmentData(e) + rest;
    EnvironmentReadBack(e, rest);
  }

  /** A log of one entry. */
  lemma PaintOne(base: Transform, s: seq<Datum>, d: Drawing)
    requires s != [] && PaintEntry(base, s, d).Painted? && |PaintEntry(base, s, d).rest| == 0
    ensures PaintAll(base, s, d) == Painted(PaintEntry(base, s, d).drawing, [])
  {
    assert PaintEntry(base, s, d).rest == [];
  }

  /** `c` is painted as it would have been drawn at once. */
  ghost predicate Keeps(clips: bool, base: Transform, r: Record, p: Drawing, d: Direct, c: Command) {
    var q := PaintAll(base, Entry(r, c), p);
    q.Painted? && Matches(clips, base, Recorded(r, c), q.drawing, Do(base, d, c))
  }

  /** Flagging a changed setting for later comes to the same as showing it at once. */
  lemma FlaggedIsShown(clips: bool, base: Transform, s: Settings, f: Flags, c: Change, ink: Ink, shown: Ink)
    requires SameInk(clips, Apply(base, s, f, ink), shown)
    ensures SameInk(clips, Apply(base, Changed(s, c), Both(f, ChangedFlags(c)), ink), Shown(base, Changed(s, c), c, shown))
  {
  }

  lemma SetMatches(clips: bool, base: Transform, r: Record, p: Drawing, d: Direct, change: Change)
    requires Matches(clips, base, r, p, d)
    ensures Keeps(clips, base, r, p, d, Set(change))
  {
    hide SameMarks, SameInks, SameInk, Apply, Shown, Changed, ChangedFlags, Both;
    FlaggedIsShown(clips, base, r.env.settings, r.env.flags, change, p.ink, d.drawing.ink);
  }

  lemma PathMatches(clips: bool, base: Transform, r: Record, p: Drawing, d: Direct, c: Command)
    requires Matches(clips, base, r, p, d) && (c.AddToPath? || c.ClearPath?)
    ensures Keeps(clips, base, r, p, d, c)
  {
    hide SameMarks, SameInks, SameInk, Apply;
  }

  lemma SaveMatches(clips: bool, base: Transform, r: Record, p: Drawing, d: Direct)
    requires Matches(clips, base, r, p, d)
    ensures Keeps(clips, base, r, p, d, DoSave)
  {
    hide EnvironmentData, SameMarks;
    PaintedEntry(base, Save, r.env, [], p);
    assert [ActionD(Save)] + EnvironmentData(r.env) + [] == Entry(r, DoSave);
    PaintOne(base, Entry(r, DoSave), p);
  }

  lemma RestoreMatches(clips: bool, base: Transform, r: Record, p: Drawing, d: Direct)
    requires Matches(clips, base, r, p, d)
    ensures Keeps(clips, base, r, p, d, DoRestore)
  {
    hide SameMarks;
    if r.envs != [] { PaintOne(base, Entry(r, DoRestore), p); }
  }

  lemma ClipMatches(clips: bool, base: Transform, r: Record, p: Drawing, d: Direct)
    requires Matches(clips, base, r, p, d)
    requires clips ==> !r.env.flags.transform
    ensures Keeps(clips, base, r, p, d, DoClip)
  {
    hide SameMarks, SameInks;
    PaintOne(base, Entry(r, DoClip), p);
  }

  lemma SameMarksGrow(clips: bool, a: seq<Mark>, b: seq<Mark>, m: Mark, n: Mark)
    requires SameMarks(clips, a, b) && SameMark(clips, m, n)
    ensures SameMarks(clips, a + [m], b + [n])
  {
  }

  lemma DrawMatches(clips: bool, base: Transform, r: Record, p: Drawing, d: Direct, style: int)
    requires Matches(clips, base, r, p, d)
    ensures Keeps(clips, base, r, p, d, Draw(style))
  {
    hide EnvironmentData, SameInks, SameMarks, PaintEntry;
    PaintedEntry(base, StyleAction(style), r.env, [PathD(r.path)], p);
    PaintOne(base, Entry(r, Draw(style)), p);
    var ink, ink' := Apply(base, r.env.settings, r.env.flags, p.ink), d.drawing.ink;
    SameMarksGrow(clips, p.canvas, d.drawing.canvas, Shape(r.path, Styled(StyleAction(style), ink)),
                  Shape(r.path, Styled(StyleAction(style), ink')));
  }

  lemma TextAtMatches(clips: bool, base: Transform, r: Record, p: Drawing, d: Direct, point: Point, text: string)
    requires Matches(clips, base, r, p, d)
    ensures Keeps(clips, base, r, p, d, DrawTextAt(point, text))
  {
    hide EnvironmentData, SameInks, SameMarks, PaintEntry;
    var rest := [PointD(point), StringD(text)];
    PaintedEntry(base, StringAtPoint, r.env, rest, p);
    assert rest[0] == PointD(point) && rest[1] == StringD(text);
    PaintOne(base, Entry(r, DrawTextAt(point, text)), p);
    var ink, ink' := Apply(base, r.env.settings, r.env.flags, p.ink), d.drawing.ink;
    SameMarksGrow(clips, p.canvas, d.drawing.canvas, TextAt(point, text, ink), TextAt(point, text, ink'));
  }

  lemma TextInMatches(clips: bool, base: Transform, r: Record, p: Drawing, d: Direct, rect: Rect, text: string)
    requires Matches(clips, base, r, p, d)
    ensures Keeps(clips, base, r, p, d, DrawTextIn(rect, text))
  {
    hide EnvironmentData, SameInks, SameMarks, PaintEntry;
    var rest := [RectD(rect), StringD(text)];
    PaintedEntry(base, StringInRect, r.env, rest, p);
    assert rest[0] == RectD(rect) && rest[1] == StringD(text);
    PaintOne(base, Entry(r, DrawTextIn(rect, text)), p);
    var ink, ink' := Apply(base, r.env.settings, r.env.flags, p.ink), d.drawing.ink;
    SameMarksGrow(clips, p.canvas, d.drawing.canvas, TextIn(rect, text, ink), TextIn(rect, text, ink'));
  }

  /** Painting what a command adds keeps the painter where drawing at once goes. */
  lemma EntryMatches(clips: bool, base: Transform, r: Record, p: Drawing, d: Direct, c: Command)
    requires Matches(clips, base, r, p, d)
    requires clips && c.DoClip? ==> !r.env.flags.transform
    ensures Keeps(clips, base, r, p, d, c)
  {
    hide Matches, Keeps;
    match c
    case DoSave => SaveMatches(clips, base, r, p, d);
    case DoRestore => RestoreMatches(clips, base, r, p, d);
    case DoClip => ClipMatches(clips, base, r, p, d);
    case Draw(style) => DrawMatches(clips, base, r, p, d, style);
    case DrawTextAt(point, text) => TextAtMatches(clips, base, r, p, d, point, text);
    case DrawTextIn(rect, text) => TextInMatches(clips, base, r, p, d, rect, text);
    case Set(change) => SetMatches(clips, base, r, p, d, change);
    case AddToPath(_) => PathMatches(clips, base, r, p, d, c);
    case ClearPath => PathMatches(clips, base, r, p, d, c);
  }

  lemma RecordingOn(clips: bool, r: Record, history: seq<Command>, start: Start, c: Command)
    requires Faithful(clips, r, history, start)
    requires clips && c.DoClip? ==> !r.env.flags.transform
    ensures Faithful(clips, Recorded(r, c), history + [c], start)
  {
    hide Matches;
    var p, d := PaintAll(start.base, r.score, Opened(start)), DirectRun(start, history);
    EntryMatches(clips, start.base, r, p.drawing, d, c);
    PaintOn(start.base, r.score, Entry(r, c), Opened(start));
    assert (history + [c])[..|history|] == history;
    assert Recorded(r, c).score == r.score + Entry(r, c);
  }

  /**
    A clip is painted under the transform of the last entry: it is what drawing at once would have clipped to just
    when no changed transform is waiting, or the one that waits is the one that the painter has.
   */
  lemma ClipIsExact(r: Record, history: seq<Command>, start: Start)
    requires Faithful(true, r, history, start)
    ensures PaintAll(start.base, r.score, Opened(start)).Painted?
    ensures Faithful(true, Recorded(r, DoClip), history + [DoClip], start)
            <==> !r.env.flags.transform
                 || Under(r.env.settings.transform, start.base)
                    == PaintAll(start.base, r.score, Opened(start)).drawing.ink.transform
  {
    hide Matches, DirectRun, Recorded, Under, Do;
    var p, d := PaintAll(start.base, r.score, Opened(start)), DirectRun(start, history);
    var entry := Entry(r, DoClip);
    PaintOne(start.base, entry, p.drawing);
    PaintOn(start.base, r.score, entry, Opened(start));
    RecordedScore(r, DoClip);
    DirectOn(start, history, DoClip);
    ClipMatchesExactly(start.base, r, p.drawing, d);
  }

  lemma RecordedScore(r: Record, c: Command)
    ensures Recorded(r, c).score == r.score + Entry(r, c)
  {
  }

  lemma DirectOn(start: Start, history: seq<Command>, c: Command)
    ensures DirectRun(start, history + [c]) == Do(start.base, DirectRun(start, history), c)
  {
    assert (history + [c])[..|history|] == history;
  }

  lemma ClipMatchesExactly(base: Transform, r: Record, p: Drawing, d: Direct)
    requires Matches(true, base, r, p, d)
    ensures Matches(true, base, Recorded(r, DoClip), p.(ink := p.ink.(clip := ClipTo(r.path, p.ink.transform))),
                    Do(base, d, DoClip))
            <==> !r.env.flags.transform || Under(r.env.settings.transform, base) == p.ink.transform
  {
    hide SameMarks, SameInks, Under;
  }

  /** A clip made right after setting a transform is painted under the base transform alone. */
  lemma ClipAfterTransform(start: Start, t: Transform)
    ensures var change := Set(SetTransform(t));
            Faithful(true, Recorded(Recorded(BLANK, change), DoClip), [change, DoClip], start)
            <==> Under(t, start.base) == start.base
  {
    hide Faithful, Under, DirectRun, Recorded, Entry;
    var change := Set(SetTransform(t));
    var r := Recorded(BLANK, change);
    assert [change] + [DoClip] == [change, DoClip];
    TransformSet(start, t);
    ClipIsExact(r, [change], start);
  }

  lemma TransformSet(start: Start, t: Transform)
    ensures var change := Set(SetTransform(t));
            var r := Recorded(BLANK, change);
            && Faithful(true, r, [change], start)
            && r.score == [] && r.env.flags.transform && r.env.settings.transform == t
  {
    hide Under;
    var change := Set(SetTransform(t));
    assert [change][..0] == [];
    assert DirectRun(start, [change]) == Do(start.base, DirectRun(start, []), change);
    assert Recorded(BLANK, change).score == [];
  }

  // ---- fonts: flagged, but never logged ----

  /** Every text is in this font. */
  ghost predicate InFont(marks: seq<Mark>, font: Font) {
    forall k :: 0 <= k < |marks| ==> marks[k].Shape? || marks[k].ink.font == font
  }

  /** Texts at the same place in both are in the same font. */
  ghost predicate SameFonts(a: seq<Mark>, b: seq<Mark>) {
    |a| == |b| && forall k :: 0 <= k < |a| ==> a[k].Shape? || a[k].ink.font == b[k].ink.font
  }

  ghost predicate OneFont(d: Drawing, font: Font) {
    d.ink.font == font && InFont(d.canvas, font) && forall k :: 0 <= k < |d.saved| ==> d.saved[k].font == font
  }

  /** Painting a log never changes the font. */
  lemma {:induction false} PaintedInOneFont(base: Transform, s: seq<Datum>, d: Drawing, font: Font)
    requires OneFont(d, font)
    ensures PaintAll(base, s, d).Painted? ==> OneFont(PaintAll(base, s, d).drawing, font)
    decreases |s|
  {
    hide PaintEntry;
    if s != [] && PaintEntry(base, s, d).Painted? {
      EntryInOneFont(base, s, d, font);
      PaintedInOneFont(base, PaintEntry(base, s, d).rest, PaintEntry(base, s, d).drawing, font);
    }
  }

  lemma EntryInOneFont(base: Transform, s: seq<Datum>, d: Drawing, font: Font)
    requires OneFont(d, font) && s != [] && PaintEntry(base, s, d).Painted?
    ensures OneFont(PaintEntry(base, s, d).drawing, font)
  {
    hide ReadEnvironment;
  }

  /** What is painted has the fonts that drawing at once would have used just when all texts use the painter's own. */
  lemma FontsAgree(clips: bool, r: Record, history: seq<Command>, start: Start)
    requires Faithful(clips, r, history, start)
    ensures PaintAll(start.base, r.score, Opened(start)).Painted?
    ensures var marks := DirectRun(start, history).drawing.canvas;
            SameFonts(PaintAll(start.base, r.score, Opened(start)).drawing.canvas, marks)
            <==> InFont(marks, start.ink.font)
  {
    hide PaintAll, DirectRun;
    PaintedInOneFont(start.base, r.score, Opened(start), start.ink.font);
    var p, d := PaintAll(start.base, r.score, Opened(start)).drawing.canvas, DirectRun(start, history).drawing.canvas;
    assert forall k :: 0 <= k < |p| ==> SameMark(clips, p[k], d[k]);
  }

  /** All texts are in the painter's own font just when each is drawn while that is the font. */
  lemma {:induction false} TextByText(start: Start, history: seq<Command>)
    ensures InFont(DirectRun(start, history).drawing.canvas, start.ink.font)
            <==> forall k :: 0 <= k < |history| && (history[k].DrawTextAt? || history[k].DrawTextIn?) ==>
                   DirectRun(start, history[..k]).drawing.ink.font == start.ink.font
  {
    if history != [] {
      var before, c := history[..|history| - 1], history[|history| - 1];
      TextByText(start, before);
      assert forall k :: 0 <= k < |before| ==> before[..k] == history[..k] && before[k] == history[k];
      OneMoreText(start.base, DirectRun(start, before), c, start.ink.font);
    }
  }

  lemma OneMoreText(base: Transform, d: Direct, c: Command, font: Font)
    ensures InFont(Do(base, d, c).drawing.canvas, font)
            <==> InFont(d.drawing.canvas, font) && (c.DrawTextAt? || c.DrawTextIn? ==> d.drawing.ink.font == font)
  {
    var marks, marks' := d.drawing.canvas, Do(base, d, c).drawing.canvas;
    assert marks'[..|marks|] == marks;
    assert forall k :: 0 <= k < |marks| ==> marks'[k] == marks[k];
    assert |marks'| > |marks| ==> marks'[|marks|].Shape? || marks'[|marks|].ink == d.drawing.ink;
  }

  /** A text drawn right after setting a font is painted in that font just when it is the painter's own. */
  lemma TextAfterFont(start: Start, name: nat, point: Point, text: string)
    ensures var change, draw := Set(SetFont(name)), DrawTextAt(point, text);
            var p := PaintAll(start.base, Recorded(Recorded(BLANK, change), draw).score, Opened(start));
            && p.Painted?
            && (SameFonts(p.drawing.canvas, DirectRun(start, [change, draw]).drawing.canvas)
                <==> start.ink.font == Font(name))
  {
    hide PaintAll, Recorded, Entry, SameFonts, InFont, Matches;
    var change, draw := Set(SetFont(name)), DrawTextAt(point, text);
    var r := Recorded(BLANK, change);
    NothingRecorded(start);
    RecordingOn(false, BLANK, [], start, change);
    RecordingOn(false, r, [change], start, draw);
    assert [] + [change] == [change] && [change] + [draw] == [change, draw];
    FontsAgree(false, Recorded(r, draw), [change, draw], start);
    DirectOn(start, [], change);
    DirectOn(start, [change], draw);
    OneMoreText(start.base, DirectRun(start, [change]), draw, start.ink.font);
    NoMarks(DirectRun(start, [change]).drawing.canvas, start.ink.font);
  }

  lemma NoMarks(marks: seq<Mark>, font: Font)
    ensures marks == [] ==> InFont(marks, font)
  {
  }

  lemma NothingRecorded(start: Start)
    ensures Faithful(false, BLANK, [], start)
  {
  }

  /** A pen that has just been reset, with an empty log. */
  const BLANK := Record(Environment(DEFAULTS, CLEAN), [], [], [])

  // ---- the pen and the painter ----

  class Painter {
    var ink: Ink
    var saved: seq<Ink>
    var canvas: seq<Mark>

    constructor (ink: Ink)
      ensures Drawn() == Drawing(ink, [], [])
    {
      this.ink, saved, canvas := ink, [], [];
    }

    function Drawn(): Drawing
      reads this
    {
      Drawing(ink, saved, canvas)
    }

    method Save()
      modifies `saved
      ensures saved == old(saved) + [ink]
    {
      saved := saved + [ink];
    }

    method Restore()
      modifies `saved, `ink
      ensures old(saved) == [] ==> saved == [] && ink == old(ink)
      ensures old(saved) != [] ==> old(saved) == saved + [ink]
    {
      if saved != [] {
        ink := saved[|saved| - 1];
        saved := saved[..|saved| - 1];
      }
    }

    method DrawPath(path: Path)
      modifies `canvas
      ensures canvas == old(canvas) + [Shape(path, ink)]
    {
      canvas := canvas + [Shape(path, ink)];
    }
  }

  class Pen {
    var env: Environment
    var path: Path
    var envs: seq<Environment>
    var score: seq<Datum>
    var baseTransform: Transform

    /** The calls so far, and whether a clip was made while a changed transform was not in the log yet. */
    ghost var history: seq<Command>
    ghost var staleClip: bool

    ghost function Contents(): Record
      reads this
    {
      Record(env, path, envs, score)
    }

    /** The log means what drawing at once would have done, for every painter; for clips unless one was stale. */
    ghost predicate Valid()
      reads this
    {
      && (forall start :: Faithful(false, Contents(), history, start))
      && (!staleClip ==> forall start :: Faithful(true, Contents(), history, start))
    }

    constructor (baseTransform: Transform)
      ensures Valid() && history == [] && !staleClip && this.baseTransform == baseTransform
      ensures env.settings == Settings(Identity, Line(0, 0.0), NoBrush, PaintersFont, false)
    {
      env, path, envs, score := Environment(DEFAULTS, CLEAN), [], [], [];
      this.baseTransform := baseTransform;
      history, staleClip := [], false;
    }

    /** What every call does to the ghost state, once its effect on the pen is known. */
    ghost method Did(r: Record, c: Command)
      requires forall start :: Faithful(false, r, history, start)
      requires !staleClip ==> forall start :: Faithful(true, r, history, start)
      requires Contents() == Recorded(r, c)
      modifies `history, `staleClip
      ensures Valid() && history == old(history) + [c]
      ensures staleClip == (old(staleClip) || (c.DoClip? && r.env.flags.transform))
    {
      hide Faithful, Recorded;
      forall start {
        RecordingOn(false, r, history, start, c);
      }
      if !staleClip && !(c.DoClip? && r.env.flags.transform) {
        forall start {
          RecordingOn(true, r, history, start, c);
        }
      }
      staleClip := staleClip || (c.DoClip? && r.env.flags.transform);
      history := history + [c];
    }

    /** A setter: assigns a setting and flags it. */
    method Set(change: Change)
      requires Valid()
      modifies `env, `history, `staleClip
      ensures Valid() && history == old(history) + [Command.Set(change)] && staleClip == old(staleClip)
      ensures Contents() == Recorded(old(Contents()), Command.Set(change))
    {
      hide Faithful;
      ghost var r := Contents();
      env := Environment(Changed(env.settings, change), Both(env.flags, ChangedFlags(change)));
      assert Contents() == Recorded(r, Command.Set(change));
      Did(r, Command.Set(change));
    }

    method Add(element: PathElement)
      requires Valid()
      modifies `path, `history, `staleClip
      ensures Valid() && history == old(history) + [AddToPath(element)] && staleClip == old(staleClip)
      ensures Contents() == Recorded(old(Contents()), AddToPath(element))
    {
      hide Faithful;
      ghost var r := Contents();
      path := path + [element];
      assert Contents() == Recorded(r, AddToPath(element));
      Did(r, AddToPath(element));
    }

    method Clear()
      requires Valid()
      modifies `path, `history, `staleClip
      ensures Valid() && history == old(history) + [ClearPath] && staleClip == old(staleClip)
      ensures Contents() == Recorded(old(Contents()), ClearPath)
    {
      hide Faithful;
      ghost var r := Contents();
      path := [];
      assert Contents() == Recorded(r, ClearPath);
      Did(r, ClearPath);
    }

    /** Writes the environment, after which nothing is flagged. */
    method WriteEnvironment()
      modifies `score, `env
      ensures score == old(score) + EnvironmentData(old(env)) && env == Flushed(old(env))
    {
      score := score + EnvironmentData(env);
      env := env.(flags := CLEAN);
    }

    method Save()
      requires Valid()
      modifies `score, `env, `envs, `history, `staleClip
      ensures Valid() && history == old(history) + [DoSave] && staleClip == old(staleClip)
      ensures Contents() == Recorded(old(Contents()), DoSave)
    {
      hide Faithful, EnvironmentData;
      ghost var r := Contents();
      score := score + [ActionD(Action.Save)];
      WriteEnvironment();
      envs := envs + [env];
      assert score == r.score + Entry(r, DoSave);
      Did(r, DoSave);
    }

    method Restore()
      requires Valid()
      modifies `score, `env, `envs, `history, `staleClip
      ensures Valid() && history == old(history) + [DoRestore] && staleClip == old(staleClip)
      ensures Contents() == Recorded(old(Contents()), DoRestore)
    {
      hide Faithful;
      ghost var r := Contents();
      if |envs| > 0 {
        score := score + [ActionD(Action.Restore)];
        env := envs[|envs| - 1];
        envs := envs[..|envs| - 1];
      }
      assert score == r.score + Entry(r, DoRestore);
      Did(r, DoRestore);
    }

    method Draw(style: int)
      requires Valid()
      modifies `score, `env, `path, `history, `staleClip
      ensures Valid() && history == old(history) + [Command.Draw(style)] && staleClip == old(staleClip)
      ensures Contents() == Recorded(old(Contents()), Command.Draw(style))
    {
      hide Faithful, EnvironmentData;
      ghost var r := Contents();
      var action: Action;
      match style {
        case 0 => action := Fill;
        case 1 => action := Fill;
        case 2 => action := Stroke;
        case _ => action := FillAndStroke;
      }
      score := score + [ActionD(action)];
      WriteEnvironment();
      score := score + [PathD(path)];
      path := [];
      assert score == r.score + Entry(r, Command.Draw(style));
      Did(r, Command.Draw(style));
    }

    /** The clip is written without the environment, so a changed transform is not in the log yet. */
    method Clip()
      requires Valid()
      modifies `score, `history, `staleClip
      ensures Valid() && history == old(history) + [DoClip]
      ensures staleClip == (old(staleClip) || env.flags.transform)
      ensures Contents() == Recorded(old(Contents()), DoClip)
    {
      hide Faithful;
      ghost var r := Contents();
      score := score + [ActionD(Action.Clip)];
      score := score + [PathD(path)];
      assert score == r.score + Entry(r, DoClip);
      Did(r, DoClip);
    }

    method StringAtPoint(point: Point, text: string)
      requires Valid()
      modifies `score, `env, `history, `staleClip
      ensures Valid() && history == old(history) + [DrawTextAt(point, text)] && staleClip == old(staleClip)
      ensures Contents() == Recorded(old(Contents()), DrawTextAt(point, text))
    {
      hide Faithful, EnvironmentData;
      ghost var r := Contents();
      score := score + [ActionD(Action.StringAtPoint)];
      WriteEnvironment();
      score := score + [PointD(point), StringD(text)];
      assert score == r.score + Entry(r, DrawTextAt(point, text));
      Did(r, DrawTextAt(point, text));
    }

    method StringInRect(rect: Rect, text: string)
      requires Valid()
      modifies `score, `env, `history, `staleClip
      ensures Valid() && history == old(history) + [DrawTextIn(rect, text)] && staleClip == old(staleClip)
      ensures Contents() == Recorded(old(Contents()), DrawTextIn(rect, text))
    {
      hide Faithful, EnvironmentData;
      ghost var r := Contents();
      score := score + [ActionD(Action.StringInRect)];
      WriteEnvironment();
      score := score + [RectD(rect), StringD(text)];
      assert score == r.score + Entry(r, DrawTextIn(rect, text));
      Did(r, DrawTextIn(rect, text));
    }

    method ApplyEnvironment(p: Painter, e: Environment)
      modifies p`ink
      ensures p.ink == Apply(baseTransform, e.settings, e.flags, old(p.ink))
    {
      if e.flags.transform {
        p.ink := p.ink.(transform := Under(e.settings.transform, baseTransform));
      }
      if e.flags.pen {
        p.ink := p.ink.(pen := e.settings.pen);
      }
      if e.flags.brush {
        p.ink := p.ink.(brush := e.settings.brush);
      }
      if e.flags.antiAliasing {
        p.ink := p.ink.(antiAliasing := e.settings.antiAliasing);
      }
    }

    /** Draws a path with the painter's pen and brush, but for a style that does without one of them. */
    method DrawStyled(p: Painter, action: Action, path: Path)
      modifies p
      ensures p.ink == old(p.ink) && p.saved == old(p.saved)
      ensures p.canvas == old(p.canvas) + [Shape(path, Styled(action, p.ink))]
    {
      var pen, brush := p.ink.pen, p.ink.brush;
      if action.Fill? {
        p.ink := p.ink.(pen := NoPen);
      } else if action.Stroke? {
        p.ink := p.ink.(brush := NoBrush);
      }
      p.DrawPath(path);
      p.ink := p.ink.(pen := pen);
      p.ink := p.ink.(brush := brush);
    }

    /** Paints one entry, and says what is left of the log. */
    method PaintNext(p: Painter, stream: seq<Datum>) returns (rest: seq<Datum>)
      requires stream != [] && PaintEntry(baseTransform, stream, p.Drawn()).Painted?
      modifies p
      ensures Painted(p.Drawn(), rest) == PaintEntry(baseTransform, stream, old(p.Drawn()))
    {
      hide ReadEnvironment, Apply;
      var action := stream[0].action;
      rest := stream[1..];
      if action.Restore? {
        p.Restore();
      } else if action.Clip? {
        p.ink := p.ink.(clip := ClipTo(rest[0].path, p.ink.transform));
        rest := rest[1..];
      } else {
        var e := ReadEnvironment(rest);
        rest := e.rest;
        ApplyEnvironment(p, e.value);
        if action.Save? {
          p.Save();
        } else if action.StringAtPoint? {
          p.canvas := p.canvas + [TextAt(rest[0].point, rest[1].text, p.ink)];
          rest := rest[2..];
        } else if action.StringInRect? {
          p.canvas := p.canvas + [TextIn(rest[0].rect, rest[1].text, p.ink)];
          rest := rest[2..];
        } else {
          DrawStyled(p, action, rest[0].path);
          rest := rest[1..];
        }
      }
    }

    /**
      Paints the log: the marks on the canvas are those that drawing at once would have made, under the same
      transforms, pens, brushes and antialiasing, and the same clips unless one was stale. If the painter starts with
      the settings of a new pen, each mark is under the whole environment at the time of its call. Texts are in the same
      fonts if and only if all of them would have been drawn in the font of the painter.
     */
    method Paint(p: Painter)
      requires Valid() && p.saved == [] && p.canvas == []
      modifies p
      ensures SameMarks(!staleClip, p.canvas, DirectRun(Start(baseTransform, old(p.ink)), history).drawing.canvas)
      ensures AtDefaults(old(p.ink)) ==>
                SameMarks(!staleClip, p.canvas, FullRun(Start(baseTransform, old(p.ink)), history).canvas)
      ensures var marks := DirectRun(Start(baseTransform, old(p.ink)), history).drawing.canvas;
              SameFonts(p.canvas, marks) <==> InFont(marks, old(p.ink.font))
    {
      hide Faithful, PaintEntry, SameMarks, SameFonts, InFont;
      ghost var start := Start(baseTransform, p.ink);
      PaintsTo(!staleClip, Contents(), history, start);
      FontsAgree(!staleClip, Contents(), history, start);
      if AtDefaults(p.ink) { DirectIsFull(start, history); }
      p.ink := p.ink.(transform := baseTransform);
      var stream := score;
      while stream != []
        invariant PaintAll(baseTransform, stream, p.Drawn()) == PaintAll(baseTransform, score, Opened(start))
        decreases |stream|
      {
        stream := PaintNext(p, stream);
      }
    }
  }

  lemma PaintsTo(clips: bool, r: Record, history: seq<Command>, start: Start)
    requires Faithful(clips, r, history, start)
    ensures var p := PaintAll(start.base, r.score, Opened(start));
            && p.Painted? && p.rest == []
            && SameMarks(clips, p.drawing.canvas, DirectRun(start, history).drawing.canvas)
  {
    PaintedToTheEnd(start.base, r.score, Opened(start));
  }

  lemma {:induction false} PaintedToTheEnd(base: Transform, s: seq<Datum>, d: Drawing)
    ensures PaintAll(base, s, d).Painted? ==> PaintAll(base, s, d).rest == []
    decreases |s|
  {
    if s != [] && PaintEntry(base, s, d).Painted? {
      PaintedToTheEnd(base, PaintEntry(base, s, d).rest, PaintEntry(base, s, d).drawing);
    }
  }
}
