/** The nested compositor's bookkeeping of toplevels, child toplevels and popups, and the event log
    that is all the cockpit ever sees of it. */
module SurfaceHost {
  import opened Bytes
  import opened ShmCopy
  import opened Wrappers

  // ------------------------------------------------------------------- data

  type Wl = nat
  type SurfaceId = nat
  type Text = Option<string>

  datatype Geometry = Geometry(x: int, y: int, width: nat, height: nat)

  /** A positioner's rectangle, as resolved by the toolkit; sizes may be zero or negative. */
  datatype Placement = Placement(x: int, y: int, width: int, height: int)

  /** What a commit attached to the surface. */
  datatype Attachment =
    | Nothing
    | Removed
    | DmabufBuffer(planes: nat, width: int, height: int, exportable: bool)
    | ShmBuffer(mem: seq<byte>, meta: BufferData)
    | Foreign

  datatype Frame = Shm(bitmap: Bitmap) | Dmabuf(width: nat, height: nat)

  datatype Toplevel = Toplevel(surface: Wl, announced: bool, lastTitle: Text, lastAppId: Text, childOf: Option<SurfaceId>)

  datatype Popup = Popup(surface: Wl, parent: SurfaceId, geometry: Geometry, announced: bool)

  datatype Kind = TopKind | ChildKind | PopupKind

  datatype HostEvent =
    | ToplevelCreated(id: SurfaceId, title: Text, appId: Text)
    | ToplevelTitleChanged(id: SurfaceId, title: Text)
    | ToplevelAppIdChanged(id: SurfaceId, appId: Text)
    | ToplevelClosed(id: SurfaceId)
    | ChildToplevelCreated(id: SurfaceId, parent: SurfaceId, title: Text, appId: Text, width: nat, height: nat)
    | ChildToplevelClosed(id: SurfaceId)
    | PopupCreated(id: SurfaceId, parent: SurfaceId, geometry: Geometry)
    | PopupRepositioned(id: SurfaceId, geometry: Geometry, token: nat)
    | PopupClosed(id: SurfaceId)
    | FrameReady(id: SurfaceId, frame: Frame)
    | CursorShape(focus: Option<SurfaceId>, name: string)
    | CursorBitmap(focus: Option<SurfaceId>, bitmap: Bitmap)

  datatype CursorImage = Named(name: string) | Hidden | Surface(surface: Wl)

  datatype Host = Host(
    toplevels: map<SurfaceId, Toplevel>,
    popups: map<SurfaceId, Popup>,
    cursorSurface: Option<Wl>,
    cursorFocus: Option<SurfaceId>,
    nextId: nat,
    log: seq<HostEvent>)
  {
    function Emit(e: HostEvent): Host {
      this.(log := log + [e])
    }

    function EmitFrame(id: SurfaceId, frame: Option<Frame>): Host {
      if frame.Some? then Emit(FrameReady(id, frame.value)) else this
    }
  }

  const INITIAL := Host(map[], map[], None, None, 1, [])

  // --------------------------------------------------------- frames and names

  function GeometryOf(p: Placement): Geometry {
    Geometry(p.x, p.y, if p.width > 1 then p.width else 1, if p.height > 1 then p.height else 1)
  }

  /** The committed frame, if the attachment is one the host can show; such a frame is never empty. */
  function CommittedFrame(a: Attachment): (f: Option<Frame>)
    ensures f.Some? ==> FrameWidth(f) > 0 && FrameHeight(f) > 0
  {
    match a
    case DmabufBuffer(planes, width, height, exportable) =>
      if planes != 1 || width <= 0 || height <= 0 || !exportable then None else Some(Dmabuf(width, height))
    case ShmBuffer(mem, meta) =>
      var copy := CopyOf(mem, meta, false);
      if copy.Some? then Some(Shm(copy.value)) else None
    case _ => None
  }

  function FrameWidth(f: Option<Frame>): nat {
    match f
    case None => 0
    case Some(Shm(bitmap)) => bitmap.width
    case Some(Dmabuf(width, _)) => width
  }

  function FrameHeight(f: Option<Frame>): nat {
    match f
    case None => 0
    case Some(Shm(bitmap)) => bitmap.height
    case Some(Dmabuf(_, height)) => height
  }

  // --------------------------------------------------------------- transitions

  /** One handler call. The ids it looked up are part of the step: the lookups go through hash maps
      whose order is unspecified, so any matching id may be the one found. */
  datatype Step =
    | NewToplevel(surface: Wl)
    | NewPopup(surface: Wl, parentSurface: Option<Wl>, parent: Option<SurfaceId>, placement: Placement, configured: bool)
    | CommitCursor(surface: Wl, attachment: Attachment)
    | CommitPopup(surface: Wl, id: SurfaceId, attachment: Attachment)
    | CommitToplevel(surface: Wl, id: SurfaceId, title: Text, appId: Text, parentSurface: Option<Wl>,
                     parent: Option<SurfaceId>, attachment: Attachment)
    | CommitUntracked(surface: Wl)
    | Reposition(surface: Wl, target: Option<SurfaceId>, placement: Placement, token: nat)
    | PopupDestroyed(surface: Wl, target: Option<SurfaceId>)
    | ToplevelDestroyed(surface: Wl, target: Option<SurfaceId>)
    | ReapPopups(dead: seq<SurfaceId>)
    | ReapToplevels(dead: seq<SurfaceId>)
    | SetCursor(image: CursorImage, focus: Option<SurfaceId>)

  predicate IsToplevelOf(h: Host, wl: Wl, id: SurfaceId) {
    id in h.toplevels && h.toplevels[id].surface == wl
  }

  predicate IsPopupOf(h: Host, wl: Wl, id: SurfaceId) {
    id in h.popups && h.popups[id].surface == wl
  }

  predicate TracksToplevel(h: Host, wl: Wl) {
    exists id | id in h.toplevels :: h.toplevels[id].surface == wl
  }

  predicate TracksPopup(h: Host, wl: Wl) {
    exists id | id in h.popups :: h.popups[id].surface == wl
  }

  /** `found` is a possible outcome of looking `wl` up, toplevels before popups. */
  predicate Resolves(h: Host, wl: Wl, found: Option<SurfaceId>) {
    match found
    case None => !TracksToplevel(h, wl) && !TracksPopup(h, wl)
    case Some(id) => IsToplevelOf(h, wl, id) || (!TracksToplevel(h, wl) && IsPopupOf(h, wl, id))
  }

  predicate ResolvesOpt(h: Host, wl: Option<Wl>, found: Option<SurfaceId>) {
    if wl.Some? then Resolves(h, wl.value, found) else found.None?
  }

  predicate Distinct<T(==)>(s: seq<T>) {
    forall i, j | 0 <= i < j < |s| :: s[i] != s[j]
  }

  /** The step's lookups are possible in `h`. */
  predicate Enabled(h: Host, step: Step) {
    match step
    case NewPopup(_, parentSurface, parent, _, _) => ResolvesOpt(h, parentSurface, parent)
    case CommitCursor(surface, _) => h.cursorSurface == Some(surface)
    case CommitPopup(surface, id, _) => h.cursorSurface != Some(surface) && IsPopupOf(h, surface, id)
    case CommitToplevel(surface, id, _, _, parentSurface, parent, _) =>
      && h.cursorSurface != Some(surface) && !TracksPopup(h, surface) && IsToplevelOf(h, surface, id)
      && ResolvesOpt(h, parentSurface, parent)
    case CommitUntracked(surface) =>
      h.cursorSurface != Some(surface) && !TracksPopup(h, surface) && !TracksToplevel(h, surface)
    case Reposition(surface, target, _, _) => Resolves(h, surface, target)
    case PopupDestroyed(surface, target) =>
      if target.Some? then IsPopupOf(h, surface, target.value) else !TracksPopup(h, surface)
    case ToplevelDestroyed(surface, target) =>
      if target.Some? then IsToplevelOf(h, surface, target.value) else !TracksToplevel(h, surface)
    case ReapPopups(dead) => Distinct(dead) && forall id | id in dead :: id in h.popups
    case ReapToplevels(dead) => Distinct(dead) && forall id | id in dead :: id in h.toplevels
    case _ => true
  }

  function Apply(h: Host, step: Step): Host
    requires Enabled(h, step)
  {
    match step
    case NewToplevel(surface) =>
      h.(toplevels := h.toplevels[h.nextId := Toplevel(surface, false, None, None, None)], nextId := h.nextId + 1)
    case NewPopup(surface, _, parent, placement, configured) =>
      var h1 := h.(nextId := h.nextId + 1);
      if parent.None? || !configured then h1
      else h1.(popups := h.popups[h.nextId := Popup(surface, parent.value, GeometryOf(placement), false)])
    case CommitCursor(_, attachment) =>
      var bitmap := CursorBitmapOf(attachment);
      if bitmap.Some? then h.Emit(CursorBitmap(h.cursorFocus, bitmap.value)) else h
    case CommitPopup(_, id, attachment) => AnnouncePopup(h, id).EmitFrame(id, CommittedFrame(attachment))
    case CommitToplevel(_, id, title, appId, _, parent, attachment) =>
      var frame := CommittedFrame(attachment);
      ReportToplevel(AdoptParent(h, id, parent), id, title, appId, frame).EmitFrame(id, frame)
    case CommitUntracked(_) => h
    case Reposition(_, target, placement, token) =>
      if target.None? then h else RepositionAt(h, target.value, GeometryOf(placement), token)
    case PopupDestroyed(_, target) => if target.None? then h else ClosePopup(h, target.value)
    case ToplevelDestroyed(_, target) => if target.None? then h else CloseToplevel(h, target.value)
    case ReapPopups(dead) => ClosePopups(h, dead)
    case ReapToplevels(dead) => CloseToplevels(h, dead)
    case SetCursor(image, focus) =>
      var h1 := h.(cursorFocus := focus);
      match image
      case Named(name) => h1.(cursorSurface := None).Emit(CursorShape(focus, name))
      case Hidden => h1.(cursorSurface := None).Emit(CursorShape(focus, "none"))
      case Surface(surface) => h1.(cursorSurface := Some(surface))
  }

  function CursorBitmapOf(a: Attachment): Option<Bitmap> {
    match a
    case ShmBuffer(mem, meta) => CopyOf(mem, meta, true)
    case _ => None
  }

  function AnnouncePopup(h: Host, id: SurfaceId): Host
    requires id in h.popups
  {
    var p := h.popups[id];
    if p.announced then h
    else h.(popups := h.popups[id := p.(announced := true)]).Emit(PopupCreated(id, p.parent, p.geometry))
  }

  /** The parent is taken over once, before the toplevel is announced. */
  function AdoptParent(h: Host, id: SurfaceId, parent: Option<SurfaceId>): Host
    requires id in h.toplevels
  {
    var t := h.toplevels[id];
    if t.announced || t.childOf.Some? || parent.None? then h
    else h.(toplevels := h.toplevels[id := t.(childOf := parent)])
  }

  function ReportToplevel(h: Host, id: SurfaceId, title: Text, appId: Text, frame: Option<Frame>): Host
    requires id in h.toplevels
  {
    var t := h.toplevels[id];
    var h1 := h.(toplevels := h.toplevels[id := t.(announced := true, lastTitle := title, lastAppId := appId)]);
    if t.announced then
      var h2 := if title != t.lastTitle then h1.Emit(ToplevelTitleChanged(id, title)) else h1;
      if appId != t.lastAppId then h2.Emit(ToplevelAppIdChanged(id, appId)) else h2
    else if t.childOf.None? then h1.Emit(ToplevelCreated(id, title, appId))
    else if FrameWidth(frame) > 0 && FrameHeight(frame) > 0 then
      h1.Emit(ChildToplevelCreated(id, t.childOf.value, title, appId, FrameWidth(frame), FrameHeight(frame)))
    else h
  }

  function RepositionAt(h: Host, id: SurfaceId, g: Geometry, token: nat): Host {
    var h1 := if id in h.popups then h.(popups := h.popups[id := h.popups[id].(geometry := g)]) else h;
    h1.Emit(PopupRepositioned(id, g, token))
  }

  function ClosePopup(h: Host, id: SurfaceId): Host {
    h.(popups := h.popups - {id}).Emit(PopupClosed(id))
  }

  function CloseToplevel(h: Host, id: SurfaceId): Host
    requires id in h.toplevels
  {
    h.(toplevels := h.toplevels - {id})
      .Emit(if h.toplevels[id].childOf.Some? then ChildToplevelClosed(id) else ToplevelClosed(id))
  }

  function ClosePopups(h: Host, dead: seq<SurfaceId>): Host
    decreases |dead|
  {
    if dead == [] then h else ClosePopup(ClosePopups(h, dead[..|dead| - 1]), dead[|dead| - 1])
  }

  function CloseToplevels(h: Host, dead: seq<SurfaceId>): (r: Host)
    requires Distinct(dead) && forall id | id in dead :: id in h.toplevels
    ensures r.toplevels == h.toplevels - (set id | id in dead)
    decreases |dead|
  {
    if dead == [] then h
    else
      var front, last := dead[..|dead| - 1], dead[|dead| - 1];
      assert dead == front + [last];
      CloseToplevel(CloseToplevels(h, front), last)
  }

  // ------------------------------------------------- lifecycle of one surface

  datatype Phase = Unborn | Live(kind: Kind) | Gone

  /** The surface an event is about; cursor events are about none. */
  function About(e: HostEvent): Option<SurfaceId> {
    if e.CursorShape? || e.CursorBitmap? then None else Some(e.id)
  }

  function Creates(e: HostEvent): Option<Kind> {
    match e
    case ToplevelCreated(_, _, _) => Some(TopKind)
    case ChildToplevelCreated(_, _, _, _, _, _) => Some(ChildKind)
    case PopupCreated(_, _, _) => Some(PopupKind)
    case _ => None
  }

  function Closes(e: HostEvent): Option<Kind> {
    match e
    case ToplevelClosed(_) => Some(TopKind)
    case ChildToplevelClosed(_) => Some(ChildKind)
    case PopupClosed(_) => Some(PopupKind)
    case _ => None
  }

  /** Frames, titles and app ids: the events that only make sense for a surface on display. */
  predicate Updates(e: HostEvent) {
    e.FrameReady? || e.ToplevelTitleChanged? || e.ToplevelAppIdChanged?
  }

  function NextPhase(p: Phase, e: HostEvent): Phase {
    if Creates(e).Some? then Live(Creates(e).value) else if Closes(e).Some? then Gone else p
  }

  predicate Legal(p: Phase, e: HostEvent) {
    if Creates(e).Some? then p == Unborn
    else if Closes(e).Some? then p == Unborn || p == Live(Closes(e).value)
    else if Updates(e) then p.Live?
    else p != Gone
  }

  function PhaseOf(log: seq<HostEvent>, id: SurfaceId): Phase
    decreases |log|
  {
    if log == [] then Unborn
    else
      var p, e := PhaseOf(log[..|log| - 1], id), log[|log| - 1];
      if About(e) == Some(id) then NextPhase(p, e) else p
  }

  predicate LegalLog(log: seq<HostEvent>)
    decreases |log|
  {
    log != [] ==>
      var front, e := log[..|log| - 1], log[|log| - 1];
      LegalLog(front) && (About(e).Some? ==> Legal(PhaseOf(front, About(e).value), e))
  }

  // ------------------------------------------------------ the cockpit's picture

  datatype Shown = Window(child: bool, title: Text, appId: Text) | Overlay(geometry: Geometry)

  function Get(v: map<SurfaceId, Shown>, id: SurfaceId): Option<Shown> {
    if id in v then Some(v[id]) else None
  }

  function Put(v: map<SurfaceId, Shown>, id: SurfaceId, s: Option<Shown>): map<SurfaceId, Shown> {
    if s.Some? then v[id := s.value] else v - {id}
  }

  function Redraw(s: Option<Shown>, e: HostEvent): Option<Shown> {
    match e
    case ToplevelCreated(_, title, appId) => Some(Window(false, title, appId))
    case ChildToplevelCreated(_, _, title, appId, _, _) => Some(Window(true, title, appId))
    case PopupCreated(_, _, geometry) => Some(Overlay(geometry))
    case ToplevelTitleChanged(_, title) =>
      if s.Some? && s.value.Window? then Some(s.value.(title := title)) else s
    case ToplevelAppIdChanged(_, appId) =>
      if s.Some? && s.value.Window? then Some(s.value.(appId := appId)) else s
    case PopupRepositioned(_, geometry, _) =>
      if s.Some? && s.value.Overlay? then Some(Overlay(geometry)) else s
    case FrameReady(_, _) => s
    case _ => None
  }

  /** What a reader of the log believes is on display. */
  function Replay(log: seq<HostEvent>): map<SurfaceId, Shown>
    decreases |log|
  {
    if log == [] then map[]
    else
      var v, e := Replay(log[..|log| - 1]), log[|log| - 1];
      if About(e).None? then v else Put(v, About(e).value, Redraw(Get(v, About(e).value), e))
  }

  /** What the host itself has announced and still tracks of `id`. */
  function Entry(h: Host, id: SurfaceId): Option<Shown> {
    if id in h.toplevels then
      var t := h.toplevels[id];
      if t.announced then Some(Window(t.childOf.Some?, t.lastTitle, t.lastAppId)) else None
    else if id in h.popups && h.popups[id].announced then Some(Overlay(h.popups[id].geometry))
    else None
  }

  function View(h: Host): map<SurfaceId, Shown> {
    map id | id in h.toplevels.Keys + h.popups.Keys && Entry(h, id).Some? :: Entry(h, id).value
  }

  // --------------------------------------------------------------- invariant

  predicate PhaseFits(h: Host, id: SurfaceId) {
    var p := PhaseOf(h.log, id);
    if id in h.toplevels then
      p == if h.toplevels[id].announced then Live(KindOf(h.toplevels[id])) else Unborn
    else if id in h.popups then
      p == if h.popups[id].announced then Live(PopupKind) else Unborn
    else if id >= h.nextId then p == Unborn
    else !p.Live?
  }

  function KindOf(t: Toplevel): Kind {
    if t.childOf.Some? then ChildKind else TopKind
  }

  predicate IdFits(h: Host, id: SurfaceId) {
    && (id in h.toplevels || id in h.popups ==> 1 <= id < h.nextId)
    && !(id in h.toplevels && id in h.popups)
  }

  ghost predicate Inv(h: Host) {
    && h.nextId >= 1
    && LegalLog(h.log)
    && Replay(h.log) == View(h)
    && MentionsOnly(h.log, h.nextId)
    && forall id: SurfaceId :: IdFits(h, id) && PhaseFits(h, id)
  }

  /** No event is about an id that has not been handed out yet. */
  predicate MentionsOnly(log: seq<HostEvent>, bound: nat) {
    forall i | 0 <= i < |log| && About(log[i]).Some? :: 1 <= About(log[i]).value < bound
  }

  predicate SameAt(h: Host, g: Host, k: SurfaceId) {
    && (k in g.toplevels <==> k in h.toplevels) && (k in g.toplevels ==> g.toplevels[k] == h.toplevels[k])
    && (k in g.popups <==> k in h.popups) && (k in g.popups ==> g.popups[k] == h.popups[k])
  }

  /** `g` differs from `h` at most in what it knows of `id`. */
  ghost predicate Elsewhere(h: Host, g: Host, id: SurfaceId) {
    h.nextId <= g.nextId && forall k: SurfaceId | k != id :: SameAt(h, g, k)
  }

  lemma QuietKeeps(h: Host, g: Host, id: SurfaceId)
    requires Inv(h) && g.log == h.log && Elsewhere(h, g, id)
    requires IdFits(g, id) && PhaseFits(g, id) && Entry(g, id) == Entry(h, id)
    ensures Inv(g)
  {
    forall k: SurfaceId
      ensures IdFits(g, k) && PhaseFits(g, k) && Entry(g, k) == Entry(h, k)
    {
      if k != id {
        assert SameAt(h, g, k);
      }
      assert IdFits(h, k) && PhaseFits(h, k);
    }
    SameViews(h, g);
  }

  lemma SameViews(h: Host, g: Host)
    requires forall k: SurfaceId :: Entry(g, k) == Entry(h, k)
    ensures View(g) == View(h)
  {
    forall k: SurfaceId
      ensures k in View(g) <==> Entry(g, k).Some?
      ensures k in View(h) <==> Entry(h, k).Some?
    {
    }
  }

  lemma EmitKeeps(h: Host, g: Host, id: SurfaceId, e: HostEvent)
    requires Inv(h) && g.log == h.log + [e] && Elsewhere(h, g, id) && About(e) == Some(id)
    requires 1 <= id < h.nextId && Legal(PhaseOf(h.log, id), e)
    requires IdFits(g, id) && PhaseFits(g, id) && Entry(g, id) == Redraw(Entry(h, id), e)
    ensures Inv(g)
  {
    assert LegalLog(g.log) && MentionsOnly(g.log, g.nextId) by {
      LogGrows(h.log, e, h.nextId, g.nextId);
    }
    assert Replay(g.log) == View(g) by {
      ReplayGrows(h, g, id, e);
    }
    forall k: SurfaceId
      ensures IdFits(g, k) && PhaseFits(g, k)
    {
      if k != id {
        assert SameAt(h, g, k) && IdFits(h, k) && PhaseFits(h, k);
        PhaseStep(h.log, e, k);
      }
    }
  }

  lemma LogGrows(log: seq<HostEvent>, e: HostEvent, bound: nat, newBound: nat)
    requires LegalLog(log) && MentionsOnly(log, bound) && bound <= newBound
    requires About(e).Some? && 1 <= About(e).value < bound && Legal(PhaseOf(log, About(e).value), e)
    ensures LegalLog(log + [e]) && MentionsOnly(log + [e], newBound)
  {
    assert (log + [e])[..|log|] == log;
  }

  lemma ReplayGrows(h: Host, g: Host, id: SurfaceId, e: HostEvent)
    requires Replay(h.log) == View(h) && g.log == h.log + [e] && Elsewhere(h, g, id) && About(e) == Some(id)
    requires Entry(g, id) == Redraw(Entry(h, id), e)
    ensures Replay(g.log) == View(g)
  {
    assert g.log[..|g.log| - 1] == h.log;
    var v := View(h);
    assert Get(v, id) == Entry(h, id);
    forall k: SurfaceId
      ensures Get(Replay(g.log), k) == Get(View(g), k)
    {
      assert k != id ==> SameAt(h, g, k);
      assert Get(v, k) == Entry(h, k) && Get(View(g), k) == Entry(g, k);
    }
    SameMaps(Replay(g.log), View(g));
  }

  lemma SameMaps(v: map<SurfaceId, Shown>, w: map<SurfaceId, Shown>)
    requires forall k: SurfaceId :: Get(v, k) == Get(w, k)
    ensures v == w
  {
    assert forall k: SurfaceId :: k in v <==> Get(v, k).Some?;
    assert forall k: SurfaceId :: k in w <==> Get(w, k).Some?;
    assert forall k: SurfaceId | k in v :: Get(v, k) == Get(w, k) && v[k] == w[k];
  }

  /** Cursor events touch nothing the invariant speaks of. */
  lemma CursorKeeps(h: Host, g: Host, e: HostEvent)
    requires Inv(h) && About(e).None?
    requires g.toplevels == h.toplevels && g.popups == h.popups && g.nextId == h.nextId
    requires g.log == h.log || g.log == h.log + [e]
    ensures Inv(g)
  {
    if g.log == h.log + [e] {
      UnaddressedEvent(h.log, e);
    }
    forall k: SurfaceId
      ensures IdFits(g, k) && PhaseFits(g, k) && Entry(g, k) == Entry(h, k)
    {
      assert IdFits(h, k) && PhaseFits(h, k);
    }
    SameViews(h, g);
  }

  lemma UnaddressedEvent(log: seq<HostEvent>, e: HostEvent)
    requires About(e).None?
    ensures LegalLog(log) ==> LegalLog(log + [e])
    ensures Replay(log + [e]) == Replay(log)
    ensures forall id: SurfaceId :: PhaseOf(log + [e], id) == PhaseOf(log, id)
    ensures forall bound: nat :: MentionsOnly(log, bound) ==> MentionsOnly(log + [e], bound)
  {
    assert (log + [e])[..|log|] == log;
  }

  // --------------------------------------------------- each transition keeps it

  lemma FrameKeeps(h: Host, id: SurfaceId, frame: Option<Frame>)
    requires Inv(h) && (frame.Some? ==> PhaseOf(h.log, id).Live?)
    ensures Inv(h.EmitFrame(id, frame))
  {
    if frame.Some? {
      var e := FrameReady(id, frame.value);
      assert IdFits(h, id) && PhaseFits(h, id);
      PhaseStep(h.log, e, id);
      EmitKeeps(h, h.Emit(e), id, e);
    }
  }

  lemma PhaseStep(log: seq<HostEvent>, e: HostEvent, id: SurfaceId)
    ensures PhaseOf(log + [e], id) == if About(e) == Some(id) then NextPhase(PhaseOf(log, id), e) else PhaseOf(log, id)
  {
    assert (log + [e])[..|log|] == log;
  }

  /** Rewriting one tracked toplevel and reporting it. */
  lemma ToplevelReported(h: Host, id: SurfaceId, t: Toplevel, e: HostEvent)
    requires Inv(h) && id in h.toplevels && t.announced && About(e) == Some(id)
    requires Legal(PhaseOf(h.log, id), e) && NextPhase(PhaseOf(h.log, id), e) == Live(KindOf(t))
    requires Redraw(Entry(h, id), e) == Some(Window(t.childOf.Some?, t.lastTitle, t.lastAppId))
    ensures var g := h.(toplevels := h.toplevels[id := t]).Emit(e);
      Inv(g) && PhaseOf(g.log, id).Live?
  {
    assert IdFits(h, id);
    PhaseStep(h.log, e, id);
    EmitKeeps(h, h.(toplevels := h.toplevels[id := t]).Emit(e), id, e);
  }

  lemma PopupEntry(h: Host, id: SurfaceId)
    requires IdFits(h, id) && PhaseFits(h, id) && id in h.popups
    ensures PhaseOf(h.log, id) == if h.popups[id].announced then Live(PopupKind) else Unborn
    ensures Entry(h, id) == if h.popups[id].announced then Some(Overlay(h.popups[id].geometry)) else None
  {
  }

  lemma CreatesPopup(id: SurfaceId, p: Popup)
    ensures var e := PopupCreated(id, p.parent, p.geometry);
      About(e) == Some(id) && Legal(Unborn, e) && NextPhase(Unborn, e) == Live(PopupKind) && Redraw(None, e) == Some(Overlay(p.geometry))
  {
  }

  lemma AnnouncePopupKeeps(h: Host, id: SurfaceId)
    requires Inv(h) && id in h.popups
    ensures Inv(AnnouncePopup(h, id)) && PhaseOf(AnnouncePopup(h, id).log, id).Live?
  {
    assert IdFits(h, id) && PhaseFits(h, id);
    PopupEntry(h, id);
    if !h.popups[id].announced {
      var p := h.popups[id].(announced := true);
      CreatesPopup(id, p);
      PopupReported(h, id, p, PopupCreated(id, p.parent, p.geometry));
    }
  }

  /** Rewriting one tracked popup and reporting it. */
  lemma PopupReported(h: Host, id: SurfaceId, p: Popup, e: HostEvent)
    requires Inv(h) && id in h.popups && About(e) == Some(id) && Legal(PhaseOf(h.log, id), e)
    requires NextPhase(PhaseOf(h.log, id), e) == if p.announced then Live(PopupKind) else Unborn
    requires Redraw(Entry(h, id), e) == if p.announced then Some(Overlay(p.geometry)) else None
    ensures var g := h.(popups := h.popups[id := p]).Emit(e);
      Inv(g) && (p.announced ==> PhaseOf(g.log, id).Live?)
  {
    var g := h.(popups := h.popups[id := p]).Emit(e);
    assert IdFits(h, id);
    assert PhaseFits(g, id) && IdFits(g, id) by {
      PhaseStep(h.log, e, id);
    }
    assert Elsewhere(h, g, id) by {
      assert forall k: SurfaceId | k != id :: SameAt(h, g, k);
    }
    assert Entry(g, id) == Redraw(Entry(h, id), e);
    EmitKeeps(h, g, id, e);
  }

  lemma AdoptParentKeeps(h: Host, id: SurfaceId, parent: Option<SurfaceId>)
    requires Inv(h) && id in h.toplevels
    ensures Inv(AdoptParent(h, id, parent)) && id in AdoptParent(h, id, parent).toplevels
  {
    assert IdFits(h, id) && PhaseFits(h, id);
    if AdoptParent(h, id, parent) != h {
      QuietKeeps(h, AdoptParent(h, id, parent), id);
    }
  }

  lemma ReportToplevelKeeps(h: Host, id: SurfaceId, title: Text, appId: Text, frame: Option<Frame>)
    requires Inv(h) && id in h.toplevels
    requires frame.Some? ==> FrameWidth(frame) > 0 && FrameHeight(frame) > 0
    ensures var g := ReportToplevel(h, id, title, appId, frame);
      Inv(g) && (frame.Some? ==> PhaseOf(g.log, id).Live?)
  {
    var t := h.toplevels[id];
    var shown := t.(announced := true, lastTitle := title, lastAppId := appId);
    assert IdFits(h, id) && PhaseFits(h, id);
    if t.announced {
      TitleKeeps(h, id, title);
      AppIdKeeps(WithTitle(h, id, title), id, appId);
      TitleThenAppId(h, id, title, appId, frame);
    } else if t.childOf.None? {
      ToplevelReported(h, id, shown, ToplevelCreated(id, title, appId));
    } else if frame.Some? {
      ToplevelReported(h, id, shown,
        ChildToplevelCreated(id, t.childOf.value, title, appId, FrameWidth(frame), FrameHeight(frame)));
    }
  }

  lemma TitleThenAppId(h: Host, id: SurfaceId, title: Text, appId: Text, frame: Option<Frame>)
    requires id in h.toplevels && h.toplevels[id].announced
    ensures ReportToplevel(h, id, title, appId, frame) == WithAppId(WithTitle(h, id, title), id, appId)
  {
    var t := h.toplevels[id];
    assert t.(announced := true, lastTitle := title, lastAppId := appId) == t.(lastTitle := title).(lastAppId := appId);
    var u, w := t.(lastTitle := title), t.(lastTitle := title, lastAppId := appId);
    assert h.toplevels[id := u][id := w] == h.toplevels[id := w];
  }

  function WithTitle(h: Host, id: SurfaceId, title: Text): Host
    requires id in h.toplevels
  {
    var h1 := h.(toplevels := h.toplevels[id := h.toplevels[id].(lastTitle := title)]);
    if title != h.toplevels[id].lastTitle then h1.Emit(ToplevelTitleChanged(id, title)) else h1
  }

  function WithAppId(h: Host, id: SurfaceId, appId: Text): Host
    requires id in h.toplevels
  {
    var h1 := h.(toplevels := h.toplevels[id := h.toplevels[id].(lastAppId := appId)]);
    if appId != h.toplevels[id].lastAppId then h1.Emit(ToplevelAppIdChanged(id, appId)) else h1
  }

  lemma AnnouncedEntry(h: Host, id: SurfaceId)
    requires PhaseFits(h, id) && id in h.toplevels && h.toplevels[id].announced
    ensures var t := h.toplevels[id];
      PhaseOf(h.log, id) == Live(KindOf(t)) && Entry(h, id) == Some(Window(t.childOf.Some?, t.lastTitle, t.lastAppId))
  {
  }

  lemma TitleKeeps(h: Host, id: SurfaceId, title: Text)
    requires Inv(h) && id in h.toplevels && h.toplevels[id].announced
    ensures var g := WithTitle(h, id, title);
      Inv(g) && id in g.toplevels && g.toplevels[id].announced && PhaseOf(g.log, id).Live?
  {
    var t := h.toplevels[id].(lastTitle := title);
    assert IdFits(h, id) && PhaseFits(h, id);
    if title != h.toplevels[id].lastTitle {
      AnnouncedEntry(h, id);
      ToplevelReported(h, id, t, ToplevelTitleChanged(id, title));
    } else {
      assert h.toplevels[id := t] == h.toplevels;
      assert h.(toplevels := h.toplevels[id := t]) == h;
    }
  }

  lemma AppIdKeeps(h: Host, id: SurfaceId, appId: Text)
    requires Inv(h) && id in h.toplevels && h.toplevels[id].announced
    ensures var g := WithAppId(h, id, appId);
      Inv(g) && PhaseOf(g.log, id).Live?
  {
    var t := h.toplevels[id].(lastAppId := appId);
    assert IdFits(h, id) && PhaseFits(h, id);
    if appId != h.toplevels[id].lastAppId {
      AnnouncedEntry(h, id);
      ToplevelReported(h, id, t, ToplevelAppIdChanged(id, appId));
    } else {
      assert h.toplevels[id := t] == h.toplevels;
      assert h.(toplevels := h.toplevels[id := t]) == h;
    }
  }

  lemma RepositionKeeps(h: Host, id: SurfaceId, geometry: Geometry, token: nat)
    requires Inv(h) && (id in h.toplevels || id in h.popups)
    ensures Inv(RepositionAt(h, id, geometry, token))
  {
    var e := PopupRepositioned(id, geometry, token);
    assert IdFits(h, id) && PhaseFits(h, id);
    if id in h.popups {
      PopupReported(h, id, h.popups[id].(geometry := geometry), e);
    } else {
      PhaseStep(h.log, e, id);
      EmitKeeps(h, h.Emit(e), id, e);
    }
  }

  lemma ClosePopupKeeps(h: Host, id: SurfaceId)
    requires Inv(h) && id in h.popups
    ensures Inv(ClosePopup(h, id))
  {
    var e := PopupClosed(id);
    assert IdFits(h, id) && PhaseFits(h, id);
    PhaseStep(h.log, e, id);
    EmitKeeps(h, ClosePopup(h, id), id, e);
  }

  lemma CloseToplevelKeeps(h: Host, id: SurfaceId)
    requires Inv(h) && id in h.toplevels
    ensures Inv(CloseToplevel(h, id))
  {
    var e := if h.toplevels[id].childOf.Some? then ChildToplevelClosed(id) else ToplevelClosed(id);
    assert IdFits(h, id) && PhaseFits(h, id);
    PhaseStep(h.log, e, id);
    EmitKeeps(h, CloseToplevel(h, id), id, e);
  }

  lemma {:induction false} ClosePopupsRemoves(h: Host, dead: seq<SurfaceId>)
    ensures ClosePopups(h, dead).popups == h.popups - (set id | id in dead)
    decreases |dead|
  {
    if dead != [] {
      var front, last := dead[..|dead| - 1], dead[|dead| - 1];
      ClosePopupsRemoves(h, front);
      assert (set id | id in dead) == (set id | id in front) + {last} by {
        assert dead == front + [last];
      }
    }
  }

  lemma {:induction false} ClosePopupsKeeps(h: Host, dead: seq<SurfaceId>)
    requires Inv(h) && Distinct(dead) && forall id | id in dead :: id in h.popups
    ensures Inv(ClosePopups(h, dead))
    decreases |dead|
  {
    if dead != [] {
      var front, last := dead[..|dead| - 1], dead[|dead| - 1];
      assert dead == front + [last];
      ClosePopupsKeeps(h, front);
      ClosePopupsRemoves(h, front);
      ClosePopupKeeps(ClosePopups(h, front), last);
    }
  }

  lemma {:induction false} CloseToplevelsKeeps(h: Host, dead: seq<SurfaceId>)
    requires Inv(h) && Distinct(dead) && forall id | id in dead :: id in h.toplevels
    ensures Inv(CloseToplevels(h, dead))
    decreases |dead|
  {
    if dead != [] {
      var front, last := dead[..|dead| - 1], dead[|dead| - 1];
      assert dead == front + [last];
      CloseToplevelsKeeps(h, front);
      CloseToplevelKeeps(CloseToplevels(h, front), last);
    }
  }

  /** A fresh id is one the log has never mentioned. */
  lemma AllocationKeeps(h: Host, g: Host)
    requires Inv(h) && g.log == h.log && g.nextId == h.nextId + 1
    requires Elsewhere(h, g, h.nextId) && Entry(g, h.nextId).None?
    requires !(h.nextId in g.toplevels && h.nextId in g.popups)
    requires h.nextId in g.toplevels ==> !g.toplevels[h.nextId].announced
    requires h.nextId in g.popups ==> !g.popups[h.nextId].announced
    ensures Inv(g)
  {
    assert IdFits(h, h.nextId) && PhaseFits(h, h.nextId);
    QuietKeeps(h, g, h.nextId);
  }

  lemma NewSurfaceKeeps(h: Host, step: Step)
    requires Inv(h) && Enabled(h, step) && (step.NewToplevel? || step.NewPopup?)
    ensures Inv(Apply(h, step))
  {
    assert IdFits(h, h.nextId);
    AllocationKeeps(h, Apply(h, step));
  }

  lemma CursorStepKeeps(h: Host, step: Step)
    requires Inv(h) && Enabled(h, step) && (step.CommitCursor? || step.SetCursor?)
    ensures Inv(Apply(h, step))
  {
    match step
    case CommitCursor(_, attachment) =>
      CursorKeeps(h, Apply(h, step), CursorBitmap(h.cursorFocus, CursorBitmapOf(attachment).GetOr(Bitmap(0, 0, []))));
    case SetCursor(image, focus) =>
      CursorKeeps(h, Apply(h, step), CursorShape(focus, if image.Named? then image.name else "none"));
  }

  lemma CommitPopupKeeps(h: Host, step: Step)
    requires Inv(h) && Enabled(h, step) && step.CommitPopup?
    ensures Inv(Apply(h, step))
  {
    AnnouncePopupKeeps(h, step.id);
    FrameKeeps(AnnouncePopup(h, step.id), step.id, CommittedFrame(step.attachment));
  }

  lemma CommitToplevelKeeps(h: Host, step: Step)
    requires Inv(h) && Enabled(h, step) && step.CommitToplevel?
    ensures Inv(Apply(h, step))
  {
    var frame, h1 := CommittedFrame(step.attachment), AdoptParent(h, step.id, step.parent);
    AdoptParentKeeps(h, step.id, step.parent);
    ReportToplevelKeeps(h1, step.id, step.title, step.appId, frame);
    FrameKeeps(ReportToplevel(h1, step.id, step.title, step.appId, frame), step.id, frame);
  }

  lemma StepKeepsInv(h: Host, step: Step)
    requires Inv(h) && Enabled(h, step)
    ensures Inv(Apply(h, step))
  {
    match step
    case NewToplevel(_) => NewSurfaceKeeps(h, step);
    case NewPopup(_, _, _, _, _) => NewSurfaceKeeps(h, step);
    case CommitCursor(_, _) => CursorStepKeeps(h, step);
    case CommitPopup(_, _, _) => CommitPopupKeeps(h, step);
    case CommitToplevel(_, _, _, _, _, _, _) => CommitToplevelKeeps(h, step);
    case CommitUntracked(_) =>
    case Reposition(_, target, placement, token) =>
      if target.Some? {
        RepositionKeeps(h, target.value, GeometryOf(placement), token);
      }
    case PopupDestroyed(_, target) =>
      if target.Some? {
        ClosePopupKeeps(h, target.value);
      }
    case ToplevelDestroyed(_, target) =>
      if target.Some? {
        CloseToplevelKeeps(h, target.value);
      }
    case ReapPopups(dead) => ClosePopupsKeeps(h, dead);
    case ReapToplevels(dead) => CloseToplevelsKeeps(h, dead);
    case SetCursor(_, _) => CursorStepKeeps(h, step);
  }

  // ------------------------------------------------------------- whole runs

  ghost predicate IsRun(trace: seq<Host>, steps: seq<Step>) {
    && |trace| == |steps| + 1
    && trace[0] == INITIAL
    && forall i | 0 <= i < |steps| :: Enabled(trace[i], steps[i]) && trace[i + 1] == Apply(trace[i], steps[i])
  }

  /** What the cockpit may rely on: at most one creation and one closing per id; a closing ends its id
      and has the kind of its creation, if there was one; frames, titles and app ids only ever follow a
      creation (and, by the closing clause, precede the closing). */
  ghost predicate WellFormedTrace(log: seq<HostEvent>) {
    && (forall i, j | 0 <= i < j < |log| && Creates(log[i]).Some? && Creates(log[j]).Some? :: log[i].id != log[j].id)
    && (forall i, j | 0 <= i < |log| && 0 <= j < |log| && i != j && Closes(log[i]).Some? && About(log[j]) == About(log[i]) ::
          j < i && Closes(log[j]).None? && (Creates(log[j]).Some? ==> Creates(log[j]) == Closes(log[i])))
    && (forall i | 0 <= i < |log| && Updates(log[i]) :: CreatedBefore(log, i, log[i].id))
  }

  predicate CreatedBefore(log: seq<HostEvent>, n: nat, id: SurfaceId)
    requires n <= |log|
  {
    exists j | 0 <= j < n :: Creates(log[j]).Some? && log[j].id == id
  }

  /** In every run, after every step, the log is well formed and replaying it gives exactly what the
      host has announced and still tracks, with its last titles, app ids and geometry. */
  lemma {:induction false} EveryRun(trace: seq<Host>, steps: seq<Step>, n: nat)
    requires IsRun(trace, steps) && n <= |steps|
    ensures Replay(trace[n].log) == View(trace[n])
    ensures WellFormedTrace(trace[n].log)
  {
    RunKeepsInv(trace, steps, n);
    LegalLogIsWellFormed(trace[n].log);
  }

  lemma {:induction false} RunKeepsInv(trace: seq<Host>, steps: seq<Step>, n: nat)
    requires IsRun(trace, steps) && n <= |steps|
    ensures Inv(trace[n])
  {
    if n == 0 {
      assert View(INITIAL) == map[];
    } else {
      RunKeepsInv(trace, steps, n - 1);
      StepKeepsInv(trace[n - 1], steps[n - 1]);
    }
  }

  /** A surface only becomes tracked under an id the log has never mentioned: ids are never reused. */
  lemma FreshIds(trace: seq<Host>, steps: seq<Step>, n: nat, id: SurfaceId)
    requires IsRun(trace, steps) && n < |steps|
    requires Tracked(trace[n + 1], id) && !Tracked(trace[n], id)
    ensures id == trace[n].nextId
    ensures forall i | 0 <= i < |trace[n].log| :: About(trace[n].log[i]) != Some(id)
  {
    RunKeepsInv(trace, steps, n);
    TracksOnlyNew(trace[n], steps[n], id);
  }

  lemma TracksOnlyNew(h: Host, step: Step, id: SurfaceId)
    requires Inv(h) && Enabled(h, step) && Tracked(Apply(h, step), id) && !Tracked(h, id)
    ensures id == h.nextId
  {
    match step
    case ReapPopups(dead) =>
      ClosePopupsRemoves(h, dead);
      ClosePopupsLeaveToplevels(h, dead);
    case ReapToplevels(dead) =>
      CloseToplevelsLeavePopups(h, dead);
    case CommitToplevel(_, i, title, appId, _, parent, attachment) =>
      ReportTracksNothing(AdoptParent(h, i, parent), i, title, appId, CommittedFrame(attachment));
    case _ =>
  }

  predicate Tracked(h: Host, id: SurfaceId) {
    id in h.toplevels || id in h.popups
  }

  lemma ReportTracksNothing(h: Host, id: SurfaceId, title: Text, appId: Text, frame: Option<Frame>)
    requires id in h.toplevels
    ensures var g := ReportToplevel(h, id, title, appId, frame).EmitFrame(id, frame);
      g.toplevels.Keys == h.toplevels.Keys && g.popups == h.popups && g.nextId == h.nextId
  {
  }

  lemma {:induction false} ClosePopupsLeaveToplevels(h: Host, dead: seq<SurfaceId>)
    ensures ClosePopups(h, dead).toplevels == h.toplevels
    decreases |dead|
  {
    if dead != [] {
      ClosePopupsLeaveToplevels(h, dead[..|dead| - 1]);
    }
  }

  lemma {:induction false} CloseToplevelsLeavePopups(h: Host, dead: seq<SurfaceId>)
    requires Distinct(dead) && forall id | id in dead :: id in h.toplevels
    ensures CloseToplevels(h, dead).popups == h.popups
    decreases |dead|
  {
    if dead != [] {
      CloseToplevelsLeavePopups(h, dead[..|dead| - 1]);
    }
  }

  lemma {:induction false} LegalAt(log: seq<HostEvent>, n: nat)
    requires LegalLog(log) && n <= |log|
    ensures LegalLog(log[..n])
    ensures n < |log| && About(log[n]).Some? ==> Legal(PhaseOf(log[..n], About(log[n]).value), log[n])
    decreases |log|
  {
    if n == |log| {
      assert log[..n] == log;
    } else if n < |log| - 1 {
      var front := log[..|log| - 1];
      LegalAt(front, n);
      assert front[..n] == log[..n];
    }
  }

  /** What the phase after `n` events says about them. */
  lemma {:induction false} PhaseHistory(log: seq<HostEvent>, n: nat, id: SurfaceId)
    requires LegalLog(log) && n <= |log|
    ensures forall j | 0 <= j < n && About(log[j]) == Some(id) ::
              && (Creates(log[j]).Some? ==> PhaseOf(log[..n], id) in {Live(Creates(log[j]).value), Gone})
              && (Closes(log[j]).Some? ==> PhaseOf(log[..n], id) == Gone)
    ensures PhaseOf(log[..n], id).Live? ==> CreatedBefore(log, n, id)
  {
    if n > 0 {
      PhaseHistory(log, n - 1, id);
      LegalAt(log, n - 1);
      assert log[..n][..n - 1] == log[..n - 1];
      assert PhaseOf(log[..n], id)
          == if About(log[n - 1]) == Some(id) then NextPhase(PhaseOf(log[..n - 1], id), log[n - 1]) else PhaseOf(log[..n - 1], id);
      if CreatedBefore(log, n - 1, id) {
        assert CreatedBefore(log, n, id);
      }
    }
  }

  /** Two events about one id. */
  lemma LegalPair(log: seq<HostEvent>, i: nat, j: nat)
    requires LegalLog(log) && i < j < |log| && About(log[i]).Some? && About(log[i]) == About(log[j])
    ensures Closes(log[i]).None?
    ensures Creates(log[j]).None? || Creates(log[i]).None?
    ensures Closes(log[j]).Some? && Creates(log[i]).Some? ==> Creates(log[i]) == Closes(log[j])
  {
    PhaseHistory(log, j, About(log[j]).value);
    LegalAt(log, j);
  }

  lemma LegalLogIsWellFormed(log: seq<HostEvent>)
    requires LegalLog(log)
    ensures WellFormedTrace(log)
  {
    CreationsAndClosings(log);
    forall i | 0 <= i < |log| && Updates(log[i])
      ensures CreatedBefore(log, i, log[i].id)
    {
      PhaseHistory(log, i, log[i].id);
      LegalAt(log, i);
    }
  }

  lemma CreationsAndClosings(log: seq<HostEvent>)
    requires LegalLog(log)
    ensures forall i, j | 0 <= i < j < |log| && Creates(log[i]).Some? && Creates(log[j]).Some? :: log[i].id != log[j].id
    ensures forall i, j | 0 <= i < |log| && 0 <= j < |log| && i != j && Closes(log[i]).Some? && About(log[j]) == About(log[i]) ::
          j < i && Closes(log[j]).None? && (Creates(log[j]).Some? ==> Creates(log[j]) == Closes(log[i]))
  {
    forall i, j | 0 <= i < j < |log| && About(log[i]).Some? && About(log[i]) == About(log[j])
      ensures Closes(log[i]).None?
      ensures Creates(log[j]).None? || Creates(log[i]).None?
      ensures Closes(log[j]).Some? && Creates(log[i]).Some? ==> Creates(log[i]) == Closes(log[j])
    {
      LegalPair(log, i, j);
    }
  }

  /** A closing without a creation does happen: a surface destroyed before its first commit. */
  lemma ClosedWithoutCreated() returns (trace: seq<Host>, steps: seq<Step>)
    ensures IsRun(trace, steps) && trace[|steps|].log == [ToplevelClosed(1)]
  {
    steps := [NewToplevel(7), ToplevelDestroyed(7, Some(1))];
    var h1 := Apply(INITIAL, steps[0]);
    trace := [INITIAL, h1, Apply(h1, steps[1])];
  }

  // ------------------------------------------------------------ named parents

  /** The parent that a creation names. */
  function Names(e: HostEvent): Option<SurfaceId> {
    match e
    case ChildToplevelCreated(_, parent, _, _, _, _) => Some(parent)
    case PopupCreated(_, parent, _) => Some(parent)
    case _ => None
  }

  /** A named parent has been handed out; before the surface itself, if that is a popup. Where the toolkit
      keeps surfaces from being their own parents (`strict`), it is another surface. */
  predicate NamesKnown(strict: bool, e: HostEvent, bound: nat) {
    Names(e).Some? ==>
      && 1 <= Names(e).value < bound
      && (e.PopupCreated? ==> Names(e).value < e.id)
      && (strict ==> Names(e).value != e.id)
  }

  /** The toolkit names the committing surface itself as its parent. */
  predicate AdoptsItself(step: Step) {
    step.CommitToplevel? && step.parent == Some(step.id)
  }

  ghost predicate KnownParents(strict: bool, h: Host) {
    && (forall id | id in h.popups :: 1 <= h.popups[id].parent < id && h.popups[id].parent < h.nextId)
    && (forall id | id in h.toplevels && h.toplevels[id].childOf.Some? ::
          1 <= h.toplevels[id].childOf.value < h.nextId && (strict ==> h.toplevels[id].childOf.value != id))
    && (forall i | 0 <= i < |h.log| :: NamesKnown(strict, h.log[i], h.nextId))
  }

  lemma EmitKnows(strict: bool, h: Host, e: HostEvent)
    requires KnownParents(strict, h) && NamesKnown(strict, e, h.nextId)
    ensures KnownParents(strict, h.Emit(e))
  {
  }

  lemma FrameKnows(strict: bool, h: Host, id: SurfaceId, frame: Option<Frame>)
    requires KnownParents(strict, h)
    ensures KnownParents(strict, h.EmitFrame(id, frame))
  {
    if frame.Some? {
      EmitKnows(strict, h, FrameReady(id, frame.value));
    }
  }

  lemma NewSurfaceKnows(strict: bool, h: Host, step: Step)
    requires Inv(h) && KnownParents(strict, h) && Enabled(h, step) && (step.NewToplevel? || step.NewPopup?)
    ensures KnownParents(strict, Apply(h, step))
  {
    if step.NewPopup? && step.parent.Some? {
      assert IdFits(h, step.parent.value);
    }
    var g := Apply(h, step);
    assert forall i | 0 <= i < |g.log| :: NamesKnown(strict, h.log[i], h.nextId) && NamesKnown(strict, g.log[i], g.nextId);
  }

  lemma CommitPopupKnows(strict: bool, h: Host, id: SurfaceId, frame: Option<Frame>)
    requires KnownParents(strict, h) && id in h.popups
    ensures KnownParents(strict, AnnouncePopup(h, id).EmitFrame(id, frame))
  {
    var p := h.popups[id];
    if !p.announced {
      EmitKnows(strict, h.(popups := h.popups[id := p.(announced := true)]), PopupCreated(id, p.parent, p.geometry));
    }
    FrameKnows(strict, AnnouncePopup(h, id), id, frame);
  }

  lemma AdoptKnows(strict: bool, h: Host, id: SurfaceId, parent: Option<SurfaceId>)
    requires KnownParents(strict, h) && id in h.toplevels && (parent.Some? ==> 1 <= parent.value < h.nextId && (strict ==> parent.value != id))
    ensures KnownParents(strict, AdoptParent(h, id, parent))
  {
  }

  lemma RelabelKnows(strict: bool, h: Host, id: SurfaceId, t: Toplevel)
    requires KnownParents(strict, h) && id in h.toplevels && t.childOf == h.toplevels[id].childOf
    ensures KnownParents(strict, h.(toplevels := h.toplevels[id := t]))
  {
  }

  lemma ReportKnows(strict: bool, h: Host, id: SurfaceId, title: Text, appId: Text, frame: Option<Frame>)
    requires KnownParents(strict, h) && id in h.toplevels
    ensures KnownParents(strict, ReportToplevel(h, id, title, appId, frame))
  {
    var t := h.toplevels[id];
    var reported := t.(announced := true, lastTitle := title, lastAppId := appId);
    var h1 := h.(toplevels := h.toplevels[id := reported]);
    RelabelKnows(strict, h, id, reported);
    if t.announced {
      EmitKnows(strict, h1, ToplevelTitleChanged(id, title));
      EmitKnows(strict, if title != t.lastTitle then h1.Emit(ToplevelTitleChanged(id, title)) else h1, ToplevelAppIdChanged(id, appId));
    } else if t.childOf.None? {
      EmitKnows(strict, h1, ToplevelCreated(id, title, appId));
    } else {
      EmitKnows(strict, h1, ChildToplevelCreated(id, t.childOf.value, title, appId, FrameWidth(frame), FrameHeight(frame)));
    }
  }

  lemma CommitToplevelKnows(strict: bool, h: Host, step: Step)
    requires Inv(h) && KnownParents(strict, h) && Enabled(h, step) && step.CommitToplevel? && (strict ==> !AdoptsItself(step))
    ensures KnownParents(strict, Apply(h, step))
  {
    var frame, h1 := CommittedFrame(step.attachment), AdoptParent(h, step.id, step.parent);
    if step.parent.Some? {
      assert IdFits(h, step.parent.value);
    }
    AdoptKnows(strict, h, step.id, step.parent);
    ReportKnows(strict, h1, step.id, step.title, step.appId, frame);
    FrameKnows(strict, ReportToplevel(h1, step.id, step.title, step.appId, frame), step.id, frame);
  }

  lemma RepositionKnows(strict: bool, h: Host, id: SurfaceId, g: Geometry, token: nat)
    requires KnownParents(strict, h)
    ensures KnownParents(strict, RepositionAt(h, id, g, token))
  {
    var h1 := if id in h.popups then h.(popups := h.popups[id := h.popups[id].(geometry := g)]) else h;
    assert KnownParents(strict, h1);
    EmitKnows(strict, h1, PopupRepositioned(id, g, token));
  }

  lemma ClosePopupKnows(strict: bool, h: Host, id: SurfaceId)
    requires KnownParents(strict, h)
    ensures KnownParents(strict, ClosePopup(h, id))
  {
    EmitKnows(strict, h.(popups := h.popups - {id}), PopupClosed(id));
  }

  lemma CloseToplevelKnows(strict: bool, h: Host, id: SurfaceId)
    requires KnownParents(strict, h) && id in h.toplevels
    ensures KnownParents(strict, CloseToplevel(h, id))
  {
    EmitKnows(strict, h.(toplevels := h.toplevels - {id}),
              if h.toplevels[id].childOf.Some? then ChildToplevelClosed(id) else ToplevelClosed(id));
  }

  lemma {:induction false} ClosePopupsKnows(strict: bool, h: Host, dead: seq<SurfaceId>)
    requires KnownParents(strict, h)
    ensures KnownParents(strict, ClosePopups(h, dead))
    decreases |dead|
  {
    if dead != [] {
      ClosePopupsKnows(strict, h, dead[..|dead| - 1]);
      ClosePopupKnows(strict, ClosePopups(h, dead[..|dead| - 1]), dead[|dead| - 1]);
    }
  }

  lemma {:induction false} CloseToplevelsKnows(strict: bool, h: Host, dead: seq<SurfaceId>)
    requires KnownParents(strict, h) && Distinct(dead) && forall id | id in dead :: id in h.toplevels
    ensures KnownParents(strict, CloseToplevels(h, dead))
    decreases |dead|
  {
    if dead != [] {
      var front, last := dead[..|dead| - 1], dead[|dead| - 1];
      assert dead == front + [last];
      CloseToplevelsKnows(strict, h, front);
      CloseToplevelKnows(strict, CloseToplevels(h, front), last);
    }
  }

  lemma CursorStepKnows(strict: bool, h: Host, step: Step)
    requires KnownParents(strict, h) && Enabled(h, step) && (step.CommitCursor? || step.SetCursor?)
    ensures KnownParents(strict, Apply(h, step))
  {
    match step
    case CommitCursor(_, attachment) =>
      var bitmap := CursorBitmapOf(attachment);
      if bitmap.Some? {
        EmitKnows(strict, h, CursorBitmap(h.cursorFocus, bitmap.value));
      }
    case SetCursor(image, focus) =>
      var h1 := h.(cursorFocus := focus);
      match image {
        case Named(name) => EmitKnows(strict, h1.(cursorSurface := None), CursorShape(focus, name));
        case Hidden => EmitKnows(strict, h1.(cursorSurface := None), CursorShape(focus, "none"));
        case Surface(_) =>
      }
  }

  lemma StepKnows(strict: bool, h: Host, step: Step)
    requires Inv(h) && KnownParents(strict, h) && Enabled(h, step) && (strict ==> !AdoptsItself(step))
    ensures KnownParents(strict, Apply(h, step))
  {
    match step
    case NewToplevel(_) => NewSurfaceKnows(strict, h, step);
    case NewPopup(_, _, _, _, _) => NewSurfaceKnows(strict, h, step);
    case CommitCursor(_, _) => CursorStepKnows(strict, h, step);
    case CommitPopup(_, id, attachment) => CommitPopupKnows(strict, h, id, CommittedFrame(attachment));
    case CommitToplevel(_, _, _, _, _, _, _) => CommitToplevelKnows(strict, h, step);
    case CommitUntracked(_) =>
    case Reposition(_, target, placement, token) =>
      if target.Some? {
        RepositionKnows(strict, h, target.value, GeometryOf(placement), token);
      }
    case PopupDestroyed(_, target) =>
      if target.Some? {
        ClosePopupKnows(strict, h, target.value);
      }
    case ToplevelDestroyed(_, target) =>
      if target.Some? {
        CloseToplevelKnows(strict, h, target.value);
      }
    case ReapPopups(dead) => ClosePopupsKnows(strict, h, dead);
    case ReapToplevels(dead) => CloseToplevelsKnows(strict, h, dead);
    case SetCursor(_, _) => CursorStepKnows(strict, h, step);
  }

  /** In every run, a creation only names a parent whose id has been handed out, a popup only one that was
      handed out before its own, and a child toplevel never itself unless the toolkit said so. */
  lemma {:induction false} ParentsAreKnown(strict: bool, trace: seq<Host>, steps: seq<Step>, n: nat)
    requires IsRun(trace, steps) && n <= |steps|
    requires strict ==> forall i | 0 <= i < n :: !AdoptsItself(steps[i])
    ensures KnownParents(strict, trace[n])
  {
    if n > 0 {
      ParentsAreKnown(strict, trace, steps, n - 1);
      RunKeepsInv(trace, steps, n - 1);
      StepKnows(strict, trace[n - 1], steps[n - 1]);
    }
  }

  /** And when the log has it open: exactly while it is tracked and announced. Otherwise the log has not
      created it, or has closed it; an unannounced or forgotten parent can be named. */
  lemma ParentIsLiveIff(trace: seq<Host>, steps: seq<Step>, n: nat, parent: SurfaceId)
    requires IsRun(trace, steps) && n <= |steps|
    ensures var h := trace[n];
      PhaseOf(h.log, parent).Live? <==>
        (parent in h.toplevels && h.toplevels[parent].announced) || (parent in h.popups && h.popups[parent].announced)
  {
    RunKeepsInv(trace, steps, n);
    assert IdFits(trace[n], parent) && PhaseFits(trace[n], parent);
  }

  /** A popup committed before its parent's first commit names a parent that the log never creates. */
  lemma ParentNeverCreated() returns (trace: seq<Host>, steps: seq<Step>)
    ensures IsRun(trace, steps) && trace[|steps|].log == [PopupCreated(2, 1, Geometry(0, 0, 1, 1))]
  {
    steps := [NewToplevel(7), NewPopup(8, Some(7), Some(1), Placement(0, 0, 1, 1), true), CommitPopup(8, 2, Nothing)];
    var h1 := Apply(INITIAL, steps[0]);
    assert IsToplevelOf(h1, 7, 1);
    var h2 := Apply(h1, steps[1]);
    trace := [INITIAL, h1, h2, Apply(h2, steps[2])];
  }

  /** The toolkit would have to name the committing surface itself as its parent. */
  lemma OwnParent() returns (trace: seq<Host>, steps: seq<Step>)
    ensures |steps| == 2 && IsRun(trace, steps) && AdoptsItself(steps[1])
    ensures |trace[2].log| == 2 && trace[2].log[0] == ChildToplevelCreated(1, 1, None, None, 1, 1)
  {
    steps := [NewToplevel(7), CommitToplevel(7, 1, None, None, Some(7), Some(1), DmabufBuffer(1, 1, 1, true))];
    var h1 := Apply(INITIAL, steps[0]);
    assert IsToplevelOf(h1, 7, 1);
    trace := [INITIAL, h1, Apply(h1, steps[1])];
  }

  // ------------------------------------------------------------ the handlers

  /** The step is one for this very commit. */
  predicate IsCommit(step: Step, surface: Wl, title: Text, appId: Text, parentSurface: Option<Wl>, attachment: Attachment) {
    match step
    case CommitCursor(_, _) => step.surface == surface && step.attachment == attachment
    case CommitPopup(_, _, _) => step.surface == surface && step.attachment == attachment
    case CommitToplevel(_, _, _, _, _, _, _) =>
      && step.surface == surface && step.attachment == attachment
      && step.title == title && step.appId == appId && step.parentSurface == parentSurface
    case CommitUntracked(_) => step.surface == surface
    case _ => false
  }

  /** The handlers themselves. Each one hands back the step it took as a ghost, and its new state is
      that step applied to the old one. */
  class State {
    var toplevels: map<SurfaceId, Toplevel>
    var popups: map<SurfaceId, Popup>
    var cursorSurface: Option<Wl>
    var cursorFocus: Option<SurfaceId>
    var nextSurfaceId: nat
    var events: seq<HostEvent>

    function Model(): Host
      reads this
    {
      Host(toplevels, popups, cursorSurface, cursorFocus, nextSurfaceId, events)
    }

    constructor ()
      ensures Model() == INITIAL
    {
      toplevels, popups, cursorSurface, cursorFocus, nextSurfaceId, events := map[], map[], None, None, 1, [];
    }

    method Emit(e: HostEvent)
      modifies this`events
      ensures Model() == old(Model()).Emit(e)
    {
      events := events + [e];
    }

    method AllocateSurfaceId() returns (id: SurfaceId)
      modifies this`nextSurfaceId
      ensures id == old(nextSurfaceId) && nextSurfaceId == id + 1
    {
      id := nextSurfaceId;
      nextSurfaceId := nextSurfaceId + 1;
    }

    method FindToplevel(wl: Wl) returns (id: Option<SurfaceId>)
      ensures if id.Some? then IsToplevelOf(Model(), wl, id.value) else !TracksToplevel(Model(), wl)
    {
      var matches := set i | i in toplevels && toplevels[i].surface == wl;
      assert forall i | i in toplevels && toplevels[i].surface == wl :: i in matches;
      if matches == {} {
        return None;
      }
      var i :| i in matches;
      return Some(i);
    }

    method FindPopup(wl: Wl) returns (id: Option<SurfaceId>)
      ensures if id.Some? then IsPopupOf(Model(), wl, id.value) else !TracksPopup(Model(), wl)
    {
      var matches := set i | i in popups && popups[i].surface == wl;
      assert forall i | i in popups && popups[i].surface == wl :: i in matches;
      if matches == {} {
        return None;
      }
      var i :| i in matches;
      return Some(i);
    }

    method SurfaceIdForWl(wl: Wl) returns (id: Option<SurfaceId>)
      ensures Resolves(Model(), wl, id)
    {
      id := FindToplevel(wl);
      if id.None? {
        id := FindPopup(wl);
      }
    }

    method OnNewToplevel(surface: Wl) returns (ghost step: Step)
      modifies this
      ensures step == Step.NewToplevel(surface)
      ensures Enabled(old(Model()), step) && Model() == Apply(old(Model()), step)
    {
      step := Step.NewToplevel(surface);
      var id := AllocateSurfaceId();
      toplevels := toplevels[id := Toplevel(surface, false, None, None, None)];
    }

    method OnNewPopup(surface: Wl, parentSurface: Option<Wl>, placement: Placement, configured: bool)
      returns (ghost step: Step)
      modifies this
      ensures step.NewPopup? && step.surface == surface && step.parentSurface == parentSurface
      ensures step.NewPopup? && step.placement == placement && step.configured == configured
      ensures Enabled(old(Model()), step) && Model() == Apply(old(Model()), step)
    {
      var id := AllocateSurfaceId();
      if parentSurface.None? {
        step := Step.NewPopup(surface, None, None, placement, configured);
        return;
      }
      var parent := SurfaceIdForWl(parentSurface.value);
      step := Step.NewPopup(surface, parentSurface, parent, placement, configured);
      if parent.None? {
        return;
      }
      var geometry := GeometryOf(placement);
      if !configured {
        return;
      }
      popups := popups[id := Popup(surface, parent.value, geometry, false)];
    }

    method OnCommit(surface: Wl, title: Text, appId: Text, parentSurface: Option<Wl>, attachment: Attachment)
      returns (ghost step: Step)
      modifies this
      ensures IsCommit(step, surface, title, appId, parentSurface, attachment)
      ensures Enabled(old(Model()), step) && Model() == Apply(old(Model()), step)
    {
      if cursorSurface == Some(surface) {
        step := CommitCursor(surface, attachment);
        CommitCursorImage(attachment);
        return;
      }
      var popup := FindPopup(surface);
      if popup.Some? {
        step := CommitPopup(surface, popup.value, attachment);
        CommitToPopup(popup.value, attachment);
        return;
      }
      var toplevel := FindToplevel(surface);
      if toplevel.None? {
        step := CommitUntracked(surface);
        return;
      }
      var parent := None;
      if parentSurface.Some? {
        parent := SurfaceIdForWl(parentSurface.value);
      }
      step := CommitToplevel(surface, toplevel.value, title, appId, parentSurface, parent, attachment);
      CommitToToplevel(toplevel.value, title, appId, parent, attachment);
    }

    method CommitCursorImage(attachment: Attachment)
      modifies this`events
      ensures Model() ==
        if CursorBitmapOf(attachment).Some? then old(Model()).Emit(CursorBitmap(cursorFocus, CursorBitmapOf(attachment).value))
        else old(Model())
    {
      var bitmap := CursorBitmapOf(attachment);
      if bitmap.Some? {
        Emit(CursorBitmap(cursorFocus, bitmap.value));
      }
    }

    method CommitToPopup(id: SurfaceId, attachment: Attachment)
      requires id in popups
      modifies this`popups, this`events
      ensures Model() == AnnouncePopup(old(Model()), id).EmitFrame(id, CommittedFrame(attachment))
    {
      if !popups[id].announced {
        popups := popups[id := popups[id].(announced := true)];
        Emit(PopupCreated(id, popups[id].parent, popups[id].geometry));
      }
      var frame := CommittedFrame(attachment);
      if frame.Some? {
        Emit(FrameReady(id, frame.value));
      }
    }

    method CommitToToplevel(id: SurfaceId, title: Text, appId: Text, parent: Option<SurfaceId>, attachment: Attachment)
      requires id in toplevels
      modifies this`toplevels, this`events
      ensures var frame := CommittedFrame(attachment);
        Model() == ReportToplevel(AdoptParent(old(Model()), id, parent), id, title, appId, frame).EmitFrame(id, frame)
    {
      ghost var h := Model();
      if !toplevels[id].announced && toplevels[id].childOf.None? && parent.Some? {
        toplevels := toplevels[id := toplevels[id].(childOf := parent)];
      }
      assert Model() == AdoptParent(h, id, parent);
      var frame := CommittedFrame(attachment);
      ReportCommit(id, title, appId, frame);
      if frame.Some? {
        Emit(FrameReady(id, frame.value));
      }
    }

    /** The announcing half of a toplevel commit. */
    method ReportCommit(id: SurfaceId, title: Text, appId: Text, frame: Option<Frame>)
      requires id in toplevels
      modifies this`toplevels, this`events
      ensures Model() == ReportToplevel(old(Model()), id, title, appId, frame)
    {
      ghost var h := Model();
      var tracked := toplevels[id];
      if !tracked.announced {
        if tracked.childOf.Some? {
          var w, hgt := FrameWidth(frame), FrameHeight(frame);
          if w > 0 && hgt > 0 {
            toplevels := toplevels[id := tracked.(announced := true, lastTitle := title, lastAppId := appId)];
            Emit(ChildToplevelCreated(id, tracked.childOf.value, title, appId, w, hgt));
          }
        } else {
          toplevels := toplevels[id := tracked.(announced := true, lastTitle := title, lastAppId := appId)];
          Emit(ToplevelCreated(id, title, appId));
        }
      } else {
        TitleThenAppId(h, id, title, appId, frame);
        if title != toplevels[id].lastTitle {
          toplevels := toplevels[id := toplevels[id].(lastTitle := title)];
          Emit(ToplevelTitleChanged(id, title));
        }
        assert toplevels == h.toplevels[id := h.toplevels[id].(lastTitle := title)];
        if appId != toplevels[id].lastAppId {
          toplevels := toplevels[id := toplevels[id].(lastAppId := appId)];
          Emit(ToplevelAppIdChanged(id, appId));
        }
        assert toplevels == WithAppId(WithTitle(h, id, title), id, appId).toplevels;
      }
    }

    method OnReposition(surface: Wl, placement: Placement, token: nat) returns (ghost step: Step)
      modifies this
      ensures step.Reposition? && step == Step.Reposition(surface, step.target, placement, token)
      ensures Enabled(old(Model()), step) && Model() == Apply(old(Model()), step)
    {
      var target := SurfaceIdForWl(surface);
      step := Step.Reposition(surface, target, placement, token);
      if target.None? {
        return;
      }
      var id := target.value;
      var geometry := GeometryOf(placement);
      if id in popups {
        popups := popups[id := popups[id].(geometry := geometry)];
      }
      Emit(PopupRepositioned(id, geometry, token));
    }

    method OnPopupDestroyed(surface: Wl) returns (ghost step: Step)
      modifies this
      ensures step.PopupDestroyed? && step.surface == surface
      ensures Enabled(old(Model()), step) && Model() == Apply(old(Model()), step)
    {
      var target := FindPopup(surface);
      step := Step.PopupDestroyed(surface, target);
      if target.Some? {
        popups := popups - {target.value};
        Emit(PopupClosed(target.value));
      }
    }

    method OnToplevelDestroyed(surface: Wl) returns (ghost step: Step)
      modifies this
      ensures step.ToplevelDestroyed? && step.surface == surface
      ensures Enabled(old(Model()), step) && Model() == Apply(old(Model()), step)
    {
      var target := FindToplevel(surface);
      step := Step.ToplevelDestroyed(surface, target);
      if target.Some? {
        var id := target.value;
        var childOf := toplevels[id].childOf;
        toplevels := toplevels - {id};
        if childOf.Some? {
          Emit(ChildToplevelClosed(id));
        } else {
          Emit(ToplevelClosed(id));
        }
      }
    }

    method ReapDeadPopups(alive: set<Wl>) returns (ghost step: Step)
      modifies this
      ensures step.ReapPopups?
      ensures forall id :: id in step.dead <==> id in old(popups) && old(popups)[id].surface !in alive
      ensures Enabled(old(Model()), step) && Model() == Apply(old(Model()), step)
    {
      var dead := Listing(set id | id in popups && popups[id].surface !in alive);
      step := ReapPopups(dead);
      for i := 0 to |dead|
        invariant Model() == ClosePopups(old(Model()), dead[..i])
      {
        assert dead[..i + 1][..i] == dead[..i];
        popups := popups - {dead[i]};
        Emit(PopupClosed(dead[i]));
      }
      assert dead[..|dead|] == dead;
    }

    method ReapDeadToplevels(alive: set<Wl>) returns (ghost step: Step)
      modifies this
      ensures step.ReapToplevels?
      ensures forall id :: id in step.dead <==> id in old(toplevels) && old(toplevels)[id].surface !in alive
      ensures Enabled(old(Model()), step) && Model() == Apply(old(Model()), step)
    {
      var dead := Listing(set id | id in toplevels && toplevels[id].surface !in alive);
      step := ReapToplevels(dead);
      ghost var h := Model();
      for i := 0 to |dead|
        invariant Distinct(dead[..i]) && (forall id | id in dead[..i] :: id in h.toplevels) && Model() == CloseToplevels(h, dead[..i])
      {
        OneMoreClosed(h, dead, i);
        var childOf := toplevels[dead[i]].childOf;
        toplevels := toplevels - {dead[i]};
        if childOf.Some? {
          Emit(ChildToplevelClosed(dead[i]));
        } else {
          Emit(ToplevelClosed(dead[i]));
        }
      }
      assert dead[..|dead|] == dead;
    }

    method OnCursorImage(image: CursorImage, focusSurface: Option<Wl>) returns (ghost step: Step)
      modifies this
      ensures step.SetCursor? && step.image == image && ResolvesOpt(old(Model()), focusSurface, step.focus)
      ensures Enabled(old(Model()), step) && Model() == Apply(old(Model()), step)
    {
      var focus := None;
      if focusSurface.Some? {
        focus := SurfaceIdForWl(focusSurface.value);
      }
      step := SetCursor(image, focus);
      cursorFocus := focus;
      match image
      case Named(name) =>
        cursorSurface := None;
        Emit(CursorShape(focus, name));
      case Hidden =>
        cursorSurface := None;
        Emit(CursorShape(focus, "none"));
      case Surface(surface) =>
        cursorSurface := Some(surface);
    }
  }

  lemma OneMoreClosed(h: Host, dead: seq<SurfaceId>, i: nat)
    requires Distinct(dead) && (forall id | id in dead :: id in h.toplevels) && i < |dead|
    ensures Distinct(dead[..i]) && Distinct(dead[..i + 1])
    ensures forall id | id in dead[..i + 1] :: id in h.toplevels
    ensures dead[i] in CloseToplevels(h, dead[..i]).toplevels
    ensures CloseToplevels(h, dead[..i + 1]) == CloseToplevel(CloseToplevels(h, dead[..i]), dead[i])
  {
    var front := dead[..i];
    assert dead[..i + 1][..i] == front && dead[..i + 1] == front + [dead[i]];
    assert dead[i] in dead && dead[i] !in front;
    assert CloseToplevels(h, front).toplevels == h.toplevels - (set x | x in front);
  }

  /** The members of a set in some order, as a hash map would list them. */
  method Listing(s: set<SurfaceId>) returns (ids: seq<SurfaceId>)
    ensures Distinct(ids) && forall id :: id in ids <==> id in s
  {
    var rest := s;
    ids := [];
    while rest != {}
      invariant Distinct(ids) && rest <= s
      invariant forall id :: id in ids <==> id in s - rest
    {
      var id :| id in rest;
      assert id !in ids;
      ids := ids + [id];
      rest := rest - {id};
    }
  }
}
