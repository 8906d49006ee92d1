/** What the cockpit sees of the surfaces, as a function of the calls that the host received: a reader of the
    event log knows each surface as the client last left it. */
module SurfaceHistory {
  import opened ShmCopy
  import opened SurfaceHost
  import opened Wrappers

  // ------------------------------------------------------------------ history

  /** What the calls so far say of one id. A toplevel has the parent that its first commit found, and the title
      and app id of its last commit; a popup has the last placement given to it. */
  datatype Record =
    | Untracked
    | Top(committed: bool, framed: bool, childOf: Option<SurfaceId>, title: Text, appId: Text)
    | Pop(committed: bool, parent: SurfaceId, placement: Placement)

  /** How many ids have been handed out: one for each new toplevel and popup, dropped popups included. */
  function Allocated(steps: seq<Step>): nat {
    if steps == [] then 0
    else
      var last := steps[|steps| - 1];
      Allocated(steps[..|steps| - 1]) + if last.NewToplevel? || last.NewPopup? then 1 else 0
  }

  function NextRecord(r: Record, ids: nat, step: Step, id: SurfaceId): Record {
    match step
    case NewToplevel(_) => if id == ids + 1 then Top(false, false, None, None, None) else r
    case NewPopup(_, _, parent, placement, configured) =>
      if id == ids + 1 && parent.Some? && configured then Pop(false, parent.value, placement) else r
    case CommitToplevel(_, i, title, appId, _, parent, attachment) =>
      if i == id && r.Top? then
        Top(true, r.framed || HasFrame(attachment), if r.committed then r.childOf else parent, title, appId)
      else r
    case CommitPopup(_, i, _) => if i == id && r.Pop? then r.(committed := true) else r
    case Reposition(_, target, placement, _) => if target == Some(id) && r.Pop? then r.(placement := placement) else r
    case PopupDestroyed(_, target) => if target == Some(id) then Untracked else r
    case ToplevelDestroyed(_, target) => if target == Some(id) then Untracked else r
    case ReapPopups(dead) => if id in dead then Untracked else r
    case ReapToplevels(dead) => if id in dead then Untracked else r
    case _ => r
  }

  function History(steps: seq<Step>, id: SurfaceId): Record {
    if steps == [] then Untracked
    else
      var front := steps[..|steps| - 1];
      NextRecord(History(front, id), Allocated(front), steps[|steps| - 1], id)
  }

  /** The size of what a commit attached, if the host can show it. */
  function SizeOf(a: Attachment): Option<(nat, nat)> {
    match a
    case DmabufBuffer(planes, width, height, exportable) =>
      if planes == 1 && exportable && width > 0 && height > 0 then Some((width, height)) else None
    case ShmBuffer(mem, meta) => if Copyable(|mem|, meta) then Some((meta.width, meta.height)) else None
    case _ => None
  }

  predicate HasFrame(a: Attachment) {
    SizeOf(a).Some?
  }

  predicate IsFrameOf(f: Frame, a: Attachment) {
    match f
    case Dmabuf(width, height) => a.DmabufBuffer? && SizeOf(a) == Some((width, height))
    case Shm(bitmap) => a.ShmBuffer? && CopyOf(a.mem, a.meta, false) == Some(bitmap) && SizeOf(a) == Some((bitmap.width, bitmap.height))
  }

  /** The rectangle as placed, no side below 1. */
  predicate Places(g: Geometry, p: Placement) {
    && g.x == p.x && g.y == p.y
    && (p.width >= 1 ==> g.width == p.width) && (p.width < 1 ==> g.width == 1)
    && (p.height >= 1 ==> g.height == p.height) && (p.height < 1 ==> g.height == 1)
  }

  predicate OnDisplay(r: Record) {
    match r
    case Untracked => false
    case Top(committed, framed, childOf, _, _) => committed && (childOf.None? || framed)
    case Pop(committed, _, _) => committed
  }

  /** What a reader should believe of a surface with this history. */
  predicate Shows(s: Option<Shown>, r: Record) {
    if !OnDisplay(r) then s.None?
    else if r.Top? then s == Some(Window(r.childOf.Some?, r.title, r.appId))
    else s.Some? && s.value.Overlay? && Places(s.value.geometry, r.placement)
  }

  // ------------------------------------------------------- the host keeps to it

  /** What the host stores of `id` is its history. */
  predicate Keeps(h: Host, id: SurfaceId, r: Record) {
    && (id in h.toplevels <==> r.Top?) && (id in h.popups <==> r.Pop?)
    && (r.Top? ==>
          var t := h.toplevels[id];
          && t.childOf == r.childOf && t.announced == OnDisplay(r) && (!r.committed ==> r.childOf.None? && !r.framed)
          && (t.announced ==> t.lastTitle == r.title && t.lastAppId == r.appId))
    && (r.Pop? ==>
          var p := h.popups[id];
          p.announced == r.committed && p.parent == r.parent && Places(p.geometry, r.placement))
  }

  lemma FrameHasSize(a: Attachment)
    ensures CommittedFrame(a).Some? <==> HasFrame(a)
    ensures CommittedFrame(a).Some? ==>
      && IsFrameOf(CommittedFrame(a).value, a)
      && SizeOf(a) == Some((FrameWidth(CommittedFrame(a)), FrameHeight(CommittedFrame(a))))
  {
  }

  lemma CommitToplevelKeeps(h: Host, step: Step, r: Record, ids: nat)
    requires Enabled(h, step) && step.CommitToplevel? && Keeps(h, step.id, r)
    ensures Keeps(Apply(h, step), step.id, NextRecord(r, ids, step, step.id))
  {
    var frame, h1, g := CommittedFrame(step.attachment), AdoptParent(h, step.id, step.parent), Apply(h, step);
    assert step.id in h.toplevels && r.Top?;
    assert r.committed && r.childOf.None? ==> h.toplevels[step.id].announced;
    FrameHasSize(step.attachment);
    ReportTracksNothing(h1, step.id, step.title, step.appId, frame);
    assert g.toplevels == ReportToplevel(h1, step.id, step.title, step.appId, frame).toplevels;
    assert h1.toplevels[step.id].childOf == if r.committed then r.childOf else step.parent;
    assert h1.toplevels[step.id].announced == OnDisplay(r);
    assert g.popups == h.popups && g.toplevels[step.id].childOf == h1.toplevels[step.id].childOf;
    assert OnDisplay(r) ==> g.toplevels[step.id].announced;
    assert g.toplevels[step.id].announced ==> g.toplevels[step.id].lastTitle == step.title;
    assert g.toplevels[step.id].announced == OnDisplay(NextRecord(r, ids, step, step.id));
  }

  lemma CommitElsewhere(h: Host, step: Step, id: SurfaceId)
    requires Enabled(h, step) && step.CommitToplevel? && id != step.id
    ensures var g := Apply(h, step);
      && (id in g.toplevels <==> id in h.toplevels) && (id in h.toplevels ==> g.toplevels[id] == h.toplevels[id])
      && g.popups == h.popups
  {
    ReportTracksNothing(AdoptParent(h, step.id, step.parent), step.id, step.title, step.appId, CommittedFrame(step.attachment));
  }

  lemma CommitKeepsNextId(h: Host, step: Step)
    requires Enabled(h, step) && step.CommitToplevel?
    ensures Apply(h, step).nextId == h.nextId
  {
    ReportTracksNothing(AdoptParent(h, step.id, step.parent), step.id, step.title, step.appId, CommittedFrame(step.attachment));
  }

  lemma NewSurfaceKeeps(h: Host, step: Step, id: SurfaceId, r: Record, ids: nat)
    requires Enabled(h, step) && (step.NewToplevel? || step.NewPopup?) && IdFits(h, id) && Keeps(h, id, r) && h.nextId == ids + 1
    ensures Keeps(Apply(h, step), id, NextRecord(r, ids, step, id))
  {
  }

  lemma ReapKeeps(h: Host, step: Step, id: SurfaceId, r: Record, ids: nat)
    requires Enabled(h, step) && (step.ReapPopups? || step.ReapToplevels?) && IdFits(h, id) && Keeps(h, id, r)
    ensures Keeps(Apply(h, step), id, NextRecord(r, ids, step, id)) && Apply(h, step).nextId == h.nextId
  {
    if step.ReapPopups? {
      ClosePopupsRemoves(h, step.dead);
      ClosePopupsLeaveToplevels(h, step.dead);
      ReapKeepsNextId(h, step.dead);
    } else {
      CloseToplevelsLeavePopups(h, step.dead);
      ReapToplevelsKeepsNextId(h, step.dead);
    }
  }

  lemma SmallStepKeeps(h: Host, step: Step, id: SurfaceId, r: Record, ids: nat)
    requires Enabled(h, step) && IdFits(h, id) && Keeps(h, id, r)
    requires step.CommitPopup? || step.Reposition? || step.PopupDestroyed? || step.ToplevelDestroyed?
    ensures Keeps(Apply(h, step), id, NextRecord(r, ids, step, id)) && Apply(h, step).nextId == h.nextId
  {
  }

  /** Each call changes what is stored of an id as it changes its history. */
  lemma StepKeepsRecord(h: Host, step: Step, id: SurfaceId, r: Record, ids: nat)
    requires Inv(h) && Enabled(h, step) && Keeps(h, id, r) && h.nextId == ids + 1
    ensures Keeps(Apply(h, step), id, NextRecord(r, ids, step, id))
    ensures Apply(h, step).nextId == ids + 1 + if step.NewToplevel? || step.NewPopup? then 1 else 0
  {
    assert IdFits(h, id);
    match step
    case NewToplevel(_) => NewSurfaceKeeps(h, step, id, r, ids);
    case NewPopup(_, _, _, _, _) => NewSurfaceKeeps(h, step, id, r, ids);
    case CommitToplevel(_, i, _, _, _, _, _) =>
      CommitKeepsNextId(h, step);
      if i == id {
        CommitToplevelKeeps(h, step, r, ids);
      } else {
        CommitElsewhere(h, step, id);
      }
    case CommitPopup(_, _, _) => SmallStepKeeps(h, step, id, r, ids);
    case Reposition(_, _, _, _) => SmallStepKeeps(h, step, id, r, ids);
    case PopupDestroyed(_, _) => SmallStepKeeps(h, step, id, r, ids);
    case ToplevelDestroyed(_, _) => SmallStepKeeps(h, step, id, r, ids);
    case ReapPopups(_) => ReapKeeps(h, step, id, r, ids);
    case ReapToplevels(_) => ReapKeeps(h, step, id, r, ids);
    case _ =>
  }

  lemma {:induction false} ReapKeepsNextId(h: Host, dead: seq<SurfaceId>)
    ensures ClosePopups(h, dead).nextId == h.nextId
    decreases |dead|
  {
    if dead != [] {
      ReapKeepsNextId(h, dead[..|dead| - 1]);
    }
  }

  lemma {:induction false} ReapToplevelsKeepsNextId(h: Host, dead: seq<SurfaceId>)
    requires Distinct(dead) && forall id | id in dead :: id in h.toplevels
    ensures CloseToplevels(h, dead).nextId == h.nextId
    decreases |dead|
  {
    if dead != [] {
      assert dead == dead[..|dead| - 1] + [dead[|dead| - 1]];
      ReapToplevelsKeepsNextId(h, dead[..|dead| - 1]);
    }
  }

  lemma {:induction false} RunKeepsRecord(trace: seq<Host>, steps: seq<Step>, n: nat, id: SurfaceId)
    requires IsRun(trace, steps) && n <= |steps|
    ensures Keeps(trace[n], id, History(steps[..n], id)) && trace[n].nextId == Allocated(steps[..n]) + 1
  {
    if n > 0 {
      RunKeepsRecord(trace, steps, n - 1, id);
      RunKeepsInv(trace, steps, n - 1);
      assert steps[..n][..n - 1] == steps[..n - 1];
      StepKeepsRecord(trace[n - 1], steps[n - 1], id, History(steps[..n - 1], id), Allocated(steps[..n - 1]));
    }
  }

  /** In every run, replaying the log shows each surface exactly as the calls alone say: whether it is there, as
      a window or as a child, with the title and app id of its last commit; or as a popup, where it was last
      placed. */
  lemma ReplayIsHistory(trace: seq<Host>, steps: seq<Step>, n: nat, id: SurfaceId)
    requires IsRun(trace, steps) && n <= |steps|
    ensures Shows(Get(Replay(trace[n].log), id), History(steps[..n], id))
  {
    EveryRun(trace, steps, n);
    RunKeepsRecord(trace, steps, n, id);
    RunKeepsInv(trace, steps, n);
    assert IdFits(trace[n], id);
    assert Get(Replay(trace[n].log), id) == Entry(trace[n], id);
  }

  // ------------------------------------------------------- what each call says

  /** The names a commit announces: a surface that comes on display is created with its title and app id, one
      that is on display is told what has changed. */
  function NamesTold(before: Record, after: Record, step: Step): seq<HostEvent>
    requires step.CommitToplevel? && before.Top? && after.Top?
  {
    var id, title, appId, size := step.id, step.title, step.appId, SizeOf(step.attachment).GetOr((0, 0));
    if !OnDisplay(after) then []
    else if !OnDisplay(before) then
      [if after.childOf.Some? then ChildToplevelCreated(id, after.childOf.value, title, appId, size.0, size.1)
       else ToplevelCreated(id, title, appId)]
    else
      (if title != before.title then [ToplevelTitleChanged(id, title)] else [])
      + if appId != before.appId then [ToplevelAppIdChanged(id, appId)] else []
  }

  /** The frame of the attachment is handed on, if the host can show it. */
  predicate FrameTold(id: SurfaceId, a: Attachment, told: seq<HostEvent>) {
    if HasFrame(a) then |told| == 1 && told[0].FrameReady? && told[0].id == id && IsFrameOf(told[0].frame, a) else told == []
  }

  predicate PopupTold(before: Record, id: SurfaceId, told: seq<HostEvent>)
    requires before.Pop?
  {
    if before.committed then told == []
    else |told| == 1 && told[0].PopupCreated? && told[0].id == id && told[0].parent == before.parent && Places(told[0].geometry, before.placement)
  }

  function ClosingOf(before: Record, id: SurfaceId): HostEvent {
    if before.Pop? then PopupClosed(id) else if before.Top? && before.childOf.Some? then ChildToplevelClosed(id) else ToplevelClosed(id)
  }

  /** What the cursor image is said to be: with the surface that had the focus at the last cursor change. */
  predicate CursorTold(focus: Option<SurfaceId>, a: Attachment, told: seq<HostEvent>) {
    if a.ShmBuffer? && Copyable(|a.mem|, a.meta) then
      |told| == 1 && told[0].CursorBitmap? && told[0].focus == focus && CopyOf(a.mem, a.meta, true) == Some(told[0].bitmap)
    else told == []
  }

  function FocusOf(steps: seq<Step>): Option<SurfaceId> {
    if steps == [] then None
    else if steps[|steps| - 1].SetCursor? then steps[|steps| - 1].focus
    else FocusOf(steps[..|steps| - 1])
  }

  lemma CommitToplevelTells(h: Host, step: Step, r: Record, ids: nat) returns (names: seq<HostEvent>, frames: seq<HostEvent>)
    requires Enabled(h, step) && step.CommitToplevel? && Keeps(h, step.id, r)
    ensures Apply(h, step).log == h.log + (names + frames)
    ensures r.Top? && names == NamesTold(r, NextRecord(r, ids, step, step.id), step) && FrameTold(step.id, step.attachment, frames)
  {
    var frame, h1 := CommittedFrame(step.attachment), AdoptParent(h, step.id, step.parent);
    assert step.id in h.toplevels && r.Top?;
    assert r.committed && r.childOf.None? ==> h.toplevels[step.id].announced;
    FrameHasSize(step.attachment);
    names := NamesTold(r, NextRecord(r, ids, step, step.id), step);
    frames := if frame.Some? then [FrameReady(step.id, frame.value)] else [];
    ReportTells(h1, step.id, step.title, step.appId, frame);
    assert ReportToplevel(h1, step.id, step.title, step.appId, frame).log == h.log + names;
    assert h.log + names + frames == h.log + (names + frames);
  }

  lemma ReportTells(h: Host, id: SurfaceId, title: Text, appId: Text, frame: Option<Frame>)
    requires id in h.toplevels
    ensures var t := h.toplevels[id];
      ReportToplevel(h, id, title, appId, frame).log == h.log +
        if t.announced then
          (if title != t.lastTitle then [ToplevelTitleChanged(id, title)] else [])
          + if appId != t.lastAppId then [ToplevelAppIdChanged(id, appId)] else []
        else if t.childOf.None? then [ToplevelCreated(id, title, appId)]
        else if FrameWidth(frame) > 0 && FrameHeight(frame) > 0 then
          [ChildToplevelCreated(id, t.childOf.value, title, appId, FrameWidth(frame), FrameHeight(frame))]
        else []
  {
  }

  lemma CommitPopupTells(h: Host, step: Step, r: Record) returns (made: seq<HostEvent>, frames: seq<HostEvent>)
    requires Enabled(h, step) && step.CommitPopup? && Keeps(h, step.id, r)
    ensures Apply(h, step).log == h.log + (made + frames)
    ensures r.Pop? && PopupTold(r, step.id, made) && FrameTold(step.id, step.attachment, frames)
  {
    var frame, p := CommittedFrame(step.attachment), h.popups[step.id];
    FrameHasSize(step.attachment);
    made := if p.announced then [] else [PopupCreated(step.id, p.parent, p.geometry)];
    frames := if frame.Some? then [FrameReady(step.id, frame.value)] else [];
    assert AnnouncePopup(h, step.id).log == h.log + made;
    assert h.log + made + frames == h.log + (made + frames);
  }

  lemma {:induction false} ReapPopupsTells(h: Host, dead: seq<SurfaceId>)
    ensures ClosePopups(h, dead).log == h.log + seq(|dead|, i requires 0 <= i < |dead| => PopupClosed(dead[i]))
    decreases |dead|
  {
    if dead != [] {
      ReapPopupsTells(h, dead[..|dead| - 1]);
    }
  }

  lemma {:induction false} ReapToplevelsTells(h: Host, dead: seq<SurfaceId>)
    requires Distinct(dead) && forall id | id in dead :: id in h.toplevels
    ensures CloseToplevels(h, dead).log == h.log + seq(|dead|, i requires 0 <= i < |dead| =>
      if h.toplevels[dead[i]].childOf.Some? then ChildToplevelClosed(dead[i]) else ToplevelClosed(dead[i]))
    decreases |dead|
  {
    if dead != [] {
      var front, last := dead[..|dead| - 1], dead[|dead| - 1];
      assert dead == front + [last];
      ReapToplevelsTells(h, front);
      assert last !in (set id | id in front);
      assert CloseToplevels(h, front).toplevels[last] == h.toplevels[last];
    }
  }

  /** Exactly what the `n`-th call adds to the log, in terms of the calls alone. */
  ghost predicate Tells(steps: seq<Step>, n: nat, told: seq<HostEvent>)
    requires n < |steps|
  {
    var past := steps[..n];
    match steps[n]
    case CommitToplevel(_, id, _, _, _, _, attachment) =>
      var before, after := History(past, id), History(steps[..n + 1], id);
      before.Top? && after.Top? && exists frames :: told == NamesTold(before, after, steps[n]) + frames && FrameTold(id, attachment, frames)
    case CommitPopup(_, id, attachment) =>
      History(past, id).Pop? && exists made, frames ::
        told == made + frames && PopupTold(History(past, id), id, made) && FrameTold(id, attachment, frames)
    case Reposition(_, target, placement, token) =>
      if target.None? then told == []
      else |told| == 1 && told[0].PopupRepositioned? && told[0].id == target.value && told[0].token == token && Places(told[0].geometry, placement)
    case PopupDestroyed(_, target) => told == if target.Some? then [ClosingOf(History(past, target.value), target.value)] else []
    case ToplevelDestroyed(_, target) => told == if target.Some? then [ClosingOf(History(past, target.value), target.value)] else []
    case ReapPopups(dead) => |told| == |dead| && forall i | 0 <= i < |dead| :: told[i] == ClosingOf(History(past, dead[i]), dead[i])
    case ReapToplevels(dead) => |told| == |dead| && forall i | 0 <= i < |dead| :: told[i] == ClosingOf(History(past, dead[i]), dead[i])
    case CommitCursor(_, attachment) => CursorTold(FocusOf(past), attachment, told)
    case SetCursor(image, focus) =>
      told == (match image case Named(name) => [CursorShape(focus, name)] case Hidden => [CursorShape(focus, "none")] case Surface(_) => [])
    case _ => told == []
  }

  lemma {:induction false} RunKeepsFocus(trace: seq<Host>, steps: seq<Step>, n: nat)
    requires IsRun(trace, steps) && n <= |steps|
    ensures trace[n].cursorFocus == FocusOf(steps[..n])
  {
    if n > 0 {
      RunKeepsFocus(trace, steps, n - 1);
      assert steps[..n][..n - 1] == steps[..n - 1];
      StepKeepsFocus(trace[n - 1], steps[n - 1]);
    }
  }

  lemma StepKeepsFocus(h: Host, step: Step)
    requires Enabled(h, step)
    ensures Apply(h, step).cursorFocus == if step.SetCursor? then step.focus else h.cursorFocus
  {
    match step
    case ReapPopups(dead) => ReapKeepsFocus(h, dead);
    case ReapToplevels(dead) => ReapToplevelsKeepsFocus(h, dead);
    case _ =>
  }

  lemma {:induction false} ReapKeepsFocus(h: Host, dead: seq<SurfaceId>)
    ensures ClosePopups(h, dead).cursorFocus == h.cursorFocus
    decreases |dead|
  {
    if dead != [] {
      ReapKeepsFocus(h, dead[..|dead| - 1]);
    }
  }

  lemma {:induction false} ReapToplevelsKeepsFocus(h: Host, dead: seq<SurfaceId>)
    requires Distinct(dead) && forall id | id in dead :: id in h.toplevels
    ensures CloseToplevels(h, dead).cursorFocus == h.cursorFocus
    decreases |dead|
  {
    if dead != [] {
      assert dead == dead[..|dead| - 1] + [dead[|dead| - 1]];
      ReapToplevelsKeepsFocus(h, dead[..|dead| - 1]);
    }
  }

  /** Small calls: at most one event. */
  lemma SmallStepTells(h: Host, step: Step, before: Record) returns (told: seq<HostEvent>)
    requires Enabled(h, step) && (step.Reposition? || step.PopupDestroyed? || step.ToplevelDestroyed?)
    requires step.target.Some? ==> Keeps(h, step.target.value, before)
    ensures Apply(h, step).log == h.log + told
    ensures step.target.None? ==> told == []
    ensures step.target.Some? && step.Reposition? ==>
      |told| == 1 && told[0].PopupRepositioned? && told[0].id == step.target.value && told[0].token == step.token
      && Places(told[0].geometry, step.placement)
    ensures step.target.Some? && !step.Reposition? ==> told == [ClosingOf(before, step.target.value)]
  {
    if step.target.None? {
      told := [];
    } else if step.Reposition? {
      told := [PopupRepositioned(step.target.value, GeometryOf(step.placement), step.token)];
    } else {
      told := [ClosingOf(before, step.target.value)];
    }
  }

  lemma QuietStepTells(h: Host, step: Step)
    requires Enabled(h, step) && (step.NewToplevel? || step.NewPopup? || step.CommitUntracked?)
    ensures Apply(h, step).log == h.log
  {
  }

  lemma CursorStepTells(h: Host, step: Step) returns (told: seq<HostEvent>)
    requires Enabled(h, step) && (step.CommitCursor? || step.SetCursor?)
    ensures Apply(h, step).log == h.log + told
    ensures step.CommitCursor? ==> CursorTold(h.cursorFocus, step.attachment, told)
    ensures step.SetCursor? ==>
      told == (match step.image case Named(name) => [CursorShape(step.focus, name)] case Hidden => [CursorShape(step.focus, "none")] case Surface(_) => [])
  {
    match step
    case CommitCursor(_, attachment) =>
      var bitmap := CursorBitmapOf(attachment);
      told := if bitmap.Some? then [CursorBitmap(h.cursorFocus, bitmap.value)] else [];
    case SetCursor(image, focus) =>
      told := match image case Named(name) => [CursorShape(focus, name)] case Hidden => [CursorShape(focus, "none")] case Surface(_) => [];
  }

  lemma ReapTells(trace: seq<Host>, steps: seq<Step>, n: nat) returns (told: seq<HostEvent>)
    requires IsRun(trace, steps) && n < |steps| && (steps[n].ReapPopups? || steps[n].ReapToplevels?)
    ensures trace[n + 1].log == trace[n].log + told && |told| == |steps[n].dead|
    ensures forall i | 0 <= i < |told| :: told[i] == ClosingOf(History(steps[..n], steps[n].dead[i]), steps[n].dead[i])
  {
    var h, dead := trace[n], steps[n].dead;
    assert Enabled(h, steps[n]) && trace[n + 1] == Apply(h, steps[n]);
    if steps[n].ReapPopups? {
      ReapPopupsTells(h, dead);
      told := seq(|dead|, i requires 0 <= i < |dead| => PopupClosed(dead[i]));
    } else {
      ReapToplevelsTells(h, dead);
      told := seq(|dead|, i requires 0 <= i < |dead| =>
        if h.toplevels[dead[i]].childOf.Some? then ChildToplevelClosed(dead[i]) else ToplevelClosed(dead[i]));
    }
    forall i | 0 <= i < |told|
      ensures told[i] == ClosingOf(History(steps[..n], dead[i]), dead[i])
    {
      assert dead[i] in dead;
      RunKeepsRecord(trace, steps, n, dead[i]);
    }
  }

  lemma CommitTells(trace: seq<Host>, steps: seq<Step>, n: nat) returns (told: seq<HostEvent>)
    requires IsRun(trace, steps) && n < |steps| && (steps[n].CommitToplevel? || steps[n].CommitPopup?)
    ensures trace[n + 1].log == trace[n].log + told && Tells(steps, n, told)
  {
    var h, step := trace[n], steps[n];
    assert Enabled(h, step) && trace[n + 1] == Apply(h, step);
    RunKeepsRecord(trace, steps, n, step.id);
    assert steps[..n + 1][..n] == steps[..n];
    var first, frames;
    if step.CommitToplevel? {
      first, frames := CommitToplevelTells(h, step, History(steps[..n], step.id), Allocated(steps[..n]));
    } else {
      first, frames := CommitPopupTells(h, step, History(steps[..n], step.id));
    }
    told := first + frames;
  }

  /** In every run, each call adds to the log exactly what the calls alone say it should: creations with the
      names, sizes, parents and places of that moment, changes of names, frames, moves, closings of the right
      kind, and cursors. */
  lemma EveryCallTells(trace: seq<Host>, steps: seq<Step>, n: nat) returns (told: seq<HostEvent>)
    requires IsRun(trace, steps) && n < |steps|
    ensures trace[n + 1].log == trace[n].log + told && Tells(steps, n, told)
  {
    var h, step := trace[n], steps[n];
    assert Enabled(h, step) && trace[n + 1] == Apply(h, step);
    if step.CommitToplevel? || step.CommitPopup? {
      told := CommitTells(trace, steps, n);
    } else if step.ReapPopups? || step.ReapToplevels? {
      told := ReapTells(trace, steps, n);
    } else if step.Reposition? || step.PopupDestroyed? || step.ToplevelDestroyed? {
      if step.target.Some? {
        RunKeepsRecord(trace, steps, n, step.target.value);
      }
      told := SmallStepTells(h, step, History(steps[..n], step.target.GetOr(0)));
    } else if step.CommitCursor? || step.SetCursor? {
      RunKeepsFocus(trace, steps, n);
      told := CursorStepTells(h, step);
    } else {
      QuietStepTells(h, step);
      told := [];
    }
  }
}
