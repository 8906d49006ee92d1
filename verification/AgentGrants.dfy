/** Grants: who may touch which pane, decided by records found through an unordered map. */
module AgentGrants {
  import opened Wrappers

  // ------------------------------------------------------------------- data

  type Uuid = nat
  type PaneId = nat
  type AgentId = string

  datatype Scope = ReadOutput | SendInput | Rename | AttachWindow

  datatype GrantRequest = GrantRequest(
    grantId: Uuid,
    requester: AgentId,
    scope: Scope,
    sourceAnchor: Option<Uuid>,
    targetAnchor: Option<Uuid>,
    targetPane: Option<Uuid>,
    targetWindow: Option<string>,
    reason: Option<string>)

  datatype GrantState = Pending | AllowedOnce | AllowedUntil(expiresAt: nat) | Denied | Revoked

  datatype GrantRecord = GrantRecord(request: GrantRequest, state: GrantState)

  type Grants = map<Uuid, GrantRecord>

  datatype Decision = AllowOnce | AllowUntil(expiresAt: nat) | Deny | Revoke

  datatype BusError = Unauthorized(grant: Uuid, expired: bool) | GrantDenied(grant: Uuid, revoked: bool) | UnknownGrant(grant: Uuid)

  /** Which agent runs in which pane, and which anchor owns which pane. */
  datatype Panes = Panes(
    agents: map<PaneId, AgentId>,
    anchors: set<PaneId>,
    workspace: map<PaneId, PaneId>,
    anchorIds: map<PaneId, Uuid>)

  /** One attempt to act on a pane. */
  datatype Access = Access(
    agent: Option<AgentId>, pane: PaneId, paneUuid: Uuid, scope: Scope, window: Option<string>, reason: string)

  /** What a lookup among the records is keyed by. */
  datatype Query = Query(agent: AgentId, scope: Scope, anchor: Option<Uuid>, pane: Uuid, window: Option<string>)

  // ----------------------------------------------------------------- lookups

  function OwnerAnchor(panes: Panes, pane: PaneId): Option<PaneId> {
    if pane in panes.workspace then Some(panes.workspace[pane])
    else if pane in panes.anchors then Some(pane)
    else None
  }

  predicate RunsIn(panes: Panes, agent: AgentId, pane: PaneId) {
    pane in panes.agents && panes.agents[pane] == agent
  }

  /** A possible outcome of scanning the agent's panes, in map order, for one with an owner. */
  predicate SourceAnchor(panes: Panes, agent: AgentId, source: Option<PaneId>) {
    if source.Some? then exists p | p in panes.agents :: RunsIn(panes, agent, p) && OwnerAnchor(panes, p) == source
    else forall p | p in panes.agents :: RunsIn(panes, agent, p) ==> OwnerAnchor(panes, p).None?
  }

  function AnchorId(panes: Panes, anchor: Option<PaneId>): Option<Uuid> {
    if anchor.Some? && anchor.value in panes.anchorIds then Some(panes.anchorIds[anchor.value]) else None
  }

  predicate Matches(r: GrantRequest, q: Query) {
    && r.requester == q.agent && r.scope == q.scope && r.targetWindow == q.window
    && (r.targetPane == Some(q.pane) || (q.anchor.Some? && r.targetAnchor == q.anchor))
  }

  predicate Hits(grants: Grants, q: Query, id: Uuid) {
    id in grants && Matches(grants[id].request, q)
  }

  /** A possible outcome of scanning the records in map order. */
  predicate Finds(grants: Grants, q: Query, found: Option<Uuid>) {
    if found.Some? then Hits(grants, q, found.value) else forall id | id in grants :: !Hits(grants, q, id)
  }

  // -------------------------------------------------------------- transitions

  /** What the record found says; a one-time permission is used up by saying yes. */
  function Consult(grants: Grants, id: Uuid, now: nat): (Grants, Result<(), BusError>)
    requires id in grants
  {
    match grants[id].state
    case AllowedOnce => (grants[id := grants[id].(state := Revoked)], Success(()))
    case AllowedUntil(t) => (grants, if t > now then Success(()) else Failure(Unauthorized(id, true)))
    case Pending => (grants, Failure(Unauthorized(id, false)))
    case Denied => (grants, Failure(GrantDenied(id, false)))
    case Revoked => (grants, Failure(GrantDenied(id, true)))
  }

  function Register(grants: Grants, r: GrantRequest): Grants {
    grants[r.grantId := GrantRecord(r, Pending)]
  }

  function StateFor(d: Decision): GrantState {
    match d
    case AllowOnce => AllowedOnce
    case AllowUntil(t) => AllowedUntil(t)
    case Deny => Denied
    case Revoke => Revoked
  }

  function Decide(grants: Grants, id: Uuid, d: Decision): (Grants, Result<(), BusError>) {
    if id in grants then (grants[id := grants[id].(state := StateFor(d))], Success(()))
    else (grants, Failure(UnknownGrant(id)))
  }

  function QueryOf(panes: Panes, a: Access): Query
    requires a.agent.Some?
  {
    Query(a.agent.value, a.scope, AnchorId(panes, OwnerAnchor(panes, a.pane)), a.paneUuid, a.window)
  }

  function RequestFor(panes: Panes, a: Access, source: Option<PaneId>, newId: Uuid): GrantRequest
    requires a.agent.Some?
  {
    GrantRequest(newId, a.agent.value, a.scope, AnchorId(panes, source), QueryOf(panes, a).anchor,
                 Some(a.paneUuid), a.window, Some(a.reason))
  }

  /** The accesses that need no grant: nobody's agent, the agent's own pane, or its own anchor. */
  predicate NeedsNoGrant(panes: Panes, a: Access, source: Option<PaneId>) {
    || a.agent.None?
    || RunsIn(panes, a.agent.value, a.pane)
    || (OwnerAnchor(panes, a.pane).Some? && OwnerAnchor(panes, a.pane) == source)
  }

  /** What the two scans of one authorization may come up with. */
  predicate Possible(grants: Grants, panes: Panes, a: Access, source: Option<PaneId>, found: Option<Uuid>) {
    && (found.Some? ==> found.value in grants)
    && (a.agent.Some? && !RunsIn(panes, a.agent.value, a.pane) ==> SourceAnchor(panes, a.agent.value, source))
    && (!NeedsNoGrant(panes, a, source) ==> Finds(grants, QueryOf(panes, a), found))
  }

  function Authorize(grants: Grants, panes: Panes, a: Access, source: Option<PaneId>, found: Option<Uuid>, newId: Uuid, now: nat)
    : (Grants, Result<(), BusError>)
    requires found.Some? ==> found.value in grants
  {
    if NeedsNoGrant(panes, a, source) then (grants, Success(()))
    else if found.Some? then Consult(grants, found.value, now)
    else (Register(grants, RequestFor(panes, a, source, newId)), Failure(Unauthorized(newId, false)))
  }

  // -------------------------------------------------------------- the handlers

  class AgentControl {
    var grants: Grants

    constructor ()
      ensures grants == map[]
    {
      grants := map[];
    }

    method RegisterGrantRequest(request: GrantRequest) returns (r: GrantRequest)
      modifies this
      ensures grants == Register(old(grants), request) && r == request
    {
      grants := grants[request.grantId := GrantRecord(request, Pending)];
      return request;
    }

    method DecideGrant(id: Uuid, decision: Decision) returns (r: Result<(), BusError>)
      modifies this
      ensures (grants, r) == Decide(old(grants), id, decision)
    {
      if id !in grants {
        return Failure(UnknownGrant(id));
      }
      var state;
      match decision {
        case AllowOnce => state := AllowedOnce;
        case AllowUntil(t) => state := AllowedUntil(t);
        case Deny => state := Denied;
        case Revoke => state := Revoked;
      }
      grants := grants[id := grants[id].(state := state)];
      return Success(());
    }

    method FirstAgentAnchor(agent: AgentId, panes: Panes) returns (source: Option<PaneId>)
      ensures SourceAnchor(panes, agent, source)
    {
      var owned := set p | p in panes.agents && RunsIn(panes, agent, p) && OwnerAnchor(panes, p).Some?;
      assert forall p | p in panes.agents && RunsIn(panes, agent, p) && OwnerAnchor(panes, p).Some? :: p in owned;
      if owned == {} {
        return None;
      }
      var p :| p in owned;
      return OwnerAnchor(panes, p);
    }

    method FindGrant(q: Query) returns (found: Option<Uuid>)
      ensures Finds(grants, q, found)
    {
      var hits := set id | id in grants && Hits(grants, q, id);
      assert forall id | id in grants && Hits(grants, q, id) :: id in hits;
      if hits == {} {
        return None;
      }
      var id :| id in hits;
      return Some(id);
    }

    method ExistingGrantDecision(q: Query, now: nat) returns (found: Option<Uuid>, r: Result<(), BusError>)
      modifies this
      ensures Finds(old(grants), q, found)
      ensures found.Some? ==> (grants, r) == Consult(old(grants), found.value, now)
      ensures found.None? ==> grants == old(grants)
    {
      r := Success(());
      found := FindGrant(q);
      if found.None? {
        return;
      }
      var id := found.value;
      match grants[id].state {
        case AllowedOnce =>
          grants := grants[id := grants[id].(state := Revoked)];
          r := Success(());
        case AllowedUntil(expiresAt) =>
          r := if expiresAt > now then Success(()) else Failure(Unauthorized(id, true));
        case Pending => r := Failure(Unauthorized(id, false));
        case Denied => r := Failure(GrantDenied(id, false));
        case Revoked => r := Failure(GrantDenied(id, true));
      }
    }

    method AuthorizePaneAccess(panes: Panes, a: Access, newId: Uuid, now: nat)
      returns (r: Result<(), BusError>, ghost source: Option<PaneId>, ghost found: Option<Uuid>)
      modifies this
      ensures Possible(old(grants), panes, a, source, found)
      ensures (grants, r) == Authorize(old(grants), panes, a, source, found, newId, now)
    {
      source, found := None, None;
      if a.agent.None? {
        return Success(()), source, found;
      }
      var agent := a.agent.value;
      if a.pane in panes.agents && panes.agents[a.pane] == agent {
        return Success(()), source, found;
      }
      var targetAnchorPane := OwnerAnchor(panes, a.pane);
      var targetAnchor := AnchorId(panes, targetAnchorPane);
      var sourceAnchorPane := FirstAgentAnchor(agent, panes);
      source := sourceAnchorPane;
      if targetAnchorPane.Some? && targetAnchorPane == sourceAnchorPane {
        return Success(()), source, found;
      }
      var sourceAnchor := AnchorId(panes, sourceAnchorPane);
      var hit;
      hit, r := ExistingGrantDecision(Query(agent, a.scope, targetAnchor, a.paneUuid, a.window), now);
      found := hit;
      if hit.Some? {
        return r, source, found;
      }
      var request := GrantRequest(newId, agent, a.scope, sourceAnchor, targetAnchor, Some(a.paneUuid), a.window, Some(a.reason));
      var registered := RegisterGrantRequest(request);
      return Failure(Unauthorized(newId, false)), source, found;
    }
  }

  // -------------------------------------------------------- order independence

  /** The outcome of consulting the records does not depend on which match the map yields first. */
  ghost predicate OrderFree(grants: Grants, q: Query, now: nat) {
    forall a, b | Hits(grants, q, a) && Hits(grants, q, b) :: Consult(grants, a, now) == Consult(grants, b, now)
  }

  predicate StillAllowed(s: GrantState, now: nat) {
    s.AllowedUntil? && s.expiresAt > now
  }

  /** Exactly when map order does not matter: at most one record matches, or all that match are
      unexpired timed permissions. */
  lemma OrderFreeIff(grants: Grants, q: Query, now: nat)
    ensures OrderFree(grants, q, now) <==>
      forall a, b | Hits(grants, q, a) && Hits(grants, q, b) ::
        a == b || (StillAllowed(grants[a].state, now) && StillAllowed(grants[b].state, now))
  {
    forall a, b | Hits(grants, q, a) && Hits(grants, q, b)
      ensures Consult(grants, a, now) == Consult(grants, b, now) <==>
              a == b || (StillAllowed(grants[a].state, now) && StillAllowed(grants[b].state, now))
    {
      ConsultDiffers(grants, a, b, now);
    }
  }

  lemma ConsultDiffers(grants: Grants, a: Uuid, b: Uuid, now: nat)
    requires a in grants && b in grants
    ensures Consult(grants, a, now) == Consult(grants, b, now) <==>
            a == b || (StillAllowed(grants[a].state, now) && StillAllowed(grants[b].state, now))
  {
    var ga, gb := Consult(grants, a, now).0, Consult(grants, b, now).0;
    if a != b && grants[a].state.AllowedOnce? {
      assert ga[a].state == Revoked && gb[a].state == AllowedOnce;
    }
    if a != b && grants[b].state.AllowedOnce? {
      assert gb[b].state == Revoked && ga[b].state == AllowedOnce;
    }
  }

  /** Both requests are answered by the same query. */
  predicate Equivalent(r: GrantRequest, s: GrantRequest) {
    && r.requester == s.requester && r.scope == s.scope && r.targetWindow == s.targetWindow
    && (r.targetPane == s.targetPane || (r.targetAnchor.Some? && r.targetAnchor == s.targetAnchor))
  }

  /** Every record is for a pane, filed under that pane's anchor, and no two are answered by one query. */
  ghost predicate Unambiguous(grants: Grants, anchorOf: map<Uuid, Uuid>) {
    && (forall id | id in grants :: Filed(grants[id].request, anchorOf))
    && (forall a, b | a in grants && b in grants && a != b :: !Equivalent(grants[a].request, grants[b].request))
  }

  predicate Filed(r: GrantRequest, anchorOf: map<Uuid, Uuid>) {
    r.targetPane.Some? && r.targetAnchor == Assigned(anchorOf, r.targetPane.value)
  }

  function Assigned(anchorOf: map<Uuid, Uuid>, pane: Uuid): Option<Uuid> {
    if pane in anchorOf then Some(anchorOf[pane]) else None
  }

  datatype Step =
    | Authorization(panes: Panes, access: Access, source: Option<PaneId>, found: Option<Uuid>, newId: Uuid, now: nat)
    | Deciding(id: Uuid, decision: Decision)
    | Registration(request: GrantRequest)

  predicate Enabled(grants: Grants, s: Step) {
    match s
    case Authorization(panes, a, source, found, _, _) => Possible(grants, panes, a, source, found)
    case _ => true
  }

  function Apply(grants: Grants, s: Step): (Grants, Result<(), BusError>)
    requires Enabled(grants, s)
  {
    match s
    case Authorization(panes, a, source, found, newId, now) => Authorize(grants, panes, a, source, found, newId, now)
    case Deciding(id, d) => Decide(grants, id, d)
    case Registration(r) => (Register(grants, r), Success(()))
  }

  /** The panes keep their anchors, and nobody registers requests by hand. */
  predicate Settled(s: Step, anchorOf: map<Uuid, Uuid>) {
    match s
    case Authorization(panes, a, _, _, _, _) =>
      a.agent.Some? ==> QueryOf(panes, a).anchor == Assigned(anchorOf, a.paneUuid)
    case Deciding(_, _) => true
    case Registration(_) => false
  }

  ghost predicate IsRun(trace: seq<Grants>, steps: seq<Step>) {
    && |trace| == |steps| + 1
    && trace[0] == map[]
    && forall i | 0 <= i < |steps| :: Enabled(trace[i], steps[i]) && trace[i + 1] == Apply(trace[i], steps[i]).0
  }

  lemma SettledStepKeeps(grants: Grants, s: Step, anchorOf: map<Uuid, Uuid>)
    requires Unambiguous(grants, anchorOf) && Enabled(grants, s) && Settled(s, anchorOf)
    ensures Unambiguous(Apply(grants, s).0, anchorOf)
  {
    var g := Apply(grants, s).0;
    if s.Authorization? && !NeedsNoGrant(s.panes, s.access, s.source) && s.found.None? {
      var r, q := RequestFor(s.panes, s.access, s.source, s.newId), QueryOf(s.panes, s.access);
      forall id | id in grants
        ensures !Equivalent(grants[id].request, r) && !Equivalent(r, grants[id].request)
      {
        assert !Hits(grants, q, id);
      }
    } else {
      assert forall id | id in g :: id in grants && g[id].request == grants[id].request;
    }
  }

  /** With fixed anchors and records made only by authorization, no access ever matches two records:
      the decision never depends on map order. */
  lemma {:induction false} LookupIsUnambiguous(
    trace: seq<Grants>, steps: seq<Step>, anchorOf: map<Uuid, Uuid>, n: nat, q: Query, a: Uuid, b: Uuid, now: nat)
    requires IsRun(trace, steps) && n <= |steps| && forall i | 0 <= i < n :: Settled(steps[i], anchorOf)
    requires AtItsAnchor(q, anchorOf)
    ensures Unambiguous(trace[n], anchorOf)
    ensures Hits(trace[n], q, a) && Hits(trace[n], q, b) ==> a == b
    ensures OrderFree(trace[n], q, now)
  {
    if n > 0 {
      LookupIsUnambiguous(trace, steps, anchorOf, n - 1, q, a, b, now);
      SettledStepKeeps(trace[n - 1], steps[n - 1], anchorOf);
    }
    forall x, y | Hits(trace[n], q, x) && Hits(trace[n], q, y)
      ensures x == y
    {
      assert Filed(trace[n][x].request, anchorOf) && Filed(trace[n][y].request, anchorOf);
    }
    OrderFreeIff(trace[n], q, now);
  }

  // --------------------------------------------------- requests filed by hand

  predicate Answers(r: GrantRequest, anchorOf: map<Uuid, Uuid>, pane: Uuid) {
    r.targetPane == Some(pane) || (r.targetAnchor.Some? && Assigned(anchorOf, pane) == r.targetAnchor)
  }

  predicate AtItsAnchor(q: Query, anchorOf: map<Uuid, Uuid>) {
    q.anchor == Assigned(anchorOf, q.pane)
  }

  /** While panes keep their anchors, no access matches two records. */
  ghost predicate OneAnswer(grants: Grants, anchorOf: map<Uuid, Uuid>) {
    forall q, a, b | AtItsAnchor(q, anchorOf) && Hits(grants, q, a) && Hits(grants, q, b) :: a == b
  }

  /** The same requests, whatever has been decided on them. */
  ghost predicate SameRequests(grants: Grants, g: Grants) {
    g.Keys == grants.Keys && forall id | id in grants :: g[id].request == grants[id].request
  }

  /** That is exactly when map order does not matter to any lookup under any decisions. */
  lemma OneAnswerIff(grants: Grants, anchorOf: map<Uuid, Uuid>)
    ensures OneAnswer(grants, anchorOf) <==>
      forall g, q, now | SameRequests(grants, g) && AtItsAnchor(q, anchorOf) :: OrderFree(g, q, now)
  {
    var undecided: Grants := map id | id in grants :: GrantRecord(grants[id].request, Pending);
    assert SameRequests(grants, undecided);
    forall q, a, b | AtItsAnchor(q, anchorOf) && OrderFree(undecided, q, 0) && Hits(grants, q, a) && Hits(grants, q, b)
      ensures a == b
    {
      assert Hits(undecided, q, a) && Hits(undecided, q, b);
      ConsultDiffers(undecided, a, b, 0);
    }
    if OneAnswer(grants, anchorOf) {
      forall g, q, now | SameRequests(grants, g) && AtItsAnchor(q, anchorOf)
        ensures OrderFree(g, q, now)
      {
        assert forall id :: Hits(g, q, id) <==> Hits(grants, q, id);
      }
    }
  }

  /** There is a pane for which both requests are answers. */
  predicate Overlap(r: GrantRequest, s: GrantRequest, anchorOf: map<Uuid, Uuid>) {
    && r.requester == s.requester && r.scope == s.scope && r.targetWindow == s.targetWindow
    && (|| (r.targetPane.Some? && Answers(s, anchorOf, r.targetPane.value))
        || (s.targetPane.Some? && Answers(r, anchorOf, s.targetPane.value))
        || (r.targetAnchor.Some? && r.targetAnchor == s.targetAnchor && r.targetAnchor.value in anchorOf.Values))
  }

  lemma OverlapIff(r: GrantRequest, s: GrantRequest, anchorOf: map<Uuid, Uuid>)
    ensures Overlap(r, s, anchorOf) <==> exists q :: AtItsAnchor(q, anchorOf) && Matches(r, q) && Matches(s, q)
  {
    if Overlap(r, s, anchorOf) {
      var pane :=
        if r.targetPane.Some? && Answers(s, anchorOf, r.targetPane.value) then r.targetPane.value
        else if s.targetPane.Some? && Answers(r, anchorOf, s.targetPane.value) then s.targetPane.value
        else var p :| p in anchorOf && anchorOf[p] == r.targetAnchor.value; p;
      var q := Query(r.requester, r.scope, Assigned(anchorOf, pane), pane, r.targetWindow);
      assert Matches(r, q) && Matches(s, q);
    }
  }

  /** A request registered by hand keeps lookups independent of map order, whatever is decided later,
      exactly when no other record answers for a pane that it answers for. */
  lemma RegistrationKeepsIff(grants: Grants, r: GrantRequest, anchorOf: map<Uuid, Uuid>)
    requires OneAnswer(grants, anchorOf)
    ensures OneAnswer(Register(grants, r), anchorOf) <==>
      forall id | id in grants && id != r.grantId :: !Overlap(grants[id].request, r, anchorOf)
  {
    var g := Register(grants, r);
    forall id | id in grants && id != r.grantId
      ensures g[id] == grants[id]
    {
    }
    if OneAnswer(g, anchorOf) {
      forall id | id in grants && id != r.grantId
        ensures !Overlap(grants[id].request, r, anchorOf)
      {
        OverlapIff(grants[id].request, r, anchorOf);
        assert forall q :: Matches(grants[id].request, q) && Matches(r, q) ==> Hits(g, q, id) && Hits(g, q, r.grantId);
      }
    } else {
      var q, a, b :| AtItsAnchor(q, anchorOf) && Hits(g, q, a) && Hits(g, q, b) && a != b;
      var other := if a == r.grantId then b else a;
      if a != r.grantId && b != r.grantId {
        assert Hits(grants, q, a) && Hits(grants, q, b);
      }
      OverlapIff(grants[other].request, r, anchorOf);
    }
  }

  /** Two requests registered by hand, decided differently: the same access is let in or refused
      depending on which record the map yields. */
  lemma HandRegistrationDependsOnOrder() returns (grants: Grants, q: Query)
    ensures Hits(grants, q, 1) && Hits(grants, q, 2)
    ensures Consult(grants, 1, 0).1.Success? && Consult(grants, 2, 0).1.Failure?
  {
    var r := GrantRequest(1, "a", ReadOutput, None, None, Some(9), None, None);
    grants := Decide(Decide(Register(Register(map[], r), r.(grantId := 2)), 1, AllowOnce).0, 2, Deny).0;
    q := Query("a", ReadOutput, None, 9, None);
  }

  // ---------------------------------------------------------- whole decisions

  /** Answer and records after an authorization are the same for all orders of both maps. */
  ghost predicate DecisionOrderFree(grants: Grants, panes: Panes, a: Access, newId: Uuid, now: nat) {
    forall s, t, f, g | Possible(grants, panes, a, s, f) && Possible(grants, panes, a, t, g) ::
      Authorize(grants, panes, a, s, f, newId, now) == Authorize(grants, panes, a, t, g, newId, now)
  }

  /** The owners of the agent's panes. */
  function Owners(panes: Panes, agent: AgentId): set<PaneId> {
    set p | p in panes.agents && RunsIn(panes, agent, p) && OwnerAnchor(panes, p).Some? :: OwnerAnchor(panes, p).value
  }

  lemma SourceIsOwner(panes: Panes, agent: AgentId, source: Option<PaneId>)
    ensures SourceAnchor(panes, agent, source) <==>
      if source.Some? then source.value in Owners(panes, agent) else Owners(panes, agent) == {}
  {
    if source.None? && SourceAnchor(panes, agent, source) {
      assert forall o :: o !in Owners(panes, agent);
    }
    forall p | p in panes.agents && RunsIn(panes, agent, p) && OwnerAnchor(panes, p).Some?
      ensures OwnerAnchor(panes, p).value in Owners(panes, agent)
    {
    }
  }

  /** The agent's own anchor is independent of map order exactly when all its owned panes have one owner. */
  lemma SourceIsOrderFreeIff(panes: Panes, agent: AgentId)
    ensures (forall s, t | SourceAnchor(panes, agent, s) && SourceAnchor(panes, agent, t) :: s == t)
       <==> forall o, p | o in Owners(panes, agent) && p in Owners(panes, agent) :: o == p
  {
    forall s
      ensures SourceAnchor(panes, agent, s) <==> if s.Some? then s.value in Owners(panes, agent) else Owners(panes, agent) == {}
    {
      SourceIsOwner(panes, agent, s);
    }
    forall o | o in Owners(panes, agent)
      ensures SourceAnchor(panes, agent, Some(o))
    {
    }
  }

  /** The target lies under one of the anchors that the agent may be taken to be at home in. */
  predicate AtHome(panes: Panes, a: Access)
    requires a.agent.Some?
  {
    OwnerAnchor(panes, a.pane).Some? && OwnerAnchor(panes, a.pane).value in Owners(panes, a.agent.value)
  }

  predicate SettledByPlace(panes: Panes, a: Access) {
    || a.agent.None?
    || RunsIn(panes, a.agent.value, a.pane)
    || (AtHome(panes, a) && Owners(panes, a.agent.value) == {OwnerAnchor(panes, a.pane).value})
  }

  predicate SameAnchorIds(panes: Panes, agent: AgentId) {
    forall s, t | s in Owners(panes, agent) && t in Owners(panes, agent) :: AnchorId(panes, Some(s)) == AnchorId(panes, Some(t))
  }

  /** Exactly when a whole decision is independent of map order. Either no grant is needed whatever the
      source. Or the target is in no anchor of the agent, the matching records are at most one or all
      unexpired timed, and, if there is none, the request that is filed names the same source. Or it is in
      one of several, and then there must be a match and all must be unexpired timed ones, which say yes
      and stay. */
  lemma DecisionOrderFreeIff(grants: Grants, panes: Panes, a: Access, newId: Uuid, now: nat)
    ensures DecisionOrderFree(grants, panes, a, newId, now) <==>
      || SettledByPlace(panes, a)
      || (&& !AtHome(panes, a)
          && (forall x, y | Hits(grants, QueryOf(panes, a), x) && Hits(grants, QueryOf(panes, a), y) ::
                x == y || (StillAllowed(grants[x].state, now) && StillAllowed(grants[y].state, now)))
          && ((forall x :: !Hits(grants, QueryOf(panes, a), x)) ==> SameAnchorIds(panes, a.agent.value)))
      || (&& AtHome(panes, a)
          && (exists x :: Hits(grants, QueryOf(panes, a), x))
          && forall x | Hits(grants, QueryOf(panes, a), x) :: StillAllowed(grants[x].state, now))
  {
    if a.agent.Some? && !RunsIn(panes, a.agent.value, a.pane) {
      if !AtHome(panes, a) {
        AwayIff(grants, panes, a, newId, now);
        OrderFreeIff(grants, QueryOf(panes, a), now);
      } else if Owners(panes, a.agent.value) == {OwnerAnchor(panes, a.pane).value} {
        OnlyHome(grants, panes, a, newId, now);
      } else {
        SplitHomeIff(grants, panes, a, newId, now);
      }
    }
  }

  /** With fixed anchors and records made only by authorization, no whole decision ever depends on map order
      for an agent whose panes have one owner, or owners without different ids away from the target. */
  lemma SettledDecisionsAreOrderFree(
    trace: seq<Grants>, steps: seq<Step>, anchorOf: map<Uuid, Uuid>, n: nat, panes: Panes, a: Access, newId: Uuid, now: nat)
    requires IsRun(trace, steps) && n <= |steps| && forall i | 0 <= i < n :: Settled(steps[i], anchorOf)
    requires a.agent.Some? ==> AtItsAnchor(QueryOf(panes, a), anchorOf)
    requires a.agent.Some? ==> |Owners(panes, a.agent.value)| <= 1 || (!AtHome(panes, a) && SameAnchorIds(panes, a.agent.value))
    ensures DecisionOrderFree(trace[n], panes, a, newId, now)
  {
    DecisionOrderFreeIff(trace[n], panes, a, newId, now);
    if a.agent.Some? {
      forall x, y | Hits(trace[n], QueryOf(panes, a), x) && Hits(trace[n], QueryOf(panes, a), y)
        ensures x == y
      {
        LookupIsUnambiguous(trace, steps, anchorOf, n, QueryOf(panes, a), x, y, now);
      }
      if |Owners(panes, a.agent.value)| <= 1 {
        AtMostOneOwner(panes, a.agent.value);
      }
    }
  }

  lemma AtMostOneOwner(panes: Panes, agent: AgentId)
    requires |Owners(panes, agent)| <= 1
    ensures forall s, t | s in Owners(panes, agent) && t in Owners(panes, agent) :: s == t
    ensures forall s | s in Owners(panes, agent) :: Owners(panes, agent) == {s}
  {
    forall s | s in Owners(panes, agent)
      ensures Owners(panes, agent) == {s}
    {
      assert Owners(panes, agent) == {s} + (Owners(panes, agent) - {s});
    }
  }

  /** The agent's panes are all under the target's anchor. */
  lemma OnlyHome(grants: Grants, panes: Panes, a: Access, newId: Uuid, now: nat)
    requires a.agent.Some? && AtHome(panes, a) && Owners(panes, a.agent.value) == {OwnerAnchor(panes, a.pane).value}
    ensures DecisionOrderFree(grants, panes, a, newId, now)
  {
    forall s, f | Possible(grants, panes, a, s, f)
      ensures Authorize(grants, panes, a, s, f, newId, now) == (grants, Success(()))
    {
      if !RunsIn(panes, a.agent.value, a.pane) {
        SourceIsOwner(panes, a.agent.value, s);
        assert s.Some?;
      }
    }
  }

  /** Some of the agent's panes are under the target's anchor, and some under another. */
  lemma SplitHomeIff(grants: Grants, panes: Panes, a: Access, newId: Uuid, now: nat)
    requires a.agent.Some? && !RunsIn(panes, a.agent.value, a.pane) && AtHome(panes, a)
    requires Owners(panes, a.agent.value) != {OwnerAnchor(panes, a.pane).value}
    ensures DecisionOrderFree(grants, panes, a, newId, now) <==>
      && (exists x :: Hits(grants, QueryOf(panes, a), x))
      && forall x | Hits(grants, QueryOf(panes, a), x) :: StillAllowed(grants[x].state, now)
  {
    var home, owners, q := OwnerAnchor(panes, a.pane), Owners(panes, a.agent.value), QueryOf(panes, a);
    var other :| other in owners && other != home.value;
    SourceIsOwner(panes, a.agent.value, home);
    SourceIsOwner(panes, a.agent.value, Some(other));
    assert Possible(grants, panes, a, home, None);
    if DecisionOrderFree(grants, panes, a, newId, now) {
      if forall x :: !Hits(grants, q, x) {
        assert Possible(grants, panes, a, Some(other), None);
        assert false;
      }
      forall x | Hits(grants, q, x)
        ensures StillAllowed(grants[x].state, now)
      {
        assert Possible(grants, panes, a, Some(other), Some(x));
        assert Consult(grants, x, now) == (grants, Success(()));
        SaysYesAndStays(grants, x, now);
      }
    } else if exists x :: Hits(grants, q, x) {
      if forall x | Hits(grants, q, x) :: StillAllowed(grants[x].state, now) {
        forall s, f | Possible(grants, panes, a, s, f)
          ensures Authorize(grants, panes, a, s, f, newId, now) == (grants, Success(()))
        {
        }
      }
    }
  }

  lemma SaysYesAndStays(grants: Grants, id: Uuid, now: nat)
    requires id in grants
    ensures Consult(grants, id, now) == (grants, Success(())) <==> StillAllowed(grants[id].state, now)
  {
    if grants[id].state.AllowedOnce? {
      assert Consult(grants, id, now).0[id].state == Revoked;
    }
  }

  /** None of the agent's panes is under the target's anchor. */
  lemma AwayIff(grants: Grants, panes: Panes, a: Access, newId: Uuid, now: nat)
    requires a.agent.Some? && !RunsIn(panes, a.agent.value, a.pane) && !AtHome(panes, a)
    ensures DecisionOrderFree(grants, panes, a, newId, now) <==>
      && OrderFree(grants, QueryOf(panes, a), now)
      && ((forall x :: !Hits(grants, QueryOf(panes, a), x)) ==> SameAnchorIds(panes, a.agent.value))
  {
    if DecisionOrderFree(grants, panes, a, newId, now) {
      AwayNeedsOrderFree(grants, panes, a, newId, now);
      if forall x :: !Hits(grants, QueryOf(panes, a), x) {
        AwayNeedsSameIds(grants, panes, a, newId, now);
      }
    } else {
      var s, t, f, g :| Possible(grants, panes, a, s, f) && Possible(grants, panes, a, t, g)
        && Authorize(grants, panes, a, s, f, newId, now) != Authorize(grants, panes, a, t, g, newId, now);
      AwaySource(panes, a, s);
      AwaySource(panes, a, t);
      if f.None? || g.None? {
        FiledAlikeIff(grants, panes, a, s, t, newId);
      }
    }
  }

  lemma AwaySource(panes: Panes, a: Access, source: Option<PaneId>)
    requires a.agent.Some? && !RunsIn(panes, a.agent.value, a.pane) && !AtHome(panes, a)
    requires SourceAnchor(panes, a.agent.value, source)
    ensures !NeedsNoGrant(panes, a, source)
    ensures if source.Some? then source.value in Owners(panes, a.agent.value) else Owners(panes, a.agent.value) == {}
  {
    SourceIsOwner(panes, a.agent.value, source);
  }

  lemma AwayNeedsOrderFree(grants: Grants, panes: Panes, a: Access, newId: Uuid, now: nat)
    requires a.agent.Some? && !RunsIn(panes, a.agent.value, a.pane) && !AtHome(panes, a)
    requires DecisionOrderFree(grants, panes, a, newId, now)
    ensures OrderFree(grants, QueryOf(panes, a), now)
  {
    var q := QueryOf(panes, a);
    var source := SomeSource(panes, a.agent.value);
    AwaySource(panes, a, source);
    forall x, y | Hits(grants, q, x) && Hits(grants, q, y)
      ensures Consult(grants, x, now) == Consult(grants, y, now)
    {
      assert Possible(grants, panes, a, source, Some(x)) && Possible(grants, panes, a, source, Some(y));
    }
  }

  lemma AwayNeedsSameIds(grants: Grants, panes: Panes, a: Access, newId: Uuid, now: nat)
    requires a.agent.Some? && !RunsIn(panes, a.agent.value, a.pane) && !AtHome(panes, a)
    requires DecisionOrderFree(grants, panes, a, newId, now) && forall x :: !Hits(grants, QueryOf(panes, a), x)
    ensures SameAnchorIds(panes, a.agent.value)
  {
    forall s, t | s in Owners(panes, a.agent.value) && t in Owners(panes, a.agent.value)
      ensures AnchorId(panes, Some(s)) == AnchorId(panes, Some(t))
    {
      SourceIsOwner(panes, a.agent.value, Some(s));
      SourceIsOwner(panes, a.agent.value, Some(t));
      AwaySource(panes, a, Some(s));
      AwaySource(panes, a, Some(t));
      assert Possible(grants, panes, a, Some(s), None) && Possible(grants, panes, a, Some(t), None);
      FiledAlikeIff(grants, panes, a, Some(s), Some(t), newId);
    }
  }

  lemma SomeSource(panes: Panes, agent: AgentId) returns (source: Option<PaneId>)
    ensures SourceAnchor(panes, agent, source)
  {
    if Owners(panes, agent) == {} {
      source := None;
    } else {
      var o :| o in Owners(panes, agent);
      source := Some(o);
    }
    SourceIsOwner(panes, agent, source);
  }

  lemma FiledAlikeIff(grants: Grants, panes: Panes, a: Access, s: Option<PaneId>, t: Option<PaneId>, newId: Uuid)
    requires a.agent.Some?
    ensures Register(grants, RequestFor(panes, a, s, newId)) == Register(grants, RequestFor(panes, a, t, newId))
       <==> AnchorId(panes, s) == AnchorId(panes, t)
  {
    var g, h := Register(grants, RequestFor(panes, a, s, newId)), Register(grants, RequestFor(panes, a, t, newId));
    assert g[newId].request.sourceAnchor == AnchorId(panes, s) && h[newId].request.sourceAnchor == AnchorId(panes, t);
  }

  /** An agent with panes under two anchors, and no records: reaching for a pane under one of them, it is
      let in or told to ask, depending on which of its panes the map yields first. */
  lemma TwoAnchorsDependOnOrder() returns (panes: Panes, a: Access)
    ensures Possible(map[], panes, a, Some(10), None) && Possible(map[], panes, a, Some(20), None)
    ensures Authorize(map[], panes, a, Some(10), None, 7, 0).1 == Success(())
    ensures Authorize(map[], panes, a, Some(20), None, 7, 0).1 == Failure(Unauthorized(7, false))
  {
    panes := Panes(map[1 := "a", 2 := "a"], {}, map[1 := 10, 2 := 20, 3 := 10], map[]);
    a := Access(Some("a"), 3, 33, ReadOutput, None, "");
    assert RunsIn(panes, "a", 1) && OwnerAnchor(panes, 1) == Some(10);
    assert RunsIn(panes, "a", 2) && OwnerAnchor(panes, 2) == Some(20);
  }

  // ------------------------------------------------------ one-time permissions

  /** How many steps up to `n` gave `id` a one-time permission. */
  function OnceGiven(trace: seq<Grants>, steps: seq<Step>, n: nat, id: Uuid): nat
    requires n <= |steps| && |trace| == |steps| + 1
  {
    if n == 0 then 0
    else
      OnceGiven(trace, steps, n - 1, id)
      + if steps[n - 1] == Deciding(id, AllowOnce) && id in trace[n - 1] then 1 else 0
  }

  /** An access let in by the one-time permission of `id`. */
  predicate UsesOnce(grants: Grants, s: Step, id: Uuid) {
    && s.Authorization? && !NeedsNoGrant(s.panes, s.access, s.source)
    && s.found == Some(id) && id in grants && grants[id].state.AllowedOnce?
  }

  function OnceUsed(trace: seq<Grants>, steps: seq<Step>, n: nat, id: Uuid): nat
    requires n <= |steps| && |trace| == |steps| + 1
  {
    if n == 0 then 0
    else OnceUsed(trace, steps, n - 1, id) + if UsesOnce(trace[n - 1], steps[n - 1], id) then 1 else 0
  }

  /** Over every interleaving of accesses, decisions and registrations, in every map order: the accesses
      let in through a one-time permission, and the one still open, never exceed the permissions given. */
  lemma {:induction false} OneTimeConservation(trace: seq<Grants>, steps: seq<Step>, n: nat, id: Uuid)
    requires IsRun(trace, steps) && n <= |steps|
    ensures OnceUsed(trace, steps, n, id) + (if id in trace[n] && trace[n][id].state.AllowedOnce? then 1 else 0)
         <= OnceGiven(trace, steps, n, id)
  {
    if n > 0 {
      OneTimeConservation(trace, steps, n - 1, id);
      assert trace[n] == Apply(trace[n - 1], steps[n - 1]).0;
    }
  }

  // --------------------------------------------------------------- provenance

  /** A step that decides on `id`, files it anew, or uses up its one-time permission. */
  predicate Touches(grants: Grants, s: Step, id: Uuid) {
    match s
    case Authorization(panes, a, source, found, newId, _) =>
      UsesOnce(grants, s, id) || (newId == id && !NeedsNoGrant(panes, a, source) && found.None?)
    case Deciding(other, _) => other == id
    case Registration(r) => r.grantId == id
  }

  /** Step `m` decided `d` on the record `id`, and no step from then up to `n` touched it again. */
  ghost predicate DecidedAt(trace: seq<Grants>, steps: seq<Step>, m: nat, n: nat, id: Uuid, d: Decision) {
    && m < n <= |steps| && |trace| == |steps| + 1
    && steps[m] == Deciding(id, d) && id in trace[m]
    && forall k | m < k < n :: !Touches(trace[k], steps[k], id)
  }

  lemma UntouchedStays(grants: Grants, s: Step, id: Uuid)
    requires Enabled(grants, s) && !Touches(grants, s, id)
    ensures id in Apply(grants, s).0 <==> id in grants
    ensures id in grants ==> Apply(grants, s).0[id] == grants[id]
  {
  }

  /** A decision stands until it is touched, for the very request it was made on. */
  lemma {:induction false} DecisionStands(trace: seq<Grants>, steps: seq<Step>, m: nat, n: nat, id: Uuid, d: Decision)
    requires IsRun(trace, steps) && DecidedAt(trace, steps, m, n, id, d)
    ensures id in trace[n] && trace[n][id] == GrantRecord(trace[m][id].request, StateFor(d))
    decreases n
  {
    assert Enabled(trace[n - 1], steps[n - 1]) && trace[n] == Apply(trace[n - 1], steps[n - 1]).0;
    if m + 1 < n {
      DecisionStands(trace, steps, m, n - 1, id, d);
      UntouchedStays(trace[n - 1], steps[n - 1], id);
    }
  }

  /** And a permission there is comes from such a decision. */
  lemma {:induction false} PermissionWasDecided(trace: seq<Grants>, steps: seq<Step>, n: nat, id: Uuid) returns (m: nat, d: Decision)
    requires IsRun(trace, steps) && n <= |steps| && id in trace[n]
    requires trace[n][id].state.AllowedOnce? || trace[n][id].state.AllowedUntil?
    ensures DecidedAt(trace, steps, m, n, id, d) && StateFor(d) == trace[n][id].state
  {
    assert n > 0;
    assert Enabled(trace[n - 1], steps[n - 1]) && trace[n] == Apply(trace[n - 1], steps[n - 1]).0;
    if Touches(trace[n - 1], steps[n - 1], id) {
      m := n - 1;
      d := steps[m].decision;
    } else {
      UntouchedStays(trace[n - 1], steps[n - 1], id);
      m, d := PermissionWasDecided(trace, steps, n - 1, id);
    }
  }

  /** From the panes alone: nobody's agent, an agent in its own pane, or one whose anchor, as found, is the
      anchor that owns the target. */
  predicate FreeAccess(panes: Panes, a: Access, source: Option<PaneId>) {
    || a.agent.None?
    || (a.pane in panes.agents && Some(panes.agents[a.pane]) == a.agent)
    || (source.Some? && if a.pane in panes.workspace then source.value == panes.workspace[a.pane]
                        else a.pane in panes.anchors && source.value == a.pane)
  }

  /** The request is for this agent, scope and window, and for the pane or the anchor that owns it. */
  predicate IsFor(r: GrantRequest, panes: Panes, a: Access) {
    && a.agent == Some(r.requester) && a.scope == r.scope && a.window == r.targetWindow
    && (|| r.targetPane == Some(a.paneUuid)
        || (r.targetAnchor.Some? && r.targetAnchor == AnchorId(panes, OwnerAnchor(panes, a.pane))))
  }

  lemma FreeIff(panes: Panes, a: Access, source: Option<PaneId>)
    ensures FreeAccess(panes, a, source) <==> NeedsNoGrant(panes, a, source)
  {
  }

  lemma IsForIff(r: GrantRequest, panes: Panes, a: Access)
    requires a.agent.Some?
    ensures IsFor(r, panes, a) <==> Matches(r, QueryOf(panes, a))
  {
  }

  /** A free access is let in, whatever the maps yield, and leaves the records alone. */
  lemma FreeAccessIsLetIn(grants: Grants, panes: Panes, a: Access, source: Option<PaneId>, found: Option<Uuid>, newId: Uuid, now: nat)
    requires Possible(grants, panes, a, source, found) && FreeAccess(panes, a, source)
    ensures Authorize(grants, panes, a, source, found, newId, now) == (grants, Success(()))
  {
    FreeIff(panes, a, source);
  }

  /** Any other access that no record is for is told to ask under the new id, and exactly its own request is
      filed under that id, pending. */
  lemma UnknownAccessIsFiled(grants: Grants, panes: Panes, a: Access, source: Option<PaneId>, found: Option<Uuid>, newId: Uuid, now: nat)
    requires Possible(grants, panes, a, source, found) && !FreeAccess(panes, a, source)
    requires forall id | id in grants :: !IsFor(grants[id].request, panes, a)
    ensures var (g, r) := Authorize(grants, panes, a, source, found, newId, now);
      && r == Failure(Unauthorized(newId, false))
      && g.Keys == grants.Keys + {newId} && (forall id | id in grants && id != newId :: g[id] == grants[id])
      && g[newId].state == Pending && IsFor(g[newId].request, panes, a)
      && g[newId].request.grantId == newId && g[newId].request.targetPane == Some(a.paneUuid)
      && g[newId].request.targetAnchor == AnchorId(panes, OwnerAnchor(panes, a.pane))
      && g[newId].request.sourceAnchor == AnchorId(panes, source) && g[newId].request.reason == Some(a.reason)
  {
    FreeIff(panes, a, source);
    if found.Some? {
      IsForIff(grants[found.value].request, panes, a);
    }
  }

  /** An answer through record `id` rests on a decision that allows it and still stands, made on a request
      that is for the access. */
  ghost predicate Justified(trace: seq<Grants>, steps: seq<Step>, n: nat, id: Uuid, m: nat, d: Decision)
    requires n < |steps| && steps[n].Authorization?
  {
    && DecidedAt(trace, steps, m, n, id, d)
    && IsFor(trace[m][id].request, steps[n].panes, steps[n].access)
    && (d == AllowOnce || (d.AllowUntil? && d.expiresAt > steps[n].now))
  }

  /** In every run, in every map order, an access is let in exactly when it is free or the record found goes
      back to such a decision. */
  lemma SuccessIsJustifiedIff(trace: seq<Grants>, steps: seq<Step>, n: nat)
    requires IsRun(trace, steps) && n < |steps| && steps[n].Authorization?
    ensures Apply(trace[n], steps[n]).1.Success? <==>
      || FreeAccess(steps[n].panes, steps[n].access, steps[n].source)
      || (steps[n].found.Some? && exists m, d :: Justified(trace, steps, n, steps[n].found.value, m, d))
  {
    var s := steps[n];
    assert Enabled(trace[n], s);
    FreeIff(s.panes, s.access, s.source);
    if !FreeAccess(s.panes, s.access, s.source) && s.found.Some? {
      var id := s.found.value;
      IsForIff(trace[n][id].request, s.panes, s.access);
      if Apply(trace[n], s).1.Success? {
        var m, d := PermissionWasDecided(trace, steps, n, id);
        DecisionStands(trace, steps, m, n, id, d);
        assert Justified(trace, steps, n, id, m, d);
      }
      if m, d :| Justified(trace, steps, n, id, m, d) {
        DecisionStands(trace, steps, m, n, id, d);
      }
    }
  }

  /** A record that has been filed, and not touched since. */
  ghost predicate FiledAt(trace: seq<Grants>, steps: seq<Step>, m: nat, n: nat, id: Uuid) {
    && m < n <= |steps| && |trace| == |steps| + 1
    && (match steps[m]
        case Authorization(panes, a, source, found, newId, _) => newId == id && !NeedsNoGrant(panes, a, source) && found.None?
        case Deciding(_, _) => false
        case Registration(r) => r.grantId == id)
    && forall k | m < k < n :: !Touches(trace[k], steps[k], id)
  }

  lemma {:induction false} FiledIsPending(trace: seq<Grants>, steps: seq<Step>, m: nat, n: nat, id: Uuid)
    requires IsRun(trace, steps) && FiledAt(trace, steps, m, n, id)
    ensures id in trace[n] && trace[n][id].state == Pending
    decreases n
  {
    assert Enabled(trace[n - 1], steps[n - 1]) && trace[n] == Apply(trace[n - 1], steps[n - 1]).0;
    if m + 1 < n {
      FiledIsPending(trace, steps, m, n - 1, id);
      UntouchedStays(trace[n - 1], steps[n - 1], id);
    }
  }

  /** What an access that is not free gets through a record that was last touched by a decision: yes, once;
      yes, until the time has come, and that it has expired from then on; or that it was denied, or revoked.
      Only a one-time yes changes anything: the record counts as revoked from then on. */
  lemma AnswerOfDecision(trace: seq<Grants>, steps: seq<Step>, n: nat, id: Uuid, m: nat, d: Decision)
    requires IsRun(trace, steps) && n < |steps| && steps[n].Authorization? && steps[n].found == Some(id)
    requires !FreeAccess(steps[n].panes, steps[n].access, steps[n].source) && DecidedAt(trace, steps, m, n, id, d)
    ensures Apply(trace[n], steps[n]).1 ==
      match d
      case AllowOnce => Success(())
      case AllowUntil(t) => if steps[n].now < t then Success(()) else Failure(Unauthorized(id, true))
      case Deny => Failure(GrantDenied(id, false))
      case Revoke => Failure(GrantDenied(id, true))
    ensures trace[n + 1] == if d == AllowOnce then trace[n][id := GrantRecord(trace[m][id].request, Revoked)] else trace[n]
  {
    assert Enabled(trace[n], steps[n]);
    FreeIff(steps[n].panes, steps[n].access, steps[n].source);
    DecisionStands(trace, steps, m, n, id, d);
  }

  /** And through one that nothing has been decided on since it was filed: it is told that this is pending. */
  lemma AnswerOfPending(trace: seq<Grants>, steps: seq<Step>, n: nat, id: Uuid, m: nat)
    requires IsRun(trace, steps) && n < |steps| && steps[n].Authorization? && steps[n].found == Some(id)
    requires !FreeAccess(steps[n].panes, steps[n].access, steps[n].source) && FiledAt(trace, steps, m, n, id)
    ensures Apply(trace[n], steps[n]) == (trace[n], Failure(Unauthorized(id, false)))
  {
    assert Enabled(trace[n], steps[n]);
    FreeIff(steps[n].panes, steps[n].access, steps[n].source);
    FiledIsPending(trace, steps, m, n, id);
  }
}
