/** The repositories under concurrency: every statement or transaction is one atomic step, and a delete is a
    process that first tries its conditional DELETE and, when no row went, classifies the refusal in a later read
    (backend/app/organization_repository.py, workspace_repository.py, connection_repository.py). */
module TenantHierarchy {
  import opened Wrappers
  import opened TenantStore

  datatype Call = DeleteOrganization(id: Id) | DeleteWorkspace(id: Id)

  /** since is the instant of the call. */
  datatype Process =
    | Started(call: Call, since: nat)
    | Classifying(call: Call, since: nat)
    | Returned(call: Call, since: nat, outcome: Outcome)

  /** named holds every id that was ever created or passed to a delete. */
  datatype System = System(db: Db, named: set<Id>, processes: map<nat, Process>)

  datatype Action =
    | CreateOrganization(id: Id, organization: Organization)
    | CreateWorkspace(id: Id, workspace: Workspace)
    | CreateConnection(id: Id, connection: Connection)
    | UpdateOrganization(id: Id, name: Option<string>, description: Option<string>)
    | UpdateWorkspace(id: Id, name: Option<string>, description: Option<string>)
    | UpdateConnection(id: Id, patch: Patch)
    | DeleteConnection(id: Id)
    | Invoke(p: nat, call: Call)
    | TryDelete(p: nat)
    | Classify(p: nat)

  predicate Deletable(db: Db, call: Call) {
    match call
    case DeleteOrganization(id) => DeletableOrganization(db, id)
    case DeleteWorkspace(id) => DeletableWorkspace(db, id)
  }

  function DeleteIfUnused(db: Db, call: Call): Db {
    match call
    case DeleteOrganization(id) => DeleteOrganizationIfUnused(db, id)
    case DeleteWorkspace(id) => DeleteWorkspaceIfUnused(db, id)
  }

  function Explain(db: Db, call: Call): Outcome {
    match call
    case DeleteOrganization(id) => ExplainOrganization(db, id)
    case DeleteWorkspace(id) => ExplainWorkspace(db, id)
  }

  /** Without freshIds a new row may get any id that names no current row of its table. */
  predicate Enabled(s: System, a: Action, freshIds: bool) {
    match a
    case CreateOrganization(id, _) => id !in s.db.organizations && (freshIds ==> id !in s.named)
    case CreateWorkspace(id, _) => id !in s.db.workspaces && (freshIds ==> id !in s.named)
    case CreateConnection(id, _) => id !in s.db.connections && (freshIds ==> id !in s.named)
    case Invoke(p, _) => p !in s.processes
    case TryDelete(p) => p in s.processes && s.processes[p].Started?
    case Classify(p) => p in s.processes && s.processes[p].Classifying?
    case _ => true
  }

  function Next(s: System, now: nat, a: Action): System
    requires Enabled(s, a, false)
  {
    match a
    case CreateOrganization(id, o) => s.(db := InsertOrganization(s.db, id, o), named := s.named + {id})
    case CreateWorkspace(id, w) => s.(db := InsertWorkspace(s.db, id, w), named := s.named + {id})
    case CreateConnection(id, c) => s.(db := InsertConnection(s.db, id, c), named := s.named + {id})
    case UpdateOrganization(id, name, description) => s.(db := RenameOrganization(s.db, id, name, description))
    case UpdateWorkspace(id, name, description) => s.(db := RenameWorkspace(s.db, id, name, description))
    case UpdateConnection(id, patch) => s.(db := WriteConnection(s.db, id, patch))
    case DeleteConnection(id) => s.(db := DeleteConnectionRow(s.db, id))
    case Invoke(p, call) =>
      s.(named := s.named + {call.id}, processes := s.processes[p := Started(call, now + 1)])
    case TryDelete(p) =>
      var Started(call, since) := s.processes[p];
      s.(db := DeleteIfUnused(s.db, call),
         processes := s.processes[p := if Deletable(s.db, call) then Returned(call, since, Deleted)
                                       else Classifying(call, since)])
    case Classify(p) =>
      var Classifying(call, since) := s.processes[p];
      s.(processes := s.processes[p := Returned(call, since, Explain(s.db, call))])
  }

  /** What the migrations leave: the default organization and nothing else. */
  function Initial(defaultOrg: Id): System {
    System(Db(map[defaultOrg := Organization(DEFAULT_SLUG, "Default", None)], map[], map[]), {defaultOrg}, map[])
  }

  ghost predicate StepAt(tr: seq<System>, acts: seq<Action>, freshIds: bool, i: nat)
    requires i < |acts| < |tr|
  {
    Enabled(tr[i], acts[i], freshIds) && Enabled(tr[i], acts[i], false) && tr[i + 1] == Next(tr[i], i, acts[i])
  }

  /** tr[i] is the state before the i-th action. */
  ghost predicate IsRun(tr: seq<System>, acts: seq<Action>, defaultOrg: Id, freshIds: bool) {
    && |tr| == |acts| + 1 && tr[0] == Initial(defaultOrg)
    && forall i: nat :: i < |acts| ==> StepAt(tr, acts, freshIds, i)
  }

  /** A delete that nothing comes between does what the repository does called alone: it takes the row and says so, or
      explains why not and changes nothing. */
  lemma DeleteAlone(s: System, now: nat, p: nat, call: Call)
    requires p !in s.processes
    ensures Enabled(s, Invoke(p, call), true)
    ensures var called := Next(s, now, Invoke(p, call));
            && called.db == s.db && Enabled(called, TryDelete(p), true)
            && var tried := Next(called, now + 1, TryDelete(p));
               if Deletable(s.db, call) then
                 && tried.db == DeleteIfUnused(s.db, call)
                 && tried.processes[p] == Returned(call, now + 1, Deleted)
               else
                 && tried.db == s.db && Enabled(tried, Classify(p), true)
                 && var explained := Next(tried, now + 2, Classify(p));
                    && explained.db == s.db
                    && explained.processes[p] == Returned(call, now + 1, Explain(s.db, call))
  {
    hide Deletable, Explain;
    NothingDeleted(s.db, call);
    hide DeleteIfUnused;
  }

  lemma NothingDeleted(db: Db, call: Call)
    ensures !Deletable(db, call) ==> DeleteIfUnused(db, call) == db
  {
  }

  /** Every other call is one step: possible at any time, a create with an id that was never named, and with the effect
      the repository has called alone. */
  lemma CallAlone(s: System, now: nat, id: Id, o: Organization, w: Workspace, c: Connection, patch: Patch)
    requires id !in s.named && id !in s.db.organizations && id !in s.db.workspaces && id !in s.db.connections
    ensures Enabled(s, CreateOrganization(id, o), true) && Enabled(s, CreateOrganization(id, o), false)
    ensures Enabled(s, CreateWorkspace(id, w), true) && Enabled(s, CreateWorkspace(id, w), false)
    ensures Enabled(s, CreateConnection(id, c), true) && Enabled(s, CreateConnection(id, c), false)
    ensures Next(s, now, CreateOrganization(id, o)).db == InsertOrganization(s.db, id, o)
    ensures Next(s, now, CreateWorkspace(id, w)).db == InsertWorkspace(s.db, id, w)
    ensures Next(s, now, CreateConnection(id, c)).db == InsertConnection(s.db, id, c)
    ensures forall x, n, t :: Next(s, now, UpdateOrganization(x, n, t)).db == RenameOrganization(s.db, x, n, t)
    ensures forall x, n, t :: Next(s, now, UpdateWorkspace(x, n, t)).db == RenameWorkspace(s.db, x, n, t)
    ensures forall x :: Next(s, now, UpdateConnection(x, patch)).db == WriteConnection(s.db, x, patch)
    ensures forall x :: Next(s, now, DeleteConnection(x)).db == DeleteConnectionRow(s.db, x)
  {
    hide InsertOrganization, InsertWorkspace, InsertConnection, RenameOrganization, RenameWorkspace, WriteConnection;
  }

  // ----- Integrity in every reachable state, reused ids or not.

  lemma StepKeepsIntegrity(s: System, now: nat, a: Action, d: Id)
    requires Enabled(s, a, false) && Integrity(s.db, d)
    ensures Integrity(Next(s, now, a).db, d)
  {
    hide Integrity, Unique, InsertOrganization, InsertWorkspace, InsertConnection, RenameOrganization, RenameWorkspace,
         WriteConnection, DeleteOrganizationIfUnused, DeleteWorkspaceIfUnused, DeleteConnectionRow;
    match a
    case CreateOrganization(id, o) => OrganizationInsertKeepsIntegrity(s.db, d, id, o);
    case CreateWorkspace(id, w) => WorkspaceInsertKeepsIntegrity(s.db, d, id, w);
    case CreateConnection(id, c) => ConnectionInsertKeepsIntegrity(s.db, d, id, c);
    case UpdateOrganization(id, name, description) => OrganizationRenameKeepsIntegrity(s.db, d, id, name, description);
    case UpdateWorkspace(id, name, description) => WorkspaceRenameKeepsIntegrity(s.db, d, id, name, description);
    case UpdateConnection(id, patch) => WriteKeepsIntegrity(s.db, d, id, patch);
    case DeleteConnection(id) => DeletesKeepIntegrity(s.db, d, id);
    case TryDelete(p) => DeletesKeepIntegrity(s.db, d, s.processes[p].call.id);
    case _ =>
  }

  /** No orphaned workspace or connection, no duplicate slug or reference and a default organization, at every
      instant of every interleaving. */
  lemma {:induction false} IntegrityAlways(tr: seq<System>, acts: seq<Action>, d: Id, freshIds: bool, n: nat)
    requires IsRun(tr, acts, d, freshIds) && n < |tr|
    ensures Integrity(tr[n].db, d)
  {
    if n > 0 {
      IntegrityAlways(tr, acts, d, freshIds, n - 1);
      hide Integrity, Unique, Next;
      assert StepAt(tr, acts, freshIds, n - 1);
      StepKeepsIntegrity(tr[n - 1], n - 1, acts[n - 1], d);
    }
  }

  // ----- Rows that a call can name only ever disappear.

  predicate Exists(db: Db, call: Call) {
    match call
    case DeleteOrganization(id) => id in db.organizations
    case DeleteWorkspace(id) => id in db.workspaces
  }

  /** The row is still the same one: an organization keeps its slug. */
  predicate SameRow(before: Db, after: Db, call: Call) {
    Exists(after, call) ==>
      Exists(before, call) &&
      (call.DeleteOrganization? ==> before.organizations[call.id].slug == after.organizations[call.id].slug)
  }

  lemma StepKeepsRow(s: System, now: nat, a: Action, call: Call)
    requires Enabled(s, a, true) && Enabled(s, a, false) && call.id in s.named
    ensures call.id in Next(s, now, a).named
    ensures SameRow(s.db, Next(s, now, a).db, call)
  {
    hide OrgSlugTaken, WorkspaceSlugTaken, RefTaken, Patched, DeletableOrganization, DeletableWorkspace;
  }

  lemma {:induction false} NoResurrection(tr: seq<System>, acts: seq<Action>, d: Id, call: Call, i: nat, k: nat)
    requires IsRun(tr, acts, d, true) && i <= k < |tr| && call.id in tr[i].named
    ensures call.id in tr[k].named && SameRow(tr[i].db, tr[k].db, call)
    decreases k
  {
    if i < k {
      NoResurrection(tr, acts, d, call, i, k - 1);
      hide Next;
      assert StepAt(tr, acts, true, k - 1);
      StepKeepsRow(tr[k - 1], k - 1, acts[k - 1], call);
    }
  }

  // ----- What a delete reports was so while the call was open.

  /** An outcome is a statement about one instant; Deleted says the row could go. */
  predicate Holds(db: Db, call: Call, outcome: Outcome) {
    match outcome
    case Deleted => Deletable(db, call)
    case Absent => !Exists(db, call)
    case DefaultProtected =>
      call.DeleteOrganization? && Exists(db, call) && db.organizations[call.id].slug == DEFAULT_SLUG
    case InUse =>
      Exists(db, call) && (match call
                           case DeleteOrganization(id) =>
                             OwnsWorkspaces(db, id) && db.organizations[id].slug != DEFAULT_SLUG
                           case DeleteWorkspace(id) => HasConnections(db, id))
    case _ => false
  }

  predicate Within(tr: seq<System>, n: nat, p: nat, j: nat) {
    n < |tr| && p in tr[n].processes && tr[n].processes[p].since <= j <= n
  }

  lemma ProcessBefore(s: System, now: nat, a: Action, p: nat)
    requires Enabled(s, a, false) && p in Next(s, now, a).processes
    ensures var q := Next(s, now, a).processes[p];
            || (a == Invoke(p, q.call) && q == Started(q.call, now + 1) && q.call.id in Next(s, now, a).named)
            || (a == TryDelete(p) && p in s.processes && s.processes[p] == Started(q.call, q.since)
                && (q.Classifying? || q == Returned(q.call, q.since, Deleted))
                && (q.Classifying? <==> !Deletable(s.db, q.call))
                && Next(s, now, a).db == DeleteIfUnused(s.db, q.call))
            || (a == Classify(p) && p in s.processes && s.processes[p] == Classifying(q.call, q.since)
                && q == Returned(q.call, q.since, Explain(s.db, q.call)))
            || (p in s.processes && q == s.processes[p])
  {
    hide InsertOrganization, InsertWorkspace, InsertConnection, RenameOrganization, RenameWorkspace,
         WriteConnection, DeleteIfUnused, Deletable, Explain, DeleteConnectionRow;
  }

  lemma {:induction false} NamedWhenCalled(tr: seq<System>, acts: seq<Action>, d: Id, freshIds: bool, n: nat, p: nat)
    requires IsRun(tr, acts, d, freshIds) && n < |tr| && p in tr[n].processes
    ensures var q := tr[n].processes[p]; q.since <= n && q.call.id in tr[q.since].named
  {
    if n > 0 {
      assert StepAt(tr, acts, freshIds, n - 1);
      hide Next, Enabled;
      ProcessBefore(tr[n - 1], n - 1, acts[n - 1], p);
      if p in tr[n - 1].processes {
        NamedWhenCalled(tr, acts, d, freshIds, n - 1, p);
      }
    }
  }

  /** A process that classifies has seen its row survive the conditional DELETE. */
  lemma {:induction false} Refused(tr: seq<System>, acts: seq<Action>, d: Id, freshIds: bool, n: nat, p: nat)
    returns (j: nat)
    requires IsRun(tr, acts, d, freshIds) && n < |tr| && p in tr[n].processes && tr[n].processes[p].Classifying?
    ensures Within(tr, n, p, j) && !Deletable(tr[j].db, tr[n].processes[p].call)
  {
    assert StepAt(tr, acts, freshIds, n - 1);
    hide Next, Enabled, Deletable, DeleteIfUnused;
    ProcessBefore(tr[n - 1], n - 1, acts[n - 1], p);
    if tr[n - 1].processes[p].Classifying? {
      j := Refused(tr, acts, d, freshIds, n - 1, p);
    } else {
      NamedWhenCalled(tr, acts, d, freshIds, n - 1, p);
      j := n - 1;
    }
  }

  /** Classifying after a refusal is right: either the row is gone or protected now, or it was in use then. */
  lemma ClassificationHolds(tr: seq<System>, acts: seq<Action>, d: Id, n: nat, p: nat) returns (j: nat)
    requires IsRun(tr, acts, d, true) && n < |tr| && p in tr[n].processes && tr[n].processes[p].Classifying?
    ensures Within(tr, n, p, j)
    ensures var call := tr[n].processes[p].call; Holds(tr[j].db, call, Explain(tr[n].db, call))
  {
    var q := tr[n].processes[p];
    NamedWhenCalled(tr, acts, d, true, n, p);
    if Explain(tr[n].db, q.call) != InUse {
      j := n;
    } else {
      j := Refused(tr, acts, d, true, n, p);
      NoResurrection(tr, acts, d, q.call, q.since, j);
      NoResurrection(tr, acts, d, q.call, j, n);
    }
  }

  ghost predicate GoneFrom(tr: seq<System>, k: nat, call: Call) {
    forall m | k <= m < |tr| :: !Exists(tr[m].db, call)
  }

  /** Every outcome a delete returns was true at an instant between its call and its return, under any interleaving;
      a deleted row went right after that instant and never comes back. */
  lemma {:induction false} OutcomeWasTrue(tr: seq<System>, acts: seq<Action>, d: Id, n: nat, p: nat) returns (j: nat)
    requires IsRun(tr, acts, d, true) && n < |tr| && p in tr[n].processes && tr[n].processes[p].Returned?
    ensures Within(tr, n, p, j)
    ensures var q := tr[n].processes[p];
            Holds(tr[j].db, q.call, q.outcome) && (q.outcome == Deleted ==> GoneFrom(tr, j + 1, q.call))
  {
    var q := tr[n].processes[p];
    assert StepAt(tr, acts, true, n - 1);
    hide Next, Enabled, Deletable, Explain, Exists, Holds, DeleteIfUnused;
    ProcessBefore(tr[n - 1], n - 1, acts[n - 1], p);
    if tr[n - 1].processes[p].Returned? {
      j := OutcomeWasTrue(tr, acts, d, n - 1, p);
    } else if tr[n - 1].processes[p].Classifying? {
      j := ClassificationHolds(tr, acts, d, n - 1, p);
      ExplainNeverDeletes(tr[n - 1].db, q.call);
    } else {
      NamedWhenCalled(tr, acts, d, true, n - 1, p);
      j := n - 1;
      DeletedRowIsGone(tr[j].db, q.call);
      forall m | n <= m < |tr| ensures !Exists(tr[m].db, q.call) {
        NoResurrection(tr, acts, d, q.call, q.since, n);
        NoResurrection(tr, acts, d, q.call, n, m);
      }
    }
  }

  lemma ExplainNeverDeletes(db: Db, call: Call)
    ensures Explain(db, call) != Deleted
  {
  }

  lemma DeletedRowIsGone(db: Db, call: Call)
    requires Deletable(db, call)
    ensures Holds(db, call, Deleted) && !Exists(DeleteIfUnused(db, call), call)
  {
  }

  lemma NothingToDelete(s: System, now: nat, d: Id, id: Id)
    requires s.db == Initial(d).db && id != d
    requires 0 in s.processes && s.processes[0] == Started(DeleteOrganization(id), 1)
    ensures Enabled(s, TryDelete(0), false)
    ensures Next(s, now, TryDelete(0)) == s.(processes := s.processes[0 := Classifying(DeleteOrganization(id), 1)])
  {
  }

  lemma OrganizationAppears(s: System, now: nat, d: Id, id: Id, o: Organization)
    requires s.db == Initial(d).db && id != d && o.slug != DEFAULT_SLUG
    ensures var t := Next(s, now, CreateOrganization(id, o));
            && Enabled(s, CreateOrganization(id, o), false) && t.processes == s.processes
            && t.db == s.db.(organizations := s.db.organizations[id := o])
            && Explain(t.db, DeleteOrganization(id)) == InUse && !OwnsWorkspaces(t.db, id)
  {
  }

  /** With ids a caller can guess, InUse can be reported for a row that was never in use, whatever the id and the
      organization: it appears between the DELETE that found nothing and the read that explains it. */
  lemma GuessedIdMisreports(d: Id, id: Id, o: Organization) returns (tr: seq<System>, acts: seq<Action>)
    requires id != d && o.slug != DEFAULT_SLUG
    ensures IsRun(tr, acts, d, false) && |tr| == 5 && 0 in tr[4].processes
    ensures tr[4].processes[0] == Returned(DeleteOrganization(id), 1, InUse)
    ensures forall j | 0 <= j < 5 :: !Holds(tr[j].db, DeleteOrganization(id), InUse)
  {
    acts := [Invoke(0, DeleteOrganization(id)), TryDelete(0), CreateOrganization(id, o), Classify(0)];
    var s0 := Initial(d);
    var s1 := Next(s0, 0, acts[0]);
    NothingToDelete(s1, 1, d, id);
    var s2 := Next(s1, 1, acts[1]);
    OrganizationAppears(s2, 2, d, id, o);
    var s3 := Next(s2, 2, acts[2]);
    var s4 := Next(s3, 3, acts[3]);
    tr := [s0, s1, s2, s3, s4];
    hide InsertOrganization, Deletable, DeleteIfUnused, Explain, OwnsWorkspaces;
    assert StepAt(tr, acts, false, 0) && StepAt(tr, acts, false, 1);
    assert StepAt(tr, acts, false, 2) && StepAt(tr, acts, false, 3);
  }
}
