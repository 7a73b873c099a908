/** The tenant tables and the transactions the repositories run on them
    (backend/app/organization_repository.py, workspace_repository.py, connection_repository.py). */
module TenantStore {
  import opened Wrappers
  import opened Separators

  /** A uuid4. */
  type Id = nat

  const DEFAULT_SLUG := "default"

  datatype Organization = Organization(slug: string, name: string, description: Option<string>)
  datatype Workspace = Workspace(organization: Id, slug: string, name: string, description: Option<string>)
  datatype Connection = Connection(ref: string, workspace: Option<Id>, name: string, profile: Profile)

  datatype AuthMode = SecretRef | Iam | NoAuth

  datatype Profile = Profile(host: string, port: int, database: string, authMode: AuthMode,
                             secretProvider: Option<string>, secretKey: Option<string>,
                             maxRows: int, timeoutSeconds: real)

  datatype Db = Db(organizations: map<Id, Organization>,
                   workspaces: map<Id, Workspace>,
                   connections: map<Id, Connection>)

  datatype Outcome =
    | Created | SlugConflict | UnknownOrganization | UnknownWorkspace | RefConflict | InvalidProfile
    | Updated | Deleted | Absent | InUse | DefaultProtected

  // ----- Profiles.

  predicate Blank(s: string) {
    forall i | 0 <= i < |s| :: IsSpace(s[i])
  }

  predicate HasSecret(p: Profile) {
    p.secretProvider.Some? || p.secretKey.Some?
  }

  predicate ValidSecret(p: Profile) {
    && p.secretProvider.Some? && !Blank(p.secretProvider.value)
    && p.secretKey.Some? && p.secretKey.value != "" && |p.secretKey.value| <= 100
    && forall i | 0 <= i < |p.secretKey.value| :: !IsSpace(p.secretKey.value[i])
  }

  /** What constructing the domain profile insists on. */
  predicate ValidProfile(p: Profile) {
    && !Blank(p.host) && !Blank(p.database) && 1 <= p.port <= 65535
    && (HasSecret(p) ==> ValidSecret(p))
    && (p.authMode == SecretRef ==> HasSecret(p))
    && (p.authMode == NoAuth ==> !HasSecret(p))
    && p.maxRows > 0 && p.timeoutSeconds > 0.0
  }

  /** The provided fields of an update; None leaves a column alone. */
  datatype Patch = Patch(name: Option<string>, host: Option<string>, port: Option<int>, database: Option<string>,
                         authMode: Option<AuthMode>, secretProvider: Option<string>, secretKey: Option<string>,
                         maxRows: Option<int>, timeoutSeconds: Option<real>)

  function Or<T>(provided: Option<T>, current: T): T {
    if provided.Some? then provided.value else current
  }

  /** The row after the update: switching to no authentication also clears the stored secret. */
  function Patched(c: Connection, patch: Patch): Connection {
    var clear := patch.authMode == Some(NoAuth);
    var p := c.profile;
    c.(name := Or(patch.name, c.name),
       profile := Profile(
         Or(patch.host, p.host), Or(patch.port, p.port), Or(patch.database, p.database),
         Or(patch.authMode, p.authMode),
         if clear then None else if patch.secretProvider.Some? then patch.secretProvider else p.secretProvider,
         if clear then None else if patch.secretKey.Some? then patch.secretKey else p.secretKey,
         Or(patch.maxRows, p.maxRows), Or(patch.timeoutSeconds, p.timeoutSeconds)))
  }

  /** A column that is provided is written and every other one kept, but for the secret, which switching to no
      authentication clears and nothing else does. */
  lemma PatchedColumns(c: Connection, patch: Patch)
    ensures var d := Patched(c, patch);
            var p, q := c.profile, d.profile;
            && d.ref == c.ref && d.workspace == c.workspace
            && (patch.name.None? ==> d.name == c.name) && (patch.name.Some? ==> d.name == patch.name.value)
            && (patch.host.None? ==> q.host == p.host) && (patch.host.Some? ==> q.host == patch.host.value)
            && (patch.port.None? ==> q.port == p.port) && (patch.port.Some? ==> q.port == patch.port.value)
            && (patch.database.None? ==> q.database == p.database)
            && (patch.database.Some? ==> q.database == patch.database.value)
            && (patch.maxRows.None? ==> q.maxRows == p.maxRows)
            && (patch.maxRows.Some? ==> q.maxRows == patch.maxRows.value)
            && (patch.timeoutSeconds.None? ==> q.timeoutSeconds == p.timeoutSeconds)
            && (patch.timeoutSeconds.Some? ==> q.timeoutSeconds == patch.timeoutSeconds.value)
            && (patch.authMode.None? ==> q.authMode == p.authMode)
            && (patch.authMode.Some? ==> q.authMode == patch.authMode.value)
            && (patch.authMode == Some(NoAuth) ==> !HasSecret(q))
            && (patch.authMode != Some(NoAuth) ==>
                  && q.secretProvider == (if patch.secretProvider.Some? then patch.secretProvider else p.secretProvider)
                  && q.secretKey == (if patch.secretKey.Some? then patch.secretKey else p.secretKey))
  {
  }

  const NO_PATCH := Patch(None, None, None, None, None, None, None, None, None)

  /** The update that provides every column of a profile. */
  function PatchTo(t: Profile): Patch {
    Patch(None, Some(t.host), Some(t.port), Some(t.database), Some(t.authMode), t.secretProvider, t.secretKey,
          Some(t.maxRows), Some(t.timeoutSeconds))
  }

  /** Which valid profiles one update can reach from a row: all but those without a secret that still authenticate,
      when the row has a secret. Only switching to no authentication ever clears one. */
  lemma ReachableIff(c: Connection, t: Profile)
    requires ValidProfile(t)
    ensures var reachable := HasSecret(t) || t.authMode == NoAuth || !HasSecret(c.profile);
            && (reachable ==> Patched(c, PatchTo(t)) == c.(profile := t))
            && (reachable <==> exists patch :: Patched(c, patch).profile == t)
  {
    if HasSecret(t) || t.authMode == NoAuth || !HasSecret(c.profile) {
      assert Patched(c, PatchTo(t)).profile == t;
    }
  }

  /** Two updates in a row drop the secret for good. */
  lemma ClearingTakesTwoUpdates(c: Connection, t: Profile)
    requires ValidProfile(c.profile) && ValidProfile(t) && !HasSecret(t)
    ensures var cleared := Patched(c, NO_PATCH.(authMode := Some(NoAuth)));
            ValidProfile(cleared.profile) && Patched(cleared, PatchTo(t)) == c.(profile := t)
  {
    var cleared := Patched(c, NO_PATCH.(authMode := Some(NoAuth)));
    ReachableIff(cleared, t);
  }

  // ----- Overlapping updates: read, validation and write are separate transactions.

  predicate SetsBoth(b: Patch) {
    b.secretProvider.Some? && b.secretKey.Some?
  }

  predicate SetsNeither(b: Patch) {
    b.secretProvider.None? && b.secretKey.None?
  }

  /** The update says all there is to say about authentication. */
  predicate StandsAlone(b: Patch) {
    match b.authMode
    case Some(NoAuth) => true
    case Some(SecretRef) => SetsBoth(b)
    case Some(Iam) => SetsBoth(b) || SetsNeither(b)
    case None => SetsNeither(b)
  }

  predicate Suits(b: Patch, row: Profile) {
    StandsAlone(b) || HasSecret(row) || (b.authMode.None? && SetsBoth(b) && row.authMode != NoAuth)
  }

  /** An update validated against the row it read and written over the row there is by then: the result is valid if
      and only if the update says everything about authentication, or the row has what it leaves out. */
  lemma StaleWriteIff(read: Connection, row: Connection, b: Patch)
    requires ValidProfile(read.profile) && ValidProfile(row.profile) && ValidProfile(Patched(read, b).profile)
    ensures ValidProfile(Patched(row, b).profile) <==> Suits(b, row.profile)
  {
    hide Blank;
  }

  /** Of two updates that validate against the same row, the second leaves a valid profile if and only if the first
      does not switch authentication off or the second says everything about authentication. */
  lemma OverlapIff(c: Connection, a: Patch, b: Patch)
    requires ValidProfile(c.profile) && ValidProfile(Patched(c, a).profile) && ValidProfile(Patched(c, b).profile)
    ensures ValidProfile(Patched(Patched(c, a), b).profile) <==> a.authMode != Some(NoAuth) || StandsAlone(b)
  {
    hide Blank;
    StaleWriteIff(c, Patched(c, a), b);
  }

  /** A witness: switching authentication off while a secret is being set. */
  lemma InterleavedUpdatesBreakProfile(c: Connection, a: Patch, b: Patch)
    requires ValidProfile(c.profile) && c.profile.authMode == Iam && !HasSecret(c.profile)
    requires a == NO_PATCH.(authMode := Some(NoAuth))
    requires b == NO_PATCH.(secretProvider := Some("vault"), secretKey := Some("k"))
    ensures ValidProfile(Patched(c, a).profile) && ValidProfile(Patched(c, b).profile)
    ensures !ValidProfile(Patched(Patched(c, a), b).profile)
  {
    assert !IsSpace("vault"[0]) && !IsSpace("k"[0]);
    assert HasSecret(Patched(c, b).profile) && ValidSecret(Patched(c, b).profile);
  }

  /** A write, and which version of the row its update had read and validated against. */
  datatype Update = Update(patch: Patch, read: nat)

  /** rows[k] is the row before the k-th write; each write was valid on the version it read. */
  ghost predicate IsUpdateHistory(rows: seq<Connection>, writes: seq<Update>) {
    && |rows| == |writes| + 1 && ValidProfile(rows[0].profile)
    && forall k | 0 <= k < |writes| ::
         && writes[k].read <= k && ValidProfile(Patched(rows[writes[k].read], writes[k].patch).profile)
         && rows[k + 1] == Patched(rows[k], writes[k].patch)
  }

  /** No authentication was switched off between the read and the write. */
  ghost predicate Undisturbed(writes: seq<Update>, k: nat)
    requires k < |writes|
  {
    forall m | writes[k].read <= m < k :: writes[m].patch.authMode != Some(NoAuth)
  }

  lemma {:induction false} NothingCleared(rows: seq<Connection>, writes: seq<Update>, j: nat, k: nat)
    requires IsUpdateHistory(rows, writes) && j <= k < |rows|
    requires forall m | j <= m < k :: writes[m].patch.authMode != Some(NoAuth)
    ensures HasSecret(rows[j].profile) ==> HasSecret(rows[k].profile)
    ensures rows[j].profile.authMode != NoAuth ==> rows[k].profile.authMode != NoAuth
    decreases k
  {
    hide ValidProfile;
    if j < k {
      NothingCleared(rows, writes, j, k - 1);
      assert rows[k - 1 + 1] == Patched(rows[k - 1], writes[k - 1].patch);
    }
  }

  /** However updates of a row overlap, every version is valid when each update either says everything about
      authentication or overlaps with none that switches it off. */
  lemma {:induction false} OverlappingUpdatesStayValid(rows: seq<Connection>, writes: seq<Update>, n: nat)
    requires IsUpdateHistory(rows, writes) && n < |rows|
    requires forall k | 0 <= k < n :: StandsAlone(writes[k].patch) || Undisturbed(writes, k)
    ensures ValidProfile(rows[n].profile)
  {
    if n > 0 {
      var k := n - 1;
      var w := writes[k];
      OverlappingUpdatesStayValid(rows, writes, k);
      OverlappingUpdatesStayValid(rows, writes, w.read);
      if Undisturbed(writes, k) {
        NothingCleared(rows, writes, w.read, k);
      }
      hide ValidProfile, Patched;
      assert rows[k + 1] == Patched(rows[k], w.patch);
      StaleWriteIff(rows[w.read], rows[k], w.patch);
      ReadSuits(rows[w.read], w.patch);
    }
  }

  lemma ReadSuits(read: Connection, b: Patch)
    requires ValidProfile(read.profile) && ValidProfile(Patched(read, b).profile)
    ensures Suits(b, read.profile)
  {
    StaleWriteIff(read, read, b);
  }

  // ----- One function per statement or transaction: the new tables.

  predicate OrgSlugTaken(db: Db, slug: string) {
    exists o | o in db.organizations :: db.organizations[o].slug == slug
  }

  predicate WorkspaceSlugTaken(db: Db, organization: Id, slug: string) {
    exists w | w in db.workspaces :: db.workspaces[w].organization == organization && db.workspaces[w].slug == slug
  }

  predicate RefTaken(db: Db, ref: string) {
    exists c | c in db.connections :: db.connections[c].ref == ref
  }

  predicate OwnsWorkspaces(db: Db, organization: Id) {
    exists w | w in db.workspaces :: db.workspaces[w].organization == organization
  }

  predicate HasConnections(db: Db, workspace: Id) {
    exists c | c in db.connections :: db.connections[c].workspace == Some(workspace)
  }

  predicate DeletableOrganization(db: Db, id: Id) {
    id in db.organizations && db.organizations[id].slug != DEFAULT_SLUG && !OwnsWorkspaces(db, id)
  }

  predicate DeletableWorkspace(db: Db, id: Id) {
    id in db.workspaces && !HasConnections(db, id)
  }

  function InsertOrganization(db: Db, id: Id, o: Organization): Db {
    if OrgSlugTaken(db, o.slug) then db else db.(organizations := db.organizations[id := o])
  }

  function InsertWorkspace(db: Db, id: Id, w: Workspace): Db {
    if w.organization !in db.organizations || WorkspaceSlugTaken(db, w.organization, w.slug) then db
    else db.(workspaces := db.workspaces[id := w])
  }

  function InsertConnection(db: Db, id: Id, c: Connection): Db {
    if (c.workspace.Some? && c.workspace.value !in db.workspaces) || RefTaken(db, c.ref) then db
    else db.(connections := db.connections[id := c])
  }

  function RenameOrganization(db: Db, id: Id, name: Option<string>, description: Option<string>): Db {
    if id !in db.organizations then db
    else
      var o := db.organizations[id];
      db.(organizations := db.organizations[id := o.(name := Or(name, o.name),
            description := if description.Some? then description else o.description)])
  }

  function RenameWorkspace(db: Db, id: Id, name: Option<string>, description: Option<string>): Db {
    if id !in db.workspaces then db
    else
      var w := db.workspaces[id];
      db.(workspaces := db.workspaces[id := w.(name := Or(name, w.name),
            description := if description.Some? then description else w.description)])
  }

  function WriteConnection(db: Db, id: Id, patch: Patch): Db {
    if id !in db.connections then db
    else db.(connections := db.connections[id := Patched(db.connections[id], patch)])
  }

  function DeleteOrganizationIfUnused(db: Db, id: Id): Db {
    if DeletableOrganization(db, id) then db.(organizations := db.organizations - {id}) else db
  }

  function DeleteWorkspaceIfUnused(db: Db, id: Id): Db {
    if DeletableWorkspace(db, id) then db.(workspaces := db.workspaces - {id}) else db
  }

  function DeleteConnectionRow(db: Db, id: Id): Db {
    db.(connections := db.connections - {id})
  }

  /** How a delete that removed nothing is explained, from a second read of the table. */
  function ExplainOrganization(db: Db, id: Id): Outcome {
    if id !in db.organizations then Absent
    else if db.organizations[id].slug == DEFAULT_SLUG then DefaultProtected
    else InUse
  }

  function ExplainWorkspace(db: Db, id: Id): Outcome {
    if id in db.workspaces then InUse else Absent
  }

  // ----- Referential integrity and uniqueness, which no foreign key enforces.

  ghost predicate Integrity(db: Db, defaultOrg: Id) {
    && defaultOrg in db.organizations && db.organizations[defaultOrg].slug == DEFAULT_SLUG
    && (forall w :: w in db.workspaces ==> db.workspaces[w].organization in db.organizations)
    && (forall c :: c in db.connections && db.connections[c].workspace.Some? ==>
          db.connections[c].workspace.value in db.workspaces)
    && Unique(db)
  }

  ghost predicate Unique(db: Db) {
    && (forall x, y :: x in db.organizations && y in db.organizations && x != y ==>
          db.organizations[x].slug != db.organizations[y].slug)
    && (forall x, y :: x in db.workspaces && y in db.workspaces && x != y ==>
          || db.workspaces[x].organization != db.workspaces[y].organization
          || db.workspaces[x].slug != db.workspaces[y].slug)
    && (forall x, y :: x in db.connections && y in db.connections && x != y ==>
          db.connections[x].ref != db.connections[y].ref)
  }

  lemma OrganizationInsertKeepsIntegrity(db: Db, d: Id, id: Id, o: Organization)
    requires Integrity(db, d) && id !in db.organizations
    ensures Integrity(InsertOrganization(db, id, o), d)
  {
  }

  lemma WorkspaceInsertKeepsIntegrity(db: Db, d: Id, id: Id, w: Workspace)
    requires Integrity(db, d) && id !in db.workspaces
    ensures Integrity(InsertWorkspace(db, id, w), d)
  {
  }

  lemma ConnectionInsertKeepsIntegrity(db: Db, d: Id, id: Id, c: Connection)
    requires Integrity(db, d) && id !in db.connections
    ensures Integrity(InsertConnection(db, id, c), d)
  {
  }

  lemma OrganizationRenameKeepsIntegrity(db: Db, d: Id, id: Id, name: Option<string>, description: Option<string>)
    requires Integrity(db, d)
    ensures Integrity(RenameOrganization(db, id, name, description), d)
  {
  }

  lemma WorkspaceRenameKeepsIntegrity(db: Db, d: Id, id: Id, name: Option<string>, description: Option<string>)
    requires Integrity(db, d)
    ensures Integrity(RenameWorkspace(db, id, name, description), d)
  {
  }

  lemma WriteKeepsIntegrity(db: Db, d: Id, id: Id, patch: Patch)
    requires Integrity(db, d)
    ensures Integrity(WriteConnection(db, id, patch), d)
  {
    hide Patched;
    if id in db.connections {
      PatchKeepsLinks(db, id, patch);
    }
  }

  lemma PatchKeepsLinks(db: Db, id: Id, patch: Patch)
    requires id in db.connections
    ensures var c := Patched(db.connections[id], patch);
            c.ref == db.connections[id].ref && c.workspace == db.connections[id].workspace
  {
  }

  lemma OneDefault(db: Db, d: Id)
    requires Integrity(db, d)
    ensures d in db.organizations && db.organizations[d].slug == DEFAULT_SLUG
    ensures forall o :: o in db.organizations && db.organizations[o].slug == DEFAULT_SLUG ==> o == d
  {
  }

  lemma DeletesKeepIntegrity(db: Db, d: Id, id: Id)
    requires Integrity(db, d)
    ensures Integrity(DeleteOrganizationIfUnused(db, id), d)
    ensures Integrity(DeleteWorkspaceIfUnused(db, id), d)
    ensures Integrity(DeleteConnectionRow(db, id), d)
  {
  }

  // ----- The repositories, called one at a time.

  class Repositories {
    var organizations: map<Id, Organization>
    var workspaces: map<Id, Workspace>
    var connections: map<Id, Connection>
    ghost const defaultOrg: Id

    function Tables(): Db
      reads this
    {
      Db(organizations, workspaces, connections)
    }

    ghost predicate Valid()
      reads this
    {
      && Integrity(Tables(), defaultOrg)
      && forall c :: c in connections ==> ValidProfile(connections[c].profile) && !Blank(connections[c].ref)
    }

    predicate Fresh(id: Id)
      reads this
    {
      id !in organizations && id !in workspaces && id !in connections
    }

    constructor (defaultOrg: Id)
      ensures Valid() && this.defaultOrg == defaultOrg
      ensures Tables() == Db(map[defaultOrg := Organization("default", "Default", None)], map[], map[])
    {
      this.defaultOrg := defaultOrg;
      organizations := map[defaultOrg := Organization(DEFAULT_SLUG, "Default", None)];
      workspaces, connections := map[], map[];
    }

    method CreateOrganization(id: Id, name: string, slug: string, description: Option<string>) returns (r: Outcome)
      requires Valid() && Fresh(id)
      modifies this
      ensures Valid() && Tables() == InsertOrganization(old(Tables()), id, Organization(slug, name, description))
      ensures r == if OrgSlugTaken(old(Tables()), slug) then SlugConflict else Created
    {
      if exists o | o in organizations :: organizations[o].slug == slug {
        return SlugConflict;
      }
      organizations := organizations[id := Organization(slug, name, description)];
      return Created;
    }

    /** Without an organization the workspace goes into the default one. */
    method CreateWorkspace(id: Id, name: string, slug: string, description: Option<string>, organization: Option<Id>)
      returns (r: Outcome)
      requires Valid() && Fresh(id)
      modifies this
      ensures Valid()
      ensures var owner := Or(organization, defaultOrg);
              && Tables() == InsertWorkspace(old(Tables()), id, Workspace(owner, slug, name, description))
              && r == if owner !in old(organizations) then UnknownOrganization
                      else if WorkspaceSlugTaken(old(Tables()), owner, slug) then SlugConflict else Created
    {
      hide Integrity, Unique, ValidProfile;
      OneDefault(Tables(), defaultOrg);
      ghost var target := Workspace(Or(organization, defaultOrg), slug, name, description);
      WorkspaceInsertKeepsIntegrity(Tables(), defaultOrg, id, target);
      var owner;
      if organization.None? {
        owner :| owner in organizations && organizations[owner].slug == DEFAULT_SLUG;
      } else {
        owner := organization.value;
      }
      if owner !in organizations {
        return UnknownOrganization;
      }
      if exists w | w in workspaces :: workspaces[w].organization == owner && workspaces[w].slug == slug {
        return SlugConflict;
      }
      workspaces := workspaces[id := Workspace(owner, slug, name, description)];
      return Created;
    }

    method IsBlank(s: string) returns (blank: bool)
      ensures blank <==> Blank(s)
    {
      for i := 0 to |s|
        invariant forall j | 0 <= j < i :: IsSpace(s[j])
      {
        if !IsSpace(s[i]) {
          return false;
        }
      }
      return true;
    }

    /** Constructs the domain objects of a profile: the secret if one of its parts is given, the endpoint, the rest. */
    method BuildProfile(ref: string, p: Profile) returns (ok: bool)
      ensures ok <==> ValidProfile(p) && !Blank(ref)
    {
      hide Blank;
      var hasSecret := p.secretProvider.Some? || p.secretKey.Some?;
      if hasSecret {
        var secretOk := BuildSecret(Or(p.secretProvider, ""), Or(p.secretKey, ""));
        EmptyIsBlank();
        if !secretOk {
          return false;
        }
      }
      var noHost := IsBlank(p.host);
      var noDatabase := IsBlank(p.database);
      if noHost || noDatabase || p.port < 1 || 65535 < p.port {
        return false;
      }
      var noRef := IsBlank(ref);
      if noRef || (p.authMode == SecretRef && !hasSecret) || (p.authMode == NoAuth && hasSecret) {
        return false;
      }
      return 0 < p.maxRows && 0.0 < p.timeoutSeconds;
    }

    method BuildSecret(provider: string, key: string) returns (ok: bool)
      ensures ok <==> !Blank(provider) && key != "" && |key| <= 100 && forall i | 0 <= i < |key| :: !IsSpace(key[i])
    {
      var noProvider := IsBlank(provider);
      var noKey := IsBlank(key);
      if noProvider || noKey || |key| > 100 {
        assert Blank(key) && key != "" ==> IsSpace(key[0]);
        return false;
      }
      for i := 0 to |key|
        invariant forall j | 0 <= j < i :: !IsSpace(key[j])
      {
        if IsSpace(key[i]) {
          return false;
        }
      }
      return true;
    }

    lemma EmptyIsBlank()
      ensures Blank("")
    {
    }

    method CreateConnection(id: Id, c: Connection) returns (r: Outcome)
      requires Valid() && Fresh(id)
      modifies this
      ensures Valid()
      ensures Tables() == if ValidProfile(c.profile) && !Blank(c.ref) then InsertConnection(old(Tables()), id, c)
                          else old(Tables())
      ensures r == if !ValidProfile(c.profile) || Blank(c.ref) then InvalidProfile
                   else if c.workspace.Some? && c.workspace.value !in old(workspaces) then UnknownWorkspace
                   else if RefTaken(old(Tables()), c.ref) then RefConflict else Created
    {
      hide ValidProfile, Blank, Unique;
      ConnectionInsertKeepsIntegrity(Tables(), defaultOrg, id, c);
      var ok := BuildProfile(c.ref, c.profile);
      if !ok {
        return InvalidProfile;
      }
      if c.workspace.Some? && c.workspace.value !in workspaces {
        return UnknownWorkspace;
      }
      if exists x | x in connections :: connections[x].ref == c.ref {
        return RefConflict;
      }
      connections := connections[id := c];
      return Created;
    }

    /** Only the provided columns change; without any, nothing does. */
    method UpdateOrganization(id: Id, name: Option<string>, description: Option<string>) returns (r: Outcome)
      requires Valid()
      modifies this
      ensures Valid() && Tables() == RenameOrganization(old(Tables()), id, name, description)
      ensures r == if id in old(organizations) then Updated else Absent
      ensures id in old(organizations) ==>
                && organizations[id].slug == old(organizations)[id].slug
                && organizations[id].name == Or(name, old(organizations)[id].name)
                && (description.None? ==> organizations[id].description == old(organizations)[id].description)
                && (description.Some? ==> organizations[id].description == description)
    {
      hide Unique, ValidProfile;
      OrganizationRenameKeepsIntegrity(Tables(), defaultOrg, id, name, description);
      if id !in organizations {
        return Absent;
      }
      var o := organizations[id];
      if name.Some? {
        o := o.(name := name.value);
      }
      if description.Some? {
        o := o.(description := description);
      }
      organizations := organizations[id := o];
      return Updated;
    }

    method UpdateWorkspace(id: Id, name: Option<string>, description: Option<string>) returns (r: Outcome)
      requires Valid()
      modifies this
      ensures Valid() && Tables() == RenameWorkspace(old(Tables()), id, name, description)
      ensures r == if id in old(workspaces) then Updated else Absent
      ensures id in old(workspaces) ==>
                && workspaces[id].slug == old(workspaces)[id].slug
                && workspaces[id].organization == old(workspaces)[id].organization
                && workspaces[id].name == Or(name, old(workspaces)[id].name)
                && (description.None? ==> workspaces[id].description == old(workspaces)[id].description)
                && (description.Some? ==> workspaces[id].description == description)
    {
      hide Unique, ValidProfile;
      WorkspaceRenameKeepsIntegrity(Tables(), defaultOrg, id, name, description);
      if id !in workspaces {
        return Absent;
      }
      var w := workspaces[id];
      if name.Some? {
        w := w.(name := name.value);
      }
      if description.Some? {
        w := w.(description := description);
      }
      workspaces := workspaces[id := w];
      return Updated;
    }

    method DeleteOrganization(id: Id) returns (r: Outcome)
      requires Valid()
      modifies this
      ensures Valid() && Tables() == DeleteOrganizationIfUnused(old(Tables()), id)
      ensures r == Deleted <==> DeletableOrganization(old(Tables()), id)
      ensures r == Absent <==> id !in old(organizations)
      ensures r == DefaultProtected <==> id == defaultOrg
      ensures r == InUse <==> id != defaultOrg && OwnsWorkspaces(old(Tables()), id)
    {
      if DeletableOrganization(Tables(), id) {
        organizations := organizations - {id};
        return Deleted;
      }
      return ExplainOrganization(Tables(), id);
    }

    method DeleteWorkspace(id: Id) returns (r: Outcome)
      requires Valid()
      modifies this
      ensures Valid() && Tables() == DeleteWorkspaceIfUnused(old(Tables()), id)
      ensures r == Deleted <==> DeletableWorkspace(old(Tables()), id)
      ensures r == Absent <==> id !in old(workspaces)
      ensures r == InUse <==> HasConnections(old(Tables()), id)
    {
      if DeletableWorkspace(Tables(), id) {
        workspaces := workspaces - {id};
        return Deleted;
      }
      return ExplainWorkspace(Tables(), id);
    }

    /** Reads the row, validates the merged profile, then writes only the provided columns. */
    method UpdateConnection(id: Id, patch: Patch) returns (r: Outcome)
      requires Valid()
      modifies this
      ensures Valid()
      ensures r == if id !in old(connections) then Absent
                   else if ValidProfile(Patched(old(connections)[id], patch).profile) then Updated else InvalidProfile
      ensures Tables() == if r == Updated then WriteConnection(old(Tables()), id, patch) else old(Tables())
    {
      hide ValidProfile, Blank, Unique, Patched;
      WriteKeepsIntegrity(Tables(), defaultOrg, id, patch);
      if id !in connections {
        return Absent;
      }
      PatchKeepsLinks(Tables(), id, patch);
      var merged := Patched(connections[id], patch);
      var ok := BuildProfile(merged.ref, merged.profile);
      if !ok {
        return InvalidProfile;
      }
      connections := connections[id := merged];
      return Updated;
    }

    method DeleteConnection(id: Id) returns (r: Outcome)
      requires Valid()
      modifies this
      ensures Valid() && Tables() == DeleteConnectionRow(old(Tables()), id)
      ensures r == if id in old(connections) then Deleted else Absent
    {
      r := if id in connections then Deleted else Absent;
      connections := connections - {id};
    }
  }
}
