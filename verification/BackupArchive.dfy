/** Creating and verifying backup archives (backend/app/backup/core.py). */
module BackupArchive {
  import opened Wrappers
  import opened BackupPaths

  const FORMAT_VERSION := 1

  datatype DbReply = Intact | IntegrityFailed | NotADatabase

  datatype FileMeta = FileMeta(sha256: string, size: nat)

  /** Schema versions by database, checksums by member. */
  datatype Manifest = Manifest(format: int, databases: map<string, nat>, files: map<string, FileMeta>)

  /** regular is false for directories, links and devices. */
  datatype Member = Member(name: string, regular: bool, data: Data)

  datatype Archive = Unreadable | Archive(members: seq<Member>)

  /** JSON, SHA-256 and SQLite, taken as given. */
  datatype Services = Services(encode: Manifest -> Data, decode: Data -> Option<Manifest>, hash: Data -> string,
                               check: Data -> DbReply, version: (string, Data) -> nat, readable: Data -> bool)

  ghost predicate RoundTrips(services: Services) {
    forall m :: services.decode(services.encode(m)) == Some(m)
  }

  /** The persistent state: two databases, which may not exist yet, and two directory trees. */
  datatype State = State(app: Option<Data>, trace: Option<Data>, uploads: Tree, qdrant: Tree)

  predicate ValidState(s: State) {
    WellFormed(s.uploads) && WellFormed(s.qdrant)
  }

  function Meta(services: Services, data: Data): FileMeta {
    FileMeta(services.hash(data), |data|)
  }

  // ----- Verification.

  datatype VerifyError =
    | UnreadableArchive | UnsupportedFormat
    | UnsafeMember(name: string) | NotListed(name: string) | ChecksumMismatch(name: string)
    | IntegrityCheckFailed(name: string) | NotAValidDatabase(name: string) | MissingMember(name: string)

  /** The last member of that name counts. */
  function ManifestMember(members: seq<Member>): Option<Data> {
    if members == [] then None
    else if members[|members| - 1].name == "manifest.json" then Some(members[|members| - 1].data)
    else ManifestMember(members[..|members| - 1])
  }

  function ReadManifest(services: Services, a: Archive): Option<Manifest> {
    if a.Unreadable? || ManifestMember(a.members).None? then None
    else services.decode(ManifestMember(a.members).value)
  }

  predicate IsDatabase(name: string) {
    |name| >= 3 && name[|name| - 3..] == ".db" && '/' !in name
  }

  function MemberError(services: Services, expected: map<string, FileMeta>, m: Member): Option<VerifyError> {
    if !m.regular || !IsSafeName(m.name) then Some(UnsafeMember(m.name))
    else if m.name == "manifest.json" then None
    else if m.name !in expected then Some(NotListed(m.name))
    else if Meta(services, m.data) != expected[m.name] then Some(ChecksumMismatch(m.name))
    else if !IsDatabase(m.name) then None
    else
      match services.check(m.data)
      case Intact => None
      case IntegrityFailed => Some(IntegrityCheckFailed(m.name))
      case NotADatabase => Some(NotAValidDatabase(m.name))
  }

  predicate IsContent(m: Member) {
    m.regular && IsSafeName(m.name) && m.name != "manifest.json"
  }

  function Seen(members: seq<Member>): set<string> {
    set m | m in members && IsContent(m) :: m.name
  }

  /** What verification complains about. */
  ghost predicate Reported(services: Services, members: seq<Member>, manifest: Manifest, e: VerifyError) {
    || (e == UnsupportedFormat && manifest.format != FORMAT_VERSION)
    || (exists m :: m in members && MemberError(services, manifest.files, m) == Some(e))
    || (e.MissingMember? && e.name in manifest.files && e.name !in Seen(members))
  }

  /** An archive in order. */
  ghost predicate Sound(services: Services, a: Archive) {
    var manifest := ReadManifest(services, a);
    && manifest.Some? && manifest.value.format == FORMAT_VERSION
    && (forall m | m in a.members :: MemberError(services, manifest.value.files, m).None?)
    && manifest.value.files.Keys <= Seen(a.members)
  }

  method VerifyBackup(services: Services, a: Archive)
    returns (ok: bool, errors: seq<VerifyError>, manifest: Option<Manifest>)
    ensures manifest == ReadManifest(services, a) && (ok <==> errors == []) && (ok <==> Sound(services, a))
    ensures manifest.None? ==> errors == [UnreadableArchive]
    ensures manifest.Some? ==> forall e :: e in errors <==> Reported(services, a.members, manifest.value, e)
  {
    hide IsSafeName;
    manifest := ReadManifest(services, a);
    if manifest.None? {
      return false, [UnreadableArchive], None;
    }
    var expected := manifest.value.files;
    errors := if manifest.value.format != FORMAT_VERSION then [UnsupportedFormat] else [];
    var seen, i := {}, 0;
    while i < |a.members|
      invariant 0 <= i <= |a.members| && seen == Seen(a.members[..i])
      invariant forall e :: e in errors <==>
                  ((e == UnsupportedFormat && manifest.value.format != FORMAT_VERSION)
                   || exists m :: m in a.members[..i] && MemberError(services, expected, m) == Some(e))
    {
      var m := a.members[i];
      assert a.members[..i + 1] == a.members[..i] + [m];
      if IsContent(m) {
        seen := seen + {m.name};
      }
      var e := MemberError(services, expected, m);
      hide MemberError, IsContent;
      errors := errors + if e.Some? then [e.value] else [];
      i := i + 1;
    }
    assert a.members[..i] == a.members;
    var missing := expected.Keys - seen;
    ghost var found := errors;
    hide MemberError, IsContent, Seen;
    while missing != {}
      invariant missing <= expected.Keys - seen
      invariant forall e :: e in errors <==>
                  e in found || (e.MissingMember? && e.name in expected.Keys - seen - missing)
    {
      var name :| name in missing;
      errors := errors + [MissingMember(name)];
      missing := missing - {name};
    }
    ok := errors == [];
    SoundIff(services, a, manifest.value, errors);
  }

  lemma SoundIff(services: Services, a: Archive, manifest: Manifest, errors: seq<VerifyError>)
    requires ReadManifest(services, a) == Some(manifest)
    requires forall e :: e in errors <==> Reported(services, a.members, manifest, e)
    ensures errors == [] <==> Sound(services, a)
  {
    hide MemberError, Seen;
    if errors != [] {
      assert Reported(services, a.members, manifest, errors[0]);
    }
    if !Sound(services, a) {
      if manifest.format != FORMAT_VERSION {
        assert UnsupportedFormat in errors;
      } else if m :| m in a.members && MemberError(services, manifest.files, m).Some? {
        assert Reported(services, a.members, manifest, MemberError(services, manifest.files, m).value);
      } else {
        var n :| n in manifest.files.Keys && n !in Seen(a.members);
        assert Reported(services, a.members, manifest, MissingMember(n));
      }
    }
  }

  /** The last member named manifest.json is read; without one there is no manifest. */
  lemma {:induction false} ManifestIsLast(members: seq<Member>, k: nat)
    requires k < |members| && members[k].name == "manifest.json"
    requires forall i | k < i < |members| :: members[i].name != "manifest.json"
    ensures ManifestMember(members) == Some(members[k].data)
  {
    if k < |members| - 1 {
      ManifestIsLast(members[..|members| - 1], k);
    }
  }

  lemma {:induction false} NoManifest(members: seq<Member>)
    ensures ManifestMember(members).None? <==> forall m | m in members :: m.name != "manifest.json"
  {
    if members != [] {
      var rest, last := members[..|members| - 1], members[|members| - 1];
      NoManifest(rest);
      assert members == rest + [last];
    }
  }

  lemma SafeDatabases(name: string)
    requires IsSafeName(name) && name != "manifest.json"
    ensures IsDatabase(name) <==> name == "app.db" || name == "trace.db"
  {
    assert "app.db"[3..] == ".db" && "trace.db"[5..] == ".db";
    NoSlashInFixedNames("app.db");
    NoSlashInFixedNames("trace.db");
    if StartsWith(name, "uploads/") || StartsWith(name, "qdrant/") {
      var k := if StartsWith(name, "uploads/") then 7 else 6;
      assert name[k] == '/';
    }
  }

  /** What is said of a member: the first fault there is, by its name. */
  lemma ComplaintIff(services: Services, expected: map<string, FileMeta>, m: Member)
    ensures var e := MemberError(services, expected, m);
            var safe := m.regular && IsSafeName(m.name);
            var listed := m.name in expected && expected[m.name] == FileMeta(services.hash(m.data), |m.data|);
            var database := m.name == "app.db" || m.name == "trace.db";
            && (e == Some(UnsafeMember(m.name)) <==> !safe)
            && (e == Some(NotListed(m.name)) <==> safe && m.name != "manifest.json" && m.name !in expected)
            && (e == Some(ChecksumMismatch(m.name)) <==>
                  safe && m.name != "manifest.json" && m.name in expected && !listed)
            && (e == Some(IntegrityCheckFailed(m.name)) <==>
                  safe && listed && database && services.check(m.data).IntegrityFailed?)
            && (e == Some(NotAValidDatabase(m.name)) <==>
                  safe && listed && database && services.check(m.data).NotADatabase?)
            && (e.None? <==> safe && (m.name == "manifest.json"
                                      || (listed && (database ==> services.check(m.data).Intact?))))
  {
    if m.regular && IsSafeName(m.name) && m.name != "manifest.json" {
      SafeDatabases(m.name);
    }
    hide IsSafeName, IsDatabase;
  }

  /** An archive verifies exactly when its manifest can be read and has format 1, every member is a regular file with a
      safe name, those other than the manifest are exactly the listed ones with the recorded checksum and size, and the
      databases among them are intact. */
  lemma SoundMeans(services: Services, a: Archive)
    ensures Sound(services, a) <==>
              && a.Archive? && ReadManifest(services, a).Some?
              && var manifest := ReadManifest(services, a).value;
                 && manifest.format == 1
                 && (forall n :: n in manifest.files ==>
                       n != "manifest.json" && exists m :: m in a.members && m.name == n)
                 && (forall m | m in a.members :: m.regular && IsSafeName(m.name)
                       && (m.name != "manifest.json" ==>
                             && m.name in manifest.files
                             && manifest.files[m.name] == FileMeta(services.hash(m.data), |m.data|)
                             && (m.name in ["app.db", "trace.db"] ==> services.check(m.data).Intact?)))
  {
    hide IsSafeName, ManifestMember, MemberError;
    if a.Archive? && ReadManifest(services, a).Some? {
      var files := ReadManifest(services, a).value.files;
      forall m | m in a.members
        ensures MemberError(services, files, m).None? <==>
                  m.regular && IsSafeName(m.name)
                  && (m.name != "manifest.json" ==>
                        && m.name in files && files[m.name] == FileMeta(services.hash(m.data), |m.data|)
                        && (m.name in ["app.db", "trace.db"] ==> services.check(m.data).Intact?))
      {
        ComplaintIff(services, files, m);
      }
      if forall m | m in a.members :: m.regular && IsSafeName(m.name) {
        SeenIff(a.members, files.Keys);
      }
    }
  }

  lemma SeenIff(members: seq<Member>, names: set<string>)
    requires forall m | m in members :: m.regular && IsSafeName(m.name)
    ensures names <= Seen(members) <==>
              forall n :: n in names ==> exists m :: m in members && m.name == n && n != "manifest.json"
  {
    hide IsSafeName;
  }

  /** Checksums pin the contents: two sound archives with the same manifest hold the same data under every name. */
  lemma SameManifestSameData(services: Services, a: Archive, b: Archive)
    requires forall x, y :: services.hash(x) == services.hash(y) ==> x == y
    requires Sound(services, a) && Sound(services, b) && ReadManifest(services, a) == ReadManifest(services, b)
    ensures forall m, m' | m in a.members && m' in b.members && m.name == m'.name ::
              m == m' || m.name == "manifest.json"
  {
    hide IsSafeName, Sound;
    SoundMeans(services, a);
    SoundMeans(services, b);
  }

  // ----- Creation.

  predicate Skipped(p: Path)
    requires p != []
  {
    StartsWith(p[|p| - 1], ".ready_check_")
  }

  /** The uploads a backup holds. */
  function SavedUploads(s: State): map<Path, Data> {
    map p | p in s.uploads.files && p != [] && !Skipped(p) :: s.uploads.files[p]
  }

  function SavedQdrant(s: State, includeQdrant: bool): map<Path, Data> {
    if includeQdrant then s.qdrant.files else map[]
  }

  predicate InTree(root: string, files: map<Path, Data>, m: Member) {
    exists p :: p in files && m == Member(NameOf(root, p), true, files[p])
  }

  predicate Saved(s: State, includeQdrant: bool, m: Member) {
    || (s.app.Some? && m == Member("app.db", true, s.app.value))
    || (s.trace.Some? && m == Member("trace.db", true, s.trace.value))
    || InTree("uploads", SavedUploads(s), m)
    || InTree("qdrant", SavedQdrant(s, includeQdrant), m)
  }

  function Versions(services: Services, s: State): map<string, nat> {
    (if s.app.Some? then map["app" := services.version("app", s.app.value)] else map[])
    + if s.trace.Some? then map["trace" := services.version("trace", s.trace.value)] else map[]
  }

  /** The archive of a state: a manifest, then exactly what is to be saved. */
  ghost predicate ArchiveOf(services: Services, s: State, includeQdrant: bool, a: Archive) {
    && a.Archive? && a.members != []
    && (forall m :: m in a.members[1..] <==> Saved(s, includeQdrant, m))
    && exists manifest: Manifest ::
         && a.members[0] == Member("manifest.json", true, services.encode(manifest))
         && manifest.format == FORMAT_VERSION && manifest.databases == Versions(services, s)
         && Lists(services, a.members[1..], manifest.files)
  }

  ghost predicate Lists(services: Services, members: seq<Member>, files: map<string, FileMeta>) {
    && (forall m | m in members :: m.name in files && files[m.name] == Meta(services, m.data))
    && (forall n | n in files :: exists m :: m in members && m.name == n)
  }

  /** No two saved members share a name. */
  lemma SavedOnce(s: State, includeQdrant: bool, m: Member, m': Member)
    requires ValidState(s) && Saved(s, includeQdrant, m) && Saved(s, includeQdrant, m') && m.name == m'.name
    ensures m == m'
  {
    RootsAreComponents();
    assert forall p | p in SavedUploads(s) :: IsPath(p);
    assert forall p | p in SavedQdrant(s, includeQdrant) :: IsPath(p);
    hide NameOf, WellFormed, SavedUploads, SavedQdrant, IsPath, IsComponent, InTree;
    SavedShape(s, includeQdrant, m);
    SavedShape(s, includeQdrant, m');
    if InTree("uploads", SavedUploads(s), m) {
      InTreeOnce("uploads", SavedUploads(s), m, m');
    } else if InTree("qdrant", SavedQdrant(s, includeQdrant), m) {
      InTreeOnce("qdrant", SavedQdrant(s, includeQdrant), m, m');
    }
  }

  lemma InTreeOnce(root: string, files: map<Path, Data>, m: Member, m': Member)
    requires IsComponent(root) && forall p | p in files :: IsPath(p)
    requires InTree(root, files, m) && InTree(root, files, m') && m.name == m'.name
    ensures m == m'
  {
    hide NameOf;
    var p :| p in files && m == Member(NameOf(root, p), true, files[p]);
    var p' :| p' in files && m' == Member(NameOf(root, p'), true, files[p']);
    NamesDiffer(root, p, root, p');
  }

  lemma RootsAreComponents()
    ensures IsComponent("uploads") && IsComponent("qdrant")
  {
    assert "uploads"[0] == 'u' && "qdrant"[0] == 'q';
  }

  /** A saved member is a database or a file of one of the trees, never the manifest. */
  lemma SavedShape(s: State, includeQdrant: bool, m: Member)
    requires ValidState(s) && Saved(s, includeQdrant, m)
    ensures m.regular && m.name != "manifest.json"
    ensures (m.name == "app.db" <==> s.app.Some? && m == Member("app.db", true, s.app.value))
    ensures (m.name == "trace.db" <==> s.trace.Some? && m == Member("trace.db", true, s.trace.value))
    ensures (StartsWith(m.name, "uploads/") <==> InTree("uploads", SavedUploads(s), m))
    ensures (StartsWith(m.name, "qdrant/") <==> InTree("qdrant", SavedQdrant(s, includeQdrant), m))
  {
    assert "app.db"[0] == 'a' && "trace.db"[0] == 't' && "manifest.json"[0] == 'm'
           && "uploads/"[0] == 'u' && "qdrant/"[0] == 'q';
    assert "uploads" + "/" == "uploads/" && "qdrant" + "/" == "qdrant/";
    hide NameOf;
    if InTree("uploads", SavedUploads(s), m) {
      var p :| p in SavedUploads(s) && m == Member(NameOf("uploads", p), true, SavedUploads(s)[p]);
      TreeNameSafeIff("uploads", p);
    }
    if InTree("qdrant", SavedQdrant(s, includeQdrant), m) {
      var p :| p in SavedQdrant(s, includeQdrant)
        && m == Member(NameOf("qdrant", p), true, SavedQdrant(s, includeQdrant)[p]);
      TreeNameSafeIff("qdrant", p);
    }
  }

  /** Adds every file of a tree, in the order of some walk. */
  method AddTree(root: string, files: map<Path, Data>, members: seq<Member>) returns (more: seq<Member>)
    ensures forall m :: m in more <==> m in members || InTree(root, files, m)
  {
    more := members;
    var todo := files.Keys;
    hide NameOf;
    while todo != {}
      invariant todo <= files.Keys
      invariant forall m :: m in more <==>
                  m in members || exists p :: p in files && p !in todo && m == Member(NameOf(root, p), true, files[p])
    {
      var p :| p in todo;
      more := more + [Member(NameOf(root, p), true, files[p])];
      todo := todo - {p};
    }
  }

  method CollectMembers(s: State, includeQdrant: bool) returns (members: seq<Member>)
    ensures forall m :: m in members <==> Saved(s, includeQdrant, m)
  {
    hide NameOf, InTree, SavedUploads, SavedQdrant;
    members := [];
    if s.app.Some? {
      members := members + [Member("app.db", true, s.app.value)];
    }
    if s.trace.Some? {
      members := members + [Member("trace.db", true, s.trace.value)];
    }
    members := AddTree("uploads", SavedUploads(s), members);
    if includeQdrant {
      members := AddTree("qdrant", SavedQdrant(s, includeQdrant), members);
    } else {
      NothingFromQdrant(s);
    }
  }

  /** SQLite can copy each database there is and read its schema version. */
  predicate Saveable(services: Services, s: State) {
    (s.app.Some? ==> services.readable(s.app.value)) && (s.trace.Some? ==> services.readable(s.trace.value))
  }

  /** None when a database cannot be copied: the exception leaves no archive. */
  method CreateBackup(services: Services, s: State, includeQdrant: bool) returns (a: Option<Archive>)
    requires ValidState(s)
    ensures a.Some? <==> Saveable(services, s)
    ensures a.Some? ==> ArchiveOf(services, s, includeQdrant, a.value)
  {
    hide Saved, ValidState, Lists, Versions;
    if s.app.Some? && !services.readable(s.app.value) {
      return None;
    }
    if s.trace.Some? && !services.readable(s.trace.value) {
      return None;
    }
    var members := CollectMembers(s, includeQdrant);
    forall m, m' | m in members && m' in members && m.name == m'.name ensures m == m' {
      SavedOnce(s, includeQdrant, m, m');
    }
    var files := ListFiles(services, members);
    var manifest := Manifest(FORMAT_VERSION, Versions(services, s), files);
    a := Some(Archive([Member("manifest.json", true, services.encode(manifest))] + members));
    assert a.value.members[1..] == members;
  }

  lemma NothingFromQdrant(s: State)
    ensures forall m :: !InTree("qdrant", SavedQdrant(s, false), m)
  {
  }

  method ListFiles(services: Services, members: seq<Member>) returns (files: map<string, FileMeta>)
    requires forall m, m' | m in members && m' in members && m.name == m'.name :: m == m'
    ensures Lists(services, members, files)
  {
    files := map[];
    var i := 0;
    while i < |members|
      invariant 0 <= i <= |members| && Lists(services, members[..i], files)
    {
      assert members[..i + 1] == members[..i] + [members[i]];
      assert forall m | m in members[..i] :: m in members;
      files := files[members[i].name := Meta(services, members[i].data)];
      i := i + 1;
    }
    assert members[..i] == members;
  }

  // ----- When a fresh backup verifies.

  lemma {:induction false} ManifestComesFirst(members: seq<Member>)
    requires members != [] && members[0].name == "manifest.json"
    requires forall m | m in members[1..] :: m.name != "manifest.json"
    ensures ManifestMember(members) == Some(members[0].data)
  {
    if |members| > 1 {
      var last := members[|members| - 1];
      assert last in members[1..];
      assert members[..|members| - 1][1..] == members[1..][..|members| - 2];
      ManifestComesFirst(members[..|members| - 1]);
    }
  }

  /** Every file name is free of backslashes and every database passes its integrity check. */
  predicate Restorable(services: Services, s: State, includeQdrant: bool) {
    && (forall p | p in SavedUploads(s) :: Plain(p)) && (forall p | p in SavedQdrant(s, includeQdrant) :: Plain(p))
    && (s.app.Some? ==> services.check(s.app.value).Intact?)
    && (s.trace.Some? ==> services.check(s.trace.value).Intact?)
  }

  lemma ManifestOfFresh(services: Services, s: State, includeQdrant: bool, a: Archive)
    requires ValidState(s) && ArchiveOf(services, s, includeQdrant, a) && RoundTrips(services)
    ensures var manifest := ReadManifest(services, a);
            && manifest.Some? && manifest.value.format == FORMAT_VERSION
            && manifest.value.databases == Versions(services, s)
            && Lists(services, a.members[1..], manifest.value.files)
  {
    hide Saved;
    forall m | m in a.members[1..] ensures m.name != "manifest.json" {
      SavedShape(s, includeQdrant, m);
    }
    ManifestComesFirst(a.members);
  }

  // ----- What a fresh backup holds, file by file.

  lemma UploadSavedIff(s: State, includeQdrant: bool, p: Path)
    requires ValidState(s) && p in s.uploads.files
    ensures |p| > 0
    ensures Saved(s, includeQdrant, Member(NameOf("uploads", p), true, s.uploads.files[p])) <==>
              !(".ready_check_" <= p[|p| - 1])
  {
    RootsAreComponents();
    TreeNameSafeIff("uploads", p);
    hide NameOf, IsSafeName, Plain;
    var m := Member(NameOf("uploads", p), true, s.uploads.files[p]);
    if Saved(s, includeQdrant, m) {
      SavedShape(s, includeQdrant, m);
      var q :| q in SavedUploads(s) && m == Member(NameOf("uploads", q), true, SavedUploads(s)[q]);
      NamesDiffer("uploads", p, "uploads", q);
    } else {
      assert p !in SavedUploads(s);
    }
  }

  lemma QdrantSavedIff(s: State, includeQdrant: bool, p: Path)
    requires ValidState(s) && p in s.qdrant.files
    ensures Saved(s, includeQdrant, Member(NameOf("qdrant", p), true, s.qdrant.files[p])) <==> includeQdrant
  {
    TreeNameSafeIff("qdrant", p);
    hide NameOf, IsSafeName, Plain, SavedUploads, WellFormed;
    var m := Member(NameOf("qdrant", p), true, s.qdrant.files[p]);
    if Saved(s, includeQdrant, m) {
      SavedShape(s, includeQdrant, m);
    }
  }

  lemma DatabaseSavedIff(s: State, includeQdrant: bool, d: Data)
    requires ValidState(s)
    ensures Saved(s, includeQdrant, Member("app.db", true, d)) <==> s.app == Some(d)
    ensures Saved(s, includeQdrant, Member("trace.db", true, d)) <==> s.trace == Some(d)
  {
    hide InTree, WellFormed;
    forall m | m in [Member("app.db", true, d), Member("trace.db", true, d)] && Saved(s, includeQdrant, m)
      ensures m.name == "app.db" ==> s.app == Some(d)
      ensures m.name == "trace.db" ==> s.trace == Some(d)
    {
      SavedShape(s, includeQdrant, m);
    }
    assert Member("app.db", true, d) in [Member("app.db", true, d), Member("trace.db", true, d)];
    assert Member("trace.db", true, d) in [Member("app.db", true, d), Member("trace.db", true, d)];
  }

  /** m stands for a database of the state, or for a file of one of its trees. */
  ghost predicate ComesFrom(s: State, m: Member) {
    || (m.name == "app.db" && s.app == Some(m.data)) || (m.name == "trace.db" && s.trace == Some(m.data))
    || (exists p :: p in s.uploads.files && m.name == NameOf("uploads", p) && m.data == s.uploads.files[p])
    || (exists p :: p in s.qdrant.files && m.name == NameOf("qdrant", p) && m.data == s.qdrant.files[p])
  }

  lemma SavedComesFrom(s: State, includeQdrant: bool, m: Member)
    requires Saved(s, includeQdrant, m)
    ensures m.regular && ComesFrom(s, m)
  {
    hide NameOf;
    if InTree("uploads", SavedUploads(s), m) {
      var p :| p in SavedUploads(s) && m == Member(NameOf("uploads", p), true, SavedUploads(s)[p]);
    } else if InTree("qdrant", SavedQdrant(s, includeQdrant), m) {
      var p :| p in SavedQdrant(s, includeQdrant)
        && m == Member(NameOf("qdrant", p), true, SavedQdrant(s, includeQdrant)[p]);
    }
  }

  /** The archive of a state holds every upload but the probes of the readiness check, every Qdrant file when asked
      for, the databases there are, and nothing else but the manifest. */
  lemma ArchiveHolds(services: Services, s: State, includeQdrant: bool, a: Archive)
    requires ValidState(s) && ArchiveOf(services, s, includeQdrant, a)
    ensures forall p | p in s.uploads.files :: |p| > 0 &&
              (Member(NameOf("uploads", p), true, s.uploads.files[p]) in a.members <==>
                 !(".ready_check_" <= p[|p| - 1]))
    ensures forall p | p in s.qdrant.files ::
              Member(NameOf("qdrant", p), true, s.qdrant.files[p]) in a.members <==> includeQdrant
    ensures forall d :: Member("app.db", true, d) in a.members <==> s.app == Some(d)
    ensures forall d :: Member("trace.db", true, d) in a.members <==> s.trace == Some(d)
    ensures forall m | m in a.members :: m.regular && (m.name == "manifest.json" || ComesFrom(s, m))
  {
    hide Saved, NameOf, ComesFrom, WellFormed, Lists, Versions;
    assert "app.db"[0] == 'a' && "trace.db"[0] == 't' && "manifest.json"[0] == 'm';
    assert a.members == [a.members[0]] + a.members[1..] && a.members[0].name == "manifest.json";
    forall m ensures m in a.members <==> m == a.members[0] || Saved(s, includeQdrant, m) {
    }
    forall p | p in s.uploads.files
      ensures |p| > 0
      ensures Member(NameOf("uploads", p), true, s.uploads.files[p]) in a.members <==> !(".ready_check_" <= p[|p| - 1])
    {
      UploadSavedIff(s, includeQdrant, p);
      TreeFileIsNoManifest(s, "uploads", p);
    }
    forall p | p in s.qdrant.files
      ensures Member(NameOf("qdrant", p), true, s.qdrant.files[p]) in a.members <==> includeQdrant
    {
      QdrantSavedIff(s, includeQdrant, p);
      TreeFileIsNoManifest(s, "qdrant", p);
    }
    forall d
      ensures Member("app.db", true, d) in a.members <==> s.app == Some(d)
      ensures Member("trace.db", true, d) in a.members <==> s.trace == Some(d)
    {
      DatabaseSavedIff(s, includeQdrant, d);
    }
    forall m | m in a.members ensures m.regular && (m.name == "manifest.json" || ComesFrom(s, m)) {
      if Saved(s, includeQdrant, m) {
        SavedComesFrom(s, includeQdrant, m);
      }
    }
  }

  lemma TreeFileIsNoManifest(s: State, root: string, p: Path)
    requires ValidState(s) && root in ["uploads", "qdrant"] && (p in s.uploads.files || p in s.qdrant.files)
    ensures NameOf(root, p) != "manifest.json"
  {
    TreeNameSafeIff(root, p);
  }

  /** Format 1, the checksum and size of every member but the manifest, the schema version of every database. */
  ghost predicate Describes(services: Services, s: State, members: seq<Member>, manifest: Manifest) {
    && manifest.format == 1
    && (forall m | m in members && m.name != "manifest.json" ::
          m.name in manifest.files && manifest.files[m.name] == FileMeta(services.hash(m.data), |m.data|))
    && (forall n | n in manifest.files :: exists m :: m in members && m.name == n)
    && (forall d | d in manifest.databases :: d == "app" || d == "trace")
    && (if s.app.None? then "app" !in manifest.databases
        else "app" in manifest.databases && manifest.databases["app"] == services.version("app", s.app.value))
    && (if s.trace.None? then "trace" !in manifest.databases
        else "trace" in manifest.databases && manifest.databases["trace"] == services.version("trace", s.trace.value))
  }

  /** The manifest read back from a fresh archive describes the state. */
  lemma ManifestDescribes(services: Services, s: State, includeQdrant: bool, a: Archive)
    requires ValidState(s) && ArchiveOf(services, s, includeQdrant, a) && RoundTrips(services)
    ensures ReadManifest(services, a).Some? && Describes(services, s, a.members, ReadManifest(services, a).value)
  {
    ManifestOfFresh(services, s, includeQdrant, a);
    hide ReadManifest, Saved;
    assert a.members == [a.members[0]] + a.members[1..] && a.members[0].name == "manifest.json";
    assert "app"[0] != "trace"[0];
  }

  /** A saved member is in order exactly when its name is safe and, for a database, its content is intact. */
  lemma SavedMemberOk(services: Services, s: State, includeQdrant: bool, m: Member, files: map<string, FileMeta>)
    requires ValidState(s) && Saved(s, includeQdrant, m)
    requires m.name in files && files[m.name] == Meta(services, m.data)
    ensures MemberError(services, files, m).None? <==>
              IsSafeName(m.name) && (m.name in ["app.db", "trace.db"] ==> services.check(m.data).Intact?)
    ensures m.name in ["app.db", "trace.db"] ==> IsSafeName(m.name)
  {
    hide IsSafeName, NameOf, InTree, Saved;
    SavedShape(s, includeQdrant, m);
    if m.name in ["app.db", "trace.db"] {
      FixedNamesSafe(m.name);
      assert "app.db"[3..] == ".db" && "trace.db"[5..] == ".db";
      NoSlashInFixedNames(m.name);
    } else {
      SavedTreeName(s, includeQdrant, m);
    }
  }

  lemma SavedTreeName(s: State, includeQdrant: bool, m: Member)
    requires ValidState(s) && Saved(s, includeQdrant, m) && m.name !in ["app.db", "trace.db"]
    ensures '/' in m.name
  {
    RootsAreComponents();
    hide NameOf;
    if InTree("uploads", SavedUploads(s), m) {
      var p :| p in SavedUploads(s) && m == Member(NameOf("uploads", p), true, SavedUploads(s)[p]);
      TreeName("uploads", p);
    } else {
      var p :| p in SavedQdrant(s, includeQdrant)
        && m == Member(NameOf("qdrant", p), true, SavedQdrant(s, includeQdrant)[p]);
      TreeName("qdrant", p);
    }
  }

  lemma TreeNamesSafeIff(root: string, files: map<Path, Data>)
    requires root in ["uploads", "qdrant"] && forall p | p in files :: IsPath(p)
    ensures (forall p | p in files :: Plain(p)) <==> forall m | InTree(root, files, m) :: IsSafeName(m.name)
  {
    hide NameOf, IsSafeName, Plain;
    forall p | p in files
      ensures IsSafeName(NameOf(root, p)) <==> Plain(p)
      ensures InTree(root, files, Member(NameOf(root, p), true, files[p]))
    {
      TreeNameSafeIff(root, p);
    }
    if forall m | InTree(root, files, m) :: IsSafeName(m.name) {
      forall p | p in files ensures Plain(p) {
        assert IsSafeName(Member(NameOf(root, p), true, files[p]).name);
      }
    }
  }

  /** A backup that was just made verifies exactly when no saved file name has a backslash and the database
      snapshots are intact. */
  lemma FreshVerifiesIff(services: Services, s: State, includeQdrant: bool, a: Archive)
    requires ValidState(s) && ArchiveOf(services, s, includeQdrant, a) && RoundTrips(services)
    ensures Sound(services, a) <==> Restorable(services, s, includeQdrant)
  {
    hide IsSafeName, NameOf, InTree, MemberError, ReadManifest, SavedUploads, SavedQdrant, Plain, Saved, Sound,
         Restorable, WellFormed;
    ManifestOfFresh(services, s, includeQdrant, a);
    var files := ReadManifest(services, a).value.files;
    SavedTreesSafeIff(s, includeQdrant);
    forall m | m in a.members[1..]
      ensures MemberError(services, files, m).None? <==>
                IsSafeName(m.name) && (m.name in ["app.db", "trace.db"] ==> services.check(m.data).Intact?)
      ensures m.regular && m.name != "manifest.json" && (m.name in ["app.db", "trace.db"] ==> IsSafeName(m.name))
    {
      SavedShape(s, includeQdrant, m);
      SavedMemberOk(services, s, includeQdrant, m, files);
    }
    SavedCases(services, s, includeQdrant, a.members[1..]);
    FreshSound(services, a, files);
  }

  lemma SavedTreesSafeIff(s: State, includeQdrant: bool)
    requires ValidState(s)
    ensures (forall p | p in SavedUploads(s) :: Plain(p)) <==>
              forall m | InTree("uploads", SavedUploads(s), m) :: IsSafeName(m.name)
    ensures (forall p | p in SavedQdrant(s, includeQdrant) :: Plain(p)) <==>
              forall m | InTree("qdrant", SavedQdrant(s, includeQdrant), m) :: IsSafeName(m.name)
  {
    TreeNamesSafeIff("uploads", SavedUploads(s));
    TreeNamesSafeIff("qdrant", SavedQdrant(s, includeQdrant));
  }

  lemma FreshSound(services: Services, a: Archive, files: map<string, FileMeta>)
    requires a.Archive? && a.members != [] && a.members[0].name == "manifest.json" && a.members[0].regular
    requires ReadManifest(services, a).Some? && ReadManifest(services, a).value.files == files
    requires ReadManifest(services, a).value.format == FORMAT_VERSION && Lists(services, a.members[1..], files)
    requires forall m | m in a.members[1..] :: m.regular && m.name != "manifest.json"
    ensures Sound(services, a) <==> forall m | m in a.members[1..] :: MemberError(services, files, m).None?
  {
    hide MemberError, ReadManifest, Meta, Seen;
    ManifestMemberOk(services, a.members[0], files);
    assert a.members == [a.members[0]] + a.members[1..];
    if forall m | m in a.members[1..] :: MemberError(services, files, m).None? {
      forall n | n in files ensures n in Seen(a.members) {
        var m :| m in a.members[1..] && m.name == n;
        assert m in a.members;
        OkMemberIsSeen(services, a.members, files, m);
      }
    }
  }

  lemma ManifestMemberOk(services: Services, m: Member, files: map<string, FileMeta>)
    requires m.name == "manifest.json" && m.regular
    ensures MemberError(services, files, m).None?
  {
    FixedNamesSafe("manifest.json");
  }

  lemma OkMemberIsSeen(services: Services, members: seq<Member>, files: map<string, FileMeta>, m: Member)
    requires m in members && m.name != "manifest.json" && MemberError(services, files, m).None?
    ensures m.name in Seen(members)
  {
    hide IsSafeName;
  }

  /** The members of a backup, case by case. */
  lemma SavedCases(services: Services, s: State, includeQdrant: bool, members: seq<Member>)
    requires ValidState(s) && forall m :: m in members <==> Saved(s, includeQdrant, m)
    requires forall m | m in members && m.name in ["app.db", "trace.db"] :: IsSafeName(m.name)
    requires (forall p | p in SavedUploads(s) :: Plain(p)) <==>
               forall m | InTree("uploads", SavedUploads(s), m) :: IsSafeName(m.name)
    requires (forall p | p in SavedQdrant(s, includeQdrant) :: Plain(p)) <==>
               forall m | InTree("qdrant", SavedQdrant(s, includeQdrant), m) :: IsSafeName(m.name)
    ensures (forall m | m in members ::
               IsSafeName(m.name) && (m.name in ["app.db", "trace.db"] ==> services.check(m.data).Intact?))
            <==> Restorable(services, s, includeQdrant)
  {
    hide IsSafeName, InTree, SavedUploads, SavedQdrant, Plain;
    forall m | m in members
      ensures (m.name == "app.db" <==> s.app.Some? && m == Member("app.db", true, s.app.value))
      ensures (m.name == "trace.db" <==> s.trace.Some? && m == Member("trace.db", true, s.trace.value))
    {
      SavedShape(s, includeQdrant, m);
    }
    if s.app.Some? {
      assert Saved(s, includeQdrant, Member("app.db", true, s.app.value));
    }
    if s.trace.Some? {
      assert Saved(s, includeQdrant, Member("trace.db", true, s.trace.value));
    }
  }
}
