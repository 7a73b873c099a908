/** Member names of a backup archive, the paths they stand for, and the directory trees they are written to
    (backend/app/backup/core.py). */
module BackupPaths {
  import opened Separators

  /** A path below a root directory, by components. */
  type Path = seq<string>

  /** What a directory walk can report: a component of a real path. */
  predicate IsComponent(c: string) {
    c != "" && c != "." && c != ".." && '/' !in c
  }

  predicate IsPath(p: Path) {
    p != [] && forall c | c in p :: IsComponent(c)
  }

  // ----- Names and their parts.

  /** Empty components and single dots do not count. */
  function KeepPart(c: string): seq<string> {
    if c == "" || c == "." then [] else [c]
  }

  /** The parts of what is left of a path; current is the component being read. */
  function PartsFrom(s: string, current: string): seq<string> {
    if s == "" then KeepPart(current)
    else if s[0] == '/' then KeepPart(current) + PartsFrom(s[1..], "")
    else PartsFrom(s[1..], current + [s[0]])
  }

  /** The parts of a relative POSIX path. */
  function Parts(name: string): seq<string> {
    PartsFrom(name, "")
  }

  function NameOf(root: string, p: Path): string {
    Join("/", [root] + p)
  }

  lemma {:induction false} FirstPart(c: string, current: string, rest: string)
    requires '/' !in c
    ensures PartsFrom(c, current) == KeepPart(current + c)
    ensures PartsFrom(c + "/" + rest, current) == KeepPart(current + c) + PartsFrom(rest, "")
  {
    if c == "" {
      assert c + "/" + rest == "/" + rest && ("/" + rest)[1..] == rest && current + c == current;
    } else {
      FirstPart(c[1..], current + [c[0]], rest);
      assert (c + "/" + rest)[1..] == c[1..] + "/" + rest;
      assert current + [c[0]] + c[1..] == current + c;
    }
  }

  /** Reading the parts of a joined path gives the components back. */
  lemma {:induction false} PartsOfJoin(components: seq<string>)
    requires IsPath(components)
    ensures Parts(Join("/", components)) == components
  {
    assert components[0] in components && "" + components[0] == components[0];
    if |components| == 1 {
      FirstPart(components[0], "", "");
      assert components == [components[0]];
    } else {
      assert forall c | c in components[1..] :: c in components;
      PartsOfJoin(components[1..]);
      FirstPart(components[0], "", Join("/", components[1..]));
      assert [components[0]] + components[1..] == components;
    }
  }

  /** Every part is a non-empty component other than a single dot. */
  lemma {:induction false} PartsAreComponents(s: string, current: string)
    requires '/' !in current
    ensures forall c | c in PartsFrom(s, current) :: c != "" && c != "." && '/' !in c
  {
    if s != "" {
      PartsAreComponents(s[1..], if s[0] == '/' then "" else current + [s[0]]);
    }
  }

  lemma PartsOfName(root: string, p: Path)
    requires IsComponent(root) && IsPath(p)
    ensures Parts(NameOf(root, p)) == [root] + p && Parts(NameOf(root, p))[1..] == p
  {
    PartsOfJoin([root] + p);
  }

  lemma NamesDiffer(root: string, p: Path, root': string, p': Path)
    requires IsComponent(root) && IsPath(p) && IsComponent(root') && IsPath(p')
    ensures NameOf(root, p) == NameOf(root', p') <==> root == root' && p == p'
  {
    PartsOfName(root, p);
    PartsOfName(root', p');
    assert ([root] + p)[0] == root && ([root'] + p')[0] == root';
  }

  // ----- Which members are extracted.

  predicate StartsWith(s: string, prefix: string) {
    prefix <= s
  }

  predicate IsSafeName(name: string) {
    && !StartsWith(name, "/") && '\\' !in name
    && ".." !in Parts(name) && Parts(name) != []
    && (name in ["manifest.json", "app.db", "trace.db"] || StartsWith(name, "uploads/") || StartsWith(name, "qdrant/"))
  }

  lemma NameShape(root: string, p: Path)
    requires p != []
    ensures NameOf(root, p) == root + "/" + Join("/", p)
  {
    assert ([root] + p)[1..] == p;
  }

  lemma {:induction false} InJoin(c: char, components: seq<string>)
    requires c != '/'
    ensures c in Join("/", components) <==> exists x :: x in components && c in x
  {
    if |components| == 1 {
      assert components[0] in components;
    } else if |components| > 1 {
      InJoin(c, components[1..]);
      assert components[0] in components;
      assert forall x :: x in components <==> x == components[0] || x in components[1..];
    }
  }

  /** No component has a backslash. */
  predicate Plain(p: Path) {
    forall c | c in p :: '\\' !in c
  }

  lemma NoSlashInFixedNames(name: string)
    requires name in ["manifest.json", "app.db", "trace.db"]
    ensures '/' !in name && '\\' !in name && IsComponent(name)
  {
  }

  /** The name of a file of a tree, and whether it has a backslash. */
  lemma TreeName(root: string, p: Path)
    requires IsComponent(root) && '\\' !in root && IsPath(p)
    ensures StartsWith(NameOf(root, p), root + "/") && '/' in NameOf(root, p)
    ensures '\\' !in NameOf(root, p) <==> Plain(p)
    ensures ".." !in Parts(NameOf(root, p)) && Parts(NameOf(root, p)) != []
  {
    NameShape(root, p);
    PartsOfName(root, p);
    InJoin('\\', p);
    var name := NameOf(root, p);
    assert name == root + "/" + Join("/", p) && name[|root|] == '/';
  }

  lemma TreeNameSafeIff(root: string, p: Path)
    requires root in ["uploads", "qdrant"] && IsPath(p)
    ensures IsSafeName(NameOf(root, p)) <==> Plain(p)
    ensures StartsWith(NameOf(root, p), root + "/")
    ensures NameOf(root, p) !in ["manifest.json", "app.db", "trace.db"]
  {
    assert "uploads"[0] == 'u' && "qdrant"[0] == 'q' && IsComponent("uploads") && IsComponent("qdrant");
    assert "uploads" + "/" == "uploads/" && "qdrant" + "/" == "qdrant/";
    hide Parts, NameOf, Plain, IsPath;
    TreeName(root, p);
    if NameOf(root, p) in ["manifest.json", "app.db", "trace.db"] {
      NoSlashInFixedNames(NameOf(root, p));
    }
  }

  lemma FixedNamesSafe(name: string)
    requires name in ["manifest.json", "app.db", "trace.db"]
    ensures IsSafeName(name)
  {
    NoSlashInFixedNames(name);
    FirstPart(name, "", "");
    assert "" + name == name;
  }

  // ----- Directory trees.

  type Data = seq<int>

  /** dirs holds the directories, the root [] among them when it exists. */
  datatype Tree = Tree(files: map<Path, Data>, dirs: set<Path>)

  predicate WellFormed(t: Tree) {
    && (forall p | p in t.files :: IsPath(p) && p !in t.dirs)
    && (forall p, k | p in t.files && 0 <= k < |p| :: p[..k] in t.dirs)
    && (forall p, k | p in t.dirs && 0 <= k < |p| :: p[..k] in t.dirs)
  }

  /** Opening a file for writing, with its directories made first, fails at a directory or below a file. */
  predicate CanWrite(t: Tree, p: Path) {
    p != [] && p !in t.dirs && forall k | 0 <= k < |p| :: p[..k] !in t.files
  }

  function Above(p: Path): set<Path> {
    set k | 0 <= k < |p| :: p[..k]
  }

  function Write(t: Tree, p: Path, data: Data): Tree {
    Tree(t.files[p := data], t.dirs + Above(p))
  }

  lemma WriteWellFormed(t: Tree, p: Path, data: Data)
    requires WellFormed(t) && IsPath(p) && CanWrite(t, p)
    ensures WellFormed(Write(t, p, data))
  {
    var w := Write(t, p, data);
    forall q, k | q in w.dirs && 0 <= k < |q| ensures q[..k] in w.dirs {
      if q in Above(p) {
        var j :| 0 <= j < |p| && q == p[..j];
        assert q[..k] == p[..k];
      }
    }
  }

  /** What can be written still can be after another write, unless one lies below the other. */
  lemma WriteKeepsWritable(t: Tree, p: Path, data: Data, q: Path)
    requires WellFormed(t) && CanWrite(t, p) && CanWrite(t, q)
    requires q !in Above(p) && p !in Above(q)
    ensures CanWrite(Write(t, p, data), q)
  {
    forall k | 0 <= k < |q| ensures q[..k] !in Write(t, p, data).files {
      assert q[..k] in Above(q);
    }
  }

  lemma FilesAreWritable(t: Tree, p: Path)
    requires WellFormed(t) && p in t.files
    ensures CanWrite(t, p)
  {
  }

  /** No file of a tree lies below another. */
  lemma FilesAreApart(t: Tree, p: Path, q: Path)
    requires WellFormed(t) && p in t.files && q in t.files
    ensures q !in Above(p)
  {
  }
}
