/** The closed world of a bundle: which files a manifest declares, in which roles, and the check
    that the file tree holds exactly those. */
module BundleFiles {
  import opened Wrappers

  datatype File = File(role: string, path: string, size: int, sha256: string)

  /** The parts of a manifest that name files. */
  datatype Manifest = Manifest(
    files: seq<File>,
    modelPath: string,
    tokenizerPath: string,
    tokenizerConfigPath: string,
    calibrationPath: string,
    externalData: seq<string>,
    licenses: seq<string>)

  datatype Kind = Directory | Regular(content: seq<byte>) | Irregular

  /** One entry of a walk over the tree. */
  datatype Entry = Entry(path: string, kind: Kind)

  datatype Artifact = Artifact(path: string, role: string)

  const MANIFEST := "manifest.json"

  // ---- paths ----

  /** Equality up to simple case folding, for the letters of the manifest's name. */
  predicate FoldsTo(c: char, lower: char) {
    c == lower
    || ('a' <= lower <= 'z' && c as int == lower as int - 32)
    || (lower == 's' && c == '\U{17f}')
  }

  predicate FoldsToManifest(path: string) {
    |path| == |MANIFEST| && forall i :: 0 <= i < |path| ==> FoldsTo(path[i], MANIFEST[i])
  }

  ghost predicate Distinct<T>(xs: seq<T>) {
    forall i, j :: 0 <= i < j < |xs| ==> xs[i] != xs[j]
  }

  function Paths(files: seq<File>): seq<string> {
    seq(|files|, i requires 0 <= i < |files| => files[i].path)
  }

  /** Accepts a list of paths exactly when no two are equal after lower-casing. */
  method UniquePaths(paths: seq<string>, lower: string -> string) returns (ok: bool)
    ensures ok <==> Distinct(seq(|paths|, i requires 0 <= i < |paths| => lower(paths[i])))
    ensures ok ==> Distinct(paths)
  {
    var seen: set<string> := {};
    ghost var folded := seq(|paths|, i requires 0 <= i < |paths| => lower(paths[i]));
    for i := 0 to |paths|
      invariant seen == set k | 0 <= k < i :: folded[k]
      invariant forall k, l :: 0 <= k < l < i ==> folded[k] != folded[l]
    {
      assert folded[i] == lower(paths[i]);
      if lower(paths[i]) in seen {
        return false;
      }
      seen := seen + {lower(paths[i])};
    }
    forall k, l | 0 <= k < l < |paths| ensures paths[k] != paths[l] {
      assert folded[k] != folded[l];
    }
    ok := true;
  }

  // ---- the layout ----

  function RoleCount(files: seq<File>, role: string): nat {
    if files == [] then 0
    else RoleCount(files[..|files| - 1], role) + if files[|files| - 1].role == role then 1 else 0
  }

  function Roles(): seq<string> {
    ["model", "model-external-data", "tokenizer", "tokenizer-config", "agent-config", "license", "notice"]
  }

  function WantedCount(m: Manifest, role: string): nat {
    if role == "model-external-data" then |m.externalData|
    else if role == "license" || role == "notice" then |m.licenses|
    else 1
  }

  /** Every field of the manifest that names a file, with the role that file must have. */
  function Required(m: Manifest): seq<Artifact> {
    [Artifact(m.modelPath, "model"),
     Artifact(m.tokenizerPath, "tokenizer"),
     Artifact(m.tokenizerConfigPath, "tokenizer-config"),
     Artifact(m.calibrationPath, "agent-config")]
    + seq(|m.externalData|, i requires 0 <= i < |m.externalData| => Artifact(m.externalData[i], "model-external-data"))
    + seq(|m.licenses|, i requires 0 <= i < |m.licenses| => Artifact(m.licenses[i], "license"))
  }

  /** The declarations by path; a later one replaces an earlier one. */
  function Declared(files: seq<File>): map<string, File> {
    if files == [] then map[]
    else Declared(files[..|files| - 1])[files[|files| - 1].path := files[|files| - 1]]
  }

  ghost predicate LayoutHolds(m: Manifest) {
    && (forall i :: 0 <= i < |m.files| ==> !FoldsToManifest(m.files[i].path))
    && (forall k :: 0 <= k < |Roles()| ==> RoleCount(m.files, Roles()[k]) == WantedCount(m, Roles()[k]))
    && (forall k :: 0 <= k < |Required(m)| ==>
         var a := Required(m)[k];
         a.path in Declared(m.files) && Declared(m.files)[a.path].role == a.role)
  }

  // ---- the layout, over the manifest's fields ----

  /** The declarations of this role. */
  ghost function InRole(files: seq<File>, role: string): set<int> {
    set i | 0 <= i < |files| && files[i].role == role
  }

  /** The path is declared, last of all, with this role. */
  ghost predicate DeclaredAs(files: seq<File>, path: string, role: string) {
    exists i :: 0 <= i < |files| && LastAt(files, i, path) && files[i].role == role
  }

  ghost predicate LastAt(files: seq<File>, i: int, path: string)
    requires 0 <= i < |files|
  {
    files[i].path == path && forall j :: i < j < |files| ==> files[j].path != path
  }

  /** The manifest's own name, in whatever case; the long s folds to s. */
  ghost predicate IsManifestName(path: string) {
    && |path| == 13
    && path[0] in {'m', 'M'} && path[1] in {'a', 'A'} && path[2] in {'n', 'N'} && path[3] in {'i', 'I'}
    && path[4] in {'f', 'F'} && path[5] in {'e', 'E'} && path[6] in {'s', 'S', '\U{17f}'} && path[7] in {'t', 'T'}
    && path[8] == '.'
    && path[9] in {'j', 'J'} && path[10] in {'s', 'S', '\U{17f}'} && path[11] in {'o', 'O'} && path[12] in {'n', 'N'}
  }

  /** The layout field by field: what each path is declared as, how many files each role has, and
      that no file bears the manifest's name. */
  ghost predicate FieldsLaidOut(m: Manifest) {
    && DeclaredAs(m.files, m.modelPath, "model")
    && DeclaredAs(m.files, m.tokenizerPath, "tokenizer")
    && DeclaredAs(m.files, m.tokenizerConfigPath, "tokenizer-config")
    && DeclaredAs(m.files, m.calibrationPath, "agent-config")
    && (forall k :: 0 <= k < |m.externalData| ==> DeclaredAs(m.files, m.externalData[k], "model-external-data"))
    && (forall k :: 0 <= k < |m.licenses| ==> DeclaredAs(m.files, m.licenses[k], "license"))
    && |InRole(m.files, "model")| == |InRole(m.files, "tokenizer")| == |InRole(m.files, "tokenizer-config")| == 1
    && |InRole(m.files, "agent-config")| == 1
    && |InRole(m.files, "model-external-data")| == |m.externalData|
    && |InRole(m.files, "license")| == |InRole(m.files, "notice")| == |m.licenses|
    && (forall i :: 0 <= i < |m.files| ==> !IsManifestName(m.files[i].path))
  }

  lemma {:induction false} RoleCountCounts(files: seq<File>, role: string)
    ensures |InRole(files, role)| == RoleCount(files, role)
  {
    if files != [] {
      var n := |files| - 1;
      RoleCountCounts(files[..n], role);
      assert InRole(files, role) == InRole(files[..n], role) + if files[n].role == role then {n} else {};
    }
  }

  lemma {:induction false} DeclaredMeans(files: seq<File>, path: string, role: string)
    ensures path in Declared(files) && Declared(files)[path].role == role <==> DeclaredAs(files, path, role)
  {
    if files != [] {
      var n := |files| - 1;
      if files[n].path == path {
        assert LastAt(files, n, path);
      } else {
        DeclaredMeans(files[..n], path, role);
        forall i | 0 <= i < n ensures LastAt(files, i, path) <==> LastAt(files[..n], i, path) {}
      }
    }
  }

  lemma ManifestNameFolds(path: string)
    ensures FoldsToManifest(path) <==> IsManifestName(path)
  {
    var m := MANIFEST;
    assert m[0] == 'm' && m[1] == 'a' && m[2] == 'n' && m[3] == 'i' && m[4] == 'f' && m[5] == 'e' && m[6] == 's';
    assert m[7] == 't' && m[8] == '.' && m[9] == 'j' && m[10] == 's' && m[11] == 'o' && m[12] == 'n';
  }

  lemma RequiredEntries(m: Manifest)
    ensures var r, n := Required(m), |m.externalData|;
      && |r| == 4 + n + |m.licenses|
      && r[0] == Artifact(m.modelPath, "model") && r[1] == Artifact(m.tokenizerPath, "tokenizer")
      && r[2] == Artifact(m.tokenizerConfigPath, "tokenizer-config") && r[3] == Artifact(m.calibrationPath, "agent-config")
      && (forall k :: 0 <= k < n ==> r[4 + k] == Artifact(m.externalData[k], "model-external-data"))
      && (forall k :: 0 <= k < |m.licenses| ==> r[4 + n + k] == Artifact(m.licenses[k], "license"))
  {}

  /** Every entry of the list of required files is declared as it must be. */
  ghost predicate AllDeclared(files: seq<File>, required: seq<Artifact>) {
    forall k :: 0 <= k < |required| ==> DeclaredAs(files, required[k].path, required[k].role)
  }

  lemma RequiredOverFields(m: Manifest)
    ensures AllDeclared(m.files, Required(m)) <==>
      && DeclaredAs(m.files, m.modelPath, "model")
      && DeclaredAs(m.files, m.tokenizerPath, "tokenizer")
      && DeclaredAs(m.files, m.tokenizerConfigPath, "tokenizer-config")
      && DeclaredAs(m.files, m.calibrationPath, "agent-config")
      && (forall k :: 0 <= k < |m.externalData| ==> DeclaredAs(m.files, m.externalData[k], "model-external-data"))
      && (forall k :: 0 <= k < |m.licenses| ==> DeclaredAs(m.files, m.licenses[k], "license"))
  {
    var r, n := Required(m), |m.externalData|;
    RequiredEntries(m);
    if AllDeclared(m.files, r) {
      assert DeclaredAs(m.files, r[0].path, r[0].role) && DeclaredAs(m.files, r[1].path, r[1].role);
      assert DeclaredAs(m.files, r[2].path, r[2].role) && DeclaredAs(m.files, r[3].path, r[3].role);
      forall k | 0 <= k < n ensures DeclaredAs(m.files, m.externalData[k], "model-external-data") {
        assert DeclaredAs(m.files, r[4 + k].path, r[4 + k].role);
      }
      forall k | 0 <= k < |m.licenses| ensures DeclaredAs(m.files, m.licenses[k], "license") {
        assert DeclaredAs(m.files, r[4 + n + k].path, r[4 + n + k].role);
      }
    }
    forall k | 4 <= k < 4 + n ensures r[k] == Artifact(m.externalData[k - 4], "model-external-data") { assert r[4 + (k - 4)] == r[k]; }
    forall k | 4 + n <= k < |r| ensures r[k] == Artifact(m.licenses[k - 4 - n], "license") { assert r[4 + n + (k - 4 - n)] == r[k]; }
  }

  lemma CountsOverFields(m: Manifest)
    ensures (forall k :: 0 <= k < |Roles()| ==> RoleCount(m.files, Roles()[k]) == WantedCount(m, Roles()[k])) <==>
      && |InRole(m.files, "model")| == |InRole(m.files, "tokenizer")| == |InRole(m.files, "tokenizer-config")| == 1
      && |InRole(m.files, "agent-config")| == 1
      && |InRole(m.files, "model-external-data")| == |m.externalData|
      && |InRole(m.files, "license")| == |InRole(m.files, "notice")| == |m.licenses|
  {
    var roles := Roles();
    forall k | 0 <= k < |roles| ensures |InRole(m.files, roles[k])| == RoleCount(m.files, roles[k]) { RoleCountCounts(m.files, roles[k]); }
    assert roles[0] == "model" && roles[1] == "model-external-data" && roles[2] == "tokenizer";
    assert roles[3] == "tokenizer-config" && roles[4] == "agent-config" && roles[5] == "license" && roles[6] == "notice";
  }

  lemma LayoutOverFields(m: Manifest)
    ensures LayoutHolds(m) <==> FieldsLaidOut(m)
  {
    RequiredOverFields(m);
    CountsOverFields(m);
    forall i | 0 <= i < |m.files| ensures FoldsToManifest(m.files[i].path) <==> IsManifestName(m.files[i].path) {
      ManifestNameFolds(m.files[i].path);
    }
    var r := Required(m);
    forall k | 0 <= k < |r|
      ensures r[k].path in Declared(m.files) && Declared(m.files)[r[k].path].role == r[k].role
        <==> DeclaredAs(m.files, r[k].path, r[k].role)
    {
      DeclaredMeans(m.files, r[k].path, r[k].role);
    }
  }

  method CountRoles(files: seq<File>) returns (declared: map<string, File>, counts: map<string, nat>, ok: bool)
    ensures ok <==> forall i :: 0 <= i < |files| ==> !FoldsToManifest(files[i].path)
    ensures ok ==> declared == Declared(files)
    ensures ok ==> forall role :: (if role in counts then counts[role] else 0) == RoleCount(files, role)
  {
    declared, counts := map[], map[];
    for i := 0 to |files|
      invariant forall k :: 0 <= k < i ==> !FoldsToManifest(files[k].path)
      invariant declared == Declared(files[..i])
      invariant forall role :: (if role in counts then counts[role] else 0) == RoleCount(files[..i], role)
    {
      var file := files[i];
      if FoldsToManifest(file.path) {
        return declared, counts, false;
      }
      assert files[..i + 1][..i] == files[..i];
      declared := declared[file.path := file];
      counts := counts[file.role := (if file.role in counts then counts[file.role] else 0) + 1];
    }
    assert files[..|files|] == files;
    ok := true;
  }

  method ValidateLayout(m: Manifest) returns (ok: bool)
    ensures ok <==> LayoutHolds(m)
    ensures ok <==> FieldsLaidOut(m)
  {
    LayoutOverFields(m);
    var declared, counts, named := CountRoles(m.files);
    if !named {
      return false;
    }
    var roles := Roles();
    for k := 0 to |roles|
      invariant forall j :: 0 <= j < k ==> RoleCount(m.files, roles[j]) == WantedCount(m, roles[j])
    {
      if (if roles[k] in counts then counts[roles[k]] else 0) != WantedCount(m, roles[k]) {
        return false;
      }
    }
    var required := Required(m);
    for k := 0 to |required|
      invariant forall j :: 0 <= j < k ==>
        required[j].path in declared && declared[required[j].path].role == required[j].role
    {
      if required[k].path !in declared || declared[required[k].path].role != required[k].role {
        return false;
      }
    }
    ok := true;
  }

  // ---- counting ----

  /** What parsing establishes about the names in a manifest. */
  ghost predicate Named(m: Manifest) {
    && Distinct(Paths(m.files))
    && (forall i :: 0 <= i < |m.files| ==> m.files[i].role in Roles())
    && Distinct(m.externalData) && Distinct(m.licenses)
  }

  lemma {:induction false} DeclaredFinds(files: seq<File>, i: nat)
    requires i < |files| && Distinct(Paths(files))
    ensures files[i].path in Declared(files) && Declared(files)[files[i].path] == files[i]
  {
    var last := |files| - 1;
    assert Paths(files)[..last] == Paths(files[..last]);
    if i < last {
      assert Paths(files)[i] != Paths(files)[last];
      DeclaredFinds(files[..last], i);
    }
  }

  lemma {:induction false} DeclaredComesFrom(files: seq<File>, path: string) returns (i: nat)
    requires path in Declared(files)
    ensures i < |files| && files[i] == Declared(files)[path] && files[i].path == path
  {
    var last := |files| - 1;
    if files[last].path == path {
      i := last;
    } else {
      i := DeclaredComesFrom(files[..last], path);
    }
  }

  function PathsInRole(files: seq<File>, role: string): set<string> {
    set i | 0 <= i < |files| && files[i].role == role :: files[i].path
  }

  lemma {:induction false} RoleCountIsSize(files: seq<File>, role: string)
    requires Distinct(Paths(files))
    ensures |PathsInRole(files, role)| == RoleCount(files, role)
  {
    if files != [] {
      var last := |files| - 1;
      assert Paths(files)[..last] == Paths(files[..last]);
      RoleCountIsSize(files[..last], role);
      PathsInRoleSnoc(files[..last], files[last], role);
      assert files[..last] + [files[last]] == files;
      LastIsNew(files, role);
    }
  }

  lemma LastIsNew(files: seq<File>, role: string)
    requires files != [] && Distinct(Paths(files))
    ensures files[|files| - 1].path !in PathsInRole(files[..|files| - 1], role)
  {
    var last := |files| - 1;
    forall i | 0 <= i < last ensures files[i].path != files[last].path { assert Paths(files)[i] != Paths(files)[last]; }
  }

  lemma PathsInRoleSnoc(files: seq<File>, last: File, role: string)
    ensures PathsInRole(files + [last], role) == PathsInRole(files, role) + if last.role == role then {last.path} else {}
  {
    var all := files + [last];
    assert all[|files|] == last;
    forall i | 0 <= i < |files| ensures all[i] == files[i] {}
  }

  function RequiredPaths(m: Manifest, role: string): set<string> {
    set k | 0 <= k < |Required(m)| && Required(m)[k].role == role :: Required(m)[k].path
  }

  lemma {:induction false} DistinctSize(xs: seq<string>)
    requires Distinct(xs)
    ensures |set i | 0 <= i < |xs| :: xs[i]| == |xs|
  {
    if xs != [] {
      var last := |xs| - 1;
      DistinctSize(xs[..last]);
      assert (set i | 0 <= i < |xs| :: xs[i]) == (set i | 0 <= i < last :: xs[..last][i]) + {xs[last]};
    }
  }

  lemma RequiredSize(m: Manifest, role: string)
    requires Named(m) && role in Roles() && role != "notice"
    ensures |RequiredPaths(m, role)| == WantedCount(m, role)
  {
    var r, n := Required(m), |m.externalData|;
    assert forall i :: 0 <= i < n ==> r[4 + i] == Artifact(m.externalData[i], "model-external-data");
    assert forall i :: 0 <= i < |m.licenses| ==> r[4 + n + i] == Artifact(m.licenses[i], "license");
    if role == "model-external-data" {
      DistinctSize(m.externalData);
      assert RequiredPaths(m, role) == set i | 0 <= i < n :: m.externalData[i];
    } else if role == "license" {
      DistinctSize(m.licenses);
      assert RequiredPaths(m, role) == set i | 0 <= i < |m.licenses| :: m.licenses[i];
    } else {
      var k := if role == "model" then 0 else if role == "tokenizer" then 1 else if role == "tokenizer-config" then 2 else 3;
      assert RequiredPaths(m, role) == {r[k].path};
    }
  }

  lemma SameSize<T>(a: set<T>, b: set<T>)
    requires a <= b && |a| == |b|
    ensures a == b
  {
    assert |b - a| == |b| - |a|;
  }

  /** In every role but the notices', the declared files are exactly the ones the manifest's fields
      name: a field names each of them, and each field names one of them. */
  lemma RolesAreFilledExactly(m: Manifest, role: string)
    requires Named(m) && LayoutHolds(m) && role in Roles() && role != "notice"
    ensures PathsInRole(m.files, role) == RequiredPaths(m, role)
  {
    RequiredSize(m, role);
    RoleCountIsSize(m.files, role);
    forall k | 0 <= k < |Required(m)| && Required(m)[k].role == role
      ensures Required(m)[k].path in PathsInRole(m.files, role)
    {
      var i := DeclaredComesFrom(m.files, Required(m)[k].path);
    }
    var k :| 0 <= k < |Roles()| && Roles()[k] == role;
    SameSize(RequiredPaths(m, role), PathsInRole(m.files, role));
  }

  lemma RequiredDistinct(m: Manifest, k: nat, l: nat)
    requires Named(m) && k < l < |Required(m)|
    ensures Required(m)[k] != Required(m)[l]
  {
    var r, n := Required(m), |m.externalData|;
    assert 4 <= k < 4 + n ==> r[k] == Artifact(m.externalData[k - 4], "model-external-data");
    assert 4 <= l < 4 + n ==> r[l] == Artifact(m.externalData[l - 4], "model-external-data");
    assert k >= 4 + n ==> r[k] == Artifact(m.licenses[k - 4 - n], "license");
    assert l >= 4 + n ==> r[l] == Artifact(m.licenses[l - 4 - n], "license");
  }

  /** Field number `k` of the manifest names this file, in its role. */
  ghost predicate Names(m: Manifest, k: int, f: File) {
    0 <= k < |Required(m)| && Required(m)[k] == Artifact(f.path, f.role)
  }

  /** So every declared file that is not a notice is named by exactly one field of the manifest,
      in its own role. */
  lemma EveryFileIsNamedOnce(m: Manifest, i: nat)
    requires Named(m) && LayoutHolds(m) && i < |m.files| && m.files[i].role != "notice"
    ensures exists k :: Names(m, k, m.files[i]) && forall l :: Names(m, l, m.files[i]) ==> l == k
  {
    var f := m.files[i];
    RolesAreFilledExactly(m, f.role);
    assert f.path in PathsInRole(m.files, f.role);
    var k :| 0 <= k < |Required(m)| && Required(m)[k] == Artifact(f.path, f.role);
    assert Names(m, k, f);
    forall l | Names(m, l, f) ensures l == k {
      if l < k { RequiredDistinct(m, l, k); }
      if k < l { RequiredDistinct(m, k, l); }
    }
  }

  /** Over the fields: a declared file has the role of a field if and only if that field names it. */
  lemma FieldsNameTheirFiles(m: Manifest, i: nat)
    requires Named(m) && FieldsLaidOut(m) && i < |m.files|
    ensures m.files[i].role == "model" <==> m.files[i].path == m.modelPath
    ensures m.files[i].role == "tokenizer" <==> m.files[i].path == m.tokenizerPath
    ensures m.files[i].role == "tokenizer-config" <==> m.files[i].path == m.tokenizerConfigPath
    ensures m.files[i].role == "agent-config" <==> m.files[i].path == m.calibrationPath
    ensures m.files[i].role == "model-external-data" <==> m.files[i].path in m.externalData
    ensures m.files[i].role == "license" <==> m.files[i].path in m.licenses
  {
    var f := m.files[i];
    SoleInRole(m.files, i, m.modelPath, "model");
    SoleInRole(m.files, i, m.tokenizerPath, "tokenizer");
    SoleInRole(m.files, i, m.tokenizerConfigPath, "tokenizer-config");
    SoleInRole(m.files, i, m.calibrationPath, "agent-config");
    AllInRole(m.files, i, m.externalData, "model-external-data");
    AllInRole(m.files, i, m.licenses, "license");
  }

  lemma RoleOfPath(files: seq<File>, i: nat, path: string, role: string)
    requires Distinct(Paths(files)) && i < |files| && DeclaredAs(files, path, role) && files[i].path == path
    ensures files[i].role == role
  {
    var j :| 0 <= j < |files| && LastAt(files, j, path) && files[j].role == role;
    assert Paths(files)[i] == Paths(files)[j];
  }

  lemma SoleInRole(files: seq<File>, i: nat, path: string, role: string)
    requires Distinct(Paths(files)) && i < |files| && DeclaredAs(files, path, role) && |InRole(files, role)| == 1
    ensures files[i].role == role <==> files[i].path == path
  {
    if files[i].path == path { RoleOfPath(files, i, path, role); }
    if files[i].role == role {
      var j :| 0 <= j < |files| && LastAt(files, j, path) && files[j].role == role;
      assert {i, j} <= InRole(files, role);
      if i != j { SubsetSize({i, j}, InRole(files, role)); }
    }
  }

  lemma {:induction false} SubsetSize<T>(a: set<T>, b: set<T>)
    requires a <= b
    ensures |a| <= |b|
  {
    assert b == a + (b - a);
  }

  lemma AllInRole(files: seq<File>, i: nat, paths: seq<string>, role: string)
    requires Distinct(Paths(files)) && Distinct(paths) && i < |files| && |InRole(files, role)| == |paths|
    requires forall k :: 0 <= k < |paths| ==> DeclaredAs(files, paths[k], role)
    ensures files[i].role == role <==> files[i].path in paths
  {
    if files[i].path in paths {
      var k :| 0 <= k < |paths| && paths[k] == files[i].path;
      RoleOfPath(files, i, paths[k], role);
    }
    if files[i].role == role {
      RoleCountCounts(files, role);
      RoleCountIsSize(files, role);
      DistinctSize(paths);
      var listed := set k | 0 <= k < |paths| :: paths[k];
      forall path | path in listed ensures path in PathsInRole(files, role) {
        var k :| 0 <= k < |paths| && paths[k] == path;
        var j :| 0 <= j < |files| && LastAt(files, j, path) && files[j].role == role;
      }
      SameSize(listed, PathsInRole(files, role));
      assert files[i].path in PathsInRole(files, role);
    }
  }

  // ---- the tree ----

  predicate Holds(kind: Kind, f: File, hash: seq<byte> -> string) {
    kind.Regular? && |kind.content| == f.size && hash(kind.content) == f.sha256
  }

  /** What the walk demands of one entry. */
  predicate EntryAllowed(e: Entry, declared: map<string, File>, hash: seq<byte> -> string) {
    if e.path == "." || e.kind.Directory? then true
    else if e.path == MANIFEST then e.kind.Regular?
    else e.path in declared && Holds(e.kind, declared[e.path], hash)
  }

  /** Paths of the entries that are neither directories nor the manifest. */
  function Artifacts(entries: seq<Entry>): set<string> {
    set i | 0 <= i < |entries| && entries[i].path != "." && !entries[i].kind.Directory? && entries[i].path != MANIFEST
      :: entries[i].path
  }

  /** The walk. `undisturbed` says of each entry whether it is reached, and read if it is a declared
      file, with the context still live and no error from the file system. */
  method VerifyFiles(entries: seq<Entry>, undisturbed: nat -> bool, files: seq<File>, hash: seq<byte> -> string)
      returns (ok: bool)
    ensures ok <==>
      && (forall i :: 0 <= i < |entries| ==> undisturbed(i))
      && (forall i :: 0 <= i < |entries| ==> EntryAllowed(entries[i], Declared(files), hash))
      && (forall i :: 0 <= i < |files| ==> files[i].path in Artifacts(entries))
  {
    var declared: map<string, File> := map[];
    for i := 0 to |files|
      invariant declared == Declared(files[..i])
    {
      assert files[..i + 1][..i] == files[..i];
      declared := declared[files[i].path := files[i]];
    }
    assert files[..|files|] == files;
    var seen: set<string> := {};
    for i := 0 to |entries|
      invariant forall k :: 0 <= k < i ==> undisturbed(k) && EntryAllowed(entries[k], declared, hash)
      invariant seen == Artifacts(entries[..i])
    {
      var e := entries[i];
      ArtifactsSnoc(entries, i);
      if !undisturbed(i) {
        return false;
      }
      if e.path == "." || e.kind.Directory? {
        continue;
      }
      if e.path == MANIFEST {
        if e.kind.Regular? {
          continue;
        }
        return false;
      }
      if e.path !in declared || !Holds(e.kind, declared[e.path], hash) {
        return false;
      }
      seen := seen + {e.path};
    }
    assert entries[..|entries|] == entries;
    for i := 0 to |files|
      invariant forall k :: 0 <= k < i ==> files[k].path in seen
    {
      if files[i].path !in seen {
        return false;
      }
    }
    ok := true;
  }

  lemma ArtifactsSnoc(entries: seq<Entry>, i: nat)
    requires i < |entries|
    ensures var e := entries[i];
      Artifacts(entries[..i + 1]) == Artifacts(entries[..i])
        + if e.path != "." && !e.kind.Directory? && e.path != MANIFEST then {e.path} else {}
  {
    assert forall k :: 0 <= k < i ==> entries[..i + 1][k] == entries[..i][k];
    assert entries[..i + 1][i] == entries[i];
  }

  /** The tree holds, besides directories and a regular manifest, exactly the declared files, each
      regular and with the declared size and digest. */
  ghost predicate ClosedWorld(entries: seq<Entry>, files: seq<File>, hash: seq<byte> -> string) {
    && Artifacts(entries) == (set i | 0 <= i < |files| :: files[i].path)
    && (forall i :: 0 <= i < |entries| && entries[i].path == MANIFEST && !entries[i].kind.Directory? ==>
         entries[i].kind.Regular?)
    && (forall i, j :: 0 <= i < |entries| && 0 <= j < |files| && entries[i].path == files[j].path ==>
         entries[i].kind.Directory? || Holds(entries[i].kind, files[j], hash))
  }

  /** For a manifest that parsed and whose layout holds, the walk succeeds exactly on the closed
      world it declares. */
  lemma VerifiedExactlyWhenClosed(entries: seq<Entry>, m: Manifest, hash: seq<byte> -> string)
    requires Named(m) && LayoutHolds(m)
    requires forall i :: 0 <= i < |m.files| ==> m.files[i].path != "."
    ensures ClosedWorld(entries, m.files, hash) <==>
      && (forall i :: 0 <= i < |entries| ==> EntryAllowed(entries[i], Declared(m.files), hash))
      && (forall i :: 0 <= i < |m.files| ==> m.files[i].path in Artifacts(entries))
  {
    var declared := Declared(m.files);
    var paths := set i | 0 <= i < |m.files| :: m.files[i].path;
    forall path ensures path in declared <==> path in paths {
      if path in declared { var i := DeclaredComesFrom(m.files, path); }
      if path in paths {
        var i :| 0 <= i < |m.files| && m.files[i].path == path;
        DeclaredFinds(m.files, i);
      }
    }
    forall j | 0 <= j < |m.files|
      ensures m.files[j].path != MANIFEST && declared[m.files[j].path] == m.files[j]
    {
      DeclaredFinds(m.files, j);
      assert FoldsToManifest(MANIFEST);
    }
    if ClosedWorld(entries, m.files, hash) {
      forall i | 0 <= i < |entries| ensures EntryAllowed(entries[i], declared, hash) {
        var e := entries[i];
        if e.path != "." && !e.kind.Directory? && e.path != MANIFEST {
          assert e.path in Artifacts(entries);
          var j :| 0 <= j < |m.files| && m.files[j].path == e.path;
        }
      }
    }
    if (forall i :: 0 <= i < |entries| ==> EntryAllowed(entries[i], declared, hash))
       && (forall i :: 0 <= i < |m.files| ==> m.files[i].path in Artifacts(entries)) {
      assert Artifacts(entries) == paths;
    }
  }
}
