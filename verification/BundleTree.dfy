/** Verification of a whole bundle, and the identity a tree of files has: the digest of its
    manifest, if the manifest parses and the tree is exactly the closed world it declares. */
module BundleTree {
  import opened Wrappers
  import opened BundleFiles

  /** File contents by path; directories carry no information of their own. */
  type Tree = map<string, seq<byte>>

  const MAX_MANIFEST_BYTES := 0x10_0000

  /** Parsing of manifests and the digest, as functions. */
  datatype Format = Format(parse: seq<byte> -> Option<Manifest>, hash: seq<byte> -> string)

  /** What parsing establishes of every manifest it accepts. */
  ghost predicate Parsed(m: Manifest) {
    && Named(m)
    && forall i :: 0 <= i < |m.files| ==> m.files[i].path != "." && m.files[i].size >= 0
  }

  ghost predicate Parses(f: Format) {
    forall data :: f.parse(data).Some? ==> |data| <= 1048576 && Parsed(f.parse(data).value)
  }

  function PathSet(files: seq<File>): set<string> {
    set i | 0 <= i < |files| :: files[i].path
  }

  /** The tree holds the manifest and exactly the declared files, of the declared size and digest. */
  ghost predicate HoldsExactly(tree: Tree, files: seq<File>, hash: seq<byte> -> string) {
    && tree.Keys == {MANIFEST} + PathSet(files)
    && forall i :: 0 <= i < |files| ==> |tree[files[i].path]| == files[i].size && hash(tree[files[i].path]) == files[i].sha256
  }

  ghost function Identity(f: Format, tree: Tree): Option<string> {
    if MANIFEST !in tree then None
    else
      match f.parse(tree[MANIFEST])
      case None => None
      case Some(m) =>
        if LayoutHolds(m) && HoldsExactly(tree, m.files, f.hash) then Some(f.hash(tree[MANIFEST])) else None
  }

  /** A walk over the tree: every file once or more with its content, and any directories. */
  ghost predicate Walks(entries: seq<Entry>, tree: Tree) {
    && "." !in tree
    && (forall i :: 0 <= i < |entries| && entries[i].path != "." && !entries[i].kind.Directory? ==>
         entries[i].path in tree && entries[i].kind == Regular(tree[entries[i].path]))
    && (forall i :: 0 <= i < |entries| && entries[i].kind.Directory? ==> entries[i].path !in tree)
    && (forall path :: path in tree ==> path in (set i | 0 <= i < |entries| :: entries[i].path))
  }

  lemma ArtifactsOfWalk(entries: seq<Entry>, tree: Tree)
    requires Walks(entries, tree)
    ensures Artifacts(entries) == tree.Keys - {MANIFEST}
  {
    forall path | path in tree && path != MANIFEST ensures path in Artifacts(entries) {
      var i :| 0 <= i < |entries| && entries[i].path == path;
    }
  }

  /** Whatever order a walk takes, the closed world it sees is the tree's. */
  lemma WalkSeesTheTree(entries: seq<Entry>, tree: Tree, m: Manifest, hash: seq<byte> -> string)
    requires Walks(entries, tree) && MANIFEST in tree && Parsed(m) && LayoutHolds(m)
    ensures ClosedWorld(entries, m.files, hash) <==> HoldsExactly(tree, m.files, hash)
  {
    ArtifactsOfWalk(entries, tree);
    assert FoldsToManifest(MANIFEST);
    assert MANIFEST !in PathSet(m.files);
    if ClosedWorld(entries, m.files, hash) {
      forall j | 0 <= j < |m.files|
        ensures m.files[j].path in tree && Holds(Regular(tree[m.files[j].path]), m.files[j], hash)
      {
        assert m.files[j].path in Artifacts(entries);
        var i :| 0 <= i < |entries| && entries[i].path == m.files[j].path;
      }
    }
    if HoldsExactly(tree, m.files, hash) {
      assert Artifacts(entries) == PathSet(m.files);
    }
  }

  /** With a manifest that parses, the identity is there exactly when the entries are allowed and complete. */
  lemma EntriesDecideIdentity(f: Format, tree: Tree, entries: seq<Entry>, m: Manifest)
    requires Parses(f) && Walks(entries, tree) && MANIFEST in tree && f.parse(tree[MANIFEST]) == Some(m)
    ensures var identified :=
        && LayoutHolds(m)
        && (forall i :: 0 <= i < |entries| ==> EntryAllowed(entries[i], Declared(m.files), f.hash))
        && (forall i :: 0 <= i < |m.files| ==> m.files[i].path in Artifacts(entries));
      Identity(f, tree) == if identified then Some(f.hash(tree[MANIFEST])) else None
  {
    if LayoutHolds(m) {
      VerifiedExactlyWhenClosed(entries, m, f.hash);
      WalkSeesTheTree(entries, tree, m, f.hash);
    }
  }

  /** Layout first, then the walk. */
  method VerifyDeclared(entries: seq<Entry>, undisturbed: nat -> bool, m: Manifest, hash: seq<byte> -> string)
      returns (ok: bool)
    ensures ok <==>
      && LayoutHolds(m)
      && (forall i :: 0 <= i < |entries| ==> undisturbed(i))
      && (forall i :: 0 <= i < |entries| ==> EntryAllowed(entries[i], Declared(m.files), hash))
      && (forall i :: 0 <= i < |m.files| ==> m.files[i].path in Artifacts(entries))
  {
    ok := ValidateLayout(m);
    if ok {
      ok := VerifyFiles(entries, undisturbed, m.files, hash);
    }
  }

  /** The whole verification of a bundle: with nothing in its way it finds exactly the identity. */
  method Verify(f: Format, tree: Tree, entries: seq<Entry>, readable: bool, undisturbed: nat -> bool)
      returns (id: Option<string>)
    requires Parses(f) && Walks(entries, tree)
    ensures id.Some? ==> id == Identity(f, tree)
    ensures readable && (forall i :: 0 <= i < |entries| ==> undisturbed(i)) ==> id == Identity(f, tree)
  {
    if !readable || MANIFEST !in tree || |tree[MANIFEST]| > MAX_MANIFEST_BYTES {
      return None;
    }
    var parsed := f.parse(tree[MANIFEST]);
    match parsed {
      case None => return None;
      case Some(m) =>
        EntriesDecideIdentity(f, tree, entries, m);
        var ok := VerifyDeclared(entries, undisturbed, m, f.hash);
        id := if ok then Some(f.hash(tree[MANIFEST])) else None;
    }
  }
}
