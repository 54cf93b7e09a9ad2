/** Staging: the files a manifest declares, and the manifest itself, copied one by one from a source
    that may answer anything. What a complete copy holds is determined by the source alone, and for a
    source that serves a verified bundle it is that bundle. */
module BundleStage {
  import opened Wrappers
  import opened BundleFiles
  import opened BundleTree
  import S = StageCopy

  const STAGE_MANIFEST_BYTES := 0x10_0000

  /** One file to copy. The manifest's size is not declared, only bounded. */
  datatype Item = Item(path: string, expectedSize: Option<nat>, maxSize: nat, digest: string)

  function Items(m: Manifest, id: string): seq<Item>
    requires forall i :: 0 <= i < |m.files| ==> m.files[i].size >= 0
  {
    [Item(MANIFEST, None, STAGE_MANIFEST_BYTES, id)]
    + seq(|m.files|, i requires 0 <= i < |m.files| =>
        Item(m.files[i].path, Some(m.files[i].size), m.files[i].size, m.files[i].sha256))
  }

  function Paths(items: seq<Item>): set<string> {
    set i | 0 <= i < |items| :: items[i].path
  }

  /** What the source and the stage answer for each path. */
  datatype Source = Source(
    replies: string -> nat -> S.ReadReply,
    regular: string -> bool,
    statSize: string -> int,
    around: string -> S.Around,
    writes: string -> (nat, nat) -> S.WriteReply)

  /** Nothing goes wrong around the copy loops, nor in the writes. */
  ghost predicate Smooth(from: Source) {
    forall path :: from.around(path) == S.SMOOTH && S.Obeys(from.writes(path))
  }

  ghost predicate ReadsAs(replies: nat -> S.ReadReply, size: nat, content: seq<byte>) {
    exists n: nat :: S.Serves(replies, size, n) && S.Delivered(replies, n + 1) == content
  }

  /** The source's file can be read to its end, as this content, and is the declared one. */
  ghost predicate Yields(from: Source, item: Item, size: nat, hash: seq<byte> -> string, content: seq<byte>) {
    && S.Declared(from.regular(item.path), from.statSize(item.path), item.expectedSize, item.maxSize)
    && ReadsAs(from.replies(item.path), size, content)
    && S.Fits(content, item.expectedSize, item.maxSize, hash, item.digest)
  }

  lemma ReadsOnce(replies: nat -> S.ReadReply, size: nat, a: seq<byte>, b: seq<byte>)
    requires ReadsAs(replies, size, a) && ReadsAs(replies, size, b)
    ensures a == b
  {
    var m: nat :| S.Serves(replies, size, m) && S.Delivered(replies, m + 1) == a;
    var n: nat :| S.Serves(replies, size, n) && S.Delivered(replies, n + 1) == b;
    S.OneEnd(replies, size, m, n);
  }

  /** The tree is a complete copy of these files. */
  ghost predicate Copies(from: Source, items: seq<Item>, size: nat, hash: seq<byte> -> string, tree: Tree) {
    && tree.Keys == Paths(items)
    && forall i :: 0 <= i < |items| ==> Yields(from, items[i], size, hash, tree[items[i].path])
  }

  lemma CopiesOnce(from: Source, items: seq<Item>, size: nat, hash: seq<byte> -> string, a: Tree, b: Tree)
    requires Copies(from, items, size, hash, a) && Copies(from, items, size, hash, b)
    ensures a == b
  {
    forall path | path in a ensures a[path] == b[path] {
      var i :| 0 <= i < |items| && items[i].path == path;
      ReadsOnce(from.replies(path), size, a[path], b[path]);
    }
  }

  lemma CopiesSnoc(from: Source, items: seq<Item>, k: nat, size: nat, hash: seq<byte> -> string, tree: Tree, content: seq<byte>)
    requires k < |items| && Copies(from, items[..k], size, hash, tree) && Yields(from, items[k], size, hash, content)
    ensures Copies(from, items[..k + 1], size, hash, tree[items[k].path := content])
  {
    var next := tree[items[k].path := content];
    assert Paths(items[..k + 1]) == Paths(items[..k]) + {items[k].path} by {
      assert items[..k + 1][k] == items[k];
      forall i | 0 <= i < k ensures items[..k + 1][i] == items[..k][i] {}
    }
    forall i | 0 <= i < k + 1 ensures Yields(from, items[i], size, hash, next[items[i].path]) {
      if i < k {
        assert Yields(from, items[..k][i], size, hash, tree[items[..k][i].path]);
        if items[i].path == items[k].path { ReadsOnce(from.replies(items[k].path), size, tree[items[i].path], content); }
      }
    }
  }

  /** Copies one file through the buffer. */
  method CopyItem(ctx: S.Context, buffer: array<byte>, from: Source, item: Item, hash: seq<byte> -> string)
      returns (ok: bool, content: seq<byte>)
    modifies ctx, buffer
    ensures ok ==> Yields(from, item, buffer.Length, hash, content)
    ensures Smooth(from) && S.Quiet(ctx.done) ==> (ok <==> exists c :: Yields(from, item, buffer.Length, hash, c))
  {
    var reader := new S.Reader(from.replies(item.path));
    var writer := new S.Writer(from.writes(item.path));
    var r := S.CopyStagedFile(ctx, reader, writer, buffer, from.regular(item.path), from.statSize(item.path),
                              item.expectedSize, item.maxSize, hash, item.digest, from.around(item.path));
    ok, content := r == S.Copied, writer.written;
    if ok {
      assert S.Serves(reader.replies, buffer.Length, reader.calls - 1);
      assert Yields(from, item, buffer.Length, hash, content);
    } else if c :| Yields(from, item, buffer.Length, hash, c) {
      var n: nat :| S.Serves(reader.replies, buffer.Length, n) && S.Delivered(reader.replies, n + 1) == c;
      assert S.Obtainable(reader.replies, buffer.Length, item.expectedSize, item.maxSize, hash, item.digest);
    }
  }

  // ---- a source that serves a verified bundle ----

  /** Every file of the tree is regular, of the size it has, and read as what it is. */
  ghost predicate ServesTree(from: Source, size: nat, tree: Tree) {
    forall path :: path in tree ==>
      from.regular(path) && from.statSize(path) == |tree[path]| && ReadsAs(from.replies(path), size, tree[path])
  }

  lemma ItemPaths(m: Manifest, id: string)
    requires forall i :: 0 <= i < |m.files| ==> m.files[i].size >= 0
    ensures Paths(Items(m, id)) == {MANIFEST} + PathSet(m.files)
  {
    var items := Items(m, id);
    assert items[0].path == MANIFEST;
    forall path | path in PathSet(m.files) ensures path in Paths(items) {
      var i :| 0 <= i < |m.files| && m.files[i].path == path;
      assert items[i + 1].path == path;
    }
    forall i | 0 < i < |items| ensures items[i].path in PathSet(m.files) { assert items[i].path == m.files[i - 1].path; }
  }

  lemma ItemFits(m: Manifest, tree: Tree, hash: seq<byte> -> string, id: string, i: nat)
    requires HoldsExactly(tree, m.files, hash) && i < |m.files| + 1
    requires forall k :: 0 <= k < |m.files| ==> m.files[k].size >= 0
    requires |tree[MANIFEST]| <= MAX_MANIFEST_BYTES && hash(tree[MANIFEST]) == id
    ensures var item := Items(m, id)[i];
      item.path in tree && S.Fits(tree[item.path], item.expectedSize, item.maxSize, hash, item.digest)
  {
    if i > 0 {
      var file := m.files[i - 1];
      assert file.path in PathSet(m.files);
      assert Items(m, id)[i] == Item(file.path, Some(file.size), file.size, file.sha256);
    }
  }

  lemma ServedFileIsYielded(from: Source, size: nat, tree: Tree, item: Item, hash: seq<byte> -> string)
    requires ServesTree(from, size, tree) && item.path in tree
    requires S.Fits(tree[item.path], item.expectedSize, item.maxSize, hash, item.digest)
    ensures Yields(from, item, size, hash, tree[item.path])
  {}

  /** What a manifest declares of a tree with its identity is all of that tree; so copying what is
      declared, from a source that serves the tree, copies the tree. */
  lemma VerifiedSourceIsCopiedWhole(f: Format, from: Source, size: nat, tree: Tree, id: string)
    requires Parses(f) && ServesTree(from, size, tree) && Identity(f, tree) == Some(id)
    ensures Copies(from, Items(f.parse(tree[MANIFEST]).value, id), size, f.hash, tree)
  {
    var m := f.parse(tree[MANIFEST]).value;
    var items := Items(m, id);
    ItemPaths(m, id);
    forall i | 0 <= i < |items| ensures items[i].path in tree && Yields(from, items[i], size, f.hash, tree[items[i].path]) {
      ItemFits(m, tree, f.hash, id, i);
      ServedFileIsYielded(from, size, tree, items[i], f.hash);
    }
  }
}
