/**
 * The file tree of src/main.rs: `FileTreeEntry`, `find_entry_by_path`,
 * `load_directory_children`, the toggle ExpandDirectory applies to the entry
 * it finds, and the gallery listing ExpandDirectory builds from the same
 * directory. A mutable reference into the tree becomes an address (the child
 * indices from a root), read with `At` and written with `Replace`.
 */
module FileTree {
  import opened Wrappers
  import opened Paths
  import opened ImageFormats

  datatype Entry =
    | Directory(name: string, path: Path, children: seq<Entry>, expanded: bool, childrenLoaded: bool)
    | File(name: string, path: Path)

  /** The path of the "Recents" root, which lists recent items instead of a directory. */
  const RECENTS: Path := "__RECENTS__"

  /** Some node of the tree rooted at `e` has path `p`. */
  predicate Contains(e: Entry, p: Path)
    decreases e
  {
    e.path == p || (e.Directory? && exists j :: 0 <= j < |e.children| && Contains(e.children[j], p))
  }

  /** A sequence of child indices leading from `e` to one of its nodes. */
  type Address = seq<nat>

  predicate IsAddress(e: Entry, a: Address)
    decreases |a|
  {
    a == [] || (e.Directory? && a[0] < |e.children| && IsAddress(e.children[a[0]], a[1..]))
  }

  function At(e: Entry, a: Address): Entry
    requires IsAddress(e, a)
    decreases |a|
  {
    if a == [] then e else At(e.children[a[0]], a[1..])
  }

  /** The tree with the node at `a` replaced by `n`: writing through the reference. */
  function Replace(e: Entry, a: Address, n: Entry): (r: Entry)
    requires IsAddress(e, a)
    ensures a != [] ==> r.path == e.path && r.Directory? && |r.children| == |e.children|
    decreases |a|
  {
    if a == [] then n
    else e.(children := e.children[a[0] := Replace(e.children[a[0]], a[1..], n)])
  }

  /**
   * `find_entry_by_path`: the node itself when its path matches, otherwise the
   * first match in its children, in order (a pre-order search).
   */
  function Find(e: Entry, p: Path): (r: Option<Address>)
    decreases e, 1
    ensures r.Some? <==> Contains(e, p)
    ensures r.Some? ==> IsAddress(e, r.value) && At(e, r.value).path == p
    ensures r.Some? && r.value != [] ==>
      e.path != p && e.Directory? && forall j :: 0 <= j < r.value[0] ==> !Contains(e.children[j], p)
  {
    if e.path == p then Some([])
    else match e
      case File(_, _) => None
      case Directory(_, _, cs, _, _) => FindFrom(cs, 0, p)
  }

  /** The search loop over `es[i..]`: the first child holding `p`, and the address inside it. */
  function FindFrom(es: seq<Entry>, i: nat, p: Path): (r: Option<Address>)
    requires i <= |es|
    decreases es, 0, |es| - i
    ensures r.Some? <==> exists j :: i <= j < |es| && Contains(es[j], p)
    ensures r.Some? ==>
      && |r.value| >= 1 && i <= r.value[0] < |es|
      && IsAddress(es[r.value[0]], r.value[1..]) && At(es[r.value[0]], r.value[1..]).path == p
      && Find(es[r.value[0]], p) == Some(r.value[1..])
      && forall j :: i <= j < r.value[0] ==> !Contains(es[j], p)
  {
    if i == |es| then None
    else match Find(es[i], p)
      case Some(a) =>
        assert ([i] + a)[1..] == a;
        Some([i] + a)
      case None => FindFrom(es, i + 1, p)
  }

  /** Address `b` leaves the path to `a` at some step: the two lead to disjoint subtrees. */
  predicate Diverges(a: Address, b: Address) {
    exists i :: 0 <= i < |a| && i < |b| && a[..i] == b[..i] && a[i] != b[i]
  }

  /** Writing through `a` leaves every node off the path to `a` as it was. */
  lemma {:induction false} ReplaceFrame(e: Entry, a: Address, n: Entry, b: Address)
    requires IsAddress(e, a) && IsAddress(e, b) && Diverges(a, b)
    ensures IsAddress(Replace(e, a, n), b) && At(Replace(e, a, n), b) == At(e, b)
    decreases |a|
  {
    var i :| 0 <= i < |a| && i < |b| && a[..i] == b[..i] && a[i] != b[i];
    var r := Replace(e, a, n);
    if i == 0 {
      assert r.children[b[0]] == e.children[b[0]];
    } else {
      assert a[0] == a[..i][0] == b[..i][0] == b[0];
      assert a[1..][..i - 1] == a[..i][1..] == b[..i][1..] == b[1..][..i - 1];
      assert a[1..][i - 1] != b[1..][i - 1];
      ReplaceFrame(e.children[a[0]], a[1..], n, b[1..]);
    }
  }

  /** Reading back the node just written. */
  lemma {:induction false} AtReplace(e: Entry, a: Address, n: Entry)
    requires IsAddress(e, a)
    ensures IsAddress(Replace(e, a, n), a) && At(Replace(e, a, n), a) == n
    decreases |a|
  {
    if a != [] {
      AtReplace(e.children[a[0]], a[1..], n);
    }
  }

  /** Writing twice at the same address keeps only the second write. */
  lemma {:induction false} ReplaceTwice(e: Entry, a: Address, n: Entry, m: Entry)
    requires IsAddress(e, a)
    ensures IsAddress(Replace(e, a, n), a) && Replace(Replace(e, a, n), a, m) == Replace(e, a, m)
    decreases |a|
  {
    AtReplace(e, a, n);
    if a != [] {
      ReplaceTwice(e.children[a[0]], a[1..], n, m);
    }
  }

  /**
   * Replacing the node `find` returned by one with the same path leaves it the
   * node `find` returns: nothing before it in pre-order was touched.
   */
  lemma {:induction false} FindAfterReplace(e: Entry, p: Path, a: Address, n: Entry)
    requires Find(e, p) == Some(a) && n.path == p
    ensures Find(Replace(e, a, n), p) == Some(a)
    decreases |a|
  {
    if a != [] {
      var k := a[0];
      var cs := e.children;
      var child := Replace(cs[k], a[1..], n);
      var cs' := cs[k := child];
      assert Find(cs[k], p) == Some(a[1..]);
      FindAfterReplace(cs[k], p, a[1..], n);
      FindFromSkips(cs', 0, k, p);
      assert a == [k] + a[1..];
    }
  }

  /** Children before `k` that do not hold `p` are skipped: the search lands in child `k` if it holds `p`. */
  lemma {:induction false} FindFromSkips(es: seq<Entry>, i: nat, k: nat, p: Path)
    requires i <= k < |es| && Find(es[k], p).Some?
    requires forall j :: i <= j < k ==> !Contains(es[j], p)
    ensures FindFrom(es, i, p) == Some([k] + Find(es[k], p).value)
    decreases k - i
  {
    if i < k {
      FindFromSkips(es, i + 1, k, p);
    }
  }

  /**
   * The entry ExpandDirectory found, after its toggle, and whether its
   * children must now be read from disk. Expanding Recents marks it loaded;
   * expanding another directory needs a load unless it is loaded already;
   * collapsing drops the children of any directory except Recents. A file is
   * left alone.
   */
  function Toggled(e: Entry, isRecents: bool): (r: (Entry, bool))
    ensures r.0.path == e.path
    ensures e.File? ==> r == (e, false)
    ensures e.Directory? ==> r.0.Directory? && r.0.name == e.name && r.0.expanded == !e.expanded
    ensures r.1 <==> e.Directory? && !e.expanded && !e.childrenLoaded && !isRecents
  {
    match e
    case File(_, _) => (e, false)
    case Directory(name, path, cs, expanded, loaded) =>
      if !expanded then
        if isRecents then (Directory(name, path, cs, true, true), false)
        else (Directory(name, path, cs, true, loaded), !loaded)
      else if !isRecents then (Directory(name, path, [], false, false), false)
      else (Directory(name, path, cs, false, loaded), false)
  }

  /** Collapsing a directory other than Recents forgets its children, so opening it again reads the disk again. */
  lemma CollapseThenExpandReloads(e: Entry)
    requires e.Directory? && e.expanded
    ensures var (closed, load1) := Toggled(e, false);
      && !load1 && closed.children == [] && !closed.childrenLoaded
      && var (reopened, load2) := Toggled(closed, false);
         reopened.expanded && load2
  {
  }

  /** Recents keeps its children through any number of toggles and never asks for a load. */
  lemma RecentsKeepsChildren(e: Entry)
    requires e.Directory?
    ensures var (t, load) := Toggled(e, true); t.children == e.children && !load
  {
  }

  /** The kinds of entry `fs::read_dir` reports, as `is_dir` and `is_file` see them. */
  datatype Kind = Dir | RegularFile | OtherKind

  /** One entry of a directory listing, by its name inside the directory. */
  datatype Listed = Listed(name: string, kind: Kind)

  /** `DirEntry::path`: the listed name joined onto the directory read. */
  function ChildPath(dir: Path, l: Listed): Path {
    Join(dir, l.name)
  }

  /** `FileTreeEntry::default`: a collapsed, unloaded directory for a directory, a file for anything else. */
  function DefaultEntry(dir: Path, l: Listed): (e: Entry)
    ensures e.path == ChildPath(dir, l) && e.name == l.name
    ensures e.Directory? <==> l.kind == Dir
    ensures e.Directory? ==> e.children == [] && !e.expanded && !e.childrenLoaded
  {
    if l.kind == Dir then Directory(l.name, ChildPath(dir, l), [], false, false)
    else File(l.name, ChildPath(dir, l))
  }

  /** `starts_with('.')`. */
  predicate StartsWithDot(s: string) {
    |s| > 0 && s[0] == '.'
  }

  /** load_directory_children keeps directories not named with a leading '.', and files with an image suffix. */
  predicate KeptInTree(l: Listed) {
    if l.kind == Dir then !StartsWithDot(l.name) else IsTreeImageName(l.name)
  }

  /** The children load_directory_children builds from a listing, in listing order. */
  function TreeChildren(dir: Path, listing: seq<Listed>): (cs: seq<Entry>)
    ensures |cs| <= |listing|
    ensures forall c :: c in cs ==> exists l :: l in listing && KeptInTree(l) && c == DefaultEntry(dir, l)
    ensures forall l :: l in listing && KeptInTree(l) ==> DefaultEntry(dir, l) in cs
    decreases |listing|
  {
    if listing == [] then []
    else
      var init := listing[..|listing| - 1];
      var last := listing[|listing| - 1];
      assert listing == init + [last];
      TreeChildren(dir, init) + (if KeptInTree(last) then [DefaultEntry(dir, last)] else [])
  }

  /** The loop of load_directory_children over the directory's entries. */
  method LoadChildren(dir: Path, listing: seq<Listed>) returns (children: seq<Entry>)
    ensures children == TreeChildren(dir, listing)
  {
    children := [];
    for i := 0 to |listing|
      invariant children == TreeChildren(dir, listing[..i])
    {
      var child := DefaultEntry(dir, listing[i]);
      var keep;
      if !child.Directory? {
        keep := HasImageSuffix(child.name);
      } else {
        keep := !StartsWithDot(child.name);
      }
      if keep {
        children := children + [child];
      }
      assert listing[..i + 1][..i] == listing[..i];
    }
    assert listing[..|listing|] == listing;
  }

  /**
   * `load_directory_children(root, target)`: the node `find` returns for
   * `target`, when it is a directory, gets the listing's children (none when
   * the directory cannot be read); `children_loaded` is not touched.
   */
  function LoadedChildren(root: Entry, target: Path, listing: Option<seq<Listed>>): (r: Entry)
    ensures r.path == root.path && r.Directory? == root.Directory?
  {
    match Find(root, target)
    case None => root
    case Some(a) =>
      var node := At(root, a);
      if node.File? then root
      else Replace(root, a, node.(children := if listing.Some? then TreeChildren(target, listing.value) else []))
  }

  /**
   * The listing lands on the node `find` returns, and only its children
   * change: every node off the path to it reads as before.
   */
  lemma LoadedChildrenLands(root: Entry, target: Path, listing: Option<seq<Listed>>)
    requires Find(root, target).Some? && At(root, Find(root, target).value).Directory?
    ensures var a := Find(root, target).value;
      var node := At(root, a);
      var r := LoadedChildren(root, target, listing);
      && Find(r, target) == Some(a)
      && At(r, a) == node.(children := if listing.Some? then TreeChildren(target, listing.value) else [])
      && forall b :: IsAddress(root, b) && Diverges(a, b) ==> IsAddress(r, b) && At(r, b) == At(root, b)
  {
    var a := Find(root, target).value;
    var node := At(root, a);
    var n := node.(children := if listing.Some? then TreeChildren(target, listing.value) else []);
    FindAfterReplace(root, target, a, n);
    AtReplace(root, a, n);
    forall b | IsAddress(root, b) && Diverges(a, b)
      ensures IsAddress(Replace(root, a, n), b) && At(Replace(root, a, n), b) == At(root, b)
    {
      ReplaceFrame(root, a, n, b);
    }
  }

  /** The first root, from index `i` on, holding `p`: the loops of ExpandDirectory over the roots. */
  function FirstRoot(roots: seq<Entry>, p: Path, i: nat): (r: Option<nat>)
    requires i <= |roots|
    ensures r.Some? ==>
      && i <= r.value < |roots| && Contains(roots[r.value], p)
      && forall j :: i <= j < r.value ==> !Contains(roots[j], p)
    ensures r.None? ==> forall j :: i <= j < |roots| ==> !Contains(roots[j], p)
    decreases |roots| - i
  {
    if i == |roots| then None
    else if Find(roots[i], p).Some? then Some(i)
    else FirstRoot(roots, p, i + 1)
  }

  /** The `for root in roots` search of ExpandDirectory. */
  method FindRoot(roots: seq<Entry>, p: Path) returns (r: Option<nat>)
    ensures r == FirstRoot(roots, p, 0)
  {
    var k := 0;
    while k < |roots|
      invariant k <= |roots|
      invariant FirstRoot(roots, p, 0) == FirstRoot(roots, p, k)
    {
      if Find(roots[k], p).Some? {
        return Some(k);
      }
      k := k + 1;
    }
    return None;
  }

  /** `load_directory_children`, writing the listed children through the reference `find` returns. */
  method LoadDirectoryChildren(root: Entry, target: Path, listing: Option<seq<Listed>>) returns (r: Entry)
    ensures r == LoadedChildren(root, target, listing)
  {
    r := root;
    var found := Find(root, target);
    if found.Some? {
      var node := At(root, found.value);
      if node.Directory? {
        var children := [];
        if listing.Some? {
          children := LoadChildren(target, listing.value);
        }
        r := Replace(root, found.value, node.(children := children));
      }
    }
  }

  /** The first phase of ExpandDirectory: toggle the first node holding `p`, and whether to load it. */
  function ToggledRoots(roots: seq<Entry>, p: Path): (r: (seq<Entry>, bool))
    ensures |r.0| == |roots|
    ensures FirstRoot(roots, p, 0).None? ==> r == (roots, false)
  {
    match FirstRoot(roots, p, 0)
    case None => (roots, false)
    case Some(k) =>
      var a := Find(roots[k], p).value;
      var (t, load) := Toggled(At(roots[k], a), p == RECENTS);
      (roots[k := Replace(roots[k], a, t)], load)
  }

  /** The second phase: `load_directory_children` on the first root holding `p`. */
  function LoadedRoots(roots: seq<Entry>, p: Path, listing: Option<seq<Listed>>): (r: seq<Entry>)
    ensures |r| == |roots| && forall k :: 0 <= k < |r| ==> r[k].path == roots[k].path
  {
    match FirstRoot(roots, p, 0)
    case None => roots
    case Some(k) => roots[k := LoadedChildren(roots[k], p, listing)]
  }

  /** The tree ExpandDirectory leaves. */
  function ExpandedTree(roots: seq<Entry>, p: Path, listing: Option<seq<Listed>>): (r: seq<Entry>)
    ensures |r| == |roots|
    ensures FirstRoot(roots, p, 0).None? ==> r == roots
  {
    var (toggled, load) := ToggledRoots(roots, p);
    if load then LoadedRoots(toggled, p, listing) else toggled
  }

  /** The tree half of ExpandDirectory: toggle the first node holding `p`, then load it if asked to. */
  method ExpandInTree(roots: seq<Entry>, p: Path, listing: Option<seq<Listed>>) returns (r: seq<Entry>)
    ensures r == ExpandedTree(roots, p, listing)
  {
    r := roots;
    var load := false;
    var first := FindRoot(r, p);
    if first.Some? {
      var k := first.value;
      var a := Find(r[k], p).value;
      var toggled := Toggled(At(r[k], a), p == RECENTS);
      r := r[k := Replace(r[k], a, toggled.0)];
      load := toggled.1;
    }
    if load {
      var second := FindRoot(r, p);
      if second.Some? {
        var k := second.value;
        var loaded := LoadDirectoryChildren(r[k], p, listing);
        r := r[k := loaded];
      }
    }
  }

  /**
   * Opening a collapsed, unloaded directory: the second search finds the node
   * the first one toggled, which ends up expanded with the listing's children;
   * every other root is untouched.
   */
  lemma ExpandOpensAndLoads(roots: seq<Entry>, p: Path, listing: Option<seq<Listed>>, k: nat)
    requires FirstRoot(roots, p, 0) == Some(k) && p != RECENTS
    requires var node := At(roots[k], Find(roots[k], p).value);
      node.Directory? && !node.expanded && !node.childrenLoaded
    ensures var a := Find(roots[k], p).value;
      var node := At(roots[k], a);
      var r := ExpandedTree(roots, p, listing);
      && |r| == |roots|
      && (forall j :: 0 <= j < |roots| && j != k ==> r[j] == roots[j])
      && IsAddress(r[k], a)
      && At(r[k], a) == node.(expanded := true,
                              children := if listing.Some? then TreeChildren(p, listing.value) else [])
  {
    var a := Find(roots[k], p).value;
    var node := At(roots[k], a);
    var t := node.(expanded := true);
    assert Toggled(node, false) == (t, true);
    var toggledRoot := Replace(roots[k], a, t);
    var toggled := roots[k := toggledRoot];
    assert ToggledRoots(roots, p) == (toggled, true);
    FindAfterReplace(roots[k], p, a, t);
    AtReplace(roots[k], a, t);
    assert FirstRoot(toggled, p, 0) == Some(k) by {
      FirstRootSkips(toggled, p, 0, k);
    }
    var n := t.(children := if listing.Some? then TreeChildren(p, listing.value) else []);
    assert LoadedChildren(toggledRoot, p, listing) == Replace(toggledRoot, a, n);
    ReplaceTwice(roots[k], a, t, n);
    AtReplace(roots[k], a, n);
  }

  lemma {:induction false} FirstRootSkips(roots: seq<Entry>, p: Path, i: nat, k: nat)
    requires i <= k < |roots| && Contains(roots[k], p)
    requires forall j :: i <= j < k ==> !Contains(roots[j], p)
    ensures FirstRoot(roots, p, i) == Some(k)
    decreases k - i
  {
    if i < k {
      FirstRootSkips(roots, p, i + 1, k);
    }
  }

  /** ExpandDirectory's gallery filter: regular files whose lower-cased extension is an image format. */
  predicate Listable(dir: Path, l: Listed) {
    l.kind == RegularFile && IsGalleryImage(ChildPath(dir, l))
  }

  /** The image collection ExpandDirectory lists for a readable directory, in listing order. */
  function GalleryImages(dir: Path, listing: seq<Listed>): (ps: seq<Path>)
    ensures |ps| <= |listing|
    ensures forall q :: q in ps ==> exists l :: l in listing && Listable(dir, l) && q == ChildPath(dir, l)
    ensures forall l :: l in listing && Listable(dir, l) ==> ChildPath(dir, l) in ps
    decreases |listing|
  {
    if listing == [] then []
    else
      var init := listing[..|listing| - 1];
      var last := listing[|listing| - 1];
      assert listing == init + [last];
      GalleryImages(dir, init) + (if Listable(dir, last) then [ChildPath(dir, last)] else [])
  }

  /** The listing loop of ExpandDirectory. */
  method ListImages(dir: Path, listing: seq<Listed>) returns (images: seq<Path>)
    ensures images == GalleryImages(dir, listing)
  {
    images := [];
    for i := 0 to |listing|
      invariant images == GalleryImages(dir, listing[..i])
    {
      var l := listing[i];
      if l.kind == RegularFile {
        var ext := ToLower(Extension(ChildPath(dir, l)).GetOr(""));
        if ext == "png" || ext == "jpg" || ext == "jpeg" || ext == "gif" || ext == "svg" {
          images := images + [ChildPath(dir, l)];
        }
      }
      assert listing[..i + 1][..i] == listing[..i];
    }
    assert listing[..|listing|] == listing;
  }
}
