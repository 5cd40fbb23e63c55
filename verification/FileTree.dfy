/** A working tree with symbolic links, the host's path queries over it, and the link-blind walk of
    the guarded trees. */
module FileTree {
  import opened Options
  import opened Ordering
  import opened Text

  /** A link carries what it points at, if that exists. */
  datatype Node = File(bytes: string) | Link(target: Option<Node>) | Dir(children: seq<Child>)

  datatype Child = Child(name: string, node: Node)

  predicate CleanName(name: string) {
    name != "" && '/' !in name
  }

  /** What a host's tree always is: directories hold clean names, each once. */
  ghost predicate WellFormed(node: Node) {
    match node
    case Dir(children) =>
      && (forall i, j | 0 <= i < j < |children| :: children[i].name != children[j].name)
      && (forall c | c in children :: CleanName(c.name) && WellFormed(c.node))
    case Link(target) => target.Some? ==> WellFormed(target.value)
    case File(_) => true
  }

  function Find(children: seq<Child>, name: string): (r: Option<Node>)
    ensures r.Some? ==> Child(name, r.value) in children
    ensures r.None? ==> forall c | c in children :: c.name != name
  {
    if children == [] then None
    else if children[0].name == name then Some(children[0].node)
    else Find(children[1..], name)
  }

  /** What a node is once its links are followed. */
  function Follow(node: Node): Option<Node> {
    match node
    case Link(Some(t)) => Follow(t)
    case Link(None) => None
    case _ => Some(node)
  }

  /** The node under these names: links on the way are followed, a link at the end is not. */
  function At(node: Node, names: seq<string>): Option<Node>
    decreases |names|
  {
    if names == [] then Some(node)
    else match Follow(node)
         case Some(Dir(children)) =>
           (match Find(children, names[0])
            case None => None
            case Some(next) => At(next, names[1..]))
         case _ => None
  }

  /** The node under these names through real directories only. */
  function RealAt(node: Node, names: seq<string>): Option<Node>
    decreases |names|
  {
    if names == [] then Some(node)
    else if !node.Dir? then None
    else match Find(node.children, names[0])
         case None => None
         case Some(next) => RealAt(next, names[1..])
  }

  function NodeAt(root: Node, path: string): Option<Node> {
    At(root, Split(path, '/'))
  }

  /** `Path.is_symlink`. */
  predicate IsLink(root: Node, path: string) {
    NodeAt(root, path).Some? && NodeAt(root, path).value.Link?
  }

  /** `Path.exists`, which follows a link. */
  predicate Exists(root: Node, path: string) {
    NodeAt(root, path).Some? && Follow(NodeAt(root, path).value).Some?
  }

  /** `Path.is_file`, which follows a link. */
  predicate IsFile(root: Node, path: string) {
    Exists(root, path) && Follow(NodeAt(root, path).value).value.File?
  }

  function BytesAt(root: Node, path: string): string
    requires IsFile(root, path)
  {
    Follow(NodeAt(root, path).value).value.bytes
  }

  // ---------------------------------------------------------------- the walk

  const IGNORED_NAMES: seq<string> := [".DS_Store", "Thumbs.db"]
  const IGNORED_DIRS: seq<string> := ["__pycache__"]

  /** What a walk found: the regular files and the links of either kind. */
  datatype Scan = Scan(files: seq<string>, links: seq<string>) {
    function Of(link: bool): seq<string> {
      if link then links else files
    }
  }

  function Both(a: Scan, b: Scan): Scan {
    Scan(a.files + b.files, a.links + b.links)
  }

  predicate IgnoredDir(path: string) {
    exists part | part in Split(path, '/') :: part in IGNORED_DIRS
  }

  predicate LeadsToDir(link: Node) {
    Follow(link).Some? && Follow(link).value.Dir?
  }

  /** Everything under a real directory, links reported and not followed. */
  function Walk(path: string, children: seq<Child>): Scan
    decreases children, 1
  {
    if IgnoredDir(path) then Scan([], []) else WalkChildren(path, children)
  }

  function WalkChildren(path: string, children: seq<Child>): Scan
    decreases children, 0
  {
    if children == [] then Scan([], [])
    else
      var c := children[0];
      Both(WalkChild(path + "/" + c.name, c), WalkChildren(path, children[1..]))
  }

  function WalkChild(here: string, c: Child): Scan
    decreases c
  {
    match c.node
    case Dir(inner) => Walk(here, inner)
    case Link(_) => if c.name in IGNORED_NAMES && !LeadsToDir(c.node) then Scan([], []) else Scan([], [here])
    case File(_) => if c.name in IGNORED_NAMES then Scan([], []) else Scan([here], [])
  }

  /** The root of a guarded tree may itself be a link, or be missing. */
  function ScanTree(root: Node, tree: string): Scan {
    match NodeAt(root, tree)
    case Some(Link(_)) => Scan([], [tree])
    case Some(Dir(children)) => Walk(tree, children)
    case _ => Scan([], [])
  }

  function ScanTrees(root: Node, trees: seq<string>): Scan {
    if trees == [] then Scan([], []) else Both(ScanTrees(root, trees[..|trees| - 1]), ScanTree(root, trees[|trees| - 1]))
  }

  method ScanGuardedTrees(root: Node, trees: seq<string>) returns (scan: Scan)
    ensures scan.files == SortedList(ScanTrees(root, trees).files)
    ensures scan.links == SortedList(ScanTrees(root, trees).links)
  {
    hide NodeAt, Walk;
    var files: seq<string>, links: seq<string> := [], [];
    for i := 0 to |trees|
      invariant Scan(files, links) == ScanTrees(root, trees[..i])
    {
      assert trees[..i + 1][..i] == trees[..i];
      assert ScanTrees(root, trees[..i + 1]) == Both(Scan(files, links), ScanTree(root, trees[i]));
      match NodeAt(root, trees[i]) {
        case Some(Link(_)) => links := links + [trees[i]];
        case Some(Dir(children)) =>
          var here := Walk(trees[i], children);
          files, links := files + here.files, links + here.links;
        case _ =>
      }
    }
    assert trees[..|trees|] == trees;
    scan := Scan(SortedList(files), SortedList(links));
  }

  // ---------------------------------------------------------------- what the walk reports

  /** The path that these names make under `path`. */
  function Under(path: string, names: seq<string>): string {
    if names == [] then path else path + "/" + Join(names, '/')
  }

  /** No directory on the way is ignored: neither in `path` nor among the names but the last. */
  ghost predicate Visible(path: string, names: seq<string>) {
    names != [] && !IgnoredDir(path) && forall i | 0 <= i < |names| - 1 :: names[i] !in IGNORED_DIRS
  }

  /** A file, or a link, that real directories lead to and that is not ignored. A link with an
      ignored name counts when it leads to a directory. */
  ghost predicate Reported(link: bool, path: string, children: seq<Child>, names: seq<string>) {
    && Visible(path, names)
    && RealAt(Dir(children), names).Some?
    && var node := RealAt(Dir(children), names).value;
       var ignored := names[|names| - 1] in IGNORED_NAMES;
       if link then node.Link? && (ignored ==> LeadsToDir(node)) else node.File? && !ignored
  }

  lemma IgnoredBelow(path: string, name: string)
    requires '/' !in name
    ensures IgnoredDir(path + "/" + name) <==> IgnoredDir(path) || name in IGNORED_DIRS
  {
    SplitAtAny(path, name, '/');
    SplitAtFirst(name, "", '/');
    var whole := Split(path + "/" + name, '/');
    assert forall part :: part in whole <==> part in Split(path, '/') || part == name;
  }

  lemma UnderStep(path: string, names: seq<string>)
    requires names != []
    ensures Under(path, names) == Under(path + "/" + names[0], names[1..])
  {
    if |names| > 1 {
      Regroup(path + "/", names[0] + "/", Join(names[1..], '/'));
      Regroup(path + "/", names[0], "/");
    }
  }

  lemma WellFormedParts(children: seq<Child>)
    requires WellFormed(Dir(children)) && children != []
    ensures WellFormed(Dir(children[1..])) && WellFormed(children[0].node) && CleanName(children[0].name)
  {
    assert children[0] in children;
  }

  lemma VisibleBelow(path: string, names: seq<string>)
    requires |names| > 1 && CleanName(names[0])
    ensures Visible(path, names) <==> names[0] !in IGNORED_DIRS && !IgnoredDir(path) && Visible(path + "/" + names[0], names[1..])
  {
    IgnoredBelow(path, names[0]);
    assert Visible(path, names) ==> names[0] !in IGNORED_DIRS;
    if Visible(path + "/" + names[0], names[1..]) && names[0] !in IGNORED_DIRS {
      forall i | 0 <= i < |names| - 1 ensures names[i] !in IGNORED_DIRS {
        assert i > 0 ==> names[i] == names[1..][i - 1];
      }
    }
  }

  /** Whatever is reported is found. */
  lemma {:induction false} WalkFinds(link: bool, path: string, children: seq<Child>, names: seq<string>)
    requires WellFormed(Dir(children)) && Reported(link, path, children, names)
    ensures Under(path, names) in WalkChildren(path, children).Of(link)
    decreases children
  {
    hide IgnoredDir;
    WellFormedParts(children);
    var c := children[0];
    if names[0] != c.name {
      assert RealAt(Dir(children), names) == RealAt(Dir(children[1..]), names);
      WalkFinds(link, path, children[1..], names);
    } else {
      UnderStep(path, names);
      var here := path + "/" + c.name;
      assert RealAt(Dir(children), names) == RealAt(c.node, names[1..]);
      if |names| == 1 {
        assert Under(here, names[1..]) == here;
      } else {
        VisibleBelow(path, names);
        WalkFinds(link, here, c.node.children, names[1..]);
        assert WalkChild(here, c) == Walk(here, c.node.children) == WalkChildren(here, c.node.children);
      }
    }
  }

  lemma ReportedBelow(link: bool, path: string, children: seq<Child>, inner: seq<string>)
    requires children != [] && children[0].node.Dir? && CleanName(children[0].name)
    requires Reported(link, path + "/" + children[0].name, children[0].node.children, inner)
    ensures Reported(link, path, children, [children[0].name] + inner)
    ensures Under(path, [children[0].name] + inner) == Under(path + "/" + children[0].name, inner)
  {
    hide IgnoredDir, Under;
    var c := children[0];
    var names := [c.name] + inner;
    assert names[1..] == inner && names[|names| - 1] == inner[|inner| - 1];
    IgnoredBelow(path, c.name);
    VisibleBelow(path, names);
    UnderStep(path, names);
    assert RealAt(Dir(children), names) == RealAt(c.node, inner);
  }

  lemma ReportedLater(link: bool, path: string, children: seq<Child>, names: seq<string>)
    requires WellFormed(Dir(children)) && children != [] && Reported(link, path, children[1..], names)
    ensures Reported(link, path, children, names)
  {
    hide IgnoredDir;
    assert Child(names[0], Find(children[1..], names[0]).value) in children[1..];
    assert names[0] != children[0].name && Find(children, names[0]) == Find(children[1..], names[0]);
    assert RealAt(Dir(children), names) == RealAt(Dir(children[1..]), names);
  }

  lemma ReportedHere(link: bool, path: string, children: seq<Child>, p: string)
    requires children != [] && !children[0].node.Dir? && !IgnoredDir(path)
    requires p in WalkChild(path + "/" + children[0].name, children[0]).Of(link)
    ensures Reported(link, path, children, [children[0].name]) && p == Under(path, [children[0].name])
  {
    hide IgnoredDir;
    var names := [children[0].name];
    UnderStep(path, names);
    assert RealAt(Dir(children), names) == RealAt(children[0].node, names[1..]) == Some(children[0].node);
  }

  /** Whatever is found is reported. */
  lemma {:induction false} WalkFindsOnly(link: bool, path: string, children: seq<Child>, p: string) returns (names: seq<string>)
    requires WellFormed(Dir(children)) && !IgnoredDir(path) && p in WalkChildren(path, children).Of(link)
    ensures Reported(link, path, children, names) && p == Under(path, names)
    decreases children
  {
    hide IgnoredDir, Reported, Under;
    WellFormedParts(children);
    var c := children[0];
    var here := path + "/" + c.name;
    assert WalkChildren(path, children) == Both(WalkChild(here, c), WalkChildren(path, children[1..]));
    if p in WalkChild(here, c).Of(link) {
      if c.node.Dir? {
        assert WalkChild(here, c) == Walk(here, c.node.children);
        assert Scan([], []).Of(link) == [];
        var inner := WalkFindsOnly(link, here, c.node.children, p);
        names := [c.name] + inner;
        ReportedBelow(link, path, children, inner);
      } else {
        names := [c.name];
        ReportedHere(link, path, children, p);
      }
    } else {
      names := WalkFindsOnly(link, path, children[1..], p);
      ReportedLater(link, path, children, names);
    }
  }

  // ---------------------------------------------------------------- paths under a tree

  lemma {:induction false} AtThrough(node: Node, a: seq<string>, b: seq<string>)
    ensures At(node, a + b) == match At(node, a) case None => None case Some(n) => At(n, b)
    decreases |a|
  {
    if a == [] {
      assert a + b == b;
    } else {
      Peel(a, b);
      if Follow(node).Some? && Follow(node).value.Dir? {
        var next := Find(Follow(node).value.children, a[0]);
        if next.Some? {
          AtThrough(next.value, a[1..], b);
        }
      }
    }
  }

  lemma {:induction false} RealIsAt(node: Node, names: seq<string>)
    requires RealAt(node, names).Some?
    ensures At(node, names) == RealAt(node, names)
    decreases |names|
  {
    if names != [] {
      RealIsAt(Find(node.children, names[0]).value, names[1..]);
    }
  }

  lemma {:induction false} NamesAreClean(node: Node, names: seq<string>)
    requires WellFormed(node) && RealAt(node, names).Some?
    ensures forall n | n in names :: CleanName(n)
    decreases |names|
  {
    if names != [] {
      NamesAreClean(Find(node.children, names[0]).value, names[1..]);
      assert Child(names[0], Find(node.children, names[0]).value) in node.children;
      assert names == [names[0]] + names[1..];
    }
  }

  /** What real directories lead to is what the path query finds. */
  lemma NodeUnder(root: Node, tree: string, children: seq<Child>, names: seq<string>)
    requires NodeAt(root, tree) == Some(Dir(children)) && WellFormed(Dir(children))
    requires names != [] && RealAt(Dir(children), names).Some?
    ensures NodeAt(root, Under(tree, names)) == RealAt(Dir(children), names)
  {
    NamesAreClean(Dir(children), names);
    SplitAtAny(tree, Join(names, '/'), '/');
    SplitOfJoin(names, '/');
    AtThrough(root, Split(tree, '/'), names);
    RealIsAt(Dir(children), names);
  }

  /** What a path query finds under a real directory, but not through real directories alone, lies
      behind a link to a directory. */
  lemma {:induction false} LinkOnTheWay(node: Node, names: seq<string>) returns (k: nat)
    requires node.Dir? && At(node, names).Some? && RealAt(node, names).None?
    ensures 0 < k < |names|
    ensures RealAt(node, names[..k]).Some? && RealAt(node, names[..k]).value.Link? && LeadsToDir(RealAt(node, names[..k]).value)
    decreases |names|
  {
    var next := Find(node.children, names[0]).value;
    if next.Link? {
      k := 1;
      assert names[..1][1..] == [];
    } else {
      assert names[1..] != [];
      var rest := LinkOnTheWay(next, names[1..]);
      k := rest + 1;
      assert names[..k][0] == names[0] && names[..k][1..] == names[1..][..rest];
    }
  }

  lemma {:induction false} ScanTreesHas(root: Node, trees: seq<string>, link: bool, p: string)
    ensures p in ScanTrees(root, trees).Of(link) <==> exists tree | tree in trees :: p in ScanTree(root, tree).Of(link)
  {
    if trees != [] {
      var last := |trees| - 1;
      ScanTreesHas(root, trees[..last], link, p);
      assert trees == trees[..last] + [trees[last]];
      assert p in ScanTrees(root, trees).Of(link) <==> p in ScanTrees(root, trees[..last]).Of(link) || p in ScanTree(root, trees[last]).Of(link);
    }
  }

  lemma {:induction false} FollowKeepsForm(node: Node)
    requires WellFormed(node) && Follow(node).Some?
    ensures WellFormed(Follow(node).value)
  {
    if node.Link? && node.target.Some? { FollowKeepsForm(node.target.value); }
  }

  lemma {:induction false} AtKeepsForm(node: Node, names: seq<string>)
    requires WellFormed(node) && At(node, names).Some?
    ensures WellFormed(At(node, names).value)
    decreases |names|
  {
    if names != [] {
      FollowKeepsForm(node);
      var here := Follow(node).value;
      var next := Find(here.children, names[0]).value;
      assert Child(names[0], next) in here.children;
      AtKeepsForm(next, names[1..]);
    }
  }
}
