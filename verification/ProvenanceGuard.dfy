/** The provenance guard: the working tree against the manifest, the manifest against the provenance
    record, and the manifest's regeneration from the tree. */
module ProvenanceGuard {
  import opened Options
  import opened FileTree
  import opened Lists
  import opened Ordering
  import opened Text

  /** Where a vendored file comes from. */
  datatype Row = Row(source: string, commit: string)

  datatype Entry = Entry(path: string, sha256: string, row: Row)

  datatype Manifest = Manifest(
      repo: string, snapshot: string, trees: seq<string>, files: seq<string>, entries: seq<Entry>,
      foreignTrees: seq<string>, foreignFiles: seq<string>)
  {
    function Paths(): seq<string> {
      seq(|entries|, i requires 0 <= i < |entries| => entries[i].path)
    }

    predicate Covers(path: string) {
      Within(path, files, trees)
    }

    predicate ForeignCovers(path: string) {
      Within(path, foreignFiles, foreignTrees)
    }
  }

  predicate StartsWith(s: string, prefix: string) {
    |prefix| <= |s| && s[..|prefix|] == prefix
  }

  predicate Within(path: string, files: seq<string>, trees: seq<string>) {
    path in files || exists tree | tree in trees :: StartsWith(path, tree + "/")
  }

  /** The path is one of these files, or stands below one of these trees. */
  ghost predicate Inside(path: string, files: seq<string>, trees: seq<string>) {
    path in files || exists tree, rest :: tree in trees && path == tree + "/" + rest
  }

  /** The manifest guards the path. */
  ghost predicate Guards(manifest: Manifest, path: string) {
    Inside(path, manifest.files, manifest.trees)
  }

  /** The manifest hands the path to the sibling repository. */
  ghost predicate HandsOver(manifest: Manifest, path: string) {
    Inside(path, manifest.foreignFiles, manifest.foreignTrees)
  }

  lemma WithinIsInside(path: string, files: seq<string>, trees: seq<string>)
    ensures Within(path, files, trees) <==> Inside(path, files, trees)
  {
    if tree :| tree in trees && StartsWith(path, tree + "/") {
      assert path == tree + "/" + path[|tree| + 1..];
    }
    if tree, rest :| tree in trees && path == tree + "/" + rest {
      assert StartsWith(path, tree + "/");
    }
  }

  lemma ScopesAre(manifest: Manifest)
    ensures forall path :: manifest.Covers(path) <==> Guards(manifest, path)
    ensures forall path :: manifest.ForeignCovers(path) <==> HandsOver(manifest, path)
  {
    hide Within, Inside;
    forall path ensures manifest.Covers(path) <==> Guards(manifest, path)
                ensures manifest.ForeignCovers(path) <==> HandsOver(manifest, path)
    {
      WithinIsInside(path, manifest.files, manifest.trees);
      WithinIsInside(path, manifest.foreignFiles, manifest.foreignTrees);
    }
  }

  datatype RecordLine = RecordLine(path: string, row: Row)

  /** The provenance record: its rows in document order, and which paths it has transferred. */
  datatype Record = Record(lines: seq<RecordLine>, living: map<string, string>) {
    /** The last row of a path stands. */
    function Rows(): (r: map<string, Row>)
      ensures forall path :: path in r <==> path in Paths()
      decreases |lines|
    {
      if lines == [] then map[]
      else
        var last := |lines| - 1;
        var front := Record(lines[..last], living);
        assert Paths() == front.Paths() + [lines[last].path];
        front.Rows()[lines[last].path := lines[last].row]
    }

    function Paths(): seq<string> {
      seq(|lines|, i requires 0 <= i < |lines| => lines[i].path)
    }
  }

  /** The tree that is guarded, and the hash its bytes are recorded by. */
  datatype World = World(root: Node, hash: string -> string)

  datatype Kind = Modified | Missing | Unlisted | Declaration

  datatype Why =
    | LinkInPlace | Differs | Absent | NotListed | LinkFound
    | RowNotListed | NotARow | RowDiffers | ClaimedTwice | Unclaimed | HeldHere

  datatype Route = Vendored | LivingDocument(transfer: string) | ScopeDeclaration

  datatype Finding = Finding(kind: Kind, path: string, why: Why, route: Route)

  /** `outside` is what the run found on paths that a review scope does not name. */
  datatype Report = Report(checked: nat, findings: seq<Finding>, outside: seq<Finding>) {
    predicate Ok() {
      findings == [] && outside == []
    }
  }

  // ---------------------------------------------------------------- what is a finding

  /** How a finding on this path is to be answered. */
  function Found(living: map<string, string>, kind: Kind, path: string, why: Why): Finding {
    Finding(kind, path, why, if path in living then LivingDocument(living[path]) else Vendored)
  }

  /** A vendored snapshot is a regular file in this tree, never a link to one. */
  predicate IsSnapshot(root: Node, path: string) {
    IsFile(root, path) && !IsLink(root, path)
  }

  function EntryModified(world: World, living: map<string, string>): Entry -> Option<Finding> {
    (e: Entry) =>
      if IsLink(world.root, e.path) then Some(Found(living, Modified, e.path, LinkInPlace))
      else if IsFile(world.root, e.path) && world.hash(BytesAt(world.root, e.path)) != e.sha256
        then Some(Found(living, Modified, e.path, Differs))
      else None
  }

  function EntryMissing(world: World, living: map<string, string>): Entry -> Option<Finding> {
    (e: Entry) =>
      if !IsLink(world.root, e.path) && !IsFile(world.root, e.path) then Some(Found(living, Missing, e.path, Absent))
      else None
  }

  function PathUnlisted(listed: seq<string>, living: map<string, string>, why: Why): string -> Option<Finding> {
    (path: string) => if path in listed then None else Some(Found(living, Unlisted, path, why))
  }

  function ScopeWrong(manifest: Manifest, root: Node): string -> Option<Finding> {
    (path: string) =>
      var here, there := manifest.Covers(path), manifest.ForeignCovers(path);
      if here && there then Some(Finding(Declaration, path, ClaimedTwice, ScopeDeclaration))
      else if !here && !there then Some(Finding(Declaration, path, Unclaimed, ScopeDeclaration))
      else if there && Exists(root, path) then Some(Finding(Declaration, path, HeldHere, ScopeDeclaration))
      else None
  }

  function RowMissing(manifest: Manifest, living: map<string, string>, declared: set<string>): string -> Option<Finding> {
    (path: string) =>
      if manifest.Covers(path) && path !in manifest.Paths() && path !in declared
        then Some(Found(living, Declaration, path, RowNotListed))
      else None
  }

  function RowUnknown(manifest: Manifest, record: Record, declared: set<string>): string -> Option<Finding> {
    (path: string) =>
      if !(path in record.Rows() && manifest.Covers(path)) && path !in declared
        then Some(Found(record.living, Declaration, path, NotARow))
      else None
  }

  function RowChanged(manifest: Manifest, record: Record, declared: set<string>): Entry -> Option<Finding> {
    (e: Entry) =>
      if e.path in record.Rows() && manifest.Covers(e.path) && e.path !in declared && e.row != record.Rows()[e.path]
        then Some(Found(record.living, Declaration, e.path, RowDiffers))
      else None
  }

  /** What a check says of the members of a list, in its order. */
  function Kept<A, B>(xs: seq<A>, check: A -> Option<B>): seq<B> {
    if xs == [] then []
    else
      var last := |xs| - 1;
      Kept(xs[..last], check) + match check(xs[last]) case None => [] case Some(f) => [f]
  }

  lemma {:induction false} KeptHas<A, B>(xs: seq<A>, check: A -> Option<B>, f: B)
    ensures f in Kept(xs, check) <==> exists x | x in xs :: check(x) == Some(f)
  {
    if xs != [] {
      var last := |xs| - 1;
      KeptHas(xs[..last], check, f);
      assert xs == xs[..last] + [xs[last]];
    }
  }

  lemma {:induction false} KeptNone<A, B>(xs: seq<A>, check: A -> Option<B>)
    ensures Kept(xs, check) == [] <==> forall x | x in xs :: check(x).None?
  {
    if xs != [] {
      var last := |xs| - 1;
      KeptNone(xs[..last], check);
      assert xs == xs[..last] + [xs[last]];
    }
  }

  lemma KeptStep<A, B>(xs: seq<A>, check: A -> Option<B>, i: nat)
    requires i < |xs|
    ensures Kept(xs[..i + 1], check) == Kept(xs[..i], check) + match check(xs[i]) case None => [] case Some(f) => [f]
  {
    assert xs[..i + 1][..i] == xs[..i];
  }

  lemma KeptEmpty<A, B>(xs: seq<A>, check: A -> Option<B>)
    ensures Kept(xs[..0], check) == []
  {
  }

  function PathsOf(findings: seq<Finding>): set<string> {
    set f | f in findings :: f.path
  }

  // ---------------------------------------------------------------- the whole verification

  function ScopeProblems(manifest: Manifest, record: Record, root: Node): seq<Finding> {
    Kept(SortedSet(record.Paths()), ScopeWrong(manifest, root))
  }

  function RecordProblems(manifest: Manifest, record: Record, root: Node): seq<Finding> {
    var problems := ScopeProblems(manifest, record, root);
    var declared := PathsOf(problems);
    problems
    + Kept(SortedSet(record.Paths()), RowMissing(manifest, record.living, declared))
    + Kept(SortedSet(manifest.Paths()), RowUnknown(manifest, record, declared))
    + Kept(manifest.entries, RowChanged(manifest, record, declared))
  }

  function TreeProblems(manifest: Manifest, world: World, living: map<string, string>): seq<Finding> {
    var scan := ScanTrees(world.root, manifest.trees);
    Kept(manifest.entries, EntryModified(world, living)) + Kept(manifest.entries, EntryMissing(world, living))
    + Kept(SortedList(scan.files), PathUnlisted(manifest.Paths(), living, NotListed))
    + Kept(SortedList(scan.links), PathUnlisted(manifest.Paths(), living, LinkFound))
  }

  /** What a run finds; nothing comes back when the record holds no rows. */
  function Findings(manifest: Manifest, world: World, record: Option<Record>): Option<seq<Finding>> {
    match record
    case None => Some(TreeProblems(manifest, world, map[]))
    case Some(r) =>
      if r.lines == [] then None
      else Some(TreeProblems(manifest, world, r.living) + RecordProblems(manifest, r, world.root))
  }

  /** How many entries are hashed. */
  function Hashed(root: Node, entries: seq<Entry>): nat {
    if entries == [] then 0
    else
      var last := |entries| - 1;
      Hashed(root, entries[..last]) + if IsSnapshot(root, entries[last].path) then 1 else 0
  }

  // ---------------------------------------------------------------- the operations

  method CheckDeclaredScopes(manifest: Manifest, record: Record, root: Node) returns (problems: seq<Finding>)
    ensures problems == ScopeProblems(manifest, record, root)
  {
    problems := [];
    var paths := SortedSet(record.Paths());
    ghost var check := ScopeWrong(manifest, root);
    for i := 0 to |paths|
      invariant problems == Kept(paths[..i], check)
    {
      KeptStep(paths, check, i);
      var path := paths[i];
      var here, there := manifest.Covers(path), manifest.ForeignCovers(path);
      if here && there {
        problems := problems + [Finding(Declaration, path, ClaimedTwice, ScopeDeclaration)];
      } else if !here && !there {
        problems := problems + [Finding(Declaration, path, Unclaimed, ScopeDeclaration)];
      } else if there && Exists(root, path) {
        problems := problems + [Finding(Declaration, path, HeldHere, ScopeDeclaration)];
      }
    }
    assert paths[..|paths|] == paths;
  }

  method CrossCheckProvenance(manifest: Manifest, record: Record, root: Node) returns (problems: seq<Finding>)
    ensures problems == RecordProblems(manifest, record, root)
  {
    hide Within, Found, PathsOf, Kept, SortedSet;
    problems := CheckDeclaredScopes(manifest, record, root);
    ghost var scopes := problems;
    var declared := PathsOf(problems);
    var rows := record.Rows();

    var rowPaths := SortedSet(record.Paths());
    ghost var missing := RowMissing(manifest, record.living, declared);
    KeptEmpty(rowPaths, missing);
    for i := 0 to |rowPaths|
      invariant problems == scopes + Kept(rowPaths[..i], missing)
    {
      KeptStep(rowPaths, missing, i);
      var path := rowPaths[i];
      if manifest.Covers(path) && path !in manifest.Paths() && path !in declared {
        problems := problems + [Found(record.living, Declaration, path, RowNotListed)];
      }
    }
    assert rowPaths[..|rowPaths|] == rowPaths;

    ghost var soFar := problems;
    var listed := SortedSet(manifest.Paths());
    ghost var unknown := RowUnknown(manifest, record, declared);
    KeptEmpty(listed, unknown);
    for i := 0 to |listed|
      invariant problems == soFar + Kept(listed[..i], unknown)
    {
      KeptStep(listed, unknown, i);
      var path := listed[i];
      if !(path in rows && manifest.Covers(path)) && path !in declared {
        problems := problems + [Found(record.living, Declaration, path, NotARow)];
      }
    }
    assert listed[..|listed|] == listed;

    soFar := problems;
    ghost var changed := RowChanged(manifest, record, declared);
    KeptEmpty(manifest.entries, changed);
    for i := 0 to |manifest.entries|
      invariant problems == soFar + Kept(manifest.entries[..i], changed)
    {
      KeptStep(manifest.entries, changed, i);
      var e := manifest.entries[i];
      if e.path in rows && manifest.Covers(e.path) && e.path !in declared && e.row != rows[e.path] {
        problems := problems + [Found(record.living, Declaration, e.path, RowDiffers)];
      }
    }
    assert manifest.entries[..|manifest.entries|] == manifest.entries;
  }

  method Verify(manifest: Manifest, world: World, record: Option<Record>) returns (report: Option<Report>)
    ensures report.None? <==> Findings(manifest, world, record).None?
    ensures report.Some? ==> Findings(manifest, world, record) == Some(report.value.findings)
    ensures report.Some? ==> report.value.outside == [] && report.value.checked == Hashed(world.root, manifest.entries)
  {
    var living := if record.Some? then record.value.living else map[];
    var checked := 0;
    var modified: seq<Finding>, missing: seq<Finding> := [], [];
    ghost var isModified, isMissing := EntryModified(world, living), EntryMissing(world, living);
    for i := 0 to |manifest.entries|
      invariant modified == Kept(manifest.entries[..i], isModified)
      invariant missing == Kept(manifest.entries[..i], isMissing)
      invariant checked == Hashed(world.root, manifest.entries[..i])
    {
      KeptStep(manifest.entries, isModified, i);
      KeptStep(manifest.entries, isMissing, i);
      assert manifest.entries[..i + 1][..i] == manifest.entries[..i];
      var e := manifest.entries[i];
      if IsLink(world.root, e.path) {
        modified := modified + [Found(living, Modified, e.path, LinkInPlace)];
      } else if !IsFile(world.root, e.path) {
        missing := missing + [Found(living, Missing, e.path, Absent)];
      } else {
        checked := checked + 1;
        if world.hash(BytesAt(world.root, e.path)) != e.sha256 {
          modified := modified + [Found(living, Modified, e.path, Differs)];
        }
      }
    }
    assert manifest.entries[..|manifest.entries|] == manifest.entries;

    var listed := manifest.Paths();
    var scan := ScanGuardedTrees(world.root, manifest.trees);
    var files := FindUnlisted(scan.files, listed, living, NotListed);
    var links := FindUnlisted(scan.links, listed, living, LinkFound);
    var findings := modified + missing + files + links;
    match record {
      case None =>
        report := Some(Report(checked, findings, []));
      case Some(r) =>
        if r.lines == [] {
          return None;
        }
        var mismatch := CrossCheckProvenance(manifest, r, world.root);
        report := Some(Report(checked, findings + mismatch, []));
    }
  }

  method FindUnlisted(paths: seq<string>, listed: seq<string>, living: map<string, string>, why: Why)
    returns (unlisted: seq<Finding>)
    ensures unlisted == Kept(paths, PathUnlisted(listed, living, why))
  {
    unlisted := [];
    ghost var check := PathUnlisted(listed, living, why);
    for i := 0 to |paths|
      invariant unlisted == Kept(paths[..i], check)
    {
      KeptStep(paths, check, i);
      if paths[i] !in listed {
        unlisted := unlisted + [Found(living, Unlisted, paths[i], why)];
      }
    }
    assert paths[..|paths|] == paths;
  }

  // ---------------------------------------------------------------- what a clean run means

  /** The recorded bytes are a file in this tree. */
  predicate Intact(world: World, e: Entry) {
    IsSnapshot(world.root, e.path) && world.hash(BytesAt(world.root, e.path)) == e.sha256
  }

  ghost predicate EntriesIntact(manifest: Manifest, world: World) {
    forall e | e in manifest.entries :: Intact(world, e)
  }

  /** Below this guarded tree there is nothing but listed files. */
  ghost predicate OnlyListed(manifest: Manifest, root: Node, tree: string) {
    && !IsLink(root, tree)
    && forall children, names | NodeAt(root, tree) == Some(Dir(children)) ::
         && (Reported(false, tree, children, names) ==> Under(tree, names) in manifest.Paths())
         && !Reported(true, tree, children, names)
  }

  ghost predicate TreeIsSound(manifest: Manifest, world: World) {
    && EntriesIntact(manifest, world)
    && (forall tree | tree in manifest.trees :: OnlyListed(manifest, world.root, tree))
  }

  lemma PathsHas(manifest: Manifest, path: string)
    ensures path in manifest.Paths() <==> exists e | e in manifest.entries :: e.path == path
  {
    if path in manifest.Paths() {
      var i :| 0 <= i < |manifest.Paths()| && manifest.Paths()[i] == path;
      assert manifest.entries[i] in manifest.entries && manifest.entries[i].path == path;
    }
    if e :| e in manifest.entries && e.path == path {
      var i :| 0 <= i < |manifest.entries| && manifest.entries[i] == e;
      assert manifest.Paths()[i] == path;
    }
  }

  lemma EntriesAreFine(manifest: Manifest, world: World, living: map<string, string>)
    ensures Kept(manifest.entries, EntryModified(world, living)) + Kept(manifest.entries, EntryMissing(world, living)) == [] <==> EntriesIntact(manifest, world)
  {
    hide IsLink, IsFile, BytesAt;
    var isModified, isMissing := EntryModified(world, living), EntryMissing(world, living);
    KeptNone(manifest.entries, isModified);
    KeptNone(manifest.entries, isMissing);
    assert forall e :: isModified(e).None? && isMissing(e).None? <==> Intact(world, e);
  }

  ghost predicate Scanned(root: Node, tree: string, link: bool, p: string) {
    || (link && IsLink(root, tree) && p == tree)
    || exists children, names | NodeAt(root, tree) == Some(Dir(children)) :: Reported(link, tree, children, names) && p == Under(tree, names)
  }

  /** What a scan reports in one tree, told by names. */
  lemma ScanTreeIs(root: Node, tree: string, link: bool, p: string)
    requires WellFormed(root)
    ensures p in ScanTree(root, tree).Of(link) <==> Scanned(root, tree, link, p)
  {
    hide Reported, Under, IgnoredDir, NodeAt;
    var node := NodeAt(root, tree);
    if node.Some? && node.value.Dir? {
      var children := node.value.children;
      TreesKeepForm(root, tree);
      if p in Walk(tree, children).Of(link) {
        assert Scan([], []).Of(link) == [];
        var names := WalkFindsOnly(link, tree, children, p);
      }
      forall names | Reported(link, tree, children, names) && p == Under(tree, names) ensures p in Walk(tree, children).Of(link) {
        WalkFinds(link, tree, children, names);
        ReportedIsVisible(link, tree, children, names);
      }
    }
  }

  lemma ReportedIsVisible(link: bool, path: string, children: seq<Child>, names: seq<string>)
    requires Reported(link, path, children, names)
    ensures names != [] && !IgnoredDir(path) && RealAt(Dir(children), names).Some?
    ensures link ==> RealAt(Dir(children), names).value.Link?
    ensures !link ==> RealAt(Dir(children), names).value.File?
  {
  }

  lemma TreesKeepForm(root: Node, tree: string)
    requires WellFormed(root) && NodeAt(root, tree).Some?
    ensures WellFormed(NodeAt(root, tree).value)
  {
    AtKeepsForm(root, Split(tree, '/'));
  }

  lemma ScannedIs(root: Node, tree: string, link: bool, p: string)
    requires WellFormed(root) && Scanned(root, tree, link, p)
    ensures if link then IsLink(root, p) else IsSnapshot(root, p)
  {
    hide Under, Reported;
    if !(link && IsLink(root, tree) && p == tree) {
      var children, names :| NodeAt(root, tree) == Some(Dir(children)) && Reported(link, tree, children, names) && p == Under(tree, names);
      TreesKeepForm(root, tree);
      ReportedIsVisible(link, tree, children, names);
      NodeUnder(root, tree, children, names);
    }
  }

  /** The findings on the tree are none exactly when the tree is what the manifest says. */
  lemma TreeIsClean(manifest: Manifest, world: World, living: map<string, string>)
    requires WellFormed(world.root)
    ensures TreeProblems(manifest, world, living) == [] <==> TreeIsSound(manifest, world)
  {
    hide Scanned, Kept, ScanTrees, OnlyListed, Intact, EntryModified, EntryMissing;
    var listed := manifest.Paths();
    var scan := ScanTrees(world.root, manifest.trees);
    EntriesAreFine(manifest, world, living);
    KeptNone(SortedList(scan.files), PathUnlisted(listed, living, NotListed));
    KeptNone(SortedList(scan.links), PathUnlisted(listed, living, LinkFound));
    if TreeProblems(manifest, world, living) == [] {
      forall tree | tree in manifest.trees ensures OnlyListed(manifest, world.root, tree) {
        forall link, p | Scanned(world.root, tree, link, p) ensures p in listed {
          ScanTreeIs(world.root, tree, link, p);
          ScanTreesHas(world.root, manifest.trees, link, p);
          SortedListHas(scan.Of(link), p);
        }
        ListedMeansSound(manifest, world, tree);
      }
    }
    if TreeIsSound(manifest, world) {
      forall link, p | p in SortedList(scan.Of(link)) ensures p in listed {
        SortedListHas(scan.Of(link), p);
        ScanTreesHas(world.root, manifest.trees, link, p);
        var tree :| tree in manifest.trees && p in ScanTree(world.root, tree).Of(link);
        ScanTreeIs(world.root, tree, link, p);
        SoundMeansListed(manifest, world.root, tree, link, p);
      }
      assert forall p | p in SortedList(scan.Of(true)) :: p in listed;
      assert forall p | p in SortedList(scan.Of(false)) :: p in listed;
    }
  }

  lemma SoundMeansListed(manifest: Manifest, root: Node, tree: string, link: bool, p: string)
    requires OnlyListed(manifest, root, tree) && Scanned(root, tree, link, p)
    ensures p in manifest.Paths()
  {
    hide Under, Reported;
  }

  lemma ListedMeansSound(manifest: Manifest, world: World, tree: string)
    requires WellFormed(world.root) && EntriesIntact(manifest, world)
    requires forall link, p | Scanned(world.root, tree, link, p) :: p in manifest.Paths()
    ensures OnlyListed(manifest, world.root, tree)
  {
    hide Under, Reported, NodeAt, IsLink, IsFile, BytesAt;
    var root := world.root;
    forall p | Scanned(root, tree, true, p) ensures false {
      ScannedIs(root, tree, true, p);
      PathsHas(manifest, p);
    }
    assert Scanned(root, tree, true, tree) <== IsLink(root, tree);
    forall children, names | NodeAt(root, tree) == Some(Dir(children))
      ensures Reported(false, tree, children, names) ==> Under(tree, names) in manifest.Paths()
      ensures !Reported(true, tree, children, names)
    {
      assert Reported(false, tree, children, names) ==> Scanned(root, tree, false, Under(tree, names));
      assert Reported(true, tree, children, names) ==> Scanned(root, tree, true, Under(tree, names));
    }
  }

  // ---------------------------------------------------------------- the record

  /** Every row is claimed by exactly one scope, and held by nobody else than its claimant. */
  ghost predicate ClaimedOnce(manifest: Manifest, record: Record, root: Node) {
    forall path | path in record.Rows() ::
      Guards(manifest, path) != HandsOver(manifest, path) && (HandsOver(manifest, path) ==> !Exists(root, path))
  }

  lemma ScopesAreFine(manifest: Manifest, record: Record, root: Node)
    ensures ScopeProblems(manifest, record, root) == [] <==> ClaimedOnce(manifest, record, root)
  {
    hide Within, Inside, Exists, Kept;
    ScopesAre(manifest);
    hide Manifest.Covers, Manifest.ForeignCovers, Guards, HandsOver;
    var check := ScopeWrong(manifest, root);
    KeptNone(SortedSet(record.Paths()), check);
    assert forall path :: path in SortedSet(record.Paths()) <==> path in record.Rows();
  }

  /** The rows claimed here are the listed ones, with the recorded source and commit. */
  ghost predicate RowsMirrored(manifest: Manifest, record: Record) {
    && (forall path | path in record.Rows() && Guards(manifest, path) :: path in manifest.Paths())
    && (forall e | e in manifest.entries :: EntryMirrored(manifest, record, e))
  }

  ghost predicate EntryMirrored(manifest: Manifest, record: Record, e: Entry) {
    e.path in record.Rows() && Guards(manifest, e.path) && e.row == record.Rows()[e.path]
  }

  lemma MissingRows(manifest: Manifest, record: Record)
    ensures Kept(SortedSet(record.Paths()), RowMissing(manifest, record.living, {})) == [] <==>
            forall path | path in record.Rows() && Guards(manifest, path) :: path in manifest.Paths()
  {
    hide Within, Inside, Kept;
    ScopesAre(manifest);
    hide Manifest.Covers, Guards;
    var check := RowMissing(manifest, record.living, {});
    KeptNone(SortedSet(record.Paths()), check);
    assert forall path :: path in SortedSet(record.Paths()) <==> path in record.Rows();
  }

  lemma EntryRows(manifest: Manifest, record: Record)
    ensures (&& Kept(SortedSet(manifest.Paths()), RowUnknown(manifest, record, {})) == []
             && Kept(manifest.entries, RowChanged(manifest, record, {})) == []) <==>
            forall e | e in manifest.entries :: EntryMirrored(manifest, record, e)
  {
    hide Within, Inside, Kept;
    ScopesAre(manifest);
    hide Manifest.Covers, Guards;
    var unknown, changed := RowUnknown(manifest, record, {}), RowChanged(manifest, record, {});
    KeptNone(SortedSet(manifest.Paths()), unknown);
    KeptNone(manifest.entries, changed);
    forall e | e in manifest.entries
      ensures e.path in SortedSet(manifest.Paths())
      ensures EntryMirrored(manifest, record, e) <==> unknown(e.path).None? && changed(e).None?
    {
      PathsHas(manifest, e.path);
    }
    forall path | path in SortedSet(manifest.Paths()) && unknown(path).Some?
      ensures exists e | e in manifest.entries :: !EntryMirrored(manifest, record, e)
    {
      PathsHas(manifest, path);
      var e :| e in manifest.entries && e.path == path;
      assert !EntryMirrored(manifest, record, e);
    }
  }

  /** The findings on the record are none exactly when the manifest mirrors it. */
  lemma RecordIsClean(manifest: Manifest, record: Record, root: Node)
    ensures RecordProblems(manifest, record, root) == [] <==> ClaimedOnce(manifest, record, root) && RowsMirrored(manifest, record)
  {
    hide ClaimedOnce, Kept, SortedSet, RowMissing, RowUnknown, RowChanged;
    ScopesAreFine(manifest, record, root);
    if ScopeProblems(manifest, record, root) == [] {
      assert PathsOf([]) == {};
      MissingRows(manifest, record);
      EntryRows(manifest, record);
    }
  }

  /** A path whose declaration is wrong has no other finding from the record than that. */
  lemma WrongDeclarationIsToldOnce(manifest: Manifest, record: Record, root: Node, f: Finding, g: Finding)
    requires f in ScopeProblems(manifest, record, root) && g in RecordProblems(manifest, record, root) && f.path == g.path
    ensures f == g
  {
    hide Within, Exists, Kept, SortedSet, Record.Rows;
    var declared := PathsOf(ScopeProblems(manifest, record, root));
    KeptHas(SortedSet(record.Paths()), ScopeWrong(manifest, root), f);
    KeptHas(SortedSet(record.Paths()), ScopeWrong(manifest, root), g);
    KeptHas(SortedSet(record.Paths()), RowMissing(manifest, record.living, declared), g);
    KeptHas(SortedSet(manifest.Paths()), RowUnknown(manifest, record, declared), g);
    KeptHas(manifest.entries, RowChanged(manifest, record, declared), g);
  }

  /** A run with the record finds nothing exactly when the tree is what the manifest says and the
      manifest mirrors its share of the record. */
  lemma CleanRunIsSound(manifest: Manifest, world: World, record: Record)
    requires WellFormed(world.root) && record.lines != []
    ensures Findings(manifest, world, Some(record)) == Some([]) <==>
            TreeIsSound(manifest, world) && ClaimedOnce(manifest, record, world.root) && RowsMirrored(manifest, record)
  {
    hide TreeProblems, RecordProblems, TreeIsSound, ClaimedOnce, RowsMirrored;
    TreeIsClean(manifest, world, record.living);
    RecordIsClean(manifest, record, world.root);
    var tree, rows := TreeProblems(manifest, world, record.living), RecordProblems(manifest, record, world.root);
    assert tree + rows == [] <==> tree == [] && rows == [];
  }

  lemma RecordHasLines(record: Record, path: string)
    requires path in record.Rows()
    ensures record.lines != []
  {
  }

  /** A row that a clean run covers is a file of this tree with the recorded bytes, source and commit. */
  lemma RowsAreHeld(manifest: Manifest, world: World, record: Record, path: string) returns (e: Entry)
    requires WellFormed(world.root) && Findings(manifest, world, Some(record)) == Some([])
    requires path in record.Rows() && !HandsOver(manifest, path)
    ensures e in manifest.entries && e.path == path && Intact(world, e) && e.row == record.Rows()[path]
  {
    hide Findings, Intact, OnlyListed, Guards, HandsOver, Record.Rows, WellFormed;
    assert record.lines != [] by { RecordHasLines(record, path); }
    CleanRunIsSound(manifest, world, record);
    PathsHas(manifest, path);
    assert Guards(manifest, path);
    e :| e in manifest.entries && e.path == path;
  }

  /** In a clean run no listed file below a guarded tree is reached through a link: outside the
      ignored directories, real directories of the tree lead to the recorded bytes. */
  lemma ListedFilesAreReal(manifest: Manifest, world: World, tree: string, rest: string, e: Entry) returns (children: seq<Child>)
    requires WellFormed(world.root) && TreeIsSound(manifest, world)
    requires tree in manifest.trees && e in manifest.entries && e.path == tree + "/" + rest
    requires Visible(tree, Split(rest, '/'))
    ensures NodeAt(world.root, tree) == Some(Dir(children))
    ensures RealAt(Dir(children), Split(rest, '/')).Some?
    ensures var node := RealAt(Dir(children), Split(rest, '/')).value; node.File? && world.hash(node.bytes) == e.sha256
  {
    hide Visible, IgnoredDir;
    var root, names := world.root, Split(rest, '/');
    SplitAtAny(tree, rest, '/');
    AtThrough(root, Split(tree, '/'), names);
    assert Intact(world, e) && OnlyListed(manifest, root, tree);
    children := NodeAt(root, tree).value.children;
    if RealAt(Dir(children), names).None? {
      var k := LinkIsReported(tree, children, names);
    }
    RealIsAt(Dir(children), names);
  }

  lemma LinkIsReported(tree: string, children: seq<Child>, names: seq<string>) returns (k: nat)
    requires Visible(tree, names) && At(Dir(children), names).Some? && RealAt(Dir(children), names).None?
    ensures k <= |names| && Reported(true, tree, children, names[..k])
  {
    k := LinkOnTheWay(Dir(children), names);
  }

  // ---------------------------------------------------------------- regenerating the manifest

  const UNRECORDED: Row := Row("UNRECORDED", "UNRECORDED")

  /** The last entry of a path stands. */
  function Latest(entries: seq<Entry>, path: string): (r: Option<Entry>)
    ensures r.Some? ==> r.value in entries && r.value.path == path
    ensures r.None? ==> forall e | e in entries :: e.path != path
  {
    if entries == [] then None
    else
      var last := |entries| - 1;
      assert entries == entries[..last] + [entries[last]];
      if entries[last].path == path then Some(entries[last]) else Latest(entries[..last], path)
  }

  function Refresh(manifest: Manifest, world: World): string -> Option<Entry> {
    (path: string) =>
      if !IsSnapshot(world.root, path) then None
      else
        var previous := Latest(manifest.entries, path);
        Some(Entry(path, world.hash(BytesAt(world.root, path)), if previous.Some? then previous.value.row else UNRECORDED))
  }

  function Present(manifest: Manifest, world: World): seq<string> {
    SortedSet(manifest.Paths() + SortedList(ScanTrees(world.root, manifest.trees).files))
  }

  function Regenerated(manifest: Manifest, world: World): Manifest {
    manifest.(entries := Kept(Present(manifest, world), Refresh(manifest, world)))
  }

  method Regenerate(manifest: Manifest, world: World) returns (refreshed: Manifest)
    ensures refreshed == Regenerated(manifest, world)
  {
    var scan := ScanGuardedTrees(world.root, manifest.trees);
    var present := SortedSet(manifest.Paths() + scan.files);
    var entries: seq<Entry> := [];
    ghost var refresh := Refresh(manifest, world);
    for i := 0 to |present|
      invariant entries == Kept(present[..i], refresh)
    {
      KeptStep(present, refresh, i);
      var path := present[i];
      if IsSnapshot(world.root, path) {
        var previous := Latest(manifest.entries, path);
        var row := if previous.Some? then previous.value.row else UNRECORDED;
        entries := entries + [Entry(path, world.hash(BytesAt(world.root, path)), row)];
      }
    }
    assert present[..|present|] == present;
    refreshed := Manifest(manifest.repo, manifest.snapshot, manifest.trees, manifest.files, entries,
                          manifest.foreignTrees, manifest.foreignFiles);
  }

  method DroppedPaths(manifest: Manifest, root: Node) returns (dropped: seq<string>)
    ensures dropped == Kept(manifest.entries, Dropped(root))
  {
    dropped := [];
    ghost var check := Dropped(root);
    for i := 0 to |manifest.entries|
      invariant dropped == Kept(manifest.entries[..i], check)
    {
      KeptStep(manifest.entries, check, i);
      if !IsSnapshot(root, manifest.entries[i].path) {
        dropped := dropped + [manifest.entries[i].path];
      }
    }
    assert manifest.entries[..|manifest.entries|] == manifest.entries;
  }

  function Dropped(root: Node): Entry -> Option<string> {
    (e: Entry) => if IsSnapshot(root, e.path) then None else Some(e.path)
  }

  /** The refreshed entries: the files that were listed or stand in a guarded tree, each hashed now,
      with the source and commit it had. */
  lemma RegeneratedHas(manifest: Manifest, world: World, e: Entry)
    ensures e in Regenerated(manifest, world).entries <==>
            (e.path in manifest.Paths() || e.path in ScanTrees(world.root, manifest.trees).files) && Refresh(manifest, world)(e.path) == Some(e)
  {
    hide IsLink, IsFile, Exists, BytesAt, SortedList;
    KeptHas(Present(manifest, world), Refresh(manifest, world), e);
    SortedListHas(ScanTrees(world.root, manifest.trees).files, e.path);
    assert forall path :: Refresh(manifest, world)(path).Some? ==> Refresh(manifest, world)(path).value.path == path;
  }

  /** A listed path is gone from the regenerated manifest exactly when it is one of the dropped ones. */
  lemma DropsExactlyDropped(manifest: Manifest, world: World, path: string)
    requires path in manifest.Paths()
    ensures path !in Regenerated(manifest, world).Paths() <==> path in Kept(manifest.entries, Dropped(world.root))
  {
    hide IsLink, IsFile, Exists, BytesAt, Regenerated;
    KeptHas(manifest.entries, Dropped(world.root), path);
    PathsHas(manifest, path);
    PathsHas(Regenerated(manifest, world), path);
    var refresh := Refresh(manifest, world);
    if IsSnapshot(world.root, path) {
      RegeneratedHas(manifest, world, refresh(path).value);
    }
    forall e | e in Regenerated(manifest, world).entries && e.path == path ensures IsSnapshot(world.root, path) {
      RegeneratedHas(manifest, world, e);
    }
  }

  ghost predicate DistinctPaths(entries: seq<Entry>) {
    forall i, j | 0 <= i < j < |entries| :: entries[i].path != entries[j].path
  }

  lemma {:induction false} KeptIsSorted(manifest: Manifest, world: World, paths: seq<string>)
    requires StrictlySorted(paths)
    ensures var m := manifest.(entries := Kept(paths, Refresh(manifest, world)));
            StrictlySorted(m.Paths()) && forall p | p in m.Paths() :: p in paths
  {
    hide IsSnapshot, BytesAt, Latest;
    if paths != [] {
      var last := |paths| - 1;
      KeptIsSorted(manifest, world, paths[..last]);
      var front := manifest.(entries := Kept(paths[..last], Refresh(manifest, world)));
      var m := manifest.(entries := Kept(paths, Refresh(manifest, world)));
      forall p | p in front.Paths() ensures Before(p, paths[last]) {
        assert p in paths[..last];
      }
      if Refresh(manifest, world)(paths[last]).Some? {
        assert m.Paths() == front.Paths() + [paths[last]];
      } else {
        assert m.Paths() == front.Paths();
      }
    }
  }

  lemma {:induction false} LatestOfSorted(entries: seq<Entry>, i: nat)
    requires i < |entries| && DistinctPaths(entries)
    ensures Latest(entries, entries[i].path) == Some(entries[i])
  {
    var last := |entries| - 1;
    if i < last {
      LatestOfSorted(entries[..last], i);
    }
  }

  lemma SortedIsDistinct(manifest: Manifest)
    requires StrictlySorted(manifest.Paths())
    ensures DistinctPaths(manifest.entries)
  {
    forall i, j | 0 <= i < j < |manifest.entries| ensures manifest.entries[i].path != manifest.entries[j].path {
      NotBeforeItself(manifest.Paths()[i]);
      assert Before(manifest.Paths()[i], manifest.Paths()[j]);
    }
  }

  lemma {:induction false} KeptAll<A, B>(xs: seq<A>, check: A -> Option<B>, ys: seq<B>)
    requires |xs| == |ys| && forall i | 0 <= i < |xs| :: check(xs[i]) == Some(ys[i])
    ensures Kept(xs, check) == ys
  {
    if xs != [] {
      var last := |xs| - 1;
      KeptAll(xs[..last], check, ys[..last]);
      assert ys == ys[..last] + [ys[last]];
    }
  }

  /** The files of the guarded trees are all listed after a regeneration. */
  lemma FilesAreListed(manifest: Manifest, world: World, path: string)
    requires WellFormed(world.root) && path in ScanTrees(world.root, manifest.trees).files
    ensures IsSnapshot(world.root, path) && path in Regenerated(manifest, world).Paths()
  {
    hide IsSnapshot, BytesAt, Regenerated, ScanTree, Scanned, Scan.Of;
    var root := world.root;
    assert ScanTrees(root, manifest.trees).Of(false) == ScanTrees(root, manifest.trees).files by { FilesOf(ScanTrees(root, manifest.trees)); }
    ScanTreesHas(root, manifest.trees, false, path);
    var tree :| tree in manifest.trees && path in ScanTree(root, tree).Of(false);
    ScanTreeIs(root, tree, false, path);
    ScannedIs(root, tree, false, path);
    RegeneratedHas(manifest, world, Refresh(manifest, world)(path).value);
    PathsHas(Regenerated(manifest, world), path);
  }

  lemma FilesOf(scan: Scan)
    ensures scan.Of(false) == scan.files && scan.Of(true) == scan.links
  {
  }

  /** A refreshed entry is a file with its hash. */
  lemma RefreshedIsIntact(manifest: Manifest, world: World, e: Entry)
    requires e in Regenerated(manifest, world).entries
    ensures Intact(world, e)
  {
    hide IsSnapshot, BytesAt, Regenerated;
    RegeneratedHas(manifest, world, e);
  }

  /** Regenerating twice changes nothing more. */
  lemma RegenerateIsIdempotent(manifest: Manifest, world: World)
    requires WellFormed(world.root)
    ensures Regenerated(Regenerated(manifest, world), world) == Regenerated(manifest, world)
  {
    hide IsSnapshot, BytesAt, ScanTrees, SortedList, Latest, SortedSet, Kept, StrictlySorted, DistinctPaths;
    var once := Regenerated(manifest, world);
    var scan := ScanTrees(world.root, manifest.trees);
    SortedSetIsSorted(manifest.Paths() + SortedList(scan.files));
    KeptIsSorted(manifest, world, Present(manifest, world));
    SortedIsDistinct(once);
    forall p ensures p in Present(once, world) <==> p in once.Paths() {
      SortedListHas(scan.files, p);
      if p in scan.files {
        FilesAreListed(manifest, world, p);
      }
    }
    SortedSetIsSorted(once.Paths() + SortedList(scan.files));
    SortedLinesAreUnique(Present(once, world), once.Paths());
    forall i | 0 <= i < |once.entries| ensures Refresh(once, world)(once.Paths()[i]) == Some(once.entries[i]) {
      LatestOfSorted(once.entries, i);
      RegeneratedHas(manifest, world, once.entries[i]);
    }
    KeptAll(once.Paths(), Refresh(once, world), once.entries);
  }

  function LinkFindings(links: seq<string>): seq<Finding> {
    seq(|links|, i requires 0 <= i < |links| => Finding(Unlisted, links[i], LinkFound, Vendored))
  }

  /** After a regeneration a run without the record finds the links of the guarded trees, and
      nothing else. */
  lemma RegeneratedLeavesLinks(manifest: Manifest, world: World)
    requires WellFormed(world.root)
    ensures Findings(Regenerated(manifest, world), world, None)
         == Some(LinkFindings(SortedList(ScanTrees(world.root, manifest.trees).links)))
  {
    hide IsSnapshot, BytesAt, ScanTrees, SortedList, Regenerated, Kept, EntryModified, EntryMissing, Intact;
    var once := Regenerated(manifest, world);
    var scan := ScanTrees(world.root, manifest.trees);
    assert once.trees == manifest.trees by { TreesStay(manifest, world); }
    forall e | e in once.entries ensures Intact(world, e) {
      RefreshedIsIntact(manifest, world, e);
    }
    EntriesAreFine(once, world, map[]);
    forall p | p in SortedList(scan.files) ensures p in once.Paths() {
      SortedListHas(scan.files, p);
      FilesAreListed(manifest, world, p);
    }
    KeptNone(SortedList(scan.files), PathUnlisted(once.Paths(), map[], NotListed));
    var links := SortedList(scan.links);
    forall p | p in links ensures p !in once.Paths() {
      SortedListHas(scan.links, p);
      LinksAreNotListed(manifest, world, p);
    }
    KeptAll(links, PathUnlisted(once.Paths(), map[], LinkFound), LinkFindings(links));
    var entries := Kept(once.entries, EntryModified(world, map[])) + Kept(once.entries, EntryMissing(world, map[]));
    assert entries == [];
    assert entries + [] + LinkFindings(links) == LinkFindings(links);
    assert TreeProblems(once, world, map[]) == LinkFindings(links);
  }

  lemma TreesStay(manifest: Manifest, world: World)
    ensures Regenerated(manifest, world).trees == manifest.trees
  {
  }

  lemma LinksAreNotListed(manifest: Manifest, world: World, path: string)
    requires WellFormed(world.root) && path in ScanTrees(world.root, manifest.trees).links
    ensures path !in Regenerated(manifest, world).Paths()
  {
    hide BytesAt, Regenerated, ScanTree, Scanned, Scan.Of, IsLink, IsFile;
    var root := world.root;
    assert ScanTrees(root, manifest.trees).Of(true) == ScanTrees(root, manifest.trees).links by { FilesOf(ScanTrees(root, manifest.trees)); }
    ScanTreesHas(root, manifest.trees, true, path);
    var tree :| tree in manifest.trees && path in ScanTree(root, tree).Of(true);
    ScanTreeIs(root, tree, true, path);
    ScannedIs(root, tree, true, path);
    PathsHas(Regenerated(manifest, world), path);
    forall e | e in Regenerated(manifest, world).entries ensures e.path != path {
      RefreshedIsIntact(manifest, world, e);
    }
  }

  // ---------------------------------------------------------------- review scopes

  datatype Scoped = Scoped(report: Report, inScope: seq<string>, outOfScope: seq<string>)

  /** Only what is listed is narrowed. */
  function ScopeReport(report: Report, manifest: Manifest, selected: seq<string>): Scoped {
    var inScope := Keep(selected, path => manifest.Covers(path));
    Scoped(
      Report(report.checked,
             Keep(report.findings, (f: Finding) => f.path in inScope),
             Keep(report.findings, (f: Finding) => f.path !in inScope)),
      inScope,
      Keep(selected, path => path !in inScope))
  }

  /** The selected paths are split by whether they are guarded, each kept. */
  lemma ScopeSplitsTheSelection(report: Report, manifest: Manifest, selected: seq<string>)
    ensures var scoped := ScopeReport(report, manifest, selected);
      && scoped.report.checked == report.checked
      && multiset(scoped.inScope) + multiset(scoped.outOfScope) == multiset(selected)
      && (forall p :: p in scoped.inScope <==> p in selected && Guards(manifest, p))
      && (forall p :: p in scoped.outOfScope <==> p in selected && !Guards(manifest, p))
  {
    hide Manifest.Covers, Guards;
    assert forall path :: manifest.Covers(path) <==> Guards(manifest, path) by { ScopesAre(manifest); }
    var covered, other := (path: string) => manifest.Covers(path), (path: string) => !manifest.Covers(path);
    KeepSplits(selected, covered, other);
    var inScope := Keep(selected, path => manifest.Covers(path));
    KeepAlike(selected, path => manifest.Covers(path), covered);
    KeepAlike(selected, path => path !in inScope, other);
  }

  /** A scope splits the findings without loss or repetition, by path, and the verdict is that of the
      run it was given: the whole one, as long as the report was not narrowed before. */
  lemma ScopeKeepsTheVerdict(report: Report, manifest: Manifest, selected: seq<string>)
    ensures var scoped := ScopeReport(report, manifest, selected).report;
      && multiset(scoped.findings) + multiset(scoped.outside) == multiset(report.findings)
      && (forall f | f in scoped.findings :: f.path in selected && Guards(manifest, f.path))
      && (forall f | f in scoped.outside :: !(f.path in selected && Guards(manifest, f.path)))
      && (scoped.Ok() <==> report.findings == [])
      && ((scoped.Ok() <==> report.Ok()) <==> report.findings != [] || report.outside == [])
  {
    hide Manifest.Covers, Guards;
    assert forall path :: manifest.Covers(path) <==> Guards(manifest, path) by { ScopesAre(manifest); }
    var inScope := Keep(selected, path => manifest.Covers(path));
    KeepSplits(report.findings, (f: Finding) => f.path in inScope, (f: Finding) => f.path !in inScope);
    var scoped := ScopeReport(report, manifest, selected).report;
    assert scoped.Ok() <==> |scoped.findings| + |scoped.outside| == 0;
  }

  /** A whole run that found something is still refused by its first scope, whatever that lists; a
      second scope refuses it exactly when the first one lists a finding. */
  lemma SecondScopeSeesTheListed(report: Report, manifest: Manifest, first: seq<string>, second: seq<string>)
    requires report.outside == []
    ensures var once := ScopeReport(report, manifest, first).report;
      && (once.Ok() <==> report.Ok())
      && (ScopeReport(once, manifest, second).report.Ok() <==> once.findings == [])
  {
    ScopeKeepsTheVerdict(report, manifest, first);
    ScopeKeepsTheVerdict(ScopeReport(report, manifest, first).report, manifest, second);
  }

  /** A modified file that the first scope does not name is forgotten by the second. */
  lemma SecondScopeForgets(manifest: Manifest)
    ensures var whole := Report(1, [Finding(Modified, "vendor/a", Differs, Vendored)], []);
      var once := ScopeReport(whole, manifest, ["vendor/b"]).report;
      && once.findings == [] && once.outside == whole.findings && !once.Ok()
      && ScopeReport(once, manifest, ["vendor/b"]).report.Ok()
  {
    var whole := Report(1, [Finding(Modified, "vendor/a", Differs, Vendored)], []);
    SecondScopeSeesTheListed(whole, manifest, ["vendor/b"], ["vendor/b"]);
    assert "vendor/a"[7] != "vendor/b"[7];
    var once := ScopeReport(whole, manifest, ["vendor/b"]).report;
    var named := Keep(["vendor/b"], path => manifest.Covers(path));
    assert forall p | p in named :: p == "vendor/b";
    assert whole.findings[1..] == [];
  }
}
