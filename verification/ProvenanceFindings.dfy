/** What a run of the guard finds, finding by finding, told from the manifest, the record and the tree. */
module ProvenanceFindings {
  import opened Options
  import opened FileTree
  import opened Ordering
  import opened Text
  import opened ProvenanceGuard

  // ---------------------------------------------------------------- rows and entries

  /** The last row of the path says this. */
  ghost predicate Says(record: Record, path: string, row: Row) {
    exists i :: 0 <= i < |record.lines| && record.lines[i] == RecordLine(path, row)
                && forall j | i < j < |record.lines| :: record.lines[j].path != path
  }

  ghost predicate HasRow(record: Record, path: string) {
    exists l :: l in record.lines && l.path == path
  }

  ghost predicate Listing(manifest: Manifest, path: string) {
    exists e :: e in manifest.entries && e.path == path
  }

  lemma {:induction false} RowsSay(record: Record, path: string, row: Row)
    ensures path in record.Rows() && record.Rows()[path] == row <==> Says(record, path, row)
    decreases |record.lines|
  {
    if record.lines != [] {
      var last := |record.lines| - 1;
      var front := Record(record.lines[..last], record.living);
      RowsSay(front, path, row);
      if record.lines[last].path != path {
        assert Says(record, path, row) <==> Says(front, path, row) by {
          SaysBefore(record, front, path, row);
        }
      } else if record.lines[last] == RecordLine(path, row) {
        assert Says(record, path, row);
      }
    }
  }

  lemma SaysBefore(record: Record, front: Record, path: string, row: Row)
    requires record.lines != [] && front.lines == record.lines[..|record.lines| - 1]
    requires record.lines[|record.lines| - 1].path != path
    ensures Says(record, path, row) <==> Says(front, path, row)
  {
    if i :| 0 <= i < |record.lines| && record.lines[i] == RecordLine(path, row)
            && forall j | i < j < |record.lines| :: record.lines[j].path != path {
      assert front.lines[i] == record.lines[i];
    }
    if i :| 0 <= i < |front.lines| && front.lines[i] == RecordLine(path, row)
            && forall j | i < j < |front.lines| :: front.lines[j].path != path {
      assert record.lines[i] == front.lines[i];
    }
  }

  lemma RowsHave(record: Record, path: string)
    ensures path in record.Rows() <==> HasRow(record, path)
  {
    if path in record.Paths() {
      var i :| 0 <= i < |record.Paths()| && record.Paths()[i] == path;
      assert record.lines[i] in record.lines;
    }
    if l :| l in record.lines && l.path == path {
      var i :| 0 <= i < |record.lines| && record.lines[i] == l;
      assert record.Paths()[i] == path;
    }
  }

  // ---------------------------------------------------------------- the rules

  /** Where the finding routes: with the record that transferred the path, if one did. */
  ghost predicate Routed(living: map<string, string>, f: Finding) {
    f.route == if f.path in living then LivingDocument(living[f.path]) else Vendored
  }

  /** A listed path, or what stands in a guarded tree. */
  ghost predicate TreeFinding(manifest: Manifest, world: World, living: map<string, string>, f: Finding) {
    var root := world.root;
    Routed(living, f) &&
    ( || (f.kind == Modified && f.why == LinkInPlace && Listing(manifest, f.path) && IsLink(root, f.path))
      || (f.kind == Modified && f.why == Differs && !IsLink(root, f.path) && IsFile(root, f.path)
          && exists e :: e in manifest.entries && e.path == f.path && e.sha256 != world.hash(BytesAt(root, f.path)))
      || (f.kind == Missing && f.why == Absent && Listing(manifest, f.path) && !IsLink(root, f.path) && !IsFile(root, f.path))
      || (f.kind == Unlisted && f.why == NotListed && !Listing(manifest, f.path)
          && exists tree :: tree in manifest.trees && Scanned(root, tree, false, f.path))
      || (f.kind == Unlisted && f.why == LinkFound && !Listing(manifest, f.path)
          && exists tree :: tree in manifest.trees && Scanned(root, tree, true, f.path)))
  }

  /** A row that is not claimed by exactly one scope, or is held here though handed over. */
  ghost predicate ScopeFinding(manifest: Manifest, record: Record, root: Node, f: Finding) {
    && f.kind == Declaration && f.route == ScopeDeclaration && HasRow(record, f.path)
    && match f.why
       case ClaimedTwice => Guards(manifest, f.path) && HandsOver(manifest, f.path)
       case Unclaimed => !Guards(manifest, f.path) && !HandsOver(manifest, f.path)
       case HeldHere => !Guards(manifest, f.path) && HandsOver(manifest, f.path) && Exists(root, f.path)
       case _ => false
  }

  ghost predicate ScopeIsWrong(manifest: Manifest, record: Record, root: Node, path: string) {
    exists f: Finding :: f.path == path && ScopeFinding(manifest, record, root, f)
  }

  /** A row or an entry that lacks the other, its scope being declared well. */
  ghost predicate RowFinding(manifest: Manifest, record: Record, root: Node, f: Finding) {
    && f.kind == Declaration && Routed(record.living, f) && !ScopeIsWrong(manifest, record, root, f.path)
    && match f.why
       case RowNotListed => HasRow(record, f.path) && Guards(manifest, f.path) && !Listing(manifest, f.path)
       case NotARow => Listing(manifest, f.path) && !(HasRow(record, f.path) && Guards(manifest, f.path))
       case RowDiffers =>
         && Guards(manifest, f.path)
         && exists e, row :: e in manifest.entries && e.path == f.path && Says(record, f.path, row) && e.row != row
       case _ => false
  }

  // ---------------------------------------------------------------- finding by finding

  lemma TreeFindingsAre(manifest: Manifest, world: World, living: map<string, string>, f: Finding)
    requires WellFormed(world.root)
    ensures f in TreeProblems(manifest, world, living) <==> TreeFinding(manifest, world, living, f)
  {
    hide Scanned, Kept, ScanTrees, IsLink, IsFile, BytesAt, WellFormed, SortedList;
    var scan := ScanTrees(world.root, manifest.trees);
    KeptHas(manifest.entries, EntryModified(world, living), f);
    KeptHas(manifest.entries, EntryMissing(world, living), f);
    KeptHas(SortedList(scan.files), PathUnlisted(manifest.Paths(), living, NotListed), f);
    KeptHas(SortedList(scan.links), PathUnlisted(manifest.Paths(), living, LinkFound), f);
    PathsHas(manifest, f.path);
    ScanHas(manifest, world.root, false, f.path);
    ScanHas(manifest, world.root, true, f.path);
    EntryFinding(manifest, world, living, f);
  }

  lemma ScanHas(manifest: Manifest, root: Node, link: bool, path: string)
    requires WellFormed(root)
    ensures path in SortedList(ScanTrees(root, manifest.trees).Of(link))
       <==> exists tree :: tree in manifest.trees && Scanned(root, tree, link, path)
  {
    hide Scanned, WellFormed, ScanTrees;
    SortedListHas(ScanTrees(root, manifest.trees).Of(link), path);
    ScanTreesHas(root, manifest.trees, link, path);
    forall tree | tree in manifest.trees ensures path in ScanTree(root, tree).Of(link) <==> Scanned(root, tree, link, path) {
      ScanTreeIs(root, tree, link, path);
    }
  }

  lemma EntryFinding(manifest: Manifest, world: World, living: map<string, string>, f: Finding)
    ensures (exists e | e in manifest.entries :: EntryModified(world, living)(e) == Some(f)) <==>
      && f.kind == Modified && Routed(living, f)
      && ( || (f.why == LinkInPlace && Listing(manifest, f.path) && IsLink(world.root, f.path))
           || (f.why == Differs && !IsLink(world.root, f.path) && IsFile(world.root, f.path)
               && exists e :: e in manifest.entries && e.path == f.path && e.sha256 != world.hash(BytesAt(world.root, f.path))))
    ensures (exists e | e in manifest.entries :: EntryMissing(world, living)(e) == Some(f)) <==>
      f.kind == Missing && f.why == Absent && Routed(living, f) && Listing(manifest, f.path)
      && !IsLink(world.root, f.path) && !IsFile(world.root, f.path)
  {
    hide IsLink, IsFile, BytesAt, EntryModified, EntryMissing, Routed;
    forall e ensures EntryModified(world, living)(e) == Some(f) <==> ModifiedBy(world, living, e, f)
             ensures EntryMissing(world, living)(e) == Some(f) <==> MissingBy(world, living, e, f)
    {
      EntryTold(world, living, e, f);
    }
  }

  ghost predicate ModifiedBy(world: World, living: map<string, string>, e: Entry, f: Finding) {
    && e.path == f.path && f.kind == Modified && Routed(living, f)
    && ( || (f.why == LinkInPlace && IsLink(world.root, f.path))
         || (f.why == Differs && !IsLink(world.root, f.path) && IsFile(world.root, f.path)
             && e.sha256 != world.hash(BytesAt(world.root, f.path))))
  }

  ghost predicate MissingBy(world: World, living: map<string, string>, e: Entry, f: Finding) {
    && e.path == f.path && f.kind == Missing && f.why == Absent && Routed(living, f)
    && !IsLink(world.root, f.path) && !IsFile(world.root, f.path)
  }

  lemma EntryTold(world: World, living: map<string, string>, e: Entry, f: Finding)
    ensures EntryModified(world, living)(e) == Some(f) <==> ModifiedBy(world, living, e, f)
    ensures EntryMissing(world, living)(e) == Some(f) <==> MissingBy(world, living, e, f)
  {
    hide IsLink, IsFile, BytesAt;
    var root, path := world.root, e.path;
    var told := EntryModified(world, living)(e);
    if IsLink(root, path) {
      assert told == Some(Found(living, Modified, path, LinkInPlace));
    } else if IsFile(root, path) {
      assert told == if world.hash(BytesAt(root, path)) != e.sha256 then Some(Found(living, Modified, path, Differs)) else None;
    } else {
      assert told == None;
    }
  }

  lemma RoutedIsFound(living: map<string, string>, f: Finding)
    ensures Routed(living, f) <==> f == Found(living, f.kind, f.path, f.why)
  {
  }

  lemma ScopeFindingsAre(manifest: Manifest, record: Record, root: Node, f: Finding)
    ensures f in ScopeProblems(manifest, record, root) <==> ScopeFinding(manifest, record, root, f)
  {
    hide Kept, Within, Inside, Exists, SortedSet, HasRow, Record.Rows;
    ScopesAre(manifest);
    hide Manifest.Covers, Manifest.ForeignCovers, Guards, HandsOver;
    RowsHave(record, f.path);
    KeptHas(SortedSet(record.Paths()), ScopeWrong(manifest, root), f);
  }

  lemma DeclaredAre(manifest: Manifest, record: Record, root: Node, path: string)
    ensures path in PathsOf(ScopeProblems(manifest, record, root)) <==> ScopeIsWrong(manifest, record, root, path)
  {
    hide ScopeProblems, ScopeFinding;
    forall f ensures f in ScopeProblems(manifest, record, root) <==> ScopeFinding(manifest, record, root, f) {
      ScopeFindingsAre(manifest, record, root, f);
    }
  }

  lemma RowFindingsAre(manifest: Manifest, record: Record, root: Node, f: Finding)
    ensures f in RecordProblems(manifest, record, root) <==>
            ScopeFinding(manifest, record, root, f) || RowFinding(manifest, record, root, f)
  {
    hide Kept, ScopeProblems, ScopeFinding, ScopeIsWrong, SortedSet, HasRow, Listing, Says, Record.Rows;
    var declared := PathsOf(ScopeProblems(manifest, record, root));
    ScopeFindingsAre(manifest, record, root, f);
    DeclaredAre(manifest, record, root, f.path);
    KeptHas(SortedSet(record.Paths()), RowMissing(manifest, record.living, declared), f);
    KeptHas(SortedSet(manifest.Paths()), RowUnknown(manifest, record, declared), f);
    KeptHas(manifest.entries, RowChanged(manifest, record, declared), f);
    hide PathsOf;
    MissingRule(manifest, record, declared, f);
    UnknownRule(manifest, record, declared, f);
    ChangedRule(manifest, record, declared, f);
  }

  lemma MissingRule(manifest: Manifest, record: Record, declared: set<string>, f: Finding)
    ensures (exists p | p in SortedSet(record.Paths()) :: RowMissing(manifest, record.living, declared)(p) == Some(f)) <==>
      && f.kind == Declaration && f.why == RowNotListed && Routed(record.living, f) && f.path !in declared
      && HasRow(record, f.path) && Guards(manifest, f.path) && !Listing(manifest, f.path)
  {
    hide Within, Inside, SortedSet, Record.Rows, HasRow, Listing;
    ScopesAre(manifest);
    hide Manifest.Covers, Guards;
    RowsHave(record, f.path);
    ListingIs(manifest, f.path);
    RoutedIsFound(record.living, f);
    var check := RowMissing(manifest, record.living, declared);
    assert forall p | check(p) == Some(f) :: p == f.path;
    assert f.path in SortedSet(record.Paths()) <==> HasRow(record, f.path);
  }

  lemma UnknownRule(manifest: Manifest, record: Record, declared: set<string>, f: Finding)
    ensures (exists p | p in SortedSet(manifest.Paths()) :: RowUnknown(manifest, record, declared)(p) == Some(f)) <==>
      && f.kind == Declaration && f.why == NotARow && Routed(record.living, f) && f.path !in declared
      && Listing(manifest, f.path) && !(HasRow(record, f.path) && Guards(manifest, f.path))
  {
    hide Within, Inside, SortedSet, Record.Rows, HasRow, Listing;
    ScopesAre(manifest);
    hide Manifest.Covers, Guards;
    RowsHave(record, f.path);
    ListingIs(manifest, f.path);
    RoutedIsFound(record.living, f);
    var check := RowUnknown(manifest, record, declared);
    assert forall p | check(p) == Some(f) :: p == f.path;
    assert f.path in SortedSet(manifest.Paths()) <==> Listing(manifest, f.path);
  }

  lemma ChangedRule(manifest: Manifest, record: Record, declared: set<string>, f: Finding)
    ensures (exists e | e in manifest.entries :: RowChanged(manifest, record, declared)(e) == Some(f)) <==>
      && f.kind == Declaration && f.why == RowDiffers && Routed(record.living, f) && f.path !in declared
      && Guards(manifest, f.path)
      && exists e, row :: e in manifest.entries && e.path == f.path && Says(record, f.path, row) && e.row != row
  {
    hide Within, Inside, Record.Rows, Says;
    ScopesAre(manifest);
    hide Manifest.Covers, Guards;
    RoutedIsFound(record.living, f);
    var check := RowChanged(manifest, record, declared);
    forall row ensures f.path in record.Rows() && record.Rows()[f.path] == row <==> Says(record, f.path, row) {
      RowsSay(record, f.path, row);
    }
    if e :| e in manifest.entries && check(e) == Some(f) {
      assert e.path == f.path && Says(record, f.path, record.Rows()[f.path]);
    }
    if e, row :| e in manifest.entries && e.path == f.path && Says(record, f.path, row) && e.row != row {
      assert record.Rows()[f.path] == row;
      if f.kind == Declaration && f.why == RowDiffers && Routed(record.living, f) && f.path !in declared && Guards(manifest, f.path) {
        assert check(e) == Some(f);
      }
    }
  }

  lemma ListingIs(manifest: Manifest, path: string)
    ensures Listing(manifest, path) <==> path in manifest.Paths()
  {
    PathsHas(manifest, path);
  }

  /** A run with the record finds exactly what breaks one of the rules. */
  lemma FindingsAre(manifest: Manifest, world: World, record: Record, f: Finding)
    requires WellFormed(world.root) && record.lines != []
    ensures Findings(manifest, world, Some(record)).Some?
    ensures f in Findings(manifest, world, Some(record)).value <==>
      || TreeFinding(manifest, world, record.living, f)
      || ScopeFinding(manifest, record, world.root, f)
      || RowFinding(manifest, record, world.root, f)
  {
    hide TreeProblems, RecordProblems, TreeFinding, ScopeFinding, RowFinding;
    TreeFindingsAre(manifest, world, record.living, f);
    RowFindingsAre(manifest, record, world.root, f);
  }

  /** Without the record it finds what is wrong with the tree. */
  lemma FindingsWithoutRecord(manifest: Manifest, world: World, f: Finding)
    requires WellFormed(world.root)
    ensures Findings(manifest, world, None).Some?
    ensures f in Findings(manifest, world, None).value <==> TreeFinding(manifest, world, map[], f)
  {
    hide TreeProblems, TreeFinding;
    TreeFindingsAre(manifest, world, map[], f);
  }
}
