/**
 When an archive unpacks, and into what (internal/galaxy/archive/archive.go:130-291):
 for each kind of entry the exact condition under which it succeeds and the exact
 tree it leaves, said of the tree before it alone, and from these when a whole
 archive succeeds.
 */
module ArchiveUnpacks {
  import opened ArchiveExtract
  import opened ArchivePaths
  import opened ArchiveSafety
  import opened ArchiveContents
  import opened Wrappers

  // ------------------------------------------------- what is on the way

  predicate Over(q: Path, p: Path) { q < p }

  predicate DirIfThere(fs: Files, p: Path) { p in fs ==> fs[p].Dir? }

  // Whatever is there above a path is a directory.
  ghost predicate OnlyDirsAbove(fs: Files, p: Path) {
    forall q {:trigger Over(q, p)} {:trigger DirIfThere(fs, q)} :: Over(q, p) ==> DirIfThere(fs, q)
  }

  predicate DirOrFree(fs: Files, p: Path, refused: set<Path>) {
    if p in fs then fs[p].Dir? else p !in refused
  }

  // Every directory down to the path is there or may be made.
  ghost predicate CanMake(fs: Files, p: Path, refused: set<Path>) {
    && DirOrFree(fs, p, refused)
    && forall q {:trigger Over(q, p)} {:trigger DirOrFree(fs, q, refused)} :: Over(q, p) ==> DirOrFree(fs, q, refused)
  }

  lemma Above(p: Path, q: Path)
    requires p != []
    ensures Over(q, p) <==> q == DirParts(p) || Over(q, DirParts(p))
    ensures q <= p <==> q == p || Over(q, p)
  {
    var up := DirParts(p);
    assert up == p[..|p| - 1];
    if q <= p { assert q == p[..|q|]; }
    if q <= up { assert q == up[..|q|] == p[..|q|]; }
  }

  lemma {:induction false} DirsAbove(fs: Files, p: Path, q: Path)
    requires Tree(fs) && p in fs && Over(q, p)
    ensures IsDir(fs, q)
  {
    assert Placed(fs, p);
    Above(p, q);
    if q != DirParts(p) { DirsAbove(fs, DirParts(p), q); }
  }

  // A free path is seen as free exactly when nothing but directories is above it.
  lemma {:induction false} SeenFree(fs: Files, p: Path)
    requires Tree(fs)
    ensures Lstat(fs, p) == NotExist <==> p !in fs && OnlyDirsAbove(fs, p)
  {
    if p !in fs && p != [] {
      var up := DirParts(p);
      SeenFree(fs, up);
      forall q ensures Over(q, p) <==> q == up || Over(q, up) { Above(p, q); }
      if up in fs {
        assert DirIfThere(fs, up) <==> fs[up].Dir?;
        if fs[up].Dir? { forall q | Over(q, up) ensures DirIfThere(fs, q) { DirsAbove(fs, up, q); } }
      }
    }
  }

  /** The component check passes exactly when only directories are above the path
      and no symlink is at it. */
  lemma {:induction false} CheckPasses(fs: Files, p: Path)
    requires Tree(fs)
    ensures CheckPath(fs, p) == Fine <==> OnlyDirsAbove(fs, p) && (p in fs ==> !fs[p].Link?)
  {
    if p == [] {
      assert Placed(fs, p);
    } else if p in fs {
      forall q | Over(q, p) ensures DirIfThere(fs, q) { DirsAbove(fs, p, q); }
      if fs[p].Link? { LinkEndsEntry(fs, p); } else { FoundFromTheTop(fs, p); }
    } else {
      var up := DirParts(p);
      CheckPasses(fs, up);
      SeenFree(fs, p);
      forall q ensures Over(q, p) <==> q == up || Over(q, up) { Above(p, q); }
      assert Over(up, p);
    }
  }

  // Making directories leaves those down to the path, and nothing else new.
  predicate MadeDown(before: Files, after: Files, p: Path, q: Path) {
    if q == p || Over(q, p) then IsDir(after, q)
    else (q in after <==> q in before) && (q in before ==> after[q] == before[q])
  }

  ghost predicate AllMadeDown(before: Files, after: Files, p: Path) {
    forall q {:trigger MadeDown(before, after, p, q)} :: MadeDown(before, after, p, q)
  }

  lemma {:induction false} MkdirSucceeds(fs: Files, p: Path, refused: set<Path>)
    requires Tree(fs)
    ensures MkdirAll(fs, p, refused).outcome == Fine <==> CanMake(fs, p, refused)
  {
    if p in fs {
      if fs[p].Dir? { forall q | Over(q, p) ensures DirOrFree(fs, q, refused) { DirsAbove(fs, p, q); } }
    } else {
      SeenFree(fs, p);
      if p != [] {
        var up := DirParts(p);
        MkdirSucceeds(fs, up, refused);
        forall q ensures Over(q, p) <==> q == up || Over(q, up) { Above(p, q); }
        if CanMake(fs, up, refused) {
          forall q | Over(q, p) ensures DirIfThere(fs, q) { assert DirOrFree(fs, q, refused); }
        }
      }
    }
  }

  lemma MkdirMakes(fs: Files, p: Path, refused: set<Path>)
    requires Tree(fs) && MkdirAll(fs, p, refused).outcome == Fine
    ensures AllMadeDown(fs, MkdirAll(fs, p, refused).fs, p)
  {
    var made := MkdirAll(fs, p, refused).fs;
    MkdirKeepsTree(fs, p, refused);
    forall q {:trigger MadeDown(fs, made, p, q)} ensures MadeDown(fs, made, p, q) {
      MkdirOnlyAdds(fs, p, refused, q);
      assert Kept(fs, made, q);
      if Over(q, p) { DirsAbove(made, p, q); }
      if |q| <= |p| && q == p[..|q|] && q != p { assert Over(q, p); }
    }
  }

  // ---------------------------------------------------- each kind of entry

  // The exact condition for an entry at a path to succeed.
  ghost predicate Succeeds(fs: Files, rel: string, p: Path, h: Header, root: bool)
    requires p != []
  {
    var up := DirParts(p);
    match h.kind
    case DirEntry => CanMake(fs, p, h.refused)
    case RegEntry =>
      && CanMake(fs, up, h.refused) && h.created && h.written
      && (p in fs ==> fs[p].File? && (root || !fs[p].readOnly))
    case SymlinkEntry => SafeSymlinkTarget(rel, h.link).Ok? && CanMake(fs, up, h.refused) && h.created && p !in fs
    case HardlinkEntry =>
      && CanMake(fs, up, h.refused) && h.created && p !in fs
      && SanitizeArchivePath(h.link).Ok? && SanitizeArchivePath(h.link).value != ""
      && Split(SanitizeArchivePath(h.link).value) in fs
      && fs[Split(SanitizeArchivePath(h.link).value)].File?
    case OtherEntry => OnlyDirsAbove(fs, p) && (p in fs ==> !fs[p].Link?)
  }

  // What is at the path of an entry that succeeded; a hard link is its target's file.
  ghost predicate Holds(before: Files, after: Files, rel: string, p: Path, h: Header) {
    p in after &&
    match h.kind
    case DirEntry => after[p] == Dir
    case RegEntry => after[p] == if p in before then before[p] else File(true, Made(p))
    case SymlinkEntry =>
      SafeSymlinkTarget(rel, h.link).Ok? && after[p] == Link(SafeSymlinkTarget(rel, h.link).value)
    case HardlinkEntry =>
      var target := SanitizeArchivePath(h.link);
      target.Ok? && Split(target.value) in before && after[p] == before[Split(target.value)]
    case OtherEntry => false
  }

  // Off the path: the directories above are there, and nothing else is new.
  predicate MadeAbove(before: Files, after: Files, p: Path, q: Path) {
    q != p ==>
      if Over(q, p) then IsDir(after, q) else (q in after <==> q in before) && (q in before ==> after[q] == before[q])
  }

  ghost predicate OnlyAbove(before: Files, after: Files, p: Path) {
    forall q {:trigger MadeAbove(before, after, p, q)} :: MadeAbove(before, after, p, q)
  }

  // Making the directories above a path leaves the path itself, and every file.
  lemma RoomAbove(fs: Files, p: Path, refused: set<Path>)
    requires Tree(fs) && p != [] && MkdirAll(fs, DirParts(p), refused).outcome == Fine
    ensures var made := MkdirAll(fs, DirParts(p), refused).fs;
            && Tree(made) && Grown(fs, made) && IsDir(made, DirParts(p))
            && (p in made <==> p in fs)
            && (forall q {:trigger q in made} :: q in made && !made[q].Dir? ==> q in fs)
            && OnlyAbove(fs, made, p)
  {
    var up := DirParts(p);
    var made := MkdirAll(fs, up, refused).fs;
    MkdirKeepsTree(fs, up, refused);
    MkdirMakes(fs, up, refused);
    forall q ensures Over(q, p) <==> q == up || Over(q, up) { Above(p, q); }
    assert MadeDown(fs, made, up, p);
    forall q | q in made && !made[q].Dir? ensures q in fs { assert MadeDown(fs, made, up, q); }
    forall q ensures MadeAbove(fs, made, p, q) {
      assert MadeDown(fs, made, up, q);
    }
  }

  lemma OneMoreAt(fs: Files, made: Files, p: Path, node: Node)
    requires OnlyAbove(fs, made, p)
    ensures OnlyAbove(fs, made[p := node], p)
  {
    forall q {:trigger MadeAbove(fs, made[p := node], p, q)} ensures MadeAbove(fs, made[p := node], p, q) {
      assert MadeAbove(fs, made, p, q);
    }
  }

  // How one entry at a path goes, whatever its kind.
  ghost predicate AsSaid(fs: Files, done: Done, rel: string, p: Path, h: Header, root: bool)
    requires p != []
  {
    && (done.outcome == Fine <==> Succeeds(fs, rel, p, h, root))
    && (done.outcome == Fine && h.kind != OtherEntry ==> OnlyAbove(fs, done.fs, p) && Holds(fs, done.fs, rel, p, h))
    && (h.kind == OtherEntry ==> done.fs == fs)
  }

  lemma DirAsSaid(fs: Files, rel: string, p: Path, h: Header, root: bool)
    requires Tree(fs) && p != [] && h.kind == DirEntry
    ensures AsSaid(fs, PlaceKind(fs, rel, p, h, root), rel, p, h, root)
  {
    var made := MkdirAll(fs, p, h.refused);
    MkdirSucceeds(fs, p, h.refused);
    if made.outcome == Fine {
      MkdirMakes(fs, p, h.refused);
      assert MadeDown(fs, made.fs, p, p);
      forall q ensures MadeAbove(fs, made.fs, p, q) { assert MadeDown(fs, made.fs, p, q); }
    }
  }

  lemma FileAsSaid(fs: Files, rel: string, p: Path, h: Header, root: bool)
    requires Tree(fs) && p != [] && h.kind == RegEntry
    ensures AsSaid(fs, PlaceKind(fs, rel, p, h, root), rel, p, h, root)
  {
    MkdirSucceeds(fs, DirParts(p), h.refused);
    var made := MkdirAll(fs, DirParts(p), h.refused);
    if made.outcome == Fine {
      RoomAbove(fs, p, h.refused);
      assert Kept(fs, made.fs, p);
      OneMoreAt(fs, made.fs, p, File(true, Made(p)));
      assert p !in fs ==> Lstat(made.fs, p) == NotExist;
    }
  }

  lemma SymlinkAsSaid(fs: Files, rel: string, p: Path, h: Header, root: bool)
    requires Tree(fs) && p != [] && h.kind == SymlinkEntry
    ensures AsSaid(fs, PlaceKind(fs, rel, p, h, root), rel, p, h, root)
  {
    MkdirSucceeds(fs, DirParts(p), h.refused);
    var made := MkdirAll(fs, DirParts(p), h.refused);
    var target := SafeSymlinkTarget(rel, h.link);
    if target.Ok? && made.outcome == Fine {
      RoomAbove(fs, p, h.refused);
      OneMoreAt(fs, made.fs, p, Link(target.value));
      assert p !in fs ==> Lstat(made.fs, p) == NotExist;
    }
  }

  lemma HardlinkAsSaid(fs: Files, rel: string, p: Path, h: Header, root: bool)
    requires Tree(fs) && p != [] && h.kind == HardlinkEntry
    ensures AsSaid(fs, PlaceKind(fs, rel, p, h, root), rel, p, h, root)
  {
    MkdirSucceeds(fs, DirParts(p), h.refused);
    var made := MkdirAll(fs, DirParts(p), h.refused);
    var link := SanitizeArchivePath(h.link);
    if link.Ok? && link.value != "" && made.outcome == Fine {
      var target := Split(link.value);
      RoomAbove(fs, p, h.refused);
      assert p !in fs ==> Lstat(made.fs, p) == NotExist;
      assert Kept(fs, made.fs, target);
      if target in fs && fs[target].File? {
        FoundFromTheTop(fs, target);
        OneMoreAt(fs, made.fs, p, fs[target]);
      }
    }
  }

  lemma KindAsSaid(fs: Files, rel: string, p: Path, h: Header, root: bool)
    requires Tree(fs) && p != [] && CheckPath(fs, p) == Fine
    ensures AsSaid(fs, PlaceKind(fs, rel, p, h, root), rel, p, h, root)
  {
    match h.kind
    case DirEntry => DirAsSaid(fs, rel, p, h, root);
    case RegEntry => FileAsSaid(fs, rel, p, h, root);
    case SymlinkEntry => SymlinkAsSaid(fs, rel, p, h, root);
    case HardlinkEntry => HardlinkAsSaid(fs, rel, p, h, root);
    case OtherEntry => CheckPasses(fs, p);
  }

  // Where making directories or a file gets through, the component check does too.
  lemma SucceedsPastCheck(fs: Files, rel: string, p: Path, h: Header, root: bool)
    requires Tree(fs) && p != [] && Succeeds(fs, rel, p, h, root)
    ensures CheckPath(fs, p) == Fine
  {
    forall q ensures Over(q, p) <==> q == DirParts(p) || Over(q, DirParts(p)) { Above(p, q); }
    forall q | Over(q, p) ensures DirIfThere(fs, q) {
      if h.kind != OtherEntry { assert DirOrFree(fs, q, h.refused); }
    }
    assert h.kind == DirEntry ==> DirOrFree(fs, p, h.refused);
    CheckPasses(fs, p);
  }

  /** When one entry succeeds, and what it leaves: for every kind exactly when its
      name is sane and the tree before it allows it, and then the path holds what the
      entry is, the directories above it are there, and nothing else has changed. */
  lemma EntryUnpacks(fs: Files, h: Header, root: bool)
    requires Tree(fs)
    ensures var done, rel := PlaceEntry(fs, h, root), SanitizeArchivePath(h.name);
            if rel.Err? then done.outcome.Failed? && done.fs == fs
            else if rel.value == "" then done.outcome == Fine && done.fs == fs
            else AsSaid(fs, done, rel.value, Split(rel.value), h, root)
  {
    var rel := SanitizeArchivePath(h.name);
    if rel.Ok? && rel.value != "" {
      var p := Split(rel.value);
      if CheckPath(fs, p) == Fine {
        KindAsSaid(fs, rel.value, p, h, root);
      } else if Succeeds(fs, rel.value, p, h, root) {
        SucceedsPastCheck(fs, rel.value, p, h, root);
      }
    }
  }

  // ------------------------------------------------------ a whole archive

  // The entry may be unpacked into this tree.
  ghost predicate Unpackable(fs: Files, h: Header, root: bool) {
    var rel := SanitizeArchivePath(h.name);
    rel.Ok? && (rel.value == "" || Succeeds(fs, rel.value, Split(rel.value), h, root))
  }

  // The header at index n may be charged, and unpacked into what came before it.
  ghost predicate Good(fs: Files, items: seq<Item>, maxEntries: nat, root: bool, n: nat)
    requires n < |items|
  {
    && items[n].Entry? && n < maxEntries
    && 0 <= items[n].header.size <= ARCHIVE_MAX_ENTRY_SIZE
    && Sizes(items[..n + 1]) <= ARCHIVE_MAX_TOTAL_SIZE
    && Unpackable(Run(fs, items[..n], maxEntries, root).fs, items[n].header, root)
  }

  /** An archive unpacks exactly when it can be read to its end, has no more headers
      than allowed, each of an allowed size and all of them together, and every entry
      may be unpacked into the tree the ones before it left. */
  lemma {:induction false} ArchiveUnpacksIff(fs: Files, items: seq<Item>, maxEntries: nat, root: bool)
    requires Tree(fs)
    ensures Run(fs, items, maxEntries, root).outcome == Fine <==>
            forall n: nat :: n < |items| ==> Good(fs, items, maxEntries, root, n)
  {
    if items != [] {
      var last := |items| - 1;
      var init := items[..last];
      ArchiveUnpacksIff(fs, init, maxEntries, root);
      forall n: nat | n < last
        ensures Good(fs, items, maxEntries, root, n) <==> Good(fs, init, maxEntries, root, n)
      {
        assert init[..n] == items[..n] && init[..n + 1] == items[..n + 1];
      }
      if Run(fs, init, maxEntries, root).outcome == Fine {
        LastIsGood(fs, items, maxEntries, root);
      }
    }
  }

  lemma LastIsGood(fs: Files, items: seq<Item>, maxEntries: nat, root: bool)
    requires Tree(fs) && items != [] && Run(fs, items[..|items| - 1], maxEntries, root).outcome == Fine
    ensures Run(fs, items, maxEntries, root).outcome == Fine <==> Good(fs, items, maxEntries, root, |items| - 1)
  {
    var init := items[..|items| - 1];
    var st, item := Run(fs, init, maxEntries, root), items[|items| - 1];
    BudgetsHold(fs, init, maxEntries, root);
    UnpackIsContained(fs, init, maxEntries, root);
    assert items[..|items|] == items;
    if item.Entry? { EntryUnpacks(st.fs, item.header, root); }
  }
}
