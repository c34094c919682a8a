/**
 What unpacking does to files (internal/galaxy/archive/archive.go:226-256): which
 paths an archive may name twice, and whose contents it may change.
 */
module ArchiveContents {
  import opened ArchiveExtract
  import opened ArchivePaths
  import opened ArchiveSafety
  import opened Wrappers

  // ---------------------------------------------------- duplicate entries

  predicate ReadOnly(fs: Files, q: Path) {
    q in fs && fs[q].File? ==> fs[q].readOnly
  }

  ghost predicate NoneWritable(fs: Files) {
    forall q {:trigger ReadOnly(fs, q)} :: ReadOnly(fs, q)
  }

  // The entry is for an object of its own.
  predicate Places(item: Item) {
    && item.Entry? && item.header.kind != OtherEntry
    && SanitizeArchivePath(item.header.name).Ok?
    && SanitizeArchivePath(item.header.name).value != ""
  }

  function PathOf(item: Item): Path
    requires Places(item)
  {
    Split(SanitizeArchivePath(item.header.name).value)
  }

  lemma MkdirAddsNoFile(fs: Files, p: Path, refused: set<Path>)
    requires Tree(fs) && NoneWritable(fs)
    ensures NoneWritable(MkdirAll(fs, p, refused).fs)
  {
    var made := MkdirAll(fs, p, refused).fs;
    MkdirKeepsTree(fs, p, refused);
    forall q {:trigger ReadOnly(made, q)} ensures ReadOnly(made, q) {
      MkdirOnlyAdds(fs, p, refused, q);
      assert ReadOnly(fs, q) && Kept(fs, made, q);
    }
  }

  // The last call of a successful entry found its path free and filled it.
  ghost predicate Filled(before: Files, after: Files, p: Path) {
    p !in before && p in after && !after[p].Dir? && NoneWritable(after)
  }

  lemma LastCallFills(fs: Files, p: Path, h: Header, target: string, other: Path)
    requires Tree(fs) && NoneWritable(fs)
    ensures WriteFile(fs, p, h, false).outcome == Fine ==> Filled(fs, WriteFile(fs, p, h, false).fs, p)
    ensures PlaceLink(fs, p, target, h).outcome == Fine ==> Filled(fs, PlaceLink(fs, p, target, h).fs, p)
    ensures PlaceHardlink(fs, other, p, h).outcome == Fine ==> Filled(fs, PlaceHardlink(fs, other, p, h).fs, p)
  {
    assert ReadOnly(fs, p) && ReadOnly(fs, other);
    forall node: Node, q {:trigger ReadOnly(fs[p := node], q)} | (node.File? && node.readOnly) || node.Link?
      ensures ReadOnly(fs[p := node], q)
    {
      assert ReadOnly(fs, q);
    }
  }

  lemma PlacingFills(fs: Files, rel: string, p: Path, h: Header)
    requires Tree(fs) && NoneWritable(fs) && p != [] && PlaceKind(fs, rel, p, h, false).outcome == Fine
    ensures var after := PlaceKind(fs, rel, p, h, false).fs;
            && NoneWritable(after)
            && (h.kind == DirEntry ==> IsDir(after, p))
            && (h.kind != DirEntry && h.kind != OtherEntry ==> Filled(fs, after, p))
  {
    MkdirAddsNoFile(fs, p, h.refused);
    MkdirKeepsTree(fs, p, h.refused);
    var made := MkdirAll(fs, DirParts(p), h.refused).fs;
    MkdirAddsNoFile(fs, DirParts(p), h.refused);
    MkdirKeepsTree(fs, DirParts(p), h.refused);
    assert Kept(fs, made, p);
    match h.kind
    case RegEntry => LastCallFills(made, p, h, "", []);
    case SymlinkEntry => LastCallFills(made, p, h, SafeSymlinkTarget(rel, h.link).value, []);
    case HardlinkEntry => LastCallFills(made, p, h, "", Split(SanitizeArchivePath(h.link).value));
    case _ =>
  }

  lemma StepFills(st: State, item: Item, maxEntries: nat)
    requires Tree(st.fs) && NoneWritable(st.fs) && Step(st, item, maxEntries, false).outcome == Fine
    ensures var after := Step(st, item, maxEntries, false).fs;
            && NoneWritable(after)
            && (Places(item) ==>
                  if item.header.kind == DirEntry then IsDir(after, PathOf(item))
                  else Filled(st.fs, after, PathOf(item)))
  {
    var rel := SanitizeArchivePath(item.header.name);
    if rel.Ok? && rel.value != "" {
      PlacingFills(st.fs, rel.value, Split(rel.value), item.header);
    }
  }

  lemma {:induction false} RunGrows(fs: Files, items: seq<Item>, n: nat, maxEntries: nat, root: bool)
    requires Tree(fs) && n <= |items|
    ensures Grown(Run(fs, items[..n], maxEntries, root).fs, Run(fs, items, maxEntries, root).fs)
  {
    var first := Run(fs, items[..n], maxEntries, root).fs;
    GrownSelf(first);
    if n == |items| {
      assert items[..n] == items;
    } else {
      var init := items[..|items| - 1];
      assert init[..n] == items[..n];
      RunGrows(fs, init, n, maxEntries, root);
      UnpackIsContained(fs, init, maxEntries, root);
      var st := Run(fs, init, maxEntries, root);
      var item := items[|items| - 1];
      if item.Entry? {
        EntryIsContained(st.fs, item.header, root);
        GrownTrans(first, st.fs, PlaceEntry(st.fs, item.header, root).fs);
      }
    }
  }

  lemma {:induction false} RunWritesReadOnly(fs: Files, items: seq<Item>, maxEntries: nat)
    requires Tree(fs) && NoneWritable(fs) && Run(fs, items, maxEntries, false).outcome == Fine
    ensures NoneWritable(Run(fs, items, maxEntries, false).fs)
  {
    if items != [] {
      var init := items[..|items| - 1];
      RunWritesReadOnly(fs, init, maxEntries);
      UnpackIsContained(fs, init, maxEntries, false);
      StepFills(Run(fs, init, maxEntries, false), items[|items| - 1], maxEntries);
    }
  }

  // What an entry of a run that succeeds does.
  ghost predicate Took(before: Files, after: Files, p: Path, dir: bool) {
    if dir then IsDir(after, p) else Filled(before, after, p)
  }

  // The tree before the entry at index n of a run over read-only files.
  ghost function Before(fs: Files, items: seq<Item>, maxEntries: nat, n: nat): Files
    requires n <= |items|
  {
    Run(fs, items[..n], maxEntries, false).fs
  }

  lemma EntryInRun(fs: Files, items: seq<Item>, maxEntries: nat, i: nat)
    requires Tree(fs) && NoneWritable(fs) && Run(fs, items, maxEntries, false).outcome == Fine && i < |items|
    ensures Places(items[i]) ==> Took(Before(fs, items, maxEntries, i), Before(fs, items, maxEntries, i + 1),
                                      PathOf(items[i]), items[i].header.kind == DirEntry)
  {
    RunEnds(fs, items, i, maxEntries, false);
    RunOneMore(fs, items, i, maxEntries, false);
    UnpackIsContained(fs, items[..i], maxEntries, false);
    RunWritesReadOnly(fs, items[..i], maxEntries);
    StepFills(Run(fs, items[..i], maxEntries, false), items[i], maxEntries);
  }

  lemma GrownBetween(fs: Files, items: seq<Item>, maxEntries: nat, i: nat, j: nat)
    requires Tree(fs) && i <= j <= |items|
    ensures Grown(Before(fs, items, maxEntries, i), Before(fs, items, maxEntries, j))
  {
    assert items[..j][..i] == items[..i];
    RunGrows(fs, items[..j], i, maxEntries, false);
  }

  lemma TakenOnce(fs: Files, items: seq<Item>, maxEntries: nat, i: nat, j: nat, p: Path, q: Path, first: bool,
                  second: bool)
    requires Tree(fs) && i < j < |items| && !(first && second)
    requires Took(Before(fs, items, maxEntries, i), Before(fs, items, maxEntries, i + 1), p, first)
    requires Took(Before(fs, items, maxEntries, j), Before(fs, items, maxEntries, j + 1), q, second)
    ensures p != q
  {
    GrownBetween(fs, items, maxEntries, i + 1, j);
    GrownBetween(fs, items, maxEntries, j, j + 1);
    assert Kept(Before(fs, items, maxEntries, i + 1), Before(fs, items, maxEntries, j), p);
    assert Kept(Before(fs, items, maxEntries, j), Before(fs, items, maxEntries, j + 1), p);
  }

  /** In an archive that an unprivileged process unpacks over no writable file,
      two entries share a path only when both are directories. */
  lemma NoPathTwice(fs: Files, items: seq<Item>, maxEntries: nat, i: nat, j: nat)
    requires Tree(fs) && NoneWritable(fs) && Run(fs, items, maxEntries, false).outcome == Fine
    requires i < j < |items| && Places(items[i]) && Places(items[j])
    requires items[i].header.kind != DirEntry || items[j].header.kind != DirEntry
    ensures PathOf(items[i]) != PathOf(items[j])
  {
    EntryInRun(fs, items, maxEntries, i);
    EntryInRun(fs, items, maxEntries, j);
    TakenOnce(fs, items, maxEntries, i, j, PathOf(items[i]), PathOf(items[j]),
              items[i].header.kind == DirEntry, items[j].header.kind == DirEntry);
  }

  // ------------------------------------------------------- file contents

  // A file made during the unpacking is named after its path.
  predicate Numbered(fs: Files, p: Path) {
    p in fs && fs[p].File? && fs[p].id.Made? ==> fs[p].id.at in fs
  }

  ghost predicate AllNumbered(fs: Files) {
    forall p {:trigger Numbered(fs, p)} :: Numbered(fs, p)
  }

  // The file at a path is one the unpacking made, or has a name it had before.
  ghost predicate Derived(before: Files, fs: Files, p: Path) {
    p in fs && fs[p].File? ==>
      (fs[p].id.Made? && fs[p].id.at !in before) || HadName(before, fs[p])
  }

  ghost predicate HadName(before: Files, file: Node) {
    exists p :: p in before && before[p] == file
  }

  ghost predicate AllDerived(before: Files, fs: Files) {
    forall p {:trigger Derived(before, fs, p)} :: Derived(before, fs, p)
  }

  // A file that may be written: made by the unpacking, or writable by one of its
  // names, or met by root.
  ghost predicate MayWrite(before: Files, id: Inode, root: bool) {
    || (id.Made? && id.at !in before)
    || HadName(before, File(false, id))
    || (root && HadName(before, File(true, id)))
  }

  // What was written is the file at the path: one that was there, writable or met
  // by root, or else a new one.
  predicate WritesAt(before: Files, done: Done, p: Path, root: bool) {
    && p in done.fs && done.fs[p].File? && done.wrote == Some(done.fs[p].id)
    && (p in before ==> before[p].File? && (root || !before[p].readOnly))
    && (p !in before ==> done.fs[p] == File(true, Made(p)))
  }

  // The calls before the write get through: the component check, and making the
  // directories above.
  predicate WayIsClear(fs: Files, p: Path, h: Header)
    requires p != []
  {
    CheckPath(fs, p) == Fine && MkdirAll(fs, DirParts(p), h.refused).outcome == Fine
  }

  // The file may be opened for writing: it is not there yet, or it is a file that is
  // writable or met by root.
  predicate MayOpen(fs: Files, p: Path, root: bool) {
    p in fs ==> fs[p].File? && (root || !fs[p].readOnly)
  }

  lemma FileWrites(fs: Files, p: Path, h: Header, root: bool)
    requires Tree(fs) && p != [] && CheckPath(fs, p) == Fine
    ensures var done := PlaceFile(fs, p, h, root);
            && (done.wrote.Some? <==> WayIsClear(fs, p, h) && h.created && MayOpen(fs, p, root))
            && (done.wrote.Some? ==> WritesAt(fs, done, p, root))
            && (done.outcome == Fine <==> done.wrote.Some? && h.written)
  {
    var made := MkdirAll(fs, DirParts(p), h.refused).fs;
    MkdirKeepsTree(fs, DirParts(p), h.refused);
    MkdirOnlyAdds(fs, DirParts(p), h.refused, p);
    assert Kept(fs, made, p);
    assert p in made <==> p in fs;
    if WayIsClear(fs, p, h) && p !in fs {
      assert Lstat(made, DirParts(p)) == Found(Dir);
      assert Lstat(made, p) == NotExist;
    }
  }

  lemma KindWrites(fs: Files, rel: string, p: Path, h: Header, root: bool)
    requires Tree(fs) && p != [] && CheckPath(fs, p) == Fine
    ensures var done := PlaceKind(fs, rel, p, h, root);
            && (done.wrote.Some? <==> h.kind == RegEntry && WayIsClear(fs, p, h) && h.created && MayOpen(fs, p, root))
            && (done.wrote.Some? ==> WritesAt(fs, done, p, root))
            && (h.kind == RegEntry ==> (done.outcome == Fine <==> done.wrote.Some? && h.written))
  {
    if h.kind == RegEntry { FileWrites(fs, p, h, root); }
  }

  /** When one entry writes to a file, and to which: exactly when it is a regular
      entry whose name is sane, whose way is clear, whose file is opened, and whose
      path is free or holds a file that is writable or met by root. Then the path
      holds that file: the one that was there, or a new one. A regular entry succeeds
      exactly when it writes the whole body. */
  lemma EntryWrites(fs: Files, h: Header, root: bool)
    requires Tree(fs)
    ensures var done, rel := PlaceEntry(fs, h, root), SanitizeArchivePath(h.name);
            if rel.Err? || rel.value == "" then done.wrote == None
            else
              var p := Split(rel.value);
              && (done.wrote.Some? <==> h.kind == RegEntry && WayIsClear(fs, p, h) && h.created && MayOpen(fs, p, root))
              && (done.wrote.Some? ==> WritesAt(fs, done, p, root))
              && (h.kind == RegEntry ==> (done.outcome == Fine <==> done.wrote.Some? && h.written))
  {
    var rel := SanitizeArchivePath(h.name);
    if rel.Ok? && rel.value != "" && CheckPath(fs, Split(rel.value)) == Fine {
      KindWrites(fs, rel.value, Split(rel.value), h, root);
    }
  }

  // What is there and no symlink is found by the component check, in a directory.
  lemma {:induction false} FoundFromTheTop(fs: Files, p: Path)
    requires Tree(fs) && p in fs && !fs[p].Link?
    ensures CheckPath(fs, p) == Fine && (p != [] ==> IsDir(fs, DirParts(p)))
  {
    assert Placed(fs, p);
    if p != [] { FoundFromTheTop(fs, DirParts(p)); }
  }

  // A symlink is found too, and ends the entry.
  lemma LinkEndsEntry(fs: Files, p: Path)
    requires Tree(fs) && p in fs && fs[p].Link?
    ensures p != [] && CheckPath(fs, p) == Failed(SymlinkComponent)
  {
    assert Placed(fs, p);
    FoundFromTheTop(fs, DirParts(p));
  }

  /** An entry for a path that is taken writes exactly when it is a regular one, the
      open is let through, and a file is there that is writable or met by root; what
      it writes to is that file. */
  lemma TakenPathIsWritten(fs: Files, h: Header, root: bool)
    requires Tree(fs) && SanitizeArchivePath(h.name).Ok? && SanitizeArchivePath(h.name).value != ""
    requires Split(SanitizeArchivePath(h.name).value) in fs
    ensures var done, p := PlaceEntry(fs, h, root), Split(SanitizeArchivePath(h.name).value);
            && (done.wrote.Some? <==> h.kind == RegEntry && h.created && fs[p].File? && (root || !fs[p].readOnly))
            && (done.wrote.Some? ==> done.wrote == Some(fs[p].id) && (done.outcome == Fine <==> h.written))
  {
    var rel := SanitizeArchivePath(h.name).value;
    var p := Split(rel);
    EntryWrites(fs, h, root);
    if fs[p].Link? {
      LinkEndsEntry(fs, p);
    } else {
      FoundFromTheTop(fs, p);
      KindWrites(fs, rel, p, h, root);
      EntryKeepsFile(fs, h, root, p);
    }
  }

  lemma EntryKeepsFile(fs: Files, h: Header, root: bool, p: Path)
    requires Tree(fs) && p in fs
    ensures p in PlaceEntry(fs, h, root).fs && PlaceEntry(fs, h, root).fs[p] == fs[p]
  {
    EntryIsContained(fs, h, root);
    assert Kept(fs, PlaceEntry(fs, h, root).fs, p);
  }

  ghost predicate Ids(before: Files, fs: Files) {
    AllNumbered(fs) && AllDerived(before, fs) && Grown(before, fs)
  }

  lemma OneKeepsIds(before: Files, fs: Files, p: Path, node: Node, from: Path)
    requires Ids(before, fs) && p !in fs
    requires node.File? ==> node == File(true, Made(p)) || (from in fs && fs[from] == node)
    ensures Ids(before, fs[p := node])
  {
    var more := fs[p := node];
    forall q {:trigger Kept(before, more, q)} ensures Kept(before, more, q) { assert Kept(before, fs, q); }
    assert Kept(before, fs, p);
    forall q {:trigger Numbered(more, q)} ensures Numbered(more, q) {
      assert Numbered(fs, q) && Numbered(fs, from);
    }
    forall q {:trigger Derived(before, more, q)} ensures Derived(before, more, q) {
      assert Derived(before, fs, q) && Derived(before, fs, from);
    }
  }

  lemma MkdirKeepsIds(before: Files, fs: Files, p: Path, refused: set<Path>)
    requires Tree(fs) && Ids(before, fs)
    ensures Ids(before, MkdirAll(fs, p, refused).fs)
  {
    var made := MkdirAll(fs, p, refused).fs;
    MkdirKeepsTree(fs, p, refused);
    GrownTrans(before, fs, made);
    forall q {:trigger Numbered(made, q)} ensures Numbered(made, q) {
      MkdirOnlyAdds(fs, p, refused, q);
      assert Numbered(fs, q) && Kept(fs, made, q);
      if q in fs && fs[q].File? && fs[q].id.Made? { assert Kept(fs, made, fs[q].id.at); }
    }
    forall q {:trigger Derived(before, made, q)} ensures Derived(before, made, q) {
      MkdirOnlyAdds(fs, p, refused, q);
      assert Derived(before, fs, q) && Kept(fs, made, q);
    }
  }

  lemma LastCallKeepsIds(before: Files, fs: Files, p: Path, h: Header, root: bool, target: string, other: Path)
    requires Ids(before, fs)
    ensures Ids(before, WriteFile(fs, p, h, root).fs)
    ensures Ids(before, PlaceLink(fs, p, target, h).fs)
    ensures Ids(before, PlaceHardlink(fs, other, p, h).fs)
  {
    if p !in fs {
      OneKeepsIds(before, fs, p, File(true, Made(p)), p);
      OneKeepsIds(before, fs, p, Link(target), p);
      if other in fs { OneKeepsIds(before, fs, p, fs[other], other); }
    }
  }

  lemma EntryKeepsIds(before: Files, fs: Files, h: Header, root: bool)
    requires Tree(fs) && Ids(before, fs)
    ensures Ids(before, PlaceEntry(fs, h, root).fs)
  {
    var rel := SanitizeArchivePath(h.name);
    if rel.Ok? && rel.value != "" {
      PlacingKeepsIds(before, fs, rel.value, Split(rel.value), h, root);
    }
  }

  lemma PlacingKeepsIds(before: Files, fs: Files, rel: string, p: Path, h: Header, root: bool)
    requires Tree(fs) && Ids(before, fs) && p != []
    ensures Ids(before, PlaceKind(fs, rel, p, h, root).fs)
  {
    MkdirKeepsIds(before, fs, p, h.refused);
    MkdirKeepsIds(before, fs, DirParts(p), h.refused);
    var made := MkdirAll(fs, DirParts(p), h.refused).fs;
    match h.kind
    case RegEntry => LastCallKeepsIds(before, made, p, h, root, "", []);
    case SymlinkEntry =>
      var target := SafeSymlinkTarget(rel, h.link);
      if target.Ok? { LastCallKeepsIds(before, made, p, h, root, target.value, []); }
    case HardlinkEntry =>
      var target := SanitizeArchivePath(h.link);
      if target.Ok? { LastCallKeepsIds(before, made, p, h, root, "", Split(target.value)); }
    case _ =>
  }

  // A file that is written to is one the unpacking may write.
  lemma WrittenMayBe(before: Files, fs: Files, done: Done, p: Path, root: bool)
    requires Ids(before, fs) && Grown(fs, done.fs) && WritesAt(fs, done, p, root)
    ensures MayWrite(before, done.wrote.value, root)
  {
    assert Derived(before, fs, p) && Kept(fs, done.fs, p) && Kept(before, fs, p);
  }

  // Writes to files that may be written only.
  ghost predicate AllMayWrite(before: Files, writes: seq<Write>, root: bool) {
    forall i: nat :: i < |writes| ==> MayWrite(before, writes[i].id, root)
  }

  lemma {:induction false} UnpackWrites(fs: Files, items: seq<Item>, maxEntries: nat, root: bool)
    requires Tree(fs) && AllNumbered(fs)
    ensures Ids(fs, Run(fs, items, maxEntries, root).fs)
    ensures AllMayWrite(fs, Run(fs, items, maxEntries, root).writes, root)
  {
    if items == [] {
      GrownSelf(fs);
      forall q {:trigger Derived(fs, fs, q)} ensures Derived(fs, fs, q) {}
    } else {
      var init, item := items[..|items| - 1], items[|items| - 1];
      UnpackWrites(fs, init, maxEntries, root);
      UnpackIsContained(fs, init, maxEntries, root);
      var st := Run(fs, init, maxEntries, root);
      if item.Entry? {
        var done := PlaceEntry(st.fs, item.header, root);
        EntryKeepsIds(fs, st.fs, item.header, root);
        EntryWrites(st.fs, item.header, root);
        EntryIsContained(st.fs, item.header, root);
        if done.wrote.Some? {
          WrittenMayBe(fs, st.fs, done, Split(SanitizeArchivePath(item.header.name).value), root);
        }
      }
    }
  }

  lemma {:induction false} Unwritten(contents: Contents, writes: seq<Write>, id: Inode)
    requires forall i: nat :: i < |writes| ==> writes[i].id != id
    ensures id in Applied(contents, writes) <==> id in contents
    ensures id in contents ==> Applied(contents, writes)[id] == contents[id]
  {
    if writes != [] { Unwritten(contents, writes[..|writes| - 1], id); }
  }

  // Every name of a file says the same of its write bits.
  ghost predicate OneMode(fs: Files) {
    forall p, q :: p in fs && q in fs && fs[p].File? && fs[q].File? && fs[p].id == fs[q].id ==>
                     fs[p].readOnly == fs[q].readOnly
  }

  // A file's contents are what they were.
  predicate Survives(contents: Contents, writes: seq<Write>, id: Inode) {
    && (id in Applied(contents, writes) <==> id in contents)
    && (id in contents ==> Applied(contents, writes)[id] == contents[id])
  }

  // No archive touches a read-only file of an unprivileged process.
  lemma ReadOnlyContentsStay(fs: Files, contents: Contents, items: seq<Item>, maxEntries: nat, root: bool, q: Path)
    requires Tree(fs) && AllNumbered(fs) && OneMode(fs) && q in fs && fs[q].File? && fs[q].readOnly && !root
    ensures Survives(contents, Run(fs, items, maxEntries, root).writes, fs[q].id)
  {
    UnpackWrites(fs, items, maxEntries, root);
    assert Numbered(fs, q);
    assert !MayWrite(fs, fs[q].id, root);
    Unwritten(contents, Run(fs, items, maxEntries, root).writes, fs[q].id);
  }

  lemma {:induction false} NoHeadersNoWrites(fs: Files, items: seq<Item>, root: bool)
    ensures Run(fs, items, 0, root).writes == []
  {
    if items != [] { NoHeadersNoWrites(fs, items[..|items| - 1], root); }
  }

  // The archive of one regular file.
  function OneFile(q: Path, body: nat): seq<Item> {
    [Entry(Header(Join(q), RegEntry, "", 0, {}, true, true, body))]
  }

  // It overwrites a writable file, or any that root meets.
  lemma OneFileOverwrites(fs: Files, maxEntries: nat, root: bool, q: Path, body: nat)
    requires Tree(fs) && q in fs && fs[q].File? && Plain(q) && (root || !fs[q].readOnly) && maxEntries > 0
    ensures var end := Run(fs, OneFile(q, body), maxEntries, root);
            end.outcome == Fine && end.writes == [Write(fs[q].id, body)]
  {
    assert Placed(fs, q);
    var items := OneFile(q, body);
    var h := items[0].header;
    PlainName(q);
    TakenPathIsWritten(fs, h, root);
    assert items[..0] == [];
  }

  lemma PlainName(q: Path)
    requires Plain(q) && q != []
    ensures SanitizeArchivePath(Join(q)) == Ok(Join(q)) && Join(q) != "" && Split(Join(q)) == q
  {
    PlainJoin(q);
    WalkPlain([], q);
    assert [] + q == q;
    assert PlainComponent(q[0]);
  }

  /** The contents of a file that was there survive every archive exactly when the
      file is read-only and the process is not root, or no header is allowed at all:
      otherwise an archive of one regular file that unpacks without a failure
      overwrites it. */
  lemma ContentsSurviveExactly(fs: Files, contents: Contents, maxEntries: nat, root: bool, q: Path)
    requires Tree(fs) && AllNumbered(fs) && OneMode(fs) && q in fs && fs[q].File? && Plain(q)
    ensures (forall items: seq<Item> :: Survives(contents, Run(fs, items, maxEntries, root).writes, fs[q].id)) <==>
            (fs[q].readOnly && !root) || maxEntries == 0
  {
    var id := fs[q].id;
    if fs[q].readOnly && !root {
      forall items: seq<Item> ensures Survives(contents, Run(fs, items, maxEntries, root).writes, id) {
        ReadOnlyContentsStay(fs, contents, items, maxEntries, root, q);
      }
    } else if maxEntries == 0 {
      forall items: seq<Item> ensures Survives(contents, Run(fs, items, maxEntries, root).writes, id) {
        NoHeadersNoWrites(fs, items, root);
      }
    } else {
      var body: nat := if id in contents then contents[id] + 1 else 0;
      var items := OneFile(q, body);
      OneFileOverwrites(fs, maxEntries, root, q, body);
      assert !Survives(contents, [Write(id, body)], id);
      assert !Survives(contents, Run(fs, items, maxEntries, root).writes, id);
    }
  }
}
