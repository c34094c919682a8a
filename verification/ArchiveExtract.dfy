/**
 Unpacking a tar archive (internal/galaxy/archive/archive.go:130-291 and
 372-413): every entry is checked, charged and placed, with a memo of components
 already seen to be real directories. The memo-free functions come first; the
 class Extractor does the same work with the memo and is proved equal to them.

 Paths are component sequences below the destination, [] being the destination
 itself. The operating system is a map from real paths to objects; a call that
 would have to pass through a symlink answers `Followed`, and no call made here
 ever meets that answer. A file's contents are a number, shared by its hard links.
 Permissions other than the write bits and a Lstat that fails on an existing path are
 not part of the model.
 */
module ArchiveExtract {
  import opened ArchivePaths
  import opened Wrappers

  type Path = seq<string>

  // What hard links share: a file that was there before, or one made at a path.
  datatype Inode = Old(n: nat) | Made(at: Path)

  datatype Node = Dir | File(readOnly: bool, id: Inode) | Link(target: string)

  type Files = map<Path, Node>

  predicate IsDir(fs: Files, p: Path) { p in fs && fs[p].Dir? }

  // An object sits in a real directory.
  predicate Placed(fs: Files, p: Path) {
    p in fs ==> if p == [] then fs[p].Dir? else IsDir(fs, DirParts(p))
  }

  ghost predicate Tree(fs: Files) {
    forall p {:trigger Placed(fs, p)} :: Placed(fs, p)
  }

  // Nothing was removed or replaced.
  predicate Kept(before: Files, after: Files, p: Path) {
    p in before ==> p in after && after[p] == before[p]
  }

  ghost predicate Grown(before: Files, after: Files) {
    forall p {:trigger Kept(before, after, p)} :: Kept(before, after, p)
  }

  // ------------------------------------------------- the operating system

  datatype Stat = Found(node: Node) | NotExist | NotDir | Followed

  function Lstat(fs: Files, p: Path): Stat {
    if p in fs then Found(fs[p])
    else if p == [] then NotExist
    else
      match Lstat(fs, DirParts(p))
      case Found(Dir) => NotExist
      case Found(File(_, _)) => NotDir
      case Found(Link(_)) => Followed
      case other => other
  }

  datatype Failure =
    | BadName(why: PathError)
    | SymlinkComponent | StatFailed
    | MkdirFailed | CreateFailed | WriteFailed | DuplicateEntry
    | SymlinkFailed | HardlinkTargetEmpty | LinkFailed
    | NegativeSize | EntryTooLarge | TotalTooLarge | TooManyEntries | BrokenArchive
    | WentThroughSymlink

  datatype Outcome = Fine | Failed(why: Failure)

  // What a call leaves: the tree, how it went, and the file it wrote to.
  datatype Done = Done(fs: Files, outcome: Outcome, wrote: Option<Inode> := None)

  // os.MkdirAll; creating a directory may fail at the paths in `refused`.
  function MkdirAll(fs: Files, p: Path, refused: set<Path>): (done: Done)
    ensures done.wrote == None
  {
    match Lstat(fs, p)
    case Found(Dir) => Done(fs, Fine)
    case Found(File(_, _)) => Done(fs, Failed(MkdirFailed))
    case Found(Link(_)) => Done(fs, Failed(WentThroughSymlink))
    case NotDir => Done(fs, Failed(MkdirFailed))
    case Followed => Done(fs, Failed(WentThroughSymlink))
    case NotExist =>
      var up := if p == [] then Done(fs, Fine) else MkdirAll(fs, DirParts(p), refused);
      if up.outcome.Failed? then up
      else if p in refused then Done(up.fs, Failed(MkdirFailed))
      else Done(up.fs[p := Dir], Fine)
  }

  // What the archive says, and how the calls made for it go.
  datatype Kind = DirEntry | RegEntry | SymlinkEntry | HardlinkEntry | OtherEntry

  datatype Header = Header(name: string, kind: Kind, link: string, size: int,
                           refused: set<Path>, created: bool, written: bool, body: nat)

  // os.OpenFile with create and truncate, the copy and the close; `root` says
  // that the process may write read-only files.
  function WriteFile(fs: Files, p: Path, h: Header, root: bool): Done {
    match Lstat(fs, p)
    case Found(Dir) => Done(fs, Failed(DuplicateEntry))
    case Found(File(readOnly, id)) =>
      if (readOnly && !root) || !h.created then Done(fs, Failed(DuplicateEntry))
      else Done(fs, if h.written then Fine else Failed(WriteFailed), Some(id))
    case Found(Link(_)) => Done(fs, Failed(WentThroughSymlink))
    case Followed => Done(fs, Failed(WentThroughSymlink))
    case NotDir => Done(fs, Failed(CreateFailed))
    case NotExist =>
      if !h.created || p == [] || !IsDir(fs, DirParts(p)) then Done(fs, Failed(CreateFailed))
      else Done(fs[p := File(true, Made(p))], if h.written then Fine else Failed(WriteFailed), Some(Made(p)))
  }

  // os.Symlink: refuses a path that is taken.
  function PlaceLink(fs: Files, p: Path, target: string, h: Header): Done {
    match Lstat(fs, p)
    case Followed => Done(fs, Failed(WentThroughSymlink))
    case NotExist =>
      if !h.created || p == [] || !IsDir(fs, DirParts(p)) then Done(fs, Failed(SymlinkFailed))
      else Done(fs[p := Link(target)], Fine)
    case _ => Done(fs, Failed(SymlinkFailed))
  }

  // os.Link: the target must be a file, and the new path free.
  function PlaceHardlink(fs: Files, target: Path, p: Path, h: Header): Done {
    match (Lstat(fs, target), Lstat(fs, p))
    case (Followed, _) => Done(fs, Failed(WentThroughSymlink))
    case (_, Followed) => Done(fs, Failed(WentThroughSymlink))
    case (Found(Link(_)), _) => Done(fs, Failed(WentThroughSymlink))
    case (Found(File(readOnly, id)), NotExist) =>
      if !h.created || p == [] || !IsDir(fs, DirParts(p)) then Done(fs, Failed(LinkFailed))
      else Done(fs[p := File(readOnly, id)], Fine)
    case _ => Done(fs, Failed(LinkFailed))
  }

  // ------------------------------------------------ one entry, no memo

  // What a look at one component says.
  function Judge(s: Stat): Outcome {
    match s
    case Found(Link(_)) => Failed(SymlinkComponent)
    case NotDir => Failed(StatFailed)
    case Followed => Failed(WentThroughSymlink)
    case _ => Fine
  }

  // Looking at every component of a path, from the top.
  function CheckPath(fs: Files, p: Path): Outcome {
    if p == [] then Fine
    else
      var above := CheckPath(fs, DirParts(p));
      if above.Failed? then above else Judge(Lstat(fs, p))
  }

  function PlaceSymlink(fs: Files, target: Result<string, PathError>, p: Path, h: Header): Done
    requires p != []
  {
    if target.Err? then Done(fs, Failed(BadName(target.error)))
    else
      var made := MkdirAll(fs, DirParts(p), h.refused);
      if made.outcome.Failed? then made else PlaceLink(made.fs, p, target.value, h)
  }

  function PlaceLinked(fs: Files, target: Result<string, PathError>, p: Path, h: Header): Done
    requires p != []
  {
    if target.Err? then Done(fs, Failed(BadName(target.error)))
    else if target.value == "" then Done(fs, Failed(HardlinkTargetEmpty))
    else
      var checked := CheckPath(fs, Split(target.value));
      if checked.Failed? then Done(fs, checked)
      else
        var made := MkdirAll(fs, DirParts(p), h.refused);
        if made.outcome.Failed? then made else PlaceHardlink(made.fs, Split(target.value), p, h)
  }

  function PlaceFile(fs: Files, p: Path, h: Header, root: bool): Done
    requires p != []
  {
    var made := MkdirAll(fs, DirParts(p), h.refused);
    if made.outcome.Failed? then made else WriteFile(made.fs, p, h, root)
  }

  function PlaceKind(fs: Files, rel: string, p: Path, h: Header, root: bool): Done
    requires p != []
  {
    match h.kind
    case DirEntry => MkdirAll(fs, p, h.refused)
    case RegEntry => PlaceFile(fs, p, h, root)
    case SymlinkEntry => PlaceSymlink(fs, SafeSymlinkTarget(rel, h.link), p, h)
    case HardlinkEntry => PlaceLinked(fs, SanitizeArchivePath(h.link), p, h)
    case OtherEntry => Done(fs, Fine)
  }

  function PlaceEntry(fs: Files, h: Header, root: bool): Done {
    var rel := SanitizeArchivePath(h.name);
    if rel.Err? then Done(fs, Failed(BadName(rel.error)))
    else if rel.value == "" then Done(fs, Fine)
    else
      var p := Split(rel.value);
      var checked := CheckPath(fs, p);
      if checked.Failed? then Done(fs, checked) else PlaceKind(fs, rel.value, p, h, root)
  }

  // ------------------------------------------------- the whole archive

  // internal/galaxy/helpers/const.go:41-45
  const ARCHIVE_MAX_ENTRY_SIZE: int := 512 * 1024 * 1024
  const ARCHIVE_MAX_TOTAL_SIZE: int := 4 * 1024 * 1024 * 1024

  datatype Tally = Tally(declared: int, entries: nat)

  function Charge(size: int, declared: int): Outcome {
    if size < 0 then Failed(NegativeSize)
    else if size > ARCHIVE_MAX_ENTRY_SIZE then Failed(EntryTooLarge)
    else if declared + size > ARCHIVE_MAX_TOTAL_SIZE then Failed(TotalTooLarge)
    else Fine
  }

  datatype Item = Entry(header: Header) | Broken

  // One file's contents set to what an entry's body came to.
  datatype Write = Write(id: Inode, body: nat)

  type Contents = map<Inode, nat>

  function Applied(contents: Contents, writes: seq<Write>): Contents {
    if writes == [] then contents
    else
      var last := writes[|writes| - 1];
      Applied(contents, writes[..|writes| - 1])[last.id := last.body]
  }

  function Logged(writes: seq<Write>, wrote: Option<Inode>, body: nat): seq<Write> {
    match wrote
    case None => writes
    case Some(id) => writes + [Write(id, body)]
  }

  datatype State = State(fs: Files, tally: Tally, outcome: Outcome, writes: seq<Write>)

  function Step(st: State, item: Item, maxEntries: nat, root: bool): State {
    match item
    case Broken => st.(outcome := Failed(BrokenArchive))
    case Entry(h) =>
      var counted := st.(tally := st.tally.(entries := st.tally.entries + 1));
      if counted.tally.entries > maxEntries then counted.(outcome := Failed(TooManyEntries))
      else
        var charge := Charge(h.size, st.tally.declared);
        if charge.Failed? then counted.(outcome := charge)
        else
          var done := PlaceEntry(st.fs, h, root);
          State(done.fs, Tally(st.tally.declared + h.size, counted.tally.entries), done.outcome,
                Logged(st.writes, done.wrote, h.body))
  }

  // The first failure ends the unpacking.
  function Run(fs: Files, items: seq<Item>, maxEntries: nat, root: bool): State {
    if items == [] then State(fs, Tally(0, 0), Fine, [])
    else
      var st := Run(fs, items[..|items| - 1], maxEntries, root);
      if st.outcome.Failed? then st else Step(st, items[|items| - 1], maxEntries, root)
  }

  // ------------------------------------------------- with the memo

  ghost predicate AllDirs(fs: Files, memo: set<Path>) {
    forall p :: p in memo ==> IsDir(fs, p)
  }

  lemma MemoStays(before: Files, after: Files, memo: set<Path>)
    requires AllDirs(before, memo) && Grown(before, after)
    ensures AllDirs(after, memo)
  {
    forall p | p in memo ensures IsDir(after, p) { assert Kept(before, after, p); }
  }

  class Extractor {
    const maxEntries: nat
    const root: bool
    var fs: Files
    var contents: Contents
    var verified: set<Path>
    var declared: int
    var entries: nat

    // The contents at first, and the writes since.
    ghost const before: Contents
    ghost var writes: seq<Write>

    // The memo holds real directories only, now and from here on.
    ghost predicate Valid()
      reads this
    {
      Tree(fs) && AllDirs(fs, verified) && contents == Applied(before, writes)
    }

    // An entry's effect is the one described.
    ghost predicate Does(done: Done, earlier: seq<Write>, body: nat, outcome: Outcome)
      reads this
    {
      fs == done.fs && outcome == done.outcome && writes == Logged(earlier, done.wrote, body)
    }

    constructor (found: Files, contents: Contents, maxEntries: nat, root: bool)
      requires Tree(found)
      ensures Valid() && fs == found && before == contents && writes == [] && declared == 0 && entries == 0
      ensures this.maxEntries == maxEntries && this.root == root
    {
      this.maxEntries := maxEntries;
      this.root := root;
      fs, this.contents := found, contents;
      before, writes := contents, [];
      verified := {};
      declared := 0;
      entries := 0;
    }

    // checkPathComponentNotSymlink: the answer a fresh look would give.
    method CheckComponent(p: Path) returns (outcome: Outcome)
      requires Valid()
      modifies this`verified
      ensures Valid() && old(verified) <= verified
      ensures outcome == Judge(Lstat(fs, p))
    {
      if p in verified { return Fine; }
      var stat := Lstat(fs, p);
      outcome := Judge(stat);
      if stat == Found(Dir) { verified := verified + {p}; }
    }

    // ensureNoSymlinkParents
    method EnsureNoSymlinkParents(p: Path) returns (outcome: Outcome)
      requires Valid()
      modifies this`verified
      ensures Valid() && old(verified) <= verified
      ensures outcome == CheckPath(fs, p)
    {
      var i := 0;
      while i < |p|
        invariant i <= |p| && Valid() && old(verified) <= verified
        invariant CheckPath(fs, p[..i]) == Fine
      {
        assert DirParts(p[..i + 1]) == p[..i];
        outcome := CheckComponent(p[..i + 1]);
        if outcome.Failed? {
          FailureAbove(fs, p, i + 1);
          return;
        }
        i := i + 1;
      }
      assert p[..i] == p;
      outcome := Fine;
    }

    // ensureDir
    method EnsureDir(p: Path, refused: set<Path>) returns (outcome: Outcome)
      requires Valid()
      modifies this`fs, this`verified
      ensures Valid() && old(verified) <= verified
      ensures Done(fs, outcome) == MkdirAll(old(fs), p, refused)
    {
      if p in verified { return Fine; }
      var made := MkdirAll(fs, p, refused);
      MkdirKeepsTree(fs, p, refused);
      MemoStays(fs, made.fs, verified);
      fs := made.fs;
      if made.outcome == Fine { verified := verified + {p}; }
      outcome := made.outcome;
    }

    method ExtractRegularFile(p: Path, h: Header) returns (outcome: Outcome)
      requires Valid() && p != []
      modifies this`fs, this`verified, this`contents, this`writes
      ensures Valid()
      ensures Does(PlaceFile(old(fs), p, h, root), old(writes), h.body, outcome)
    {
      outcome := EnsureDir(DirParts(p), h.refused);
      if outcome.Failed? { return; }
      var done := WriteFile(fs, p, h, root);
      LastCallKeepsTree(fs, p, h, root, "", []);
      MemoStays(fs, done.fs, verified);
      fs := done.fs;
      outcome := done.outcome;
      if done.wrote.Some? { Overwrite(done.wrote.value, h.body); }
    }

    // The body goes into a file, under all its names.
    method Overwrite(id: Inode, body: nat)
      requires Valid()
      modifies this`contents, this`writes
      ensures Valid() && contents == old(contents)[id := body]
      ensures writes == old(writes) + [Write(id, body)]
    {
      ghost var earlier := writes;
      contents := contents[id := body];
      writes := writes + [Write(id, body)];
      assert writes[..|writes| - 1] == earlier;
    }

    method ExtractSymlink(rel: string, p: Path, h: Header) returns (outcome: Outcome)
      requires Valid() && p != []
      modifies this`fs, this`verified
      ensures Valid()
      ensures Does(PlaceSymlink(old(fs), SafeSymlinkTarget(rel, h.link), p, h), writes, h.body, outcome)
    {
      var target := SafeSymlinkTarget(rel, h.link);
      if target.Err? { return Failed(BadName(target.error)); }
      outcome := EnsureDir(DirParts(p), h.refused);
      if outcome.Failed? { return; }
      var done := PlaceLink(fs, p, target.value, h);
      LastCallKeepsTree(fs, p, h, root, target.value, []);
      MemoStays(fs, done.fs, verified);
      fs := done.fs;
      outcome := done.outcome;
    }

    method ExtractHardlink(p: Path, h: Header) returns (outcome: Outcome)
      requires Valid() && p != []
      modifies this`fs, this`verified
      ensures Valid()
      ensures Does(PlaceLinked(old(fs), SanitizeArchivePath(h.link), p, h), writes, h.body, outcome)
    {
      var target := SanitizeArchivePath(h.link);
      if target.Err? { return Failed(BadName(target.error)); }
      if target.value == "" { return Failed(HardlinkTargetEmpty); }
      outcome := EnsureNoSymlinkParents(Split(target.value));
      if outcome.Failed? { return; }
      outcome := EnsureDir(DirParts(p), h.refused);
      if outcome.Failed? { return; }
      var done := PlaceHardlink(fs, Split(target.value), p, h);
      LastCallKeepsTree(fs, p, h, root, "", Split(target.value));
      MemoStays(fs, done.fs, verified);
      fs := done.fs;
      outcome := done.outcome;
    }

    // handleTarEntry
    method HandleEntry(h: Header) returns (outcome: Outcome)
      requires Valid()
      modifies this`fs, this`verified, this`contents, this`writes
      ensures Valid()
      ensures Does(PlaceEntry(old(fs), h, root), old(writes), h.body, outcome)
    {
      var rel := SanitizeArchivePath(h.name);
      if rel.Err? { return Failed(BadName(rel.error)); }
      if rel.value == "" { return Fine; }
      var p := Split(rel.value);
      outcome := EnsureNoSymlinkParents(p);
      if outcome.Failed? { return; }
      match h.kind
      case DirEntry => outcome := EnsureDir(p, h.refused);
      case RegEntry => outcome := ExtractRegularFile(p, h);
      case SymlinkEntry => outcome := ExtractSymlink(rel.value, p, h);
      case HardlinkEntry => outcome := ExtractHardlink(p, h);
      case OtherEntry =>
    }

    // chargeEntrySize
    method ChargeEntrySize(size: int) returns (outcome: Outcome)
      modifies this`declared
      ensures outcome == Fine <==> 0 <= size <= ARCHIVE_MAX_ENTRY_SIZE && old(declared) + size <= ARCHIVE_MAX_TOTAL_SIZE
      ensures outcome == Failed(NegativeSize) <==> size < 0
      ensures outcome == Failed(EntryTooLarge) <==> size > ARCHIVE_MAX_ENTRY_SIZE
      ensures outcome in [Fine, Failed(NegativeSize), Failed(EntryTooLarge), Failed(TotalTooLarge)]
      ensures declared == old(declared) + if outcome == Fine then size else 0
    {
      if size < 0 { return Failed(NegativeSize); }
      if size > ARCHIVE_MAX_ENTRY_SIZE { return Failed(EntryTooLarge); }
      if declared + size > ARCHIVE_MAX_TOTAL_SIZE { return Failed(TotalTooLarge); }
      declared := declared + size;
      outcome := Fine;
    }

    // A header that was counted: charged, then placed.
    method ChargeAndHandle(h: Header) returns (outcome: Outcome)
      requires Valid()
      modifies this`fs, this`verified, this`contents, this`writes, this`declared
      ensures Valid()
      ensures declared == old(declared) + if Charge(h.size, old(declared)) == Fine then h.size else 0
      ensures if Charge(h.size, old(declared)) == Fine
              then Does(PlaceEntry(old(fs), h, root), old(writes), h.body, outcome)
              else Does(Done(old(fs), Charge(h.size, old(declared))), old(writes), h.body, outcome)
    {
      outcome := ChargeEntrySize(h.size);
      if outcome.Failed? { return; }
      outcome := HandleEntry(h);
    }

    // One header: counted, charged, placed.
    method ExtractEntry(item: Item) returns (outcome: Outcome)
      requires Valid()
      modifies this
      ensures Valid()
      ensures State(fs, Tally(declared, entries), outcome, writes) ==
              Step(old(State(fs, Tally(declared, entries), Fine, writes)), item, maxEntries, root)
    {
      if item.Broken? { return Failed(BrokenArchive); }
      entries := entries + 1;
      if entries > maxEntries { return Failed(TooManyEntries); }
      outcome := ChargeAndHandle(item.header);
    }

    // extractTarEntries: unpacking with the memo is unpacking without it.
    method Extract(items: seq<Item>) returns (outcome: Outcome)
      requires Valid() && declared == 0 && entries == 0 && writes == []
      modifies this
      ensures Valid()
      ensures State(fs, Tally(declared, entries), outcome, writes) == Run(old(fs), items, maxEntries, root)
      ensures contents == Applied(before, Run(old(fs), items, maxEntries, root).writes)
    {
      ghost var found := fs;
      var i := 0;
      while i < |items|
        invariant i <= |items| && Valid()
        invariant State(fs, Tally(declared, entries), Fine, writes) == Run(found, items[..i], maxEntries, root)
      {
        outcome := ExtractEntry(items[i]);
        RunOneMore(found, items, i, maxEntries, root);
        if outcome.Failed? { return; }
        i := i + 1;
      }
      assert items[..i] == items;
      outcome := Fine;
    }
  }

  lemma RunOneMore(fs: Files, items: seq<Item>, i: nat, maxEntries: nat, root: bool)
    requires i < |items| && Run(fs, items[..i], maxEntries, root).outcome == Fine
    ensures var next := Step(Run(fs, items[..i], maxEntries, root), items[i], maxEntries, root);
            && Run(fs, items[..i + 1], maxEntries, root) == next
            && (next.outcome.Failed? ==> Run(fs, items, maxEntries, root) == next)
  {
    assert items[..i + 1][..i] == items[..i];
    RunEnds(fs, items, i + 1, maxEntries, root);
  }

  lemma {:induction false} FailureAbove(fs: Files, p: Path, n: nat)
    requires n <= |p| && CheckPath(fs, p[..n]).Failed?
    ensures CheckPath(fs, p) == CheckPath(fs, p[..n])
  {
    if n == |p| {
      assert p[..n] == p;
    } else {
      assert DirParts(p)[..n] == p[..n];
      FailureAbove(fs, DirParts(p), n);
    }
  }

  lemma {:induction false} RunEnds(fs: Files, items: seq<Item>, n: nat, maxEntries: nat, root: bool)
    requires n <= |items|
    ensures Run(fs, items[..n], maxEntries, root).outcome.Failed? ==>
              Run(fs, items, maxEntries, root) == Run(fs, items[..n], maxEntries, root)
  {
    if n == |items| {
      assert items[..n] == items;
    } else {
      assert items[..|items| - 1][..n] == items[..n];
      RunEnds(fs, items[..|items| - 1], n, maxEntries, root);
    }
  }

  // ------------------------------------------------- what every call keeps

  lemma GrownTrans(a: Files, b: Files, c: Files)
    requires Grown(a, b) && Grown(b, c)
    ensures Grown(a, c)
  {
    forall p ensures Kept(a, c, p) {
      assert Kept(a, b, p) && Kept(b, c, p);
    }
  }

  // One new object in a real directory.
  lemma TreeAdd(fs: Files, p: Path, node: Node)
    requires Tree(fs) && p !in fs && (if p == [] then node.Dir? else IsDir(fs, DirParts(p)))
    ensures Tree(fs[p := node]) && Grown(fs, fs[p := node])
  {
    var more := fs[p := node];
    forall q {:trigger Placed(more, q)} ensures Placed(more, q) {
      assert Placed(fs, q);
    }
    forall q {:trigger Kept(fs, more, q)} ensures Kept(fs, more, q) {}
  }

  // Only prefixes of the wanted path are created.
  predicate NewAbove(before: Files, after: Files, p: Path, q: Path) {
    q in after && q !in before ==> |q| <= |p| && q == p[..|q|] && after[q] == Dir
  }

  lemma {:induction false} MkdirOnlyAdds(fs: Files, p: Path, refused: set<Path>, q: Path)
    ensures NewAbove(fs, MkdirAll(fs, p, refused).fs, p, q)
  {
    if Lstat(fs, p) == NotExist {
      assert p == p[..|p|];
      if p != [] {
        MkdirOnlyAdds(fs, DirParts(p), refused, q);
        if |q| < |p| { assert DirParts(p)[..|q|] == p[..|q|]; }
      }
    }
  }

  lemma {:induction false} MkdirKeepsTree(fs: Files, p: Path, refused: set<Path>)
    requires Tree(fs)
    ensures var made := MkdirAll(fs, p, refused);
            && Tree(made.fs) && Grown(fs, made.fs) && (made.outcome == Fine ==> IsDir(made.fs, p))
  {
    if Lstat(fs, p) == NotExist {
      if p != [] {
        MkdirKeepsTree(fs, DirParts(p), refused);
        MkdirOnlyAdds(fs, DirParts(p), refused, p);
      }
      var up := if p == [] then Done(fs, Fine) else MkdirAll(fs, DirParts(p), refused);
      if up.outcome == Fine && p !in refused {
        TreeAdd(up.fs, p, Dir);
        GrownTrans(fs, up.fs, up.fs[p := Dir]);
      }
    }
  }

  lemma LastCallKeepsTree(fs: Files, p: Path, h: Header, root: bool, target: string, other: Path)
    requires Tree(fs)
    ensures Tree(WriteFile(fs, p, h, root).fs) && Grown(fs, WriteFile(fs, p, h, root).fs)
    ensures Tree(PlaceLink(fs, p, target, h).fs) && Grown(fs, PlaceLink(fs, p, target, h).fs)
    ensures Tree(PlaceHardlink(fs, other, p, h).fs) && Grown(fs, PlaceHardlink(fs, other, p, h).fs)
  {
    if p !in fs && p != [] && IsDir(fs, DirParts(p)) {
      TreeAdd(fs, p, File(true, Made(p)));
      TreeAdd(fs, p, Link(target));
      if Lstat(fs, other).Found? { TreeAdd(fs, p, Lstat(fs, other).node); }
    }
  }

  // ------------------------------------------------------------- budgets

  function Sizes(items: seq<Item>): int {
    if items == [] then 0
    else Sizes(items[..|items| - 1]) + if items[|items| - 1].Entry? then items[|items| - 1].header.size else 0
  }

  lemma StepCharges(st: State, item: Item, maxEntries: nat, root: bool)
    requires 0 <= st.tally.declared <= ARCHIVE_MAX_TOTAL_SIZE && st.tally.entries <= maxEntries
    ensures var end := Step(st, item, maxEntries, root);
            && 0 <= end.tally.declared <= ARCHIVE_MAX_TOTAL_SIZE
            && end.tally.entries <= st.tally.entries + 1
            && (end.outcome == Fine ==>
                  && end.tally.entries == st.tally.entries + 1 <= maxEntries && item.Entry?
                  && 0 <= item.header.size <= ARCHIVE_MAX_ENTRY_SIZE
                  && end.tally.declared == st.tally.declared + item.header.size)
  {}

  // Every header of the archive was charged.
  predicate Charged(items: seq<Item>, tally: Tally) {
    && |items| == tally.entries && Sizes(items) == tally.declared
    && forall i: nat :: i < |items| ==> items[i].Entry? && 0 <= items[i].header.size <= ARCHIVE_MAX_ENTRY_SIZE
  }

  /** An archive that unpacks had no more headers and no more declared bytes than
      allowed; at no point was more charged, so the charge fits 63 bits. */
  lemma {:induction false} BudgetsHold(fs: Files, items: seq<Item>, maxEntries: nat, root: bool)
    ensures var end := Run(fs, items, maxEntries, root);
            && 0 <= end.tally.declared <= ARCHIVE_MAX_TOTAL_SIZE
            && end.tally.entries <= maxEntries + 1 && end.tally.entries <= |items|
            && (end.outcome == Fine ==> Charged(items, end.tally) && end.tally.entries <= maxEntries)
    ensures ARCHIVE_MAX_TOTAL_SIZE + ARCHIVE_MAX_ENTRY_SIZE < 0x8000_0000_0000_0000
  {
    if items != [] {
      var init := items[..|items| - 1];
      BudgetsHold(fs, init, maxEntries, root);
      var st := Run(fs, init, maxEntries, root);
      if st.outcome == Fine {
        StepCharges(st, items[|items| - 1], maxEntries, root);
        assert forall i: nat :: i < |init| ==> items[i] == init[i];
      }
    }
  }
}
