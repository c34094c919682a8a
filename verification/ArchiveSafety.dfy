/**
 What unpacking any archive is safe for (internal/galaxy/archive/archive.go:130-291
 and 372-413): nothing goes through a symlink, nothing is removed or replaced, every
 new object is below the destination, and no symlink leads out of it.
 */
module ArchiveSafety {
  import Text
  import opened ArchiveExtract
  import opened ArchivePaths
  import opened Wrappers

  // ------------------------------------------- never through a symlink

  // No component of the path is a symlink.
  predicate LinkFree(fs: Files, p: Path) {
    && (p in fs ==> !fs[p].Link?)
    && (p == [] || LinkFree(fs, DirParts(p)))
  }

  /** The component check passes exactly when no component is a symlink and none
      above the last is a file; it never looks through a symlink itself. */
  lemma {:induction false} CheckPathMeans(fs: Files, p: Path)
    requires Tree(fs)
    ensures CheckPath(fs, p) == Fine <==> LinkFree(fs, p) && Lstat(fs, p) != NotDir
    ensures CheckPath(fs, p) != Failed(WentThroughSymlink)
    ensures LinkFree(fs, p) ==> Lstat(fs, p) != Followed && !(Lstat(fs, p).Found? && Lstat(fs, p).node.Link?)
  {
    assert Placed(fs, p);
    if p != [] {
      CheckPathMeans(fs, DirParts(p));
      if p in fs { assert Placed(fs, DirParts(p)); }
    }
  }

  lemma {:induction false} LinkFreeAfterMkdir(fs: Files, p: Path, refused: set<Path>, q: Path)
    requires Tree(fs) && LinkFree(fs, q)
    ensures LinkFree(MkdirAll(fs, p, refused).fs, q)
  {
    MkdirOnlyAdds(fs, p, refused, q);
    MkdirKeepsTree(fs, p, refused);
    assert Kept(fs, MkdirAll(fs, p, refused).fs, q);
    if q != [] { LinkFreeAfterMkdir(fs, p, refused, DirParts(q)); }
  }

  lemma {:induction false} MkdirFollowsNothing(fs: Files, p: Path, refused: set<Path>)
    requires Tree(fs) && LinkFree(fs, p)
    ensures MkdirAll(fs, p, refused).outcome != Failed(WentThroughSymlink)
  {
    CheckPathMeans(fs, p);
    if p != [] { MkdirFollowsNothing(fs, DirParts(p), refused); }
  }

  lemma PlacingFollowsNothing(fs: Files, target: Result<string, PathError>, p: Path, h: Header, root: bool)
    requires Tree(fs) && p != [] && LinkFree(fs, p)
    ensures PlaceFile(fs, p, h, root).outcome != Failed(WentThroughSymlink)
    ensures PlaceSymlink(fs, target, p, h).outcome != Failed(WentThroughSymlink)
  {
    var up := DirParts(p);
    var made := MkdirAll(fs, up, h.refused).fs;
    MkdirFollowsNothing(fs, up, h.refused);
    MkdirKeepsTree(fs, up, h.refused);
    LinkFreeAfterMkdir(fs, up, h.refused, p);
    CheckPathMeans(made, p);
  }

  lemma LinkingFollowsNothing(fs: Files, target: Result<string, PathError>, p: Path, h: Header)
    requires Tree(fs) && p != [] && LinkFree(fs, p)
    ensures PlaceLinked(fs, target, p, h).outcome != Failed(WentThroughSymlink)
  {
    if target.Ok? && target.value != "" {
      var up, other := DirParts(p), Split(target.value);
      CheckPathMeans(fs, other);
      if CheckPath(fs, other) == Fine {
        var made := MkdirAll(fs, up, h.refused).fs;
        MkdirFollowsNothing(fs, up, h.refused);
        MkdirKeepsTree(fs, up, h.refused);
        LinkFreeAfterMkdir(fs, up, h.refused, p);
        CheckPathMeans(made, p);
        LinkFreeAfterMkdir(fs, up, h.refused, other);
        CheckPathMeans(made, other);
      }
    }
  }

  // ---------------------------------------------------- where links lead

  // Some steps up, at most `depth`, then plain components.
  predicate UpDown(depth: nat, parts: seq<string>) {
    if parts != [] && parts[0] == ".." then depth > 0 && UpDown(depth - 1, parts[1..])
    else Plain(parts)
  }

  lemma {:induction false} UpsThenPlain(depth: nat, k: nat, down: seq<string>)
    requires k <= depth && Plain(down)
    ensures UpDown(depth, Ups(k) + down)
  {
    if k == 0 {
      assert Ups(0) + down == down;
      if down != [] { assert PlainComponent(down[0]); }
    } else {
      assert (Ups(k) + down)[1..] == Ups(k - 1) + down;
      UpsThenPlain(depth - 1, k - 1, down);
    }
  }

  // Cleaning the link name first does not change where it leads.
  lemma ResolvedLeadsTo(path: string, link: string)
    requires SanitizedPath(path) && link != "" && link[0] != '/'
    ensures Walk(false, [], DirParts(Split(path)) + Clean(link).parts) == LeadsTo(path, link)
  {
    var base := DirParts(Split(path));
    Text.SplitIsWithout('/', link);
    WalkPlain([], base);
    assert [] + base == base;
    WalkAppend(false, [], base, Clean(link).parts);
    WalkAppend(false, [], base, Split(link));
    WalkCleaned(base, Split(link));
  }

  lemma RelIsUpDown(base: seq<string>, target: seq<string>)
    requires Plain(target)
    ensures UpDown(|base|, Rel(base, target))
  {
    var k := CommonPrefix(base, target);
    assert Plain(target[k..]);
    UpsThenPlain(|base|, |base| - k, target[k..]);
  }

  lemma RelIsSplitAgain(base: seq<string>, target: seq<string>)
    requires Plain(target) && base != target
    ensures Split(Join(Rel(base, target))) == Rel(base, target)
  {
    RelIsDot(base, target);
    RelHasNoSlash(base, target);
    Text.SplitJoin('/', Rel(base, target));
  }

  // What a stored symlink target looks like.
  lemma AcceptedShape(path: string, link: string)
    requires SanitizedPath(path)
    ensures var r := SafeSymlinkTarget(path, link);
            r.Ok? ==> UpDown(|Split(path)| - 1, Split(r.value))
  {
    if SafeSymlinkTarget(path, link).Ok? {
      ResolvedLeadsTo(path, link);
      SymlinkTargets(path, link);
      RelIsUpDown(DirParts(Split(path)), LeadsTo(path, link));
      RelIsSplitAgain(DirParts(Split(path)), LeadsTo(path, link));
    }
  }

  // An object an entry may add: below the destination, and if it is a symlink,
  // one that climbs no higher than the destination.
  predicate Sound(q: Path, node: Node) {
    node.Link? ==> q != [] && UpDown(|q| - 1, Split(node.target))
  }

  predicate NewSound(before: Files, after: Files, q: Path) {
    q in after && q !in before ==> Plain(q) && Sound(q, after[q])
  }

  // The last call adds nothing but the entry's own path.
  lemma MkdirAddsSound(fs: Files, p: Path, refused: set<Path>, q: Path)
    requires Plain(p)
    ensures NewSound(fs, MkdirAll(fs, p, refused).fs, q)
  {
    MkdirOnlyAdds(fs, p, refused, q);
  }

  lemma OneAddsSound(fs: Files, p: Path, node: Node, q: Path)
    requires Plain(p) && Sound(p, node)
    ensures NewSound(fs, fs[p := node], q)
  {}

  lemma SoundTrans(a: Files, b: Files, c: Files, q: Path)
    requires NewSound(a, b, q) && NewSound(b, c, q) && Grown(b, c)
    ensures NewSound(a, c, q)
  {
    assert Kept(b, c, q);
  }

  // A target, if there is one, is of the shape kept at this path.
  predicate Fits(target: Result<string, PathError>, p: Path)
    requires p != []
  {
    target.Ok? ==> UpDown(|p| - 1, Split(target.value))
  }

  lemma FileAddsSound(fs: Files, p: Path, h: Header, root: bool, q: Path)
    requires Tree(fs) && p != [] && Plain(p)
    ensures NewSound(fs, PlaceFile(fs, p, h, root).fs, q)
  {
    var made := MkdirAll(fs, DirParts(p), h.refused).fs;
    MkdirAddsSound(fs, DirParts(p), h.refused, q);
    MkdirKeepsTree(fs, DirParts(p), h.refused);
    OneAddsSound(made, p, File(true, Made(p)), q);
    LastCallKeepsTree(made, p, h, root, "", []);
    SoundTrans(fs, made, WriteFile(made, p, h, root).fs, q);
  }

  lemma SymlinkAddsSound(fs: Files, target: Result<string, PathError>, p: Path, h: Header, q: Path)
    requires Tree(fs) && p != [] && Plain(p) && Fits(target, p)
    ensures NewSound(fs, PlaceSymlink(fs, target, p, h).fs, q)
  {
    if target.Ok? {
      var made := MkdirAll(fs, DirParts(p), h.refused).fs;
      MkdirAddsSound(fs, DirParts(p), h.refused, q);
      MkdirKeepsTree(fs, DirParts(p), h.refused);
      OneAddsSound(made, p, Link(target.value), q);
      LastCallKeepsTree(made, p, h, false, target.value, []);
      SoundTrans(fs, made, PlaceLink(made, p, target.value, h).fs, q);
    }
  }

  lemma HardlinkAddsSound(fs: Files, target: Result<string, PathError>, p: Path, h: Header, q: Path)
    requires Tree(fs) && p != [] && Plain(p)
    ensures NewSound(fs, PlaceLinked(fs, target, p, h).fs, q)
  {
    if target.Ok? {
      var made := MkdirAll(fs, DirParts(p), h.refused).fs;
      MkdirAddsSound(fs, DirParts(p), h.refused, q);
      MkdirKeepsTree(fs, DirParts(p), h.refused);
      var from := Lstat(made, Split(target.value));
      if from.Found? && from.node.File? { OneAddsSound(made, p, from.node, q); }
      LastCallKeepsTree(made, p, h, false, "", Split(target.value));
      SoundTrans(fs, made, PlaceHardlink(made, Split(target.value), p, h).fs, q);
    }
  }

  // An entry's effect is contained.
  ghost predicate Contained(before: Files, done: Done) {
    && Tree(done.fs) && Grown(before, done.fs)
    && (forall q {:trigger NewSound(before, done.fs, q)} :: NewSound(before, done.fs, q))
    && done.outcome != Failed(WentThroughSymlink)
  }

  lemma DirIsContained(fs: Files, p: Path, h: Header)
    requires Tree(fs) && Plain(p) && LinkFree(fs, p)
    ensures Contained(fs, MkdirAll(fs, p, h.refused))
  {
    var made := MkdirAll(fs, p, h.refused).fs;
    forall q {:trigger NewSound(fs, made, q)} ensures NewSound(fs, made, q) { MkdirAddsSound(fs, p, h.refused, q); }
    MkdirFollowsNothing(fs, p, h.refused);
    MkdirKeepsTree(fs, p, h.refused);
  }

  lemma FileIsContained(fs: Files, p: Path, h: Header, root: bool)
    requires Tree(fs) && p != [] && Plain(p) && LinkFree(fs, p)
    ensures Contained(fs, PlaceFile(fs, p, h, root))
  {
    var after := PlaceFile(fs, p, h, root).fs;
    forall q {:trigger NewSound(fs, after, q)} ensures NewSound(fs, after, q) { FileAddsSound(fs, p, h, root, q); }
    PlacingFollowsNothing(fs, Err(EmptyTarget), p, h, root);
    PlacingKeepsTree(fs, Err(EmptyTarget), p, h, root);
  }

  lemma SymlinkIsContained(fs: Files, target: Result<string, PathError>, p: Path, h: Header)
    requires Tree(fs) && p != [] && Plain(p) && LinkFree(fs, p) && Fits(target, p)
    ensures Contained(fs, PlaceSymlink(fs, target, p, h))
  {
    var after := PlaceSymlink(fs, target, p, h).fs;
    forall q {:trigger NewSound(fs, after, q)} ensures NewSound(fs, after, q) { SymlinkAddsSound(fs, target, p, h, q); }
    PlacingFollowsNothing(fs, target, p, h, false);
    PlacingKeepsTree(fs, target, p, h, false);
  }

  lemma HardlinkIsContained(fs: Files, target: Result<string, PathError>, p: Path, h: Header)
    requires Tree(fs) && p != [] && Plain(p) && LinkFree(fs, p)
    ensures Contained(fs, PlaceLinked(fs, target, p, h))
  {
    var after := PlaceLinked(fs, target, p, h).fs;
    forall q {:trigger NewSound(fs, after, q)} ensures NewSound(fs, after, q) {
      HardlinkAddsSound(fs, target, p, h, q);
    }
    LinkingFollowsNothing(fs, target, p, h);
    PlacingKeepsTree(fs, target, p, h, false);
  }

  lemma PlacingIsContained(fs: Files, rel: string, p: Path, h: Header, root: bool)
    requires Tree(fs) && p != [] && Plain(p) && LinkFree(fs, p) && Fits(SafeSymlinkTarget(rel, h.link), p)
    ensures Contained(fs, PlaceKind(fs, rel, p, h, root))
  {
    match h.kind
    case DirEntry => DirIsContained(fs, p, h);
    case RegEntry => FileIsContained(fs, p, h, root);
    case SymlinkEntry => SymlinkIsContained(fs, SafeSymlinkTarget(rel, h.link), p, h);
    case HardlinkEntry => HardlinkIsContained(fs, SanitizeArchivePath(h.link), p, h);
    case OtherEntry => GrownSelf(fs);
  }

  /** One entry, whatever its name, link and luck: no object is removed or replaced
      by another, every one still sits in a real directory, each new one is below
      the destination, and no call went through a symlink. */
  lemma EntryIsContained(fs: Files, h: Header, root: bool)
    requires Tree(fs)
    ensures Contained(fs, PlaceEntry(fs, h, root))
  {
    var rel := SanitizeArchivePath(h.name);
    SanitizedNames(h.name);
    GrownSelf(fs);
    if rel.Ok? && rel.value != "" {
      var p := Split(rel.value);
      CheckPathMeans(fs, p);
      if CheckPath(fs, p) == Fine {
        AcceptedShape(rel.value, h.link);
        PlacingIsContained(fs, rel.value, p, h, root);
      }
    }
  }

  lemma GrownSelf(fs: Files)
    ensures Grown(fs, fs)
  {
    forall q {:trigger Kept(fs, fs, q)} ensures Kept(fs, fs, q) {}
  }

  lemma PlacingKeepsTree(fs: Files, target: Result<string, PathError>, p: Path, h: Header, root: bool)
    requires Tree(fs) && p != []
    ensures Tree(PlaceFile(fs, p, h, root).fs) && Grown(fs, PlaceFile(fs, p, h, root).fs)
    ensures Tree(PlaceSymlink(fs, target, p, h).fs) && Grown(fs, PlaceSymlink(fs, target, p, h).fs)
    ensures Tree(PlaceLinked(fs, target, p, h).fs) && Grown(fs, PlaceLinked(fs, target, p, h).fs)
  {
    var made := MkdirAll(fs, DirParts(p), h.refused).fs;
    GrownSelf(fs);
    MkdirKeepsTree(fs, DirParts(p), h.refused);
    var text := if target.Ok? then target.value else "";
    LastCallKeepsTree(made, p, h, root, text, Split(text));
    GrownTrans(fs, made, WriteFile(made, p, h, root).fs);
    GrownTrans(fs, made, PlaceLink(made, p, text, h).fs);
    GrownTrans(fs, made, PlaceHardlink(made, Split(text), p, h).fs);
  }

  /** The same for a whole archive, wherever it stops. */
  lemma {:induction false} UnpackIsContained(fs: Files, items: seq<Item>, maxEntries: nat, root: bool)
    requires Tree(fs)
    ensures var end := Run(fs, items, maxEntries, root); Contained(fs, Done(end.fs, end.outcome))
  {
    if items == [] {
      GrownSelf(fs);
    } else {
      var st := Run(fs, items[..|items| - 1], maxEntries, root);
      UnpackIsContained(fs, items[..|items| - 1], maxEntries, root);
      var item := items[|items| - 1];
      if item.Entry? {
        EntryIsContained(st.fs, item.header, root);
        var done := PlaceEntry(st.fs, item.header, root);
        GrownTrans(fs, st.fs, done.fs);
        forall q {:trigger NewSound(fs, done.fs, q)} ensures NewSound(fs, done.fs, q) {
          assert NewSound(fs, st.fs, q) && NewSound(st.fs, done.fs, q) && Kept(st.fs, done.fs, q);
        }
      }
    }
  }

  // Resolving a path as the operating system does, from a directory on.
  datatype Resolved = Reached(p: Path) | Missing | Blocked | TooManyLinks | Outside

  function Follow(fs: Files, cur: Path, todo: seq<string>, fuel: nat): Resolved
    decreases fuel, |todo|
  {
    if todo == [] then Reached(cur)
    else if !IsDir(fs, cur) then Blocked
    else if todo[0] == "" || todo[0] == "." then Follow(fs, cur, todo[1..], fuel)
    else if todo[0] == ".." then if cur == [] then Outside else Follow(fs, DirParts(cur), todo[1..], fuel)
    else
      var next := cur + [todo[0]];
      if next !in fs then Missing
      else if !fs[next].Link? then Follow(fs, next, todo[1..], fuel)
      else if fuel == 0 then TooManyLinks
      else if fs[next].target != "" && fs[next].target[0] == '/' then Outside
      else Follow(fs, cur, Split(fs[next].target) + todo[1..], fuel - 1)
  }

  ghost predicate LinksSound(fs: Files) {
    forall q :: q in fs ==> Sound(q, fs[q])
  }

  lemma {:induction false} UpDownThenPlain(depth: nat, parts: seq<string>, rest: seq<string>)
    requires UpDown(depth, parts) && Plain(rest)
    ensures UpDown(depth, parts + rest)
  {
    if parts != [] && parts[0] == ".." {
      assert (parts + rest)[1..] == parts[1..] + rest;
      UpDownThenPlain(depth - 1, parts[1..], rest);
    } else {
      assert Plain(parts + rest);
      UpsThenPlain(depth, 0, parts + rest);
      assert Ups(0) + (parts + rest) == parts + rest;
    }
  }

  lemma UpDownIsRelative(depth: nat, target: string)
    requires UpDown(depth, Split(target))
    ensures target == "" || target[0] != '/'
  {
    assert !PlainComponent("");
    assert Plain(Split(target)) ==> PlainComponent(Split(target)[0]);
  }

  lemma {:induction false} FollowStaysInside(fs: Files, cur: Path, todo: seq<string>, fuel: nat)
    requires LinksSound(fs) && UpDown(|cur|, todo)
    ensures Follow(fs, cur, todo, fuel) != Outside
    decreases fuel, |todo|
  {
    if todo != [] && IsDir(fs, cur) {
      if todo[0] == ".." {
        FollowStaysInside(fs, DirParts(cur), todo[1..], fuel);
      } else {
        assert PlainComponent(todo[0]) && Plain(todo[1..]);
        var next := cur + [todo[0]];
        if next in fs {
          PlainGoesOn(|next|, todo[1..]);
          if !fs[next].Link? {
            FollowStaysInside(fs, next, todo[1..], fuel);
          } else if fuel > 0 {
            assert Sound(next, fs[next]);
            UpDownIsRelative(|cur|, fs[next].target);
            UpDownThenPlain(|cur|, Split(fs[next].target), todo[1..]);
            FollowStaysInside(fs, cur, Split(fs[next].target) + todo[1..], fuel - 1);
          }
        }
      }
    }
  }

  lemma PlainGoesOn(depth: nat, parts: seq<string>)
    requires Plain(parts)
    ensures UpDown(depth, parts)
  {
    UpsThenPlain(depth, 0, parts);
    assert Ups(0) + parts == parts;
  }

  /** Unpacking any archive over a destination without escaping symlinks leaves
      none: no path below the destination, resolved through any number of
      symlinks, ever climbs above it. */
  lemma UnpackedLinksStayInside(fs: Files, items: seq<Item>, maxEntries: nat, root: bool, p: Path, fuel: nat)
    requires Tree(fs) && LinksSound(fs) && Plain(p)
    ensures Follow(Run(fs, items, maxEntries, root).fs, [], p, fuel) != Outside
  {
    var end := Run(fs, items, maxEntries, root).fs;
    UnpackIsContained(fs, items, maxEntries, root);
    forall q | q in end ensures Sound(q, end[q]) {
      assert NewSound(fs, end, q) && Kept(fs, end, q);
    }
    PlainGoesOn(0, p);
    FollowStaysInside(end, [], p, fuel);
  }
}
