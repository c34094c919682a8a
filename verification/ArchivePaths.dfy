/**
 The path rules of internal/galaxy/archive/archive.go on Unix: how an entry name
 becomes a path under the destination, and which symlink targets are kept.
 filepath.Clean, Dir, Join and Rel follow their documentation.
 */
module ArchivePaths {
  import Text
  import opened Wrappers

  // ------------------------------------------------ text and components

  function Split(s: string): (parts: seq<string>)
    ensures |parts| > 0
  {
    Text.Split('/', s)
  }

  function Join(parts: seq<string>): string { Text.Join('/', parts) }

  predicate NoSlash(parts: seq<string>) { Text.Without('/', parts) }

  // ------------------------------------------------------ lexical rules

  // One more component after a cleaned path.
  function Push(rooted: bool, st: seq<string>, c: string): seq<string> {
    if c == "" || c == "." then st
    else if c == ".." then
      if st != [] && st[|st| - 1] != ".." then st[..|st| - 1]
      else if rooted then st
      else st + [".."]
    else st + [c]
  }

  function Walk(rooted: bool, st: seq<string>, parts: seq<string>): seq<string> {
    if parts == [] then st else Push(rooted, Walk(rooted, st, parts[..|parts| - 1]), parts[|parts| - 1])
  }

  // filepath.Clean: whether the path is rooted, and its components; a relative
  // path without any is ".".
  datatype Cleaned = Cleaned(rooted: bool, parts: seq<string>)

  function Clean(s: string): Cleaned {
    var rooted := s != "" && s[0] == '/';
    Cleaned(rooted, Walk(rooted, [], Split(s)))
  }

  predicate PlainComponent(c: string) { c != "" && c != "." && c != ".." && '/' !in c }

  // Components of a path that stays below its base.
  predicate Plain(parts: seq<string>) {
    forall i: nat :: i < |parts| ==> PlainComponent(parts[i])
  }

  // A cleaned relative path: some steps up, then plain components.
  predicate Normal(parts: seq<string>) {
    && (forall i: nat :: i < |parts| ==> parts[i] == ".." || PlainComponent(parts[i]))
    && (forall i: nat :: i + 1 < |parts| && parts[i + 1] == ".." ==> parts[i] == "..")
  }

  lemma {:induction false} NormalBack(parts: seq<string>, i: nat, j: nat)
    requires Normal(parts) && i <= j < |parts| && parts[j] == ".."
    ensures parts[i] == ".."
    decreases j - i
  {
    if i < j { NormalBack(parts, i, j - 1); }
  }

  lemma NormalPlain(parts: seq<string>)
    requires Normal(parts) && (parts == [] || parts[0] != "..")
    ensures Plain(parts)
  {
    forall i: nat | i < |parts| ensures PlainComponent(parts[i]) {
      if parts[i] == ".." { NormalBack(parts, 0, i); }
    }
  }

  lemma {:induction false} WalkIsNormal(st: seq<string>, parts: seq<string>)
    requires Normal(st) && NoSlash(parts)
    ensures Normal(Walk(false, st, parts))
  {
    if parts != [] {
      WalkIsNormal(st, parts[..|parts| - 1]);
      assert parts[|parts| - 1] in parts;
    }
  }

  lemma {:induction false} WalkAppend(rooted: bool, st: seq<string>, a: seq<string>, b: seq<string>)
    ensures Walk(rooted, st, a + b) == Walk(rooted, Walk(rooted, st, a), b)
  {
    if b == [] {
      assert a + b == a;
    } else {
      assert (a + b)[..|a + b| - 1] == a + b[..|b| - 1];
      WalkAppend(rooted, st, a, b[..|b| - 1]);
    }
  }

  lemma {:induction false} WalkPlain(st: seq<string>, parts: seq<string>)
    requires Plain(parts)
    ensures Walk(false, st, parts) == st + parts
  {
    if parts == [] {
      assert st + parts == st;
    } else {
      WalkPlain(st, parts[..|parts| - 1]);
      assert parts == parts[..|parts| - 1] + [parts[|parts| - 1]];
    }
  }

  function Ups(n: nat): seq<string> { seq(n, (i: nat) => "..") }

  lemma {:induction false} WalkUp(base: seq<string>, n: nat)
    requires Plain(base) && n <= |base|
    ensures Walk(false, base, Ups(n)) == base[..|base| - n]
  {
    if n == 0 {
      assert base[..|base|] == base;
    } else {
      assert Ups(n)[..n - 1] == Ups(n - 1);
      WalkUp(base, n - 1);
      assert PlainComponent(base[|base| - n]);
    }
  }

  // One push commutes with cleaning first.
  lemma PushAfterClean(st: seq<string>, norm: seq<string>, c: string)
    requires Normal(st) && Normal(norm)
    ensures Walk(false, st, Push(false, norm, c)) == Push(false, Walk(false, st, norm), c)
  {
    var next := Push(false, norm, c);
    if c == "" || c == "." {
    } else if c == ".." && norm != [] && norm[|norm| - 1] != ".." {
      assert PlainComponent(norm[|norm| - 1]);
    } else {
      assert next == norm + [c];
      assert next[..|next| - 1] == norm;
    }
  }

  /** Cleaning a relative path does not change where it leads from any base. */
  lemma {:induction false} WalkCleaned(st: seq<string>, parts: seq<string>)
    requires Normal(st) && NoSlash(parts)
    ensures Walk(false, st, Walk(false, [], parts)) == Walk(false, st, parts)
  {
    if parts != [] {
      var init := parts[..|parts| - 1];
      WalkCleaned(st, init);
      WalkIsNormal([], init);
      PushAfterClean(st, Walk(false, [], init), parts[|parts| - 1]);
    }
  }

  // --------------------------------------------------------- entry names

  datatype PathError =
    | EmptyName | AbsolutePath | EscapesDestination
    | EmptyTarget | AbsoluteTarget | TargetIsDot | TargetIsRoot | TargetEscapes | TargetIsSelf

  // sanitizeArchivePath; "" stands for the destination itself.
  function SanitizeArchivePath(name: string): Result<string, PathError> {
    if name == "" then Err(EmptyName)
    else
      var cleaned := Clean(name);
      if !cleaned.rooted && cleaned.parts == [] then Ok("")
      else if cleaned.rooted then Err(AbsolutePath)
      else if cleaned.parts[0] == ".." then Err(EscapesDestination)
      else Ok(Join(cleaned.parts))
  }

  // A path a sanitized entry may have: plain components.
  predicate SanitizedPath(path: string) {
    path != "" && Plain(Split(path))
  }

  /** What sanitizing yields is the destination or a path of plain components,
      where the name leads from the destination, and sanitizing it again changes
      nothing; a name is refused exactly when it is empty, rooted or leads out. */
  lemma SanitizedNames(name: string)
    ensures var r := SanitizeArchivePath(name);
            && (r.Ok? && r.value != "" ==>
                  SanitizedPath(r.value) && Split(r.value) == Walk(false, [], Split(name)) &&
                  SanitizeArchivePath(r.value) == r)
            && (r.Ok? && r.value == "" ==> Walk(false, [], Split(name)) == [])
            && (r.Err? <==> name == "" || name[0] == '/' ||
                              (Walk(false, [], Split(name)) != [] && Walk(false, [], Split(name))[0] == ".."))
  {
    if name != "" && name[0] != '/' {
      var parts := Walk(false, [], Split(name));
      Text.SplitIsWithout('/', name);
      WalkIsNormal([], Split(name));
      if parts != [] && parts[0] != ".." {
        NormalPlain(parts);
        PlainJoin(parts);
        WalkPlain([], parts);
        assert [] + parts == parts;
        assert Clean(Join(parts)).parts == parts;
      }
    }
  }

  lemma PlainJoin(parts: seq<string>)
    requires parts != [] && Plain(parts)
    ensures Split(Join(parts)) == parts && Join(parts) != "" && Join(parts)[0] != '/'
  {
    assert NoSlash(parts);
    Text.SplitJoin('/', parts);
    assert PlainComponent(parts[0]);
    assert Join(parts)[0] == parts[0][0];
  }

  // ----------------------------------------------------- symlink targets

  // The directory part of a plain path.
  function DirParts(parts: seq<string>): seq<string>
    requires parts != []
  {
    parts[..|parts| - 1]
  }

  function CommonPrefix(a: seq<string>, b: seq<string>): (k: nat)
    ensures k <= |a| && k <= |b| && a[..k] == b[..k]
    ensures k < |a| && k < |b| ==> a[k] != b[k]
  {
    if a == [] || b == [] || a[0] != b[0] then 0
    else
      var k := 1 + CommonPrefix(a[1..], b[1..]);
      assert a[..k] == [a[0]] + a[1..][..k - 1] && b[..k] == [b[0]] + b[1..][..k - 1];
      k
  }

  // filepath.Rel between two plain paths; [] stands for ".".
  function Rel(base: seq<string>, target: seq<string>): seq<string> {
    var k := CommonPrefix(base, target);
    Ups(|base| - k) + target[k..]
  }

  // safeSymlinkTarget for a sanitized entry path.
  function SafeSymlinkTarget(path: string, link: string): Result<string, PathError> {
    if link == "" then Err(EmptyTarget)
    else if link[0] == '/' then Err(AbsoluteTarget)
    else
      var cleaned := Clean(link).parts;
      if cleaned == [] then Err(TargetIsDot)
      else
        var base := DirParts(Split(path));
        var resolved := Walk(false, [], base + cleaned);
        if resolved == [] then Err(TargetIsRoot)
        else if resolved[0] == ".." then Err(TargetEscapes)
        else
          var rel := Rel(base, resolved);
          if rel == [] then Err(TargetIsSelf) else Ok(Join(rel))
  }

  // Where a link stored at `path` leads, lexically, from the destination.
  function LeadsTo(path: string, link: string): seq<string> {
    Walk(false, [], DirParts(Split(path)) + Split(link))
  }

  lemma WalkDown(target: seq<string>, k: nat, m: nat)
    requires Plain(target) && k <= m <= |target|
    ensures Walk(false, target[..k], target[k..m]) == target[..m]
  {
    WalkPlain(target[..k], target[k..m]);
    assert target[..m] == target[..k] + target[k..m];
  }

  lemma WalkVia(base: seq<string>, up: seq<string>, mid: seq<string>, down: seq<string>)
    requires Walk(false, base, up) == mid
    ensures Walk(false, base, up + down) == Walk(false, mid, down)
  {
    WalkAppend(false, base, up, down);
  }

  // Up to a shared directory and down again, the whole way or part of it.
  lemma UpThenDown(base: seq<string>, target: seq<string>, k: nat, m: nat)
    requires Plain(base) && Plain(target) && k <= |base| && k <= m <= |target| && base[..k] == target[..k]
    ensures Walk(false, base, Ups(|base| - k) + target[k..m]) == target[..m]
  {
    WalkUp(base, |base| - k);
    WalkDown(target, k, m);
    WalkVia(base, Ups(|base| - k), base[..k], target[k..m]);
  }

  lemma RelLeadsBack(base: seq<string>, target: seq<string>)
    requires Plain(base) && Plain(target)
    ensures Walk(false, base, Rel(base, target)) == target
  {
    var k := CommonPrefix(base, target);
    assert Rel(base, target) == Ups(|base| - k) + target[k..|target|];
    assert target[..|target|] == target;
    UpThenDown(base, target, k, |target|);
  }

  lemma RelIsDot(base: seq<string>, target: seq<string>)
    ensures Rel(base, target) == [] <==> base == target
  {
    var k := CommonPrefix(base, target);
    assert |Rel(base, target)| == (|base| - k) + (|target| - k);
    assert base[..|base|] == base && target[..|target|] == target;
  }

  lemma RelHasNoSlash(base: seq<string>, target: seq<string>)
    requires Plain(target)
    ensures NoSlash(Rel(base, target))
  {
    var rel := Rel(base, target);
    var k := CommonPrefix(base, target);
    forall i: nat | i < |rel| ensures '/' !in rel[i] {
      if i >= |base| - k { assert PlainComponent(target[k + (i - (|base| - k))]); }
    }
  }

  // No step of following the target leaves the destination.
  lemma RelStaysInside(base: seq<string>, target: seq<string>, n: nat)
    requires Plain(base) && Plain(target) && n <= |Rel(base, target)|
    ensures Plain(Walk(false, base, Rel(base, target)[..n]))
  {
    var k := CommonPrefix(base, target);
    var up := |base| - k;
    if n <= up {
      assert Rel(base, target)[..n] == Ups(n);
      WalkUp(base, n);
    } else {
      assert Rel(base, target)[..n] == Ups(up) + target[k..k + (n - up)];
      UpThenDown(base, target, k, k + (n - up));
    }
  }

  /** For any sanitized entry path and any link name: an accepted target leads
      exactly where the link name leads, that place is below the destination and
      not the link's own directory, and no step on the way leaves the
      destination; a link name is accepted exactly when it is relative, is not
      "." in disguise and leads to such a place. */
  lemma SymlinkTargets(path: string, link: string)
    requires SanitizedPath(path)
    ensures var r := SafeSymlinkTarget(path, link);
            var base := DirParts(Split(path));
            && (r.Ok? ==>
                  LeadsTo(path, r.value) == LeadsTo(path, link) &&
                  Plain(LeadsTo(path, link)) && LeadsTo(path, link) != [] &&
                  (forall n: nat :: n <= |Split(r.value)| ==> Plain(Walk(false, base, Split(r.value)[..n]))))
            && (r.Ok? <==> link != "" && link[0] != '/' && Walk(false, [], Split(link)) != [] &&
                             LeadsTo(path, link) != [] && LeadsTo(path, link)[0] != ".." && LeadsTo(path, link) != base)
  {
    var base := DirParts(Split(path));
    if link != "" && link[0] != '/' {
      var cleaned := Walk(false, [], Split(link));
      Text.SplitIsWithout('/', link);
      WalkPlain([], base);
      assert [] + base == base;
      WalkAppend(false, [], base, cleaned);
      WalkAppend(false, [], base, Split(link));
      WalkCleaned(base, Split(link));
      var resolved := LeadsTo(path, link);
      WalkIsNormal(base, Split(link));
      if cleaned != [] && resolved != [] && resolved[0] != ".." {
        NormalPlain(resolved);
        RelLeadsBack(base, resolved);
        RelIsDot(base, resolved);
        RelHasNoSlash(base, resolved);
        var rel := Rel(base, resolved);
        if rel != [] {
          Text.SplitJoin('/', rel);
          WalkAppend(false, [], base, rel);
          forall n: nat | n <= |rel| ensures Plain(Walk(false, base, rel[..n])) {
            RelStaysInside(base, resolved, n);
          }
        }
      }
    }
  }
}
