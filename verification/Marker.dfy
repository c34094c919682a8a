/**
 The extract marker (internal/galaxy/collections/marker.go:20-236): a tally of an
 installed tree, written as one line into a file named after the artifact, and
 compared with a new tally before the tree is trusted. A collection's marker lies
 beside its tree, a role's inside it.
 */
module Marker {
  import Text
  import opened Wrappers

  // Counts are 64-bit and wrap.
  const LIMIT: int := 0x8000_0000_0000_0000

  function Wrap(n: int): int { (n + LIMIT) % (2 * LIMIT) - LIMIT }

  lemma WrapPlus(a: int, b: int)
    ensures Wrap(Wrap(a) + b) == Wrap(a + b)
  {}

  datatype Tally = Tally(entries: int, dirs: int, bytes: int)

  predicate Writable(t: Tally) { 0 <= t.entries < LIMIT && 0 <= t.dirs < LIMIT && 0 <= t.bytes < LIMIT }

  // ------------------------------------------------------------- numbers

  function Digit(d: int): char
    requires 0 <= d < 10
  {
    '0' + d as char
  }

  predicate IsDigit(c: char) { '0' <= c <= '9' }

  function Decimal(n: nat): string {
    if n < 10 then [Digit(n)] else Decimal(n / 10) + [Digit(n % 10)]
  }

  // %d
  function Signed(n: int): string { if n < 0 then "-" + Decimal(-n) else Decimal(n) }

  function Value(s: string): Option<int> {
    if s == "" then Some(0)
    else
      var rest := Value(s[..|s| - 1]);
      var c := s[|s| - 1];
      if rest.None? || !IsDigit(c) then None else Some(10 * rest.value + (c - '0') as int)
  }

  // strconv.ParseInt(s, 10, 64): an optional sign, then digits, within range.
  function ParseInt(s: string): Option<int> {
    var digits := if s != "" && (s[0] == '-' || s[0] == '+') then s[1..] else s;
    if digits == "" || Value(digits).None? then None
    else
      var n := if s[0] == '-' then -Value(digits).value else Value(digits).value;
      if -LIMIT <= n < LIMIT then Some(n) else None
  }

  lemma {:induction false} DecimalValue(n: nat)
    ensures Value(Decimal(n)) == Some(n) && Decimal(n) != "" && IsDigit(Decimal(n)[0])
    ensures forall i :: 0 <= i < |Decimal(n)| ==> IsDigit(Decimal(n)[i])
  {
    var s := Decimal(n);
    if n < 10 {
      assert s[..0] == "";
    } else {
      DecimalValue(n / 10);
      assert s[..|s| - 1] == Decimal(n / 10);
    }
  }

  lemma {:induction false} DecimalLength(n: nat, k: nat)
    requires k >= 1 && n < Power(k)
    ensures |Decimal(n)| <= k
  {
    if n >= 10 { DecimalLength(n / 10, k - 1); }
  }

  function Power(k: nat): int { if k == 0 then 1 else 10 * Power(k - 1) }

  // -------------------------------------------------------------- the line

  const VERSION := "go-galaxy-extract-1"

  function Format(t: Tally): string {
    VERSION + " entries=" + Signed(t.entries) + " dirs=" + Signed(t.dirs) + " bytes=" + Signed(t.bytes) + "\n"
  }

  // parseExtractMarkerField
  function ParseField(field: string, key: string): Option<int> {
    if key <= field then
      var n := ParseInt(field[|key|..]);
      if n.Some? && n.value >= 0 then n else None
    else None
  }

  // parseExtractMarker
  function Parse(content: string): Option<Tally> {
    var line := if content != "" && content[|content| - 1] == '\n' then content[..|content| - 1] else content;
    var fields := Text.Split(' ', line);
    if |fields| != 4 || fields[0] != VERSION then None
    else
      var entries, dirs, bytes := ParseField(fields[1], "entries="), ParseField(fields[2], "dirs="),
           ParseField(fields[3], "bytes=");
      if entries.None? || dirs.None? || bytes.None? then None
      else Some(Tally(entries.value, dirs.value, bytes.value))
  }

  lemma FieldRoundTrip(key: string, n: int)
    requires -LIMIT <= n < LIMIT && ' ' !in key
    ensures ParseField(key + Signed(n), key) == if n >= 0 then Some(n) else None
    ensures ' ' !in key + Signed(n)
  {
    var text := Signed(n);
    assert (key + text)[|key|..] == text && key <= key + text;
    DecimalValue(if n < 0 then -n else n);
    assert n < 0 ==> text[1..] == Decimal(-n);
    assert forall i :: 0 <= i < |text| ==> text[i] == '-' || IsDigit(text[i]);
  }

  lemma JoinMore(head: string, rest: seq<string>)
    requires rest != []
    ensures Text.Join(' ', [head] + rest) == head + [' '] + Text.Join(' ', rest)
  {
    assert ([head] + rest)[1..] == rest;
  }

  lemma JoinFour(v: string, a: string, b: string, c: string)
    ensures Text.Join(' ', [v, a, b, c]) == v + [' '] + (a + [' '] + (b + [' '] + c))
  {
    JoinMore(b, [c]);
    JoinMore(a, [b, c]);
    JoinMore(v, [a, b, c]);
    assert [v] + [a, b, c] == [v, a, b, c] && [a] + [b, c] == [a, b, c] && [b] + [c] == [b, c];
  }

  lemma LineIsJoined(e: string, d: string, b: string)
    ensures VERSION + " entries=" + e + " dirs=" + d + " bytes=" + b ==
            Text.Join(' ', [VERSION, "entries=" + e, "dirs=" + d, "bytes=" + b])
  {
    JoinFour(VERSION, "entries=" + e, "dirs=" + d, "bytes=" + b);
    assert " entries=" == [' '] + "entries=" && " dirs=" == [' '] + "dirs=" && " bytes=" == [' '] + "bytes=";
    var tail := "bytes=" + b;
    assert " bytes=" + b == [' '] + tail;
    var middle := "dirs=" + d + [' '] + tail;
    assert " dirs=" + d + " bytes=" + b == [' '] + middle;
  }

  lemma LineSplits(e: string, d: string, b: string)
    requires ' ' !in "entries=" + e && ' ' !in "dirs=" + d && ' ' !in "bytes=" + b
    ensures Text.Split(' ', VERSION + " entries=" + e + " dirs=" + d + " bytes=" + b) ==
            [VERSION, "entries=" + e, "dirs=" + d, "bytes=" + b]
  {
    var parts := [VERSION, "entries=" + e, "dirs=" + d, "bytes=" + b];
    assert Text.Without(' ', parts);
    Text.SplitJoin(' ', parts);
    LineIsJoined(e, d, b);
  }

  lemma FieldsOf(t: Tally)
    requires -LIMIT <= t.entries < LIMIT && -LIMIT <= t.dirs < LIMIT && -LIMIT <= t.bytes < LIMIT
    ensures Text.Split(' ', Format(t)[..|Format(t)| - 1]) ==
            [VERSION, "entries=" + Signed(t.entries), "dirs=" + Signed(t.dirs), "bytes=" + Signed(t.bytes)]
  {
    FieldRoundTrip("entries=", t.entries);
    FieldRoundTrip("dirs=", t.dirs);
    FieldRoundTrip("bytes=", t.bytes);
    LineSplits(Signed(t.entries), Signed(t.dirs), Signed(t.bytes));
    var line := VERSION + " entries=" + Signed(t.entries) + " dirs=" + Signed(t.dirs) + " bytes=" + Signed(t.bytes);
    assert Format(t)[..|Format(t)| - 1] == line;
  }

  /** Parsing gives back what was written, exactly when no count is negative. */
  lemma ParseFormat(t: Tally)
    requires -LIMIT <= t.entries < LIMIT && -LIMIT <= t.dirs < LIMIT && -LIMIT <= t.bytes < LIMIT
    ensures Parse(Format(t)) == if Writable(t) then Some(t) else None
  {
    var text := Format(t);
    assert text[|text| - 1] == '\n';
    FieldsOf(t);
    FieldRoundTrip("entries=", t.entries);
    FieldRoundTrip("dirs=", t.dirs);
    FieldRoundTrip("bytes=", t.bytes);
  }

  const MAX_READ_SIZE := 256

  /** What is written always fits what is read. */
  lemma FormatFits(t: Tally)
    requires -LIMIT <= t.entries < LIMIT && -LIMIT <= t.dirs < LIMIT && -LIMIT <= t.bytes < LIMIT
    ensures |Format(t)| <= MAX_READ_SIZE
  {
    SignedLength(t.entries);
    SignedLength(t.dirs);
    SignedLength(t.bytes);
  }

  lemma SignedLength(n: int)
    requires -LIMIT <= n < LIMIT
    ensures |Signed(n)| <= 20
  {
    assert Power(3) == 1_000 && Power(5) == 100_000;
    assert Power(7) == 10_000_000 && Power(9) == 1_000_000_000;
    assert Power(11) == 100_000_000_000 && Power(13) == 10_000_000_000_000;
    assert Power(15) == 1_000_000_000_000_000 && Power(17) == 100_000_000_000_000_000;
    DecimalLength(if n < 0 then -n else n, 19);
  }

  // ------------------------------------------------- a line cut off

  lemma {:induction false} CutOffValue(n: nat, k: nat)
    requires 1 <= k <= |Decimal(n)|
    ensures var y := Value(Decimal(n)[..k]);
            y.Some? && 0 <= y.value <= n && (n > 0 ==> y.value > 0) && (y.value == n <==> k == |Decimal(n)|)
  {
    var s := Decimal(n);
    DecimalValue(n);
    if k == |s| {
      assert s[..k] == s;
    } else {
      DecimalValue(n / 10);
      assert s[..k] == Decimal(n / 10)[..k];
      CutOffValue(n / 10, k);
    }
  }

  // A number that was cut off.
  lemma CutOffNatural(n: int, m: nat)
    requires 0 <= n < LIMIT && 1 <= m <= |Signed(n)|
    ensures var y := ParseInt(Signed(n)[..m]);
            y.Some? && 0 <= y.value <= n && (y.value == n <==> m == |Signed(n)|)
  {
    DecimalValue(n);
    CutOffValue(n, m);
    assert IsDigit(Signed(n)[..m][0]);
  }

  lemma CutOffNegative(n: int, m: nat)
    requires -LIMIT <= n < 0 && m <= |Signed(n)|
    ensures var y := ParseInt(Signed(n)[..m]); y.Some? ==> y.value < 0
  {
    if m > 0 {
      var digits := Decimal(-n)[..m - 1];
      assert Signed(n)[..m] == "-" + digits;
      NegativeParsed(digits);
      if m > 1 { CutOffValue(-n, m - 1); }
    } else {
      assert Signed(n)[..m] == "";
    }
  }

  lemma NegativeParsed(digits: string)
    ensures var y := ParseInt("-" + digits);
            y.Some? ==> digits != "" && Value(digits).Some? && y.value == -Value(digits).value
  {
    assert ("-" + digits)[1..] == digits;
  }

  // A field that was cut off reads as at most what was written.
  lemma CutOffField(key: string, n: int, k: nat)
    requires -LIMIT <= n < LIMIT && k <= |key + Signed(n)|
    ensures var y := ParseField((key + Signed(n))[..k], key);
            y.Some? ==> 0 <= y.value <= n && (y.value == n <==> k == |key + Signed(n)|)
  {
    var field := (key + Signed(n))[..k];
    if key <= field {
      var m := k - |key|;
      assert field[|key|..] == Signed(n)[..m];
      if n < 0 {
        CutOffNegative(n, m);
      } else if m > 0 {
        CutOffNatural(n, m);
      } else {
        assert Signed(n)[..m] == "";
      }
    }
  }

  function Line(t: Tally): string { Format(t)[..|Format(t)| - 1] }

  lemma LineHasNoBreak(t: Tally)
    requires -LIMIT <= t.entries < LIMIT && -LIMIT <= t.dirs < LIMIT && -LIMIT <= t.bytes < LIMIT
    ensures '\n' !in Line(t)
  {
    SignedHasNoBreak(t.entries);
    SignedHasNoBreak(t.dirs);
    SignedHasNoBreak(t.bytes);
    var a := VERSION + " entries=" + Signed(t.entries);
    var b := " dirs=" + Signed(t.dirs);
    var c := " bytes=" + Signed(t.bytes);
    assert Line(t) == a + b + c;
  }

  lemma SignedHasNoBreak(n: int)
    ensures '\n' !in Signed(n)
  {
    DecimalValue(if n < 0 then -n else n);
  }

  // The line reads the same without its end.
  lemma ParseLine(t: Tally)
    requires -LIMIT <= t.entries < LIMIT && -LIMIT <= t.dirs < LIMIT && -LIMIT <= t.bytes < LIMIT
    ensures Parse(Line(t)) == if Writable(t) then Some(t) else None
  {
    LineHasNoBreak(t);
    FieldsOf(t);
    FieldRoundTrip("entries=", t.entries);
    FieldRoundTrip("dirs=", t.dirs);
    FieldRoundTrip("bytes=", t.bytes);
  }

  /** A marker whose line was cut off reads, if at all, as the same entries and
      directories and fewer bytes. */
  lemma CutOffLine(t: Tally, n: nat)
    requires -LIMIT <= t.entries < LIMIT && -LIMIT <= t.dirs < LIMIT && -LIMIT <= t.bytes < LIMIT
    requires n <= |Line(t)|
    ensures var u := Parse(Line(t)[..n]);
            u.Some? ==>
              && Writable(t) && u.value.entries == t.entries && u.value.dirs == t.dirs
              && 0 <= u.value.bytes <= t.bytes && (u.value.bytes == t.bytes <==> n == |Line(t)|)
  {
    var cut := Line(t)[..n];
    LineHasNoBreak(t);
    FieldsOf(t);
    Text.SplitCutOff(' ', Line(t), n);
    var whole, fields := Text.Split(' ', Line(t)), Text.Split(' ', cut);
    if |fields| == 4 {
      var last := fields[3];
      assert last == whole[3][..|last|];
      CutOffField("bytes=", t.bytes, |last|);
      assert fields[1] == whole[1] && fields[2] == whole[2];
      FieldRoundTrip("entries=", t.entries);
      FieldRoundTrip("dirs=", t.dirs);
      assert n == |Line(t)| ==> cut == Line(t);
      assert |last| == |whole[3]| ==> last == whole[3];
    }
  }

  // --------------------------------------------------------------- trees

  // A file is its text; anything else that is no directory counts as one.
  datatype Node = Dir(children: seq<Child>) | File(text: string)

  datatype Child = Child(name: Name, node: Node)

  // A file name: the marker prefix and the rest, or any other name.
  datatype Name = Marking(rest: string) | Other(text: string)

  function Plus(a: Tally, b: Tally): Tally { Tally(a.entries + b.entries, a.dirs + b.dirs, a.bytes + b.bytes) }

  const ZERO := Tally(0, 0, 0)

  // What a walk counts, a marker at the top left out whatever it is.
  function Count(children: seq<Child>, top: bool): Tally {
    if children == [] then ZERO else Plus(CountOne(children[0], top), Count(children[1..], top))
  }

  function CountOne(child: Child, top: bool): Tally {
    if top && child.name.Marking? then ZERO
    else
      match child.node
      case Dir(inner) => Plus(Tally(0, 1, 0), Count(inner, false))
      case File(text) => Tally(1, 0, |text|)
  }

  // Everything a walk meets, in its order, and what of it is not a marker at the top.
  function Met(children: seq<Child>): seq<Node> {
    if children == [] then [] else MetOne(children[0]) + Met(children[1..])
  }

  function MetOne(child: Child): seq<Node> {
    match child.node
    case Dir(inner) => [child.node] + Met(inner)
    case File(_) => [child.node]
  }

  function Unmarked(children: seq<Child>): seq<Child> {
    if children == [] then []
    else if children[0].name.Marking? then Unmarked(children[1..])
    else [children[0]] + Unmarked(children[1..])
  }

  function Directories(nodes: seq<Node>): nat {
    if nodes == [] then 0 else Directories(nodes[1..]) + if nodes[0].Dir? then 1 else 0
  }

  function Texts(nodes: seq<Node>): string {
    if nodes == [] then "" else (if nodes[0].File? then nodes[0].text else "") + Texts(nodes[1..])
  }

  // The tally of these nodes.
  predicate Totals(t: Tally, nodes: seq<Node>) {
    t.dirs == Directories(nodes) && t.entries == |nodes| - Directories(nodes) && t.bytes == |Texts(nodes)|
  }

  lemma {:induction false} DirectoriesPlus(a: seq<Node>, b: seq<Node>)
    ensures Directories(a + b) == Directories(a) + Directories(b)
  {
    if a == [] {
      assert a + b == b;
    } else {
      assert (a + b)[1..] == a[1..] + b;
      DirectoriesPlus(a[1..], b);
    }
  }

  lemma {:induction false} TextsPlus(a: seq<Node>, b: seq<Node>)
    ensures |Texts(a + b)| == |Texts(a)| + |Texts(b)|
  {
    if a == [] {
      assert a + b == b;
    } else {
      assert (a + b)[1..] == a[1..] + b;
      TextsPlus(a[1..], b);
    }
  }

  lemma TotalsPlus(t: Tally, a: seq<Node>, u: Tally, b: seq<Node>)
    requires Totals(t, a) && Totals(u, b)
    ensures Totals(Plus(t, u), a + b)
  {
    DirectoriesPlus(a, b);
    TextsPlus(a, b);
  }

  lemma TotalsOne(node: Node)
    ensures Totals(if node.Dir? then Tally(0, 1, 0) else Tally(1, 0, |node.text|), [node])
  {
    assert [node][1..] == [];
    assert Directories([node][1..]) == 0 && Texts([node][1..]) == "";
  }

  lemma {:induction false} CountMet(children: seq<Child>)
    ensures Totals(Count(children, false), Met(children))
  {
    if children != [] {
      CountOneMet(children[0]);
      CountMet(children[1..]);
      TotalsPlus(CountOne(children[0], false), MetOne(children[0]), Count(children[1..], false), Met(children[1..]));
    }
  }

  lemma {:induction false} CountOneMet(child: Child)
    ensures Totals(CountOne(child, false), MetOne(child))
  {
    TotalsOne(child.node);
    match child.node
    case Dir(inner) =>
      CountMet(inner);
      TotalsPlus(Tally(0, 1, 0), [child.node], Count(inner, false), Met(inner));
    case File(_) =>
  }

  lemma {:induction false} UnmarkedAre(children: seq<Child>, c: Child)
    ensures c in Unmarked(children) <==> c in children && !c.name.Marking?
  {
    if children != [] {
      UnmarkedAre(children[1..], c);
      assert children == [children[0]] + children[1..];
    }
  }

  lemma {:induction false} CountUnmarked(children: seq<Child>)
    ensures Totals(Count(children, true), Met(Unmarked(children)))
  {
    if children != [] {
      var child, rest := children[0], Unmarked(children[1..]);
      CountUnmarked(children[1..]);
      if !child.name.Marking? {
        CountOneMet(child);
        assert ([child] + rest)[1..] == rest;
        TotalsPlus(CountOne(child, true), MetOne(child), Count(children[1..], true), Met(rest));
      }
    }
  }

  /** What is counted, said without the walk's own sum: of all that lies below, but for
      markers at the top with everything under them, the number of directories, the
      number of everything else, and the length of all contents together. */
  lemma CountMeans(children: seq<Child>)
    ensures var met := Met(Unmarked(children));
            Count(children, true) == Tally(|met| - Directories(met), Directories(met), |Texts(met)|)
    ensures forall c: Child :: c in Unmarked(children) <==> c in children && !c.name.Marking?
  {
    CountUnmarked(children);
    forall c: Child ensures c in Unmarked(children) <==> c in children && !c.name.Marking? { UnmarkedAre(children, c); }
  }

  function Wrapped(t: Tally): Tally { Tally(Wrap(t.entries), Wrap(t.dirs), Wrap(t.bytes)) }

  lemma WrappedPlus(a: Tally, b: Tally)
    ensures Wrapped(Plus(Wrapped(a), b)) == Wrapped(Plus(a, b))
  {
    WrapPlus(a.entries, b.entries);
    WrapPlus(a.dirs, b.dirs);
    WrapPlus(a.bytes, b.bytes);
  }

  // scanTree: one running tally over the walk; `so` is what it stands for.
  method ScanChildren(children: seq<Child>, top: bool, start: Tally, ghost so: Tally) returns (tally: Tally)
    requires start == Wrapped(so)
    ensures tally == Wrapped(Plus(so, Count(children, top)))
    decreases children
  {
    tally := start;
    ghost var done := so;
    var i := 0;
    assert children[0..] == children;
    while i < |children|
      invariant i <= |children| && tally == Wrapped(done)
      invariant Plus(done, Count(children[i..], top)) == Plus(so, Count(children, top))
    {
      tally := ScanOne(children[i], top, tally, done);
      NextCounted(children, i, top, done);
      done := Plus(done, CountOne(children[i], top));
      i := i + 1;
    }
    NothingLeft(children[i..], top, done);
  }

  lemma NextCounted(children: seq<Child>, i: nat, top: bool, done: Tally)
    requires i < |children|
    ensures Plus(done, Count(children[i..], top)) ==
            Plus(Plus(done, CountOne(children[i], top)), Count(children[i + 1..], top))
  {
    assert children[i..] == [children[i]] + children[i + 1..];
    CountCons(children[i], children[i + 1..], top);
  }

  lemma NothingLeft(rest: seq<Child>, top: bool, done: Tally)
    requires rest == []
    ensures Plus(done, Count(rest, top)) == done
  {}

  method ScanOne(child: Child, top: bool, start: Tally, ghost so: Tally) returns (tally: Tally)
    requires start == Wrapped(so)
    ensures tally == Wrapped(Plus(so, CountOne(child, top)))
    decreases child
  {
    if top && child.name.Marking? { return start; }
    match child.node
    case Dir(inner) =>
      WrappedPlus(so, Tally(0, 1, 0));
      tally := start.(dirs := Wrap(start.dirs + 1));
      tally := ScanChildren(inner, false, tally, Plus(so, Tally(0, 1, 0)));
    case File(text) =>
      WrappedPlus(so, Tally(1, 0, |text|));
      tally := Tally(Wrap(start.entries + 1), start.dirs, Wrap(start.bytes + |text|));
  }

  method ScanTree(tree: seq<Child>) returns (tally: Tally)
    ensures tally == Tallied(tree)
  {
    tally := ScanChildren(tree, true, ZERO, ZERO);
  }

  // ----------------------------------------------------- write and check

  predicate IsSHA256Hex(sha: string) {
    |sha| == 64 && forall i :: 0 <= i < |sha| ==> '0' <= sha[i] <= '9' || 'a' <= sha[i] <= 'f'
  }

  function Tallied(tree: seq<Child>): Tally { Wrapped(Count(tree, true)) }

  // The node of this name in a directory.
  function Lookup(dir: seq<Child>, name: Name): Option<Node> {
    if dir == [] then None
    else if dir[0].name == name then Some(dir[0].node)
    else Lookup(dir[1..], name)
  }

  function Dropped(dir: seq<Child>, name: Name): seq<Child> {
    if dir == [] then []
    else if dir[0].name == name then Dropped(dir[1..], name)
    else [dir[0]] + Dropped(dir[1..], name)
  }

  // readExtractMarker
  function ReadMarker(dir: seq<Child>, name: Name): Option<string> {
    match Lookup(dir, name)
    case Some(File(text)) => if |text| > MAX_READ_SIZE then None else Some(text)
    case _ => None
  }

  datatype Status = Matches | Missing | Malformed | Drifted(want: Tally, got: Tally) | UnsafeSHA

  // What checkExtractMarker says of a tree, with the marker in this directory.
  function Check(tree: seq<Child>, dir: seq<Child>, sha: string): Status {
    if !IsSHA256Hex(sha) then UnsafeSHA
    else
      var content := ReadMarker(dir, Marking(sha));
      if content.None? then Missing
      else
        var want := Parse(content.value);
        if want.None? then Malformed
        else if Tallied(tree) != want.value then Drifted(want.value, Tallied(tree))
        else Matches
  }

  // How the calls of a write go: the scan, the removal of what has the marker's
  // name, and writing the file, which may break off or not even create it.
  datatype Writing = Whole | Torn(n: nat) | NotCreated

  datatype Calls = Calls(scans: bool, removes: bool, write: Writing)

  datatype Effect = Effect(ok: bool, dir: seq<Child>)

  // The removal is reached and succeeds; it refuses a directory with entries.
  predicate Removes(dir: seq<Child>, sha: string, calls: Calls) {
    var there := Lookup(dir, Marking(sha));
    IsSHA256Hex(sha) && calls.scans && calls.removes && !(there.Some? && there.value.Dir? && there.value.children != [])
  }

  function Left(text: string, write: Writing): Option<string> {
    match write
    case Whole => Some(text)
    case Torn(n) => Some(if n < |text| then text[..n] else text)
    case NotCreated => None
  }

  // What writeExtractMarker leaves of the marker's directory.
  function Written(tree: seq<Child>, dir: seq<Child>, sha: string, calls: Calls): Effect {
    if !Removes(dir, sha, calls) then Effect(false, dir)
    else
      var rest := Dropped(dir, Marking(sha));
      match Left(Format(Tallied(tree)), calls.write)
      case None => Effect(false, rest)
      case Some(text) => Effect(calls.write.Whole?, rest + [Child(Marking(sha), File(text))])
  }

  lemma {:induction false} LookupDropped(dir: seq<Child>, name: Name)
    ensures Lookup(Dropped(dir, name), name) == None
  {
    if dir != [] { LookupDropped(dir[1..], name); }
  }

  lemma {:induction false} OthersStay(dir: seq<Child>, name: Name, other: Name)
    requires other != name
    ensures Lookup(Dropped(dir, name), other) == Lookup(dir, other)
  {
    if dir != [] {
      OthersStay(dir[1..], name, other);
      if dir[0].name != name { assert ([dir[0]] + Dropped(dir[1..], name))[1..] == Dropped(dir[1..], name); }
    }
  }

  lemma {:induction false} LookupLast(dir: seq<Child>, last: Child, name: Name)
    ensures Lookup(dir + [last], name) ==
            if Lookup(dir, name).Some? then Lookup(dir, name)
            else if last.name == name then Some(last.node) else None
  {
    if dir == [] {
      assert [] + [last] == [last] && [last][1..] == [];
    } else {
      LookupLast(dir[1..], last, name);
      assert (dir + [last])[1..] == dir[1..] + [last];
    }
  }

  // What a write leaves under each name.
  predicate Leaves(tree: seq<Child>, dir: seq<Child>, sha: string, calls: Calls, after: seq<Child>, name: Name) {
    if !Removes(dir, sha, calls) || name != Marking(sha) then Lookup(after, name) == Lookup(dir, name)
    else
      match Left(Format(Tallied(tree)), calls.write)
      case None => Lookup(after, name) == None
      case Some(text) => Lookup(after, name) == Some(File(text))
  }

  lemma WrittenLeaves(tree: seq<Child>, dir: seq<Child>, sha: string, calls: Calls, name: Name)
    ensures Leaves(tree, dir, sha, calls, Written(tree, dir, sha, calls).dir, name)
  {
    LookupDropped(dir, Marking(sha));
    if name != Marking(sha) { OthersStay(dir, Marking(sha), name); }
    var left := Left(Format(Tallied(tree)), calls.write);
    if left.Some? { LookupLast(Dropped(dir, Marking(sha)), Child(Marking(sha), File(left.value)), name); }
  }

  // An installed tree; a role's marker lies in it, a collection's elsewhere.
  class Target {
    const inside: bool
    var tree: seq<Child>
    var info: seq<Child>

    constructor (inside: bool, tree: seq<Child>, info: seq<Child>)
      ensures this.inside == inside && this.tree == tree && this.info == info
    {
      this.inside := inside;
      this.tree := tree;
      this.info := info;
    }

    function MarkerDir(): seq<Child>
      reads this
    {
      if inside then tree else info
    }

    // Scan, remove, write: the marker is replaced, or torn, or gone, or, when it
    // was not even removed, as it was.
    method WriteExtractMarker(sha: string, calls: Calls) returns (ok: bool)
      modifies this
      ensures Effect(ok, MarkerDir()) == old(Written(tree, MarkerDir(), sha, calls))
      ensures ok <==> Removes(old(MarkerDir()), sha, calls) && calls.write.Whole?
      ensures forall name :: Leaves(old(tree), old(MarkerDir()), sha, calls, MarkerDir(), name)
      ensures if inside then info == old(info) else tree == old(tree)
    {
      var name := Marking(sha);
      forall other: Name
        ensures Leaves(tree, MarkerDir(), sha, calls, Written(tree, MarkerDir(), sha, calls).dir, other)
      {
        WrittenLeaves(tree, MarkerDir(), sha, calls, other);
      }
      if !IsSHA256Hex(sha) || !calls.scans { return false; }
      var tally := ScanTree(tree);
      var dir := MarkerDir();
      var there := Lookup(dir, name);
      if !calls.removes || (there.Some? && there.value.Dir? && there.value.children != []) { return false; }
      dir := Dropped(dir, name);
      var left := Left(Format(tally), calls.write);
      if left.Some? { dir := dir + [Child(name, File(left.value))]; }
      if inside { tree := dir; } else { info := dir; }
      ok := calls.write.Whole?;
    }

    // Which status it is, by the marker's text and the tree's tally.
    method CheckExtractMarker(sha: string) returns (status: Status)
      ensures status == Check(tree, MarkerDir(), sha)
      ensures status == UnsafeSHA <==> !IsSHA256Hex(sha)
      ensures status != UnsafeSHA ==> (status == Missing <==> ReadMarker(MarkerDir(), Marking(sha)).None?)
      ensures status == Matches <==>
                IsSHA256Hex(sha) && exists text: string ::
                  ReadMarker(MarkerDir(), Marking(sha)) == Some(text) && Parse(text) == Some(Tallied(tree))
    {
      if !IsSHA256Hex(sha) { return UnsafeSHA; }
      var content := ReadMarker(MarkerDir(), Marking(sha));
      if content.None? { return Missing; }
      var want := Parse(content.value);
      if want.None? { return Malformed; }
      var got := ScanTree(tree);
      if got != want.value { return Drifted(want.value, got); }
      status := Matches;
    }
  }

  // ------------------------------------------------- write, then check

  lemma LookupWritten(dir: seq<Child>, name: Name, node: Node)
    ensures Lookup(Dropped(dir, name) + [Child(name, node)], name) == Some(node)
  {
    LookupDropped(dir, name);
    LookupLast(Dropped(dir, name), Child(name, node), name);
  }

  lemma CountCons(child: Child, rest: seq<Child>, top: bool)
    ensures Count([child] + rest, top) == Plus(CountOne(child, top), Count(rest, top))
  {
    assert ([child] + rest)[1..] == rest;
  }

  lemma {:induction false} CountLast(dir: seq<Child>, child: Child, top: bool)
    ensures Count(dir + [child], top) == Plus(Count(dir, top), CountOne(child, top))
  {
    if dir == [] {
      CountCons(child, [], top);
      assert [] + [child] == [child] + [];
    } else {
      CountLast(dir[1..], child, top);
      CountCons(dir[0], dir[1..] + [child], top);
      assert dir + [child] == [dir[0]] + (dir[1..] + [child]);
    }
  }

  lemma {:induction false} CountDropped(dir: seq<Child>, name: Name)
    requires name.Marking?
    ensures Count(Dropped(dir, name), true) == Count(dir, true)
  {
    if dir != [] {
      var c, rest := dir[0], dir[1..];
      CountDropped(rest, name);
      assert Count(dir, true) == Plus(CountOne(c, true), Count(rest, true));
      if c.name == name {
        MarkerIsNothing(c, Count(rest, true));
        assert Dropped(dir, name) == Dropped(rest, name);
      } else {
        CountCons(c, Dropped(rest, name), true);
        assert Dropped(dir, name) == [c] + Dropped(rest, name);
      }
    }
  }

  lemma MarkerIsNothing(c: Child, t: Tally)
    requires c.name.Marking?
    ensures Plus(CountOne(c, true), t) == t
  {}

  lemma MarkersDoNotCount(dir: seq<Child>, name: Name, node: Node)
    requires name.Marking?
    ensures Count(Dropped(dir, name) + [Child(name, node)], true) == Count(dir, true)
  {
    CountDropped(dir, name);
    CountLast(Dropped(dir, name), Child(name, node), true);
  }

  lemma WrapRange(n: int)
    ensures -LIMIT <= Wrap(n) < LIMIT
    ensures 0 <= n < LIMIT ==> Wrap(n) == n
  {}

  // The tally of a tree is within 64 bits.
  lemma TalliedInRange(tree: seq<Child>)
    ensures var t := Tallied(tree);
            -LIMIT <= t.entries < LIMIT && -LIMIT <= t.dirs < LIMIT && -LIMIT <= t.bytes < LIMIT
  {
    var c := Count(tree, true);
    WrapRange(c.entries);
    WrapRange(c.dirs);
    WrapRange(c.bytes);
  }

  /** After writing, a check of any tree against that marker matches exactly when
      its tally is the one written down; a differing entry, directory or byte
      total is reported as drift with both tallies. Only a count past 63 bits is
      written in a form that no check accepts. */
  lemma CheckAfterWrite(tree: seq<Child>, dir: seq<Child>, sha: string, calls: Calls, now: seq<Child>)
    requires Written(tree, dir, sha, calls).ok
    ensures Check(now, Written(tree, dir, sha, calls).dir, sha) ==
            if !Writable(Tallied(tree)) then Malformed
            else if Tallied(now) == Tallied(tree) then Matches
            else Drifted(Tallied(tree), Tallied(now))
  {
    var t := Tallied(tree);
    TalliedInRange(tree);
    LookupWritten(dir, Marking(sha), File(Format(t)));
    FormatFits(t);
    ParseFormat(t);
  }

  // What a cut off marker is read as.
  lemma TornIsRead(tree: seq<Child>, dir: seq<Child>, sha: string, n: nat)
    ensures var text := Left(Format(Tallied(tree)), Torn(n)).value;
            var after := Dropped(dir, Marking(sha)) + [Child(Marking(sha), File(text))];
            ReadMarker(after, Marking(sha)) == Some(text)
  {
    TalliedInRange(tree);
    FormatFits(Tallied(tree));
    LookupWritten(dir, Marking(sha), File(Left(Format(Tallied(tree)), Torn(n)).value));
  }

  /** A failed write either left the marker's directory alone or took the old marker
      with it. Then a check of a tree with the tally that was to be written matches
      exactly when all of the line but its end got out and no count is past 63 bits;
      and a check of any other matches only if that tree differs by fewer bytes. */
  lemma CheckAfterFailedWrite(tree: seq<Child>, dir: seq<Child>, sha: string, calls: Calls, now: seq<Child>)
    requires !Written(tree, dir, sha, calls).ok
    ensures var left, t, u := Written(tree, dir, sha, calls).dir, Tallied(tree), Tallied(now);
            if !Removes(dir, sha, calls) then left == dir
            else if u == t then
              Check(now, left, sha) == Matches <==> calls.write.Torn? && calls.write.n >= |Line(t)| && Writable(t)
            else
              Check(now, left, sha) == Matches ==>
                calls.write.Torn? && Writable(t) && u.entries == t.entries && u.dirs == t.dirs && u.bytes < t.bytes
  {
    if Removes(dir, sha, calls) {
      LookupDropped(dir, Marking(sha));
      if calls.write.Torn? {
        var t, n := Tallied(tree), calls.write.n;
        TornIsRead(tree, dir, sha, n);
        TalliedInRange(tree);
        if n <= |Line(t)| {
          assert Left(Format(t), calls.write).value == Line(t)[..n];
          CutOffLine(t, n);
          ParseLine(t);
          assert n == |Line(t)| ==> Line(t)[..n] == Line(t);
        } else {
          ParseFormat(t);
        }
      }
    }
  }

  /** A role's marker changes the tree it lies in, but not its tally: whatever
      other markers are there, what was just written matches. */
  lemma RoleMarkerMatches(tree: seq<Child>, sha: string, calls: Calls)
    requires Written(tree, tree, sha, calls).ok && Writable(Tallied(tree))
    ensures var after := Written(tree, tree, sha, calls).dir; Check(after, after, sha) == Matches
  {
    var after := Written(tree, tree, sha, calls).dir;
    MarkersDoNotCount(tree, Marking(sha), File(Format(Tallied(tree))));
    CheckAfterWrite(tree, tree, sha, calls, after);
  }

  /** Trees whose true totals fit 63 bits are tallied exactly, so for them a match
      means equal totals. */
  lemma MatchMeansEqualTotals(tree: seq<Child>, dir: seq<Child>, sha: string, calls: Calls, now: seq<Child>)
    requires Written(tree, dir, sha, calls).ok && Writable(Count(tree, true)) && Writable(Count(now, true))
    ensures Check(now, Written(tree, dir, sha, calls).dir, sha) == Matches <==> Count(now, true) == Count(tree, true)
  {
    CheckAfterWrite(tree, dir, sha, calls, now);
    var a, b := Count(tree, true), Count(now, true);
    WrapRange(a.entries);
    WrapRange(a.dirs);
    WrapRange(a.bytes);
    WrapRange(b.entries);
    WrapRange(b.dirs);
    WrapRange(b.bytes);
  }
}
