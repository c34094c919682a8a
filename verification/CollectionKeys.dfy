/** Collection keys and the dependency graph over them, shared by resolution and installation. */
module CollectionKeys {
  import opened Wrappers

  // "namespace.name@version", read by splitCollectionKey; text it refuses is
  // kept as it is.
  datatype Key = Key(fqdn: string, version: string) | Malformed(text: string)

  // A graph maps a key to the keys it depends on.
  type Graph = map<Key, seq<Key>>

  function Deps(g: Graph, n: Key): seq<Key> {
    if n in g then g[n] else []
  }

  // The index of the first '@', or the length.
  function FirstAt(s: string): (i: nat)
    ensures i <= |s| && (i < |s| ==> s[i] == '@')
  {
    if s == "" || s[0] == '@' then 0 else 1 + FirstAt(s[1..])
  }

  // splitCollectionKey: cut at the first '@', neither part empty.
  function Parse(text: string): Key {
    var i := FirstAt(text);
    if 0 < i && i + 1 < |text| then Key(text[..i], text[i + 1..]) else Malformed(text)
  }

  function Render(k: Key): string {
    match k
    case Key(fqdn, version) => fqdn + "@" + version
    case Malformed(text) => text
  }

  predicate PlainFqdn(fqdn: string) { fqdn != "" && '@' !in fqdn }

  // The keys Parse produces.
  predicate Canonical(k: Key) {
    match k
    case Key(fqdn, version) => PlainFqdn(fqdn) && version != ""
    case Malformed(text) => Parse(text) == k
  }

  lemma {:induction false} FirstAtIs(s: string, n: nat)
    requires n < |s| && s[n] == '@' && '@' !in s[..n]
    ensures FirstAt(s) == n
  {
    if n > 0 {
      assert s[0] in s[..n];
      assert s[1..][..n - 1] == s[..n][1..];
      FirstAtIs(s[1..], n - 1);
    }
  }

  lemma {:induction false} NoAtBefore(s: string)
    ensures '@' !in s[..FirstAt(s)]
  {
    if s != "" && s[0] != '@' {
      NoAtBefore(s[1..]);
      assert s[..FirstAt(s)] == [s[0]] + s[1..][..FirstAt(s) - 1];
    }
  }

  /** Parsing and rendering lose nothing: every text is the rendering of one
      canonical key, and every canonical key parses back from its text. */
  lemma ParseRender(text: string, k: Key)
    ensures Render(Parse(text)) == text && Canonical(Parse(text))
    ensures Canonical(k) ==> Parse(Render(k)) == k
  {
    var i := FirstAt(text);
    NoAtBefore(text);
    if i < |text| { assert text == text[..i] + [text[i]] + text[i + 1..]; }
    if Canonical(k) && k.Key? {
      var t := Render(k);
      assert t[..|k.fqdn|] == k.fqdn && t[|k.fqdn| + 1..] == k.version;
      FirstAtIs(t, |k.fqdn|);
    }
  }
}
