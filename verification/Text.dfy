/** Splitting text at a separator and joining it again, for any kind of character. */
module Text {
  // The pieces between separators; never empty.
  function Split<T(==)>(sep: T, s: seq<T>): (parts: seq<seq<T>>)
    ensures |parts| > 0
  {
    if s == [] then [[]]
    else if s[0] == sep then [[]] + Split(sep, s[1..])
    else var rest := Split(sep, s[1..]); [[s[0]] + rest[0]] + rest[1..]
  }

  function Join<T>(sep: T, parts: seq<seq<T>>): seq<T> {
    if parts == [] then []
    else if |parts| == 1 then parts[0]
    else parts[0] + [sep] + Join(sep, parts[1..])
  }

  predicate Without<T(==)>(sep: T, parts: seq<seq<T>>) {
    forall i: nat :: i < |parts| ==> sep !in parts[i]
  }

  lemma {:induction false} SplitIsWithout<T>(sep: T, s: seq<T>)
    ensures Without(sep, Split(sep, s))
  {
    if s != [] { SplitIsWithout(sep, s[1..]); }
  }

  lemma {:induction false} SplitPrefixed<T>(sep: T, head: seq<T>, s: seq<T>)
    requires sep !in head
    ensures Split(sep, head + [sep] + s) == [head] + Split(sep, s)
  {
    var text := head + [sep] + s;
    if head == [] {
      assert text[1..] == s;
    } else {
      SplitPrefixed(sep, head[1..], s);
      assert text[1..] == head[1..] + [sep] + s;
      assert head == [head[0]] + head[1..];
    }
  }

  lemma {:induction false} SplitWord<T>(sep: T, word: seq<T>)
    requires sep !in word
    ensures Split(sep, word) == [word]
  {
    if word != [] {
      SplitWord(sep, word[1..]);
      assert word == [word[0]] + word[1..];
    }
  }

  /** Splitting inverts joining, when no piece has the separator. */
  lemma {:induction false} SplitJoin<T>(sep: T, parts: seq<seq<T>>)
    requires parts != [] && Without(sep, parts)
    ensures Split(sep, Join(sep, parts)) == parts
  {
    if |parts| == 1 {
      SplitWord(sep, parts[0]);
    } else {
      SplitJoin(sep, parts[1..]);
      SplitPrefixed(sep, parts[0], Join(sep, parts[1..]));
    }
  }

  // The pieces of a text that may be cut off.
  predicate Cut<T(==)>(whole: seq<seq<T>>, cut: seq<seq<T>>) {
    && 0 < |cut| <= |whole| && cut[|cut| - 1] <= whole[|cut| - 1]
    && forall i: nat :: i < |cut| - 1 ==> cut[i] == whole[i]
  }

  predicate Complete<T(==)>(whole: seq<seq<T>>, cut: seq<seq<T>>) {
    |cut| == |whole| && (whole == [] || cut[|cut| - 1] == whole[|cut| - 1])
  }

  lemma CutAfterSeparator<T>(whole: seq<seq<T>>, cut: seq<seq<T>>)
    requires Cut(whole, cut)
    ensures Cut([[]] + whole, [[]] + cut)
    ensures Complete([[]] + whole, [[]] + cut) ==> Complete(whole, cut)
  {}

  lemma CutInPiece<T>(c: T, whole: seq<seq<T>>, cut: seq<seq<T>>)
    requires Cut(whole, cut)
    ensures var w, k := [[c] + whole[0]] + whole[1..], [[c] + cut[0]] + cut[1..];
            Cut(w, k) && (Complete(w, k) ==> Complete(whole, cut))
  {
    assert ([c] + whole[0])[1..] == whole[0] && ([c] + cut[0])[1..] == cut[0];
  }

  /** Cutting text off keeps its pieces, the last one cut off; no piece is missing or
      cut only if nothing was. */
  lemma {:induction false} SplitCutOff<T>(sep: T, s: seq<T>, n: nat)
    requires n <= |s|
    ensures Cut(Split(sep, s), Split(sep, s[..n]))
    ensures Complete(Split(sep, s), Split(sep, s[..n])) ==> n == |s|
  {
    if n > 0 {
      SplitCutOff(sep, s[1..], n - 1);
      assert s[..n][1..] == s[1..][..n - 1];
      var whole, cut := Split(sep, s[1..]), Split(sep, s[1..][..n - 1]);
      if s[0] == sep {
        CutAfterSeparator(whole, cut);
      } else {
        CutInPiece(s[0], whole, cut);
      }
    }
  }
}
