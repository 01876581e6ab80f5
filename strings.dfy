/**
 * The parts of Go's `strings` package the scraper relies on: finding the
 * leftmost occurrence of a separator (`strings.Index`) and cutting a string at
 * every non-overlapping occurrence of it (`strings.Split`).
 */
module Strings {
  import opened Wrappers

  /** `sep` occurs in `s` starting at index `i`. */
  predicate OccursAt(s: string, sep: string, i: nat)
  {
    i + |sep| <= |s| && s[i..i + |sep|] == sep
  }

  /** `sep` is a substring of `s`. */
  ghost predicate Contains(s: string, sep: string)
  {
    exists i: nat :: OccursAt(s, sep, i)
  }

  /** An occurrence one place to the right in `s` is an occurrence in `s[1..]`, and back. */
  lemma OccursAtTail(s: string, sep: string, i: nat)
    requires |s| > 0
    ensures OccursAt(s, sep, i + 1) <==> OccursAt(s[1..], sep, i)
  {
    if i + 1 + |sep| <= |s| {
      assert s[1..][i..i + |sep|] == s[i + 1..i + 1 + |sep|];
    }
  }

  /** An occurrence inside a prefix of `s` is an occurrence in `s`. */
  lemma OccursInPrefix(s: string, sep: string, n: nat, j: nat)
    requires n <= |s|
    requires OccursAt(s[..n], sep, j)
    ensures OccursAt(s, sep, j)
  {
    assert s[..n][j..j + |sep|] == s[j..j + |sep|];
  }

  /** Leftmost occurrence of `sep` in `s`, as Go's `strings.Index` finds it (`IndexOfSpec`). */
  function IndexOf(s: string, sep: string): (r: Option<nat>)
    ensures r.Some? ==> OccursAt(s, sep, r.value)
    decreases |s|
  {
    if |s| < |sep| then
      None
    else if s[..|sep|] == sep then
      Some(0)
    else
      match IndexOf(s[1..], sep)
      case None => None
      case Some(k) => Some(k + 1)
  }

  /**
   * `IndexOf` finds an occurrence, none lies before it, and it finds nothing
   * exactly when `sep` does not occur at all.
   */
  lemma {:induction false} IndexOfSpec(s: string, sep: string)
    ensures IndexOf(s, sep).Some? ==> forall j: nat :: j < IndexOf(s, sep).value ==> !OccursAt(s, sep, j)
    ensures IndexOf(s, sep).None? <==> !Contains(s, sep)
    decreases |s|
  {
    if |s| < |sep| {
    } else if s[..|sep|] == sep {
    } else {
      IndexOfSpec(s[1..], sep);
      assert !OccursAt(s, sep, 0);
      forall j: nat ensures OccursAt(s, sep, j + 1) <==> OccursAt(s[1..], sep, j) {
        OccursAtTail(s, sep, j);
      }
      forall j: nat | OccursAt(s, sep, j) ensures j > 0 && OccursAt(s[1..], sep, j - 1) {
        OccursAtTail(s, sep, j - 1);
      }
    }
  }

  /** No occurrence of `sep` lies wholly before the leftmost one. */
  lemma PrefixBeforeIndexFree(s: string, sep: string, i: nat)
    requires |sep| > 0
    requires IndexOf(s, sep) == Some(i)
    ensures !Contains(s[..i], sep)
  {
    IndexOfSpec(s, sep);
    forall j: nat | OccursAt(s[..i], sep, j) ensures false {
      OccursInPrefix(s, sep, i, j);
    }
  }

  /**
   * Go's `strings.Split(s, sep)` for a non-empty `sep`: the pieces of `s`
   * between consecutive non-overlapping occurrences of `sep`, scanning from
   * the left. There is always at least one piece, and there are two or more
   * pieces exactly when `sep` occurs in `s`, that is, when `IndexOf` finds it
   * (`SplitPieceLacksSep`: no piece contains `sep`).
   */
  function Split(s: string, sep: string): (r: seq<string>)
    requires |sep| > 0
    ensures |r| >= 1
    ensures |r| >= 2 <==> IndexOf(s, sep).Some?
    decreases |s|
  {
    match IndexOf(s, sep)
    case None => [s]
    case Some(i) => [s[..i]] + Split(s[i + |sep|..], sep)
  }

  /** No piece of a split contains the separator. */
  lemma {:induction false} SplitPieceLacksSep(s: string, sep: string, k: nat)
    requires |sep| > 0
    requires k < |Split(s, sep)|
    ensures !Contains(Split(s, sep)[k], sep)
    decreases |s|
  {
    match IndexOf(s, sep)
    case None =>
      IndexOfSpec(s, sep);
    case Some(i) =>
      var rest := s[i + |sep|..];
      SplitStep(s, sep, i);
      if k == 0 {
        PrefixBeforeIndexFree(s, sep, i);
      } else {
        SplitPieceLacksSep(rest, sep, k - 1);
      }
  }

  /** Go's `strings.Join`: the parts with `sep` between neighbours. */
  function Join(parts: seq<string>, sep: string): string
    decreases |parts|
  {
    if |parts| == 0 then ""
    else if |parts| == 1 then parts[0]
    else parts[0] + sep + Join(parts[1..], sep)
  }

  /** One step of `Split`: the text before the leftmost occurrence, then the pieces of the rest. */
  lemma SplitStep(s: string, sep: string, i: nat)
    requires |sep| > 0
    requires IndexOf(s, sep) == Some(i)
    ensures Split(s, sep) == [s[..i]] + Split(s[i + |sep|..], sep)
  {
  }

  /** A string is the text before an occurrence, the occurrence, and the text after it. */
  lemma CutAt(s: string, sep: string, i: nat)
    requires OccursAt(s, sep, i)
    ensures s == s[..i] + sep + s[i + |sep|..]
  {
    assert s[i..i + |sep|] == sep;
  }

  /** Joining a part in front of at least one other part puts the separator between them. */
  lemma JoinCons(x: string, parts: seq<string>, sep: string)
    requires |parts| >= 1
    ensures Join([x] + parts, sep) == x + sep + Join(parts, sep)
  {
    assert ([x] + parts)[1..] == parts;
  }

  /** Splitting loses nothing: joining the pieces with the separator gives the input back. */
  lemma {:induction false} SplitJoin(s: string, sep: string)
    requires |sep| > 0
    ensures Join(Split(s, sep), sep) == s
    decreases |s|
  {
    match IndexOf(s, sep)
    case None =>
    case Some(i) =>
      var rest := s[i + |sep|..];
      SplitJoin(rest, sep);
      SplitStep(s, sep, i);
      JoinCons(s[..i], Split(rest, sep), sep);
      CutAt(s, sep, i);
  }

  /** The first piece is the text before the leftmost occurrence, or all of `s`. */
  lemma SplitHead(s: string, sep: string)
    requires |sep| > 0
    ensures var p := Split(s, sep)[0];
      |p| <= |s| && s[..|p|] == p && (|p| == |s| || IndexOf(s, sep) == Some(|p|))
  {
  }

  /** A character at position `j` is a one-character occurrence there. */
  lemma CharOccurs(s: string, c: char, j: nat)
    ensures OccursAt(s, [c], j) <==> j < |s| && s[j] == c
  {
    if j < |s| {
      assert s[j..j + 1] == [s[j]];
    }
  }

  /** A string contains the one-character separator `[c]` exactly when `c` is one of its characters. */
  lemma ContainsChar(s: string, c: char)
    ensures Contains(s, [c]) <==> c in s
  {
    if c in s {
      var j :| 0 <= j < |s| && s[j] == c;
      CharOccurs(s, c, j);
    }
    if Contains(s, [c]) {
      var j: nat :| OccursAt(s, [c], j);
      CharOccurs(s, c, j);
    }
  }

  /** Leftmost occurrence of a character: the text before it lacks the character. */
  lemma IndexOfChar(prefix: string, c: char, suffix: string)
    requires c !in prefix
    ensures IndexOf(prefix + [c] + suffix, [c]) == Some(|prefix|)
  {
    var s := prefix + [c] + suffix;
    IndexOfSpec(s, [c]);
    CharOccurs(s, c, |prefix|);
    forall j: nat | j < |prefix| ensures !OccursAt(s, [c], j) {
      CharOccurs(s, c, j);
      assert s[j] == prefix[j];
    }
  }

  /** Splitting on one character yields one more piece than the character has occurrences. */
  lemma {:induction false} SplitCountsChar(s: string, c: char)
    ensures |Split(s, [c])| == multiset(s)[c] + 1
    decreases |s|
  {
    match IndexOf(s, [c])
    case None =>
      IndexOfSpec(s, [c]);
      ContainsChar(s, c);
    case Some(i) =>
      var rest := s[i + 1..];
      SplitCountsChar(rest, c);
      PrefixBeforeIndexFree(s, [c], i);
      ContainsChar(s[..i], c);
      CharOccurs(s, c, i);
      assert s == s[..i] + [c] + rest;
      assert multiset(s) == multiset(s[..i]) + multiset{c} + multiset(rest);
  }

  /** Splitting a text made of a separator-free head and then either nothing or the separator. */
  lemma SplitHeadChar(head: string, c: char, tail: string)
    requires c !in head
    requires tail == [] || tail[0] == c
    ensures Split(head + tail, [c])[0] == head
  {
    var s := head + tail;
    if tail == [] {
      assert s == head;
      ContainsChar(head, c);
    } else {
      assert tail == [c] + tail[1..];
      assert s == head + [c] + tail[1..];
      IndexOfChar(head, c, tail[1..]);
      assert s[..|head|] == head;
    }
  }

  /** Every piece of a split is a stretch of the input: the `k`-th piece starts at index `i`. */
  lemma {:induction false} SplitPieceAt(s: string, sep: string, k: nat) returns (i: nat)
    requires |sep| > 0
    requires k < |Split(s, sep)|
    ensures OccursAt(s, Split(s, sep)[k], i)
    decreases |s|
  {
    match IndexOf(s, sep)
    case None =>
      i := 0;
      assert s[0..|s|] == s;
    case Some(i0) =>
      var rest := s[i0 + |sep|..];
      SplitStep(s, sep, i0);
      if k == 0 {
        i := 0;
        assert s[0..i0] == s[..i0];
      } else {
        var j := SplitPieceAt(rest, sep, k - 1);
        assert Split(s, sep)[k] == Split(rest, sep)[k - 1];
        OccursInSuffix(s, i0 + |sep|, Split(rest, sep)[k - 1], j);
        i := i0 + |sep| + j;
      }
  }

  /** An occurrence inside a suffix of `s` is an occurrence in `s`, shifted by where the suffix starts. */
  lemma OccursInSuffix(s: string, n: nat, p: string, j: nat)
    requires n <= |s|
    requires OccursAt(s[n..], p, j)
    ensures OccursAt(s, p, n + j)
  {
    assert s[n..][j..j + |p|] == s[n + j..n + j + |p|];
  }

  /** A substring of a stretch of `s` is a substring of `s`. */
  lemma ContainsInInfix(s: string, p: string, i: nat, m: string)
    requires OccursAt(s, p, i)
    requires Contains(p, m)
    ensures Contains(s, m)
  {
    var j: nat :| OccursAt(p, m, j);
    assert p == s[i..i + |p|];
    forall x | j <= x < j + |m| ensures p[x] == s[i + x] {
      assert p[x] == s[i..i + |p|][x];
    }
    assert p[j..j + |m|] == s[i + j..i + j + |m|];
    assert OccursAt(s, m, i + j);
  }

  /** Splitting at a character that the head lacks: the head is the first piece. */
  lemma SplitOnChar(head: string, c: char, rest: string)
    requires c !in head
    ensures Split(head + [c] + rest, [c]) == [head] + Split(rest, [c])
  {
    var s := head + [c] + rest;
    IndexOfChar(head, c, rest);
    assert s[..|head|] == head;
    assert s[|head| + 1..] == rest;
  }

  /** When there are two or more pieces, the first is followed by the separator character. */
  lemma SplitAtChar(s: string, c: char) returns (head: string, rest: string)
    requires |Split(s, [c])| >= 2
    ensures s == head + [c] + rest && c !in head
    ensures Split(s, [c]) == [head] + Split(rest, [c])
  {
    var i := IndexOf(s, [c]).value;
    head, rest := s[..i], s[i + 1..];
    CharOccurs(s, c, i);
    PrefixBeforeIndexFree(s, [c], i);
    ContainsChar(head, c);
    assert s == head + [c] + rest;
  }

  /** The first piece is followed by nothing or by the separator character. */
  lemma SplitFirstChar(s: string, c: char) returns (post: string)
    ensures s == Split(s, [c])[0] + post && c !in Split(s, [c])[0]
    ensures post == [] || post[0] == c
  {
    var head := Split(s, [c])[0];
    SplitHead(s, [c]);
    SplitPieceLacksSep(s, [c], 0);
    post := s[|head|..];
    if |head| < |s| {
      CharOccurs(s, c, |head|);
    }
    ContainsChar(head, c);
    assert s == head + post;
  }

  /** A pattern absent from the input is absent from every piece of its split. */
  lemma SplitPieceLacks(s: string, sep: string, k: nat, m: string)
    requires |sep| > 0
    requires k < |Split(s, sep)|
    requires !Contains(s, m)
    ensures !Contains(Split(s, sep)[k], m)
  {
    var i := SplitPieceAt(s, sep, k);
    if Contains(Split(s, sep)[k], m) {
      ContainsInInfix(s, Split(s, sep)[k], i, m);
    }
  }
}
