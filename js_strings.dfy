/** The JavaScript string operations the app relies on: `indexOf`/`includes`,
    `split` and `replace` with a string pattern, and the white-space trimming
    that string-to-number conversion performs. */
module JsStrings {
  import opened Wrappers

  /** `pat` occurs in `s` starting at index `i`. */
  predicate MatchesAt(s: string, pat: string, i: nat)
  {
    i + |pat| <= |s| && s[i..i + |pat|] == pat
  }

  /** The first index at or after `from` where `pat` occurs in `s`, with
      `None` for -1. At `from == 0` this is `s.indexOf(pat)`; for a start past
      the end JavaScript clamps it to `|s|`, which this helper does not. */
  function IndexOfFrom(s: string, pat: string, from: nat): (r: Option<nat>)
    ensures r.Some? ==> from <= r.value && MatchesAt(s, pat, r.value)
    ensures forall q :: from <= q && (r.None? || q < r.value) ==> !MatchesAt(s, pat, q)
    decreases |s| + 1 - from
  {
    if |s| < from + |pat| then None
    else if MatchesAt(s, pat, from) then Some(from)
    else IndexOfFrom(s, pat, from + 1)
  }

  /** `s.indexOf(pat)`. */
  function IndexOf(s: string, pat: string): Option<nat>
  {
    IndexOfFrom(s, pat, 0)
  }

  /** `s.includes(pat)`. */
  predicate Includes(s: string, pat: string)
  {
    IndexOf(s, pat).Some?
  }

  /** `includes` holds exactly when the pattern occurs somewhere. */
  lemma IncludesIff(s: string, pat: string)
    ensures Includes(s, pat) <==> exists q :: MatchesAt(s, pat, q)
  {
    if Includes(s, pat) {
      assert MatchesAt(s, pat, IndexOf(s, pat).value);
    }
  }

  /** An occurrence with no earlier occurrence is the one `indexOf` finds. */
  lemma IndexOfFirstMatch(s: string, pat: string, j: nat)
    requires MatchesAt(s, pat, j)
    requires forall q: nat :: q < j ==> !MatchesAt(s, pat, q)
    ensures IndexOf(s, pat) == Some(j)
  {
  }

  /** A string in which the pattern's first character never appears does not include the pattern. */
  lemma AbsentWithoutFirstChar(s: string, pat: string)
    requires pat != []
    requires forall k :: 0 <= k < |s| ==> s[k] != pat[0]
    ensures IndexOf(s, pat) == None
  {
  }

  /** `s.split(sep)` for a non-empty separator: the pieces between the
      left-to-right, non-overlapping occurrences of `sep`. */
  function Split(s: string, sep: string): (parts: seq<string>)
    requires sep != []
    ensures 1 <= |parts| <= |s| + 1
    decreases |s|
  {
    match IndexOf(s, sep)
    case None => [s]
    case Some(j) => [s[..j]] + Split(s[j + |sep|..], sep)
  }

  /** `parts.join(sep)`. */
  function Join(parts: seq<string>, sep: string): string
    requires |parts| >= 1
  {
    if |parts| == 1 then parts[0] else parts[0] + sep + Join(parts[1..], sep)
  }

  /** A string is what precedes an occurrence, the occurrence, and what follows. */
  lemma CutAtMatch(s: string, pat: string, j: nat)
    requires MatchesAt(s, pat, j)
    ensures s == s[..j] + pat + s[j + |pat|..]
  {
    assert s == s[..j] + s[j..j + |pat|] + s[j + |pat|..];
  }

  /** Joining the pieces of a split with the separator gives back the string. */
  lemma {:induction false} JoinSplit(s: string, sep: string)
    requires sep != []
    ensures Join(Split(s, sep), sep) == s
    decreases |s|
  {
    match IndexOf(s, sep)
    case None =>
    case Some(j) =>
      var rest := s[j + |sep|..];
      JoinSplit(rest, sep);
      var tail := Split(rest, sep);
      assert Split(s, sep) == [s[..j]] + tail;
      assert ([s[..j]] + tail)[1..] == tail;
      assert Join([s[..j]] + tail, sep) == s[..j] + sep + Join(tail, sep);
      CutAtMatch(s, sep, j);
  }

  /** An occurrence inside a prefix of `s` is an occurrence in `s`. */
  lemma MatchInPrefix(s: string, pat: string, j: nat, q: nat)
    requires j <= |s| && MatchesAt(s[..j], pat, q)
    ensures MatchesAt(s, pat, q)
  {
    assert s[..j][q..q + |pat|] == s[q..q + |pat|];
  }

  /** No piece of a split contains the separator. */
  lemma {:induction false} SplitPiecesExcludeSeparator(s: string, sep: string)
    requires sep != []
    ensures forall k :: 0 <= k < |Split(s, sep)| ==> !Includes(Split(s, sep)[k], sep)
    decreases |s|
  {
    match IndexOf(s, sep)
    case None =>
    case Some(j) =>
      var rest := s[j + |sep|..];
      SplitPiecesExcludeSeparator(rest, sep);
      assert Split(s, sep) == [s[..j]] + Split(rest, sep);
      if Includes(s[..j], sep) {
        var q := IndexOf(s[..j], sep).value;
        MatchInPrefix(s, sep, j, q);
        assert false;
      }
  }

  /** The first character of `sep` does not occur again in it, so an
      occurrence of `sep` cannot straddle the end of a piece and the start of
      the next separator. */
  predicate FirstCharUnique(sep: string)
  {
    sep != [] && forall i :: 0 < i < |sep| ==> sep[i] != sep[0]
  }

  /** Splitting the join of separator-free pieces gives back the pieces, for a
      separator whose first character does not recur in it. */
  lemma {:induction false} SplitJoin(parts: seq<string>, sep: string)
    requires FirstCharUnique(sep) && |parts| >= 1
    requires forall k :: 0 <= k < |parts| ==> !Includes(parts[k], sep)
    ensures Split(Join(parts, sep), sep) == parts
    decreases |parts|
  {
    if |parts| > 1 {
      var p, rest := parts[0], Join(parts[1..], sep);
      var s := p + sep + rest;
      assert Join(parts, sep) == s;
      var b := |p|;
      assert s[b..b + |sep|] == sep;
      forall q: nat | q < b
        ensures !MatchesAt(s, sep, q)
      {
        if q + |sep| <= b {
          assert p[q..q + |sep|] == s[q..q + |sep|];
          assert !MatchesAt(p, sep, q);
        } else if q + |sep| <= |s| {
          var i := b - q;
          assert s[q..q + |sep|][i] == s[b] == sep[0] != sep[i];
        }
      }
      IndexOfFirstMatch(s, sep, b);
      assert s[..b] == p;
      assert s[b + |sep|..] == rest;
      SplitJoin(parts[1..], sep);
    }
  }

  /** `s.replace(pat, rep)` with a string pattern: only the first occurrence is
      replaced (the replacements used here contain no `$` patterns). */
  function ReplaceFirst(s: string, pat: string, rep: string): string
  {
    match IndexOf(s, pat)
    case None => s
    case Some(j) => s[..j] + rep + s[j + |pat|..]
  }

  /** `replace` leaves a string without the pattern as it is, and otherwise
      trades the pattern's length for the replacement's. */
  lemma ReplaceFirstLength(s: string, pat: string, rep: string)
    ensures !Includes(s, pat) ==> ReplaceFirst(s, pat, rep) == s
    ensures Includes(s, pat) ==> |ReplaceFirst(s, pat, rep)| + |pat| == |s| + |rep|
  {
  }

  /** Removing a pattern that the string starts with leaves the rest. */
  lemma RemoveLeading(pat: string, rest: string)
    ensures ReplaceFirst(pat + rest, pat, "") == rest
  {
    IndexOfFirstMatch(pat + rest, pat, 0);
  }

  /** When nothing before an occurrence starts with the pattern's first
      character, that occurrence is the first one. */
  lemma FirstOccurrenceAfter(pre: string, pat: string, post: string)
    requires pat != []
    requires forall k :: 0 <= k < |pre| ==> pre[k] != pat[0]
    ensures IndexOf(pre + pat + post, pat) == Some(|pre|)
  {
    var s := pre + pat + post;
    assert s[|pre|..|pre| + |pat|] == pat;
    forall q: nat | q < |pre|
      ensures !MatchesAt(s, pat, q)
    {
      if q + |pat| <= |s| {
        assert s[q..q + |pat|][0] == pre[q] != pat[0];
      }
    }
    IndexOfFirstMatch(s, pat, |pre|);
  }

  /** `replace` removes the occurrence that `FirstOccurrenceAfter` finds. */
  lemma RemoveFirstOccurrence(pre: string, pat: string, post: string)
    requires pat != []
    requires forall k :: 0 <= k < |pre| ==> pre[k] != pat[0]
    ensures ReplaceFirst(pre + pat + post, pat, "") == pre + post
  {
    FirstOccurrenceAfter(pre, pat, post);
    var s := pre + pat + post;
    assert s[..|pre|] == pre;
    assert s[|pre| + |pat|..] == post;
    assert ReplaceFirst(s, pat, "") == s[..|pre|] + "" + s[|pre| + |pat|..];
  }

  /** A pattern whose first character appears only where the rest of the
      pattern no longer fits does not occur. */
  lemma AbsentForLackOfRoom(s: string, pat: string)
    requires pat != []
    requires forall q :: 0 <= q < |s| && s[q] == pat[0] ==> q + |pat| > |s|
    ensures IndexOf(s, pat) == None
  {
  }

  /** The characters that ECMAScript's WhiteSpace and LineTerminator
      productions accept (section 12.2 and 12.3 of ECMA-262). */
  predicate IsWhiteSpace(c: char)
  {
    c == '\t' || c == '\n' || c == '\U{000B}' || c == '\U{000C}' || c == '\r' || c == ' '
    || c == '\U{00A0}' || c == '\U{1680}' || ('\U{2000}' <= c <= '\U{200A}')
    || c == '\U{2028}' || c == '\U{2029}' || c == '\U{202F}' || c == '\U{205F}'
    || c == '\U{3000}' || c == '\U{FEFF}'
  }

  /** Drops leading white space. */
  function TrimStart(s: string): (r: string)
    ensures |r| <= |s| && r == s[|s| - |r|..]
    ensures forall k :: 0 <= k < |s| - |r| ==> IsWhiteSpace(s[k])
    ensures r == [] || !IsWhiteSpace(r[0])
  {
    if s != [] && IsWhiteSpace(s[0]) then TrimStart(s[1..]) else s
  }

  /** Drops trailing white space. */
  function TrimEnd(s: string): (r: string)
    ensures |r| <= |s| && r == s[..|r|]
    ensures forall k :: |r| <= k < |s| ==> IsWhiteSpace(s[k])
    ensures r == [] || !IsWhiteSpace(r[|r| - 1])
  {
    if s != [] && IsWhiteSpace(s[|s| - 1]) then TrimEnd(s[..|s| - 1]) else s
  }

  /** `s.trim()`: what remains neither starts nor ends with white space, and
      it is empty exactly when the string is all white space. */
  function Trim(s: string): (r: string)
    ensures r == [] || (!IsWhiteSpace(r[0]) && !IsWhiteSpace(r[|r| - 1]))
    ensures r == [] <==> forall k :: 0 <= k < |s| ==> IsWhiteSpace(s[k])
  {
    var t := TrimStart(s);
    var r := TrimEnd(t);
    assert r != [] ==> r[0] == t[0];
    assert t == s[|s| - |t|..];
    assert forall k :: |s| - |t| <= k < |s| ==> s[k] == t[k - (|s| - |t|)];
    r
  }
}
