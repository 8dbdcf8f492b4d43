/** The prefix of a YAML node is the raw text (spaces, line breaks and `#` comments)
    that stands in front of it. This module holds the string primitives of the
    indentation pass (IndentsVisitor): measuring the indent after the last line
    break, realigning comment lines, and shifting the final whitespace run. */
module Prefixes {

  /** A line break as findIndent counts it. */
  predicate IsBreak(c: char) {
    c == '\n' || c == '\r'
  }

  /** Java's `\s` without the Unicode flag: the class [ \t\n\x0B\f\r]. */
  predicate IsSpace(c: char) {
    c == ' ' || c == '\t' || c == '\n' || c == '\U{000B}' || c == '\U{000C}' || c == '\r'
  }

  predicate NoBreak(s: string) {
    forall i :: 0 <= i < |s| ==> !IsBreak(s[i])
  }

  predicate AllSpace(s: string) {
    forall i :: 0 <= i < |s| ==> IsSpace(s[i])
  }

  /** `" ".repeat(n)`. */
  function Spaces(n: nat): (r: string)
    ensures |r| == n
  {
    if n == 0 then [] else Spaces(n - 1) + [' ']
  }

  /** Spaces are whitespace and not line breaks. */
  lemma {:induction false} SpacesAreSpaces(n: nat)
    ensures AllSpace(Spaces(n)) && NoBreak(Spaces(n))
  {
    if n > 0 {
      SpacesAreSpaces(n - 1);
      assert forall i :: 0 <= i < n - 1 ==> Spaces(n)[i] == Spaces(n - 1)[i];
    }
  }

  /** The spaces can be counted from the front as well. */
  lemma {:induction false} SpacesCons(n: nat)
    requires n > 0
    ensures Spaces(n) == [' '] + Spaces(n - 1)
  {
    if n > 1 {
      SpacesCons(n - 1);
      assert Spaces(n) == [' '] + Spaces(n - 2) + [' '];
    }
  }

  // ---------------------------------------------------------------------------
  // findIndent
  // ---------------------------------------------------------------------------

  /** The number of characters after the last line break of `p`; all of `p`
      when it has no line break. */
  function IndentOf(p: string): (n: nat)
    ensures n <= |p|
  {
    if p == [] then 0
    else if IsBreak(p[|p| - 1]) then 0
    else IndentOf(p[..|p| - 1]) + 1
  }

  /** What IndentOf counts: the last IndentOf(p) characters hold no line break,
      and the character before them, if any, is one. */
  lemma {:induction false} IndentOfSpec(p: string)
    ensures NoBreak(p[|p| - IndentOf(p)..])
    ensures IndentOf(p) < |p| ==> IsBreak(p[|p| - IndentOf(p) - 1])
    decreases |p|
  {
    if p != [] && !IsBreak(p[|p| - 1]) {
      var q := p[..|p| - 1];
      IndentOfSpec(q);
      SuffixSnoc(p, IndentOf(q));
    }
  }

  /** The last m + 1 characters of p are the last m of all but its last
      character, then that character. */
  lemma SuffixSnoc(p: string, m: nat)
    requires m < |p|
    ensures p[|p| - (m + 1)..] == p[..|p| - 1][|p| - 1 - m..] + [p[|p| - 1]]
  {
  }

  /** The two facts of IndentOfSpec determine the count. */
  lemma IndentOfUnique(p: string, m: nat)
    requires m <= |p|
    requires NoBreak(p[|p| - m..])
    requires m < |p| ==> IsBreak(p[|p| - m - 1])
    ensures m == IndentOf(p)
  {
    IndentOfSpec(p);
  }

  /** A prefix without line breaks is all indent; one that ends in a line break has none. */
  lemma IndentOfExtremes(p: string)
    ensures NoBreak(p) ==> IndentOf(p) == |p|
    ensures p != [] && IsBreak(p[|p| - 1]) ==> IndentOf(p) == 0
  {
    if NoBreak(p) {
      assert p[|p| - |p|..] == p;
      IndentOfUnique(p, |p|);
    }
  }

  /** The indent of a concatenation: the tail's own indent when the tail holds a
      line break, otherwise the head's indent extended by the whole tail. */
  lemma {:induction false} IndentOfAppend(a: string, b: string)
    ensures IndentOf(a + b) == if NoBreak(b) then IndentOf(a) + |b| else IndentOf(b)
    decreases |b|
  {
    if b == [] {
      assert a + b == a;
    } else {
      var c := b[|b| - 1];
      var b' := b[..|b| - 1];
      assert (a + b)[..|a + b| - 1] == a + b';
      assert b == b' + [c];
      IndentOfAppend(a, b');
      if !IsBreak(c) {
        assert NoBreak(b) <==> NoBreak(b') by {
          if NoBreak(b') {
            forall i | 0 <= i < |b| ensures !IsBreak(b[i]) {
              if i < |b'| { assert b[i] == b'[i]; }
            }
          }
          if NoBreak(b) {
            forall i | 0 <= i < |b'| ensures !IsBreak(b'[i]) {
              assert b'[i] == b[i];
            }
          }
        }
      }
    }
  }

  /** findIndent: a loop that counts characters and restarts at every line break. */
  method FindIndent(p: string) returns (size: nat)
    ensures size == IndentOf(p)
  {
    size := 0;
    for i := 0 to |p|
      invariant size == IndentOf(p[..i])
    {
      assert p[..i + 1][..i] == p[..i];
      size := size + 1;
      if IsBreak(p[i]) {
        size := 0;
      }
    }
    assert p[..|p|] == p;
  }

  // ---------------------------------------------------------------------------
  // indent / shift on a StringBuilder
  // ---------------------------------------------------------------------------

  /** The text a StringBuilder holds after shift(text, shift): `shift` spaces
      appended when it is positive, otherwise its last `-shift` characters deleted.
      Java's delete throws when more characters would go than there are, hence the
      precondition. */
  function Shifted(s: string, shift: int): string
    requires -shift <= |s|
  {
    if shift > 0 then s + Spaces(shift) else s[..|s| + shift]
  }

  /** The mutable character buffer that indent and shift work on. */
  class StringBuilder {
    var chars: string

    constructor (s: string)
      ensures chars == s
    {
      chars := s;
    }

    method Append(c: char)
      modifies this
      ensures chars == old(chars) + [c]
    {
      chars := chars + [c];
    }

    /** delete(start, end): removes the characters at positions start .. end - 1. */
    method Delete(start: nat, end: nat)
      requires start <= end == |chars|
      modifies this
      ensures chars == old(chars)[..start]
    {
      chars := chars[..start] + chars[end..];
    }
  }

  /** shift: appends spaces one at a time, or deletes trailing characters. */
  method Shift(text: StringBuilder, shift: int)
    requires -shift <= |text.chars|
    modifies text
    ensures text.chars == Shifted(old(text.chars), shift)
  {
    if shift > 0 {
      ghost var start := text.chars;
      for i := 0 to shift
        invariant text.chars == start + Spaces(i)
      {
        text.Append(' ');
      }
    } else {
      text.Delete(|text.chars| + shift, |text.chars|);
    }
  }

  /** indent: shifts a copy of the prefix and returns it. */
  method Indent(whitespace: string, shift: int) returns (r: string)
    requires -shift <= |whitespace|
    ensures r == Shifted(whitespace, shift)
    ensures shift > 0 ==> r == whitespace + Spaces(shift)
    ensures shift <= 0 ==> r + whitespace[|whitespace| + shift..] == whitespace
  {
    var text := new StringBuilder(whitespace);
    Shift(text, shift);
    r := text.chars;
  }

  // ---------------------------------------------------------------------------
  // The two fixed regular expressions of indentComments
  // ---------------------------------------------------------------------------

  /** Length of the leading run of `\s` characters. */
  function LeadRun(s: string): (r: nat)
    ensures r <= |s|
  {
    if s == [] || !IsSpace(s[0]) then 0 else LeadRun(s[1..]) + 1
  }

  /** The leading run is all `\s` and is not followed by another `\s`. */
  lemma {:induction false} LeadRunSpec(s: string)
    ensures AllSpace(s[..LeadRun(s)])
    ensures LeadRun(s) < |s| ==> !IsSpace(s[LeadRun(s)])
    decreases |s|
  {
    if s != [] && IsSpace(s[0]) {
      var m := LeadRun(s[1..]);
      LeadRunSpec(s[1..]);
      assert s[..m + 1] == [s[0]] + s[1..][..m];
    }
  }

  /** `s` starts with `\s*#`: the leading whitespace run is followed by a `#`. */
  predicate CommentAfterRun(s: string) {
    LeadRun(s) < |s| && s[LeadRun(s)] == '#'
  }

  /** `p.replaceAll("\n\\s*#", "\n" + " ".repeat(n) + "#")`, written out as the
      left-to-right matcher Java runs: at a `\n` whose following whitespace run
      (line breaks included) ends in `#`, the whole match is replaced; otherwise
      the character is copied and matching resumes one further on. */
  function ReindentComments(p: string, n: nat): string
    decreases |p|
  {
    if p == [] then []
    else if p[0] == '\n' && CommentAfterRun(p[1..]) then
      "\n" + Spaces(n) + "#" + ReindentComments(p[1..][LeadRun(p[1..]) + 1..], n)
    else
      [p[0]] + ReindentComments(p[1..], n)
  }

  /** `p.replaceFirst("^\\s*#", "#")`: leading whitespace is stripped when a `#`
      follows it. */
  function StripLeadingComment(p: string): (r: string)
    ensures |r| <= |p| && r == p[|p| - |r|..]
    ensures r != p <==> CommentAfterRun(p) && LeadRun(p) > 0
    ensures CommentAfterRun(p) ==> r != [] && r[0] == '#'
  {
    if CommentAfterRun(p) then p[LeadRun(p)..] else p
  }

  /** Only whitespace is stripped. */
  lemma StripOnlySpaces(p: string)
    ensures AllSpace(p[..|p| - |StripLeadingComment(p)|])
  {
    LeadRunSpec(p);
  }

  /** indentComments(prefix, indent): when the prefix holds a `#`, comment lines are
      realigned to `indent`; when the node under the cursor is a Document the
      realigned text is discarded and only `^\s*#` is rewritten. The source's
      final "changed text, else the original" choice returns an equal string
      either way, so on values it is the rewritten text. */
  function IndentComments(p: string, n: nat, atDocument: bool): (r: string)
    ensures '#' !in p ==> r == p
    ensures !atDocument ==> r == ReindentComments(p, n)
    ensures atDocument ==> r == StripLeadingComment(p)
  {
    if '#' in p then
      if atDocument then StripLeadingComment(p) else ReindentComments(p, n)
    else
      NoCommentUnchanged(p, n);
      p
  }

  /** indentTo: comments are realigned to the prefix's existing indent (not to
      `column`), then the final whitespace run is shifted to `column`. */
  function IndentTo(p: string, column: nat): (r: string)
    ensures '\n' !in p ==> r == p
  {
    if '\n' !in p then p
    else
      var indent := IndentOf(p);
      var q := IndentComments(p, indent, false);
      ReindentLongEnough(p);
      if indent != column then Shifted(q, column - indent) else q
  }

  /** indentTo as the visitor runs it: findIndent's loop, indentComments, and the
      StringBuilder shift. */
  method Realign(p: string, column: nat) returns (r: string)
    ensures r == IndentTo(p, column)
  {
    if '\n' !in p {
      return p;
    }
    var indent := FindIndent(p);
    var q := IndentComments(p, indent, false);
    ReindentLongEnough(p);
    if indent != column {
      assert IndentTo(p, column) == Shifted(q, column - indent);
      r := Indent(q, column - indent);
    } else {
      assert IndentTo(p, column) == q;
      r := q;
    }
  }

  // ---------------------------------------------------------------------------
  // Properties of the comment realigner
  // ---------------------------------------------------------------------------

  /** Realigning either changes nothing or leaves a text longer than the
      column it aligns to: every replacement holds `n` spaces. */
  lemma {:induction false} ReindentLength(p: string, n: nat)
    ensures ReindentComments(p, n) == p || |ReindentComments(p, n)| > n
    decreases |p|
  {
    if p != [] {
      if p[0] == '\n' && CommentAfterRun(p[1..]) {
        ReindentAtMatch(p, n);
      } else {
        ReindentAtCopy(p, n);
        ReindentLength(p[1..], n);
        assert p == [p[0]] + p[1..];
      }
    }
  }

  /** With no `#` there is nothing to match. */
  lemma {:induction false} NoCommentUnchanged(p: string, n: nat)
    requires '#' !in p
    ensures ReindentComments(p, n) == p
    decreases |p|
  {
    if p != [] {
      if CommentAfterRun(p[1..]) {
        assert p[1..][LeadRun(p[1..])] in p;
      }
      NoCommentUnchanged(p[1..], n);
    }
  }

  /** A leading whitespace character does not change whether a `#` follows the
      leading run. */
  lemma CommentAfterRunCons(c: char, s: string)
    requires IsSpace(c)
    ensures LeadRun([c] + s) == LeadRun(s) + 1
    ensures CommentAfterRun([c] + s) == CommentAfterRun(s)
  {
    assert ([c] + s)[1..] == s;
  }

  /** Appending text without `#` cannot create or extend a match. */
  lemma {:induction false} ReindentAppend(a: string, b: string, n: nat)
    requires '#' !in b
    ensures ReindentComments(a + b, n) == ReindentComments(a, n) + b
    decreases |a|, 1
  {
    if a == [] {
      assert a + b == b;
      NoCommentUnchanged(b, n);
    } else if a[0] == '\n' && CommentAfterRun(a[1..]) {
      AppendAtMatch(a, b, n);
    } else {
      AppendAtCopy(a, b, n);
    }
  }

  lemma {:induction false} AppendAtMatch(a: string, b: string, n: nat)
    requires '#' !in b
    requires a != [] && a[0] == '\n' && CommentAfterRun(a[1..])
    ensures ReindentComments(a + b, n) == ReindentComments(a, n) + b
    decreases |a|, 0
  {
    var rest := a[1..][LeadRun(a[1..]) + 1..];
    MatchBeforeAppend(a, b, n);
    ReindentAtMatch(a, n);
    ReindentAppend(rest, b, n);
    ConcatAssoc(Replacement(n), ReindentComments(rest, n), b);
  }

  lemma ConcatAssoc(x: string, y: string, z: string)
    ensures x + (y + z) == (x + y) + z
  {
  }

  /** A match at the head of `a` is a match at the head of `a + b`. */
  lemma MatchBeforeAppend(a: string, b: string, n: nat)
    requires a != [] && a[0] == '\n' && CommentAfterRun(a[1..])
    ensures ReindentComments(a + b, n) ==
      Replacement(n) + ReindentComments(a[1..][LeadRun(a[1..]) + 1..] + b, n)
  {
    var t := a[1..];
    var ab := a + b;
    assert ab[0] == a[0];
    assert ab[1..] == t + b;
    LeadRunAppend(t, b);
    assert (t + b)[LeadRun(t) + 1..] == t[LeadRun(t) + 1..] + b;
    ReindentAtMatch(ab, n);
  }

  lemma {:induction false} AppendAtCopy(a: string, b: string, n: nat)
    requires '#' !in b
    requires a != [] && !(a[0] == '\n' && CommentAfterRun(a[1..]))
    ensures ReindentComments(a + b, n) == ReindentComments(a, n) + b
    decreases |a|, 0
  {
    var t := a[1..];
    CopyBeforeAppend(a, b, n);
    ReindentAtCopy(a, n);
    ReindentAppend(t, b, n);
    ConcatAssoc([a[0]], ReindentComments(t, n), b);
  }

  /** A copied head character of `a` is also copied at the head of `a + b`. */
  lemma CopyBeforeAppend(a: string, b: string, n: nat)
    requires '#' !in b
    requires a != [] && !(a[0] == '\n' && CommentAfterRun(a[1..]))
    ensures ReindentComments(a + b, n) == [a[0]] + ReindentComments(a[1..] + b, n)
  {
    var t := a[1..];
    var ab := a + b;
    assert ab[0] == a[0];
    assert ab[1..] == t + b;
    if a[0] == '\n' {
      NoMatchAfterAppend(t, b);
    }
    ReindentAtCopy(ab, n);
  }

  /** Appending text without `#` to a text that does not start with `\s*#`
      does not make it start with one. */
  lemma NoMatchAfterAppend(t: string, b: string)
    requires '#' !in b && !CommentAfterRun(t)
    ensures !CommentAfterRun(t + b)
  {
    LeadRunAppend(t, b);
    var j := LeadRun(t + b);
    if j < |t| {
      assert j == LeadRun(t);
    } else if j < |t + b| {
      assert (t + b)[j] == b[j - |t|];
      assert b[j - |t|] in b;
    }
  }

  /** The leading run of `t + b` agrees with that of `t` unless it covers all of `t`. */
  lemma {:induction false} LeadRunAppend(t: string, b: string)
    ensures LeadRun(t) < |t| ==> LeadRun(t + b) == LeadRun(t)
    ensures LeadRun(t) == |t| ==> LeadRun(t + b) >= |t|
    decreases |t|
  {
    if t == [] {
    } else if !IsSpace(t[0]) {
      assert (t + b)[0] == t[0];
    } else {
      assert (t + b)[1..] == t[1..] + b;
      assert (t + b)[0] == t[0];
      LeadRunAppend(t[1..], b);
    }
  }

  /** A text that does not start with `\s*#` keeps that property after realignment. */
  lemma {:induction false} NoLeadingCommentKept(s: string, n: nat)
    requires !CommentAfterRun(s)
    ensures !CommentAfterRun(ReindentComments(s, n))
    decreases |s|
  {
    if s != [] {
      if IsSpace(s[0]) {
        assert s == [s[0]] + s[1..];
        CommentAfterRunCons(s[0], s[1..]);
        NoLeadingCommentKept(s[1..], n);
        CommentAfterRunCons(s[0], ReindentComments(s[1..], n));
      } else {
        assert s[0] != '#';
      }
    }
  }

  /** The text a match is replaced with. */
  function Replacement(n: nat): string {
    "\n" + Spaces(n) + "#"
  }

  lemma ReindentAtMatch(p: string, n: nat)
    requires p != [] && p[0] == '\n' && CommentAfterRun(p[1..])
    ensures ReindentComments(p, n) == Replacement(n) + ReindentComments(p[1..][LeadRun(p[1..]) + 1..], n)
  {
  }

  lemma ReindentAtCopy(p: string, n: nat)
    requires p != [] && !(p[0] == '\n' && CommentAfterRun(p[1..]))
    ensures ReindentComments(p, n) == [p[0]] + ReindentComments(p[1..], n)
  {
  }

  /** Realigning comments twice to the same column changes nothing more. */
  lemma {:induction false} ReindentIdempotent(p: string, n: nat)
    ensures ReindentComments(ReindentComments(p, n), n) == ReindentComments(p, n)
    decreases |p|
  {
    if p != [] {
      var t := p[1..];
      if p[0] == '\n' && CommentAfterRun(t) {
        var rest := t[LeadRun(t) + 1..];
        var rr := ReindentComments(rest, n);
        ReindentAtMatch(p, n);
        var q := Replacement(n) + rr;
        assert q[0] == '\n';
        assert q[1..] == Spaces(n) + "#" + rr;
        SpacesThenHash(n, rr);
        assert q[1..][n + 1..] == rr;
        ReindentAtMatch(q, n);
        ReindentIdempotent(rest, n);
      } else {
        var rt := ReindentComments(t, n);
        ReindentAtCopy(p, n);
        var q := [p[0]] + rt;
        assert q[0] == p[0];
        assert q[1..] == rt;
        if p[0] == '\n' {
          NoLeadingCommentKept(t, n);
        }
        ReindentAtCopy(q, n);
        ReindentIdempotent(t, n);
      }
    }
  }

  lemma SpacesThenHash(n: nat, rest: string)
    ensures LeadRun(Spaces(n) + "#" + rest) == n
    ensures CommentAfterRun(Spaces(n) + "#" + rest)
    decreases n
  {
    if n > 0 {
      var s := Spaces(n) + "#" + rest;
      SpacesCons(n);
      assert s == [' '] + (Spaces(n - 1) + "#" + rest);
      SpacesThenHash(n - 1, rest);
      CommentAfterRunCons(' ', Spaces(n - 1) + "#" + rest);
    }
  }

  /** The text with every `\s` character removed. */
  function NonSpace(s: string): string
    decreases |s|
  {
    if s == [] then [] else (if IsSpace(s[0]) then [] else [s[0]]) + NonSpace(s[1..])
  }

  lemma {:induction false} NonSpaceAppend(a: string, b: string)
    ensures NonSpace(a + b) == NonSpace(a) + NonSpace(b)
    decreases |a|
  {
    if a == [] {
      assert a + b == b;
    } else {
      assert (a + b)[1..] == a[1..] + b;
      NonSpaceAppend(a[1..], b);
    }
  }

  lemma {:induction false} NonSpaceOfSpaces(s: string)
    requires AllSpace(s)
    ensures NonSpace(s) == []
    decreases |s|
  {
    if s != [] {
      NonSpaceOfSpaces(s[1..]);
    }
  }

  /** A whitespace run followed by `#` keeps only the `#`. */
  lemma NonSpaceOfRunThenHash(run: string, rest: string)
    requires AllSpace(run)
    ensures NonSpace(run + "#" + rest) == "#" + NonSpace(rest)
  {
    NonSpaceAppend(run + "#", rest);
    NonSpaceAppend(run, "#");
    NonSpaceOfSpaces(run);
    assert NonSpace("#") == "#";
  }

  /** Realigning comments only moves whitespace: every other character survives,
      in order. */
  lemma {:induction false} ReindentKeepsContent(p: string, n: nat)
    ensures NonSpace(ReindentComments(p, n)) == NonSpace(p)
    decreases |p|, 1
  {
    if p != [] {
      if p[0] == '\n' && CommentAfterRun(p[1..]) {
        KeepsContentAtMatch(p, n);
      } else {
        KeepsContentAtCopy(p, n);
      }
    }
  }

  lemma {:induction false} KeepsContentAtMatch(p: string, n: nat)
    requires p != [] && p[0] == '\n' && CommentAfterRun(p[1..])
    ensures NonSpace(ReindentComments(p, n)) == NonSpace(p)
    decreases |p|, 0
  {
    var rest := p[1..][LeadRun(p[1..]) + 1..];
    var rr := ReindentComments(rest, n);
    ReindentAtMatch(p, n);
    ReindentKeepsContent(rest, n);
    MatchKeepsContent(p, n);
    assert NonSpace(ReindentComments(p, n)) == NonSpace(Replacement(n) + rr);
    assert NonSpace(Replacement(n) + rr) == "#" + NonSpace(rest);
  }

  lemma {:induction false} KeepsContentAtCopy(p: string, n: nat)
    requires p != [] && !(p[0] == '\n' && CommentAfterRun(p[1..]))
    ensures NonSpace(ReindentComments(p, n)) == NonSpace(p)
    decreases |p|, 0
  {
    ReindentAtCopy(p, n);
    ReindentKeepsContent(p[1..], n);
    CopyKeepsContent(p[0], p[1..], ReindentComments(p[1..], n));
    assert p == [p[0]] + p[1..];
  }

  lemma MatchKeepsContent(p: string, n: nat)
    requires p != [] && p[0] == '\n' && CommentAfterRun(p[1..])
    ensures var rest := p[1..][LeadRun(p[1..]) + 1..];
      NonSpace(p) == "#" + NonSpace(rest) &&
      NonSpace(Replacement(n) + ReindentComments(rest, n)) == "#" + NonSpace(ReindentComments(rest, n))
  {
    var t := p[1..];
    var j := LeadRun(t);
    var rest := t[j + 1..];
    var run := "\n" + t[..j];
    LeadRunSpec(t);
    assert p == run + "#" + rest;
    assert AllSpace(run);
    NonSpaceOfRunThenHash(run, rest);
    var run' := "\n" + Spaces(n);
    assert Replacement(n) == run' + "#";
    SpacesAreSpaces(n);
    assert AllSpace(run');
    NonSpaceOfRunThenHash(run', ReindentComments(rest, n));
  }

  lemma CopyKeepsContent(c: char, t: string, rt: string)
    requires NonSpace(rt) == NonSpace(t)
    ensures NonSpace([c] + rt) == NonSpace([c] + t)
  {
    assert ([c] + rt)[1..] == rt;
    assert ([c] + t)[1..] == t;
  }

  // ---------------------------------------------------------------------------
  // Properties of indentTo
  // ---------------------------------------------------------------------------

  /** Realigning comments keeps everything from the last line break on, when no
      `#` follows that break. */
  lemma ReindentKeepsTrailingRun(p: string, n: nat)
    requires IndentOf(p) < |p|
    requires '#' !in p[|p| - IndentOf(p)..]
    ensures ReindentComments(p, n) == ReindentComments(p[..|p| - IndentOf(p) - 1], n) + p[|p| - IndentOf(p) - 1..]
  {
    var k := |p| - IndentOf(p) - 1;
    IndentOfSpec(p);
    assert p == p[..k] + p[k..];
    SplitAt(p, k);
    ReindentAppend(p[..k], p[k..], n);
  }

  /** Shifting a text whose last line break is followed by `indent` characters
      leaves exactly `column` characters after it. */
  lemma ShiftedToColumn(q: string, indent: nat, column: nat)
    requires IndentOf(q) == indent < |q|
    ensures IndentOf(Shifted(q, column - indent)) == column
  {
    if column > indent {
      ShiftedRight(q, column - indent);
    } else {
      ShiftedLeft(q, indent, column);
    }
  }

  lemma ShiftedRight(q: string, k: nat)
    requires IndentOf(q) < |q| && k > 0
    ensures IndentOf(q + Spaces(k)) == IndentOf(q) + k
  {
    SpacesAreSpaces(k);
    IndentOfAppend(q, Spaces(k));
  }

  lemma ShiftedLeft(q: string, indent: nat, column: nat)
    requires IndentOf(q) == indent < |q| && column <= indent
    ensures IndentOf(q[..|q| - (indent - column)]) == column
  {
    var k := |q| - (indent - column);
    IndentOfSpec(q);
    NoBreakSuffix(q, |q| - indent, k);
    TakeDrop(q, k);
    IndentOfAppend(q[..k], q[k..]);
  }

  lemma TakeDrop(s: string, k: nat)
    requires k <= |s|
    ensures s[..k] + s[k..] == s
  {
  }

  /** After indentTo the prefix's final whitespace run is exactly `column` wide,
      provided the prefix has a line feed and no `#` after its last line break. */
  lemma IndentToColumn(p: string, column: nat)
    requires '\n' in p
    requires '#' !in p[|p| - IndentOf(p)..]
    ensures IndentOf(IndentTo(p, column)) == column
  {
    var i := IndentOf(p);
    var q := IndentComments(p, i, false);
    RealignedKeepsIndent(p);
    if i != column {
      assert IndentTo(p, column) == Shifted(q, column - i);
      ShiftedToColumn(q, i, column);
    } else {
      assert IndentTo(p, column) == q;
    }
  }

  /** A prefix holding a line feed has a last line break. */
  lemma LineFeedIsBreak(p: string)
    requires '\n' in p
    ensures IndentOf(p) < |p|
  {
  }

  /** The indent of text that ends in a line break followed by `tail`. */
  lemma IndentAfterBreak(x: string, c: char, tail: string)
    requires IsBreak(c) && NoBreak(tail)
    ensures IndentOf(x + ([c] + tail)) == |tail|
  {
    IndentOfAppend(x, [c] + tail);
    IndentOfAppend([c], tail);
    IndentOfExtremes([c]);
    assert !NoBreak([c] + tail) by {
      assert ([c] + tail)[0] == c;
    }
  }

  /** Realigning comments to the prefix's own indent keeps that indent. */
  lemma RealignedKeepsIndent(p: string)
    requires '\n' in p
    requires '#' !in p[|p| - IndentOf(p)..]
    ensures IndentOf(IndentComments(p, IndentOf(p), false)) == IndentOf(p) < |IndentComments(p, IndentOf(p), false)|
  {
    LineFeedIsBreak(p);
    ReindentLength(p, IndentOf(p));
    CommentsKeepIndent(p, IndentOf(p));
  }

  lemma SplitAt(s: string, k: nat)
    requires k < |s|
    ensures s[k..] == [s[k]] + s[k + 1..]
  {
  }

  /** Realigning comments, to any column, keeps the final run of the prefix and
      so its indent. */
  lemma CommentsKeepIndent(p: string, n: nat)
    requires '#' !in p[|p| - IndentOf(p)..]
    ensures IndentOf(ReindentComments(p, n)) == IndentOf(p)
  {
    var i := IndentOf(p);
    IndentOfSpec(p);
    if i < |p| {
      var k := |p| - i - 1;
      var head := ReindentComments(p[..k], n);
      var tail := p[k + 1..];
      SplitAt(p, k);
      ReindentKeepsTrailingRun(p, n);
      IndentAfterBreak(head, p[k], tail);
    } else {
      assert p[|p| - i..] == p;
      NoCommentUnchanged(p, n);
    }
  }

  lemma IndentToUnfold(p: string, column: nat)
    requires '\n' in p
    ensures IndentOf(p) <= |ReindentComments(p, IndentOf(p))|
    ensures IndentTo(p, column) == Shifted(ReindentComments(p, IndentOf(p)), column - IndentOf(p))
  {
    var i := IndentOf(p);
    var q := IndentComments(p, i, false);
    assert q == ReindentComments(p, i);
    ReindentLongEnough(p);
    if i == column {
      assert IndentTo(p, column) == q;
      ShiftedByZero(q);
    } else {
      assert IndentTo(p, column) == Shifted(q, column - i);
    }
  }

  lemma ReindentLongEnough(p: string)
    ensures IndentOf(p) <= |ReindentComments(p, IndentOf(p))|
  {
    ReindentLength(p, IndentOf(p));
  }

  lemma ShiftedByZero(s: string)
    ensures Shifted(s, 0) == s
  {
  }

  lemma NoBreakSuffix(s: string, a: nat, b: nat)
    requires a <= b <= |s| && NoBreak(s[a..])
    ensures NoBreak(s[b..])
  {
    forall j | 0 <= j < |s| - b
      ensures !IsBreak(s[b..][j])
    {
      assert s[b..][j] == s[a..][j + (b - a)];
    }
  }

  /** What indentTo does to a prefix with a line feed when the target column is
      at least the old indent: comments are realigned to the old indent, then
      spaces are appended up to `column`. */
  lemma IndentToGrow(p: string, column: nat)
    requires '\n' in p
    requires column >= IndentOf(p)
    ensures IndentTo(p, column) == ReindentComments(p, IndentOf(p)) + Spaces(column - IndentOf(p))
  {
    var i := IndentOf(p);
    var q := ReindentComments(p, i);
    assert IndentComments(p, i, false) == q;
    if i == column {
      assert IndentTo(p, column) == q;
      assert q + Spaces(0) == q;
    } else {
      assert IndentTo(p, column) == Shifted(q, column - i);
    }
  }


  /** ... and when it is less, with no `#` after the last line break: of the
      realigned text, `indent - column` characters of the final run (line
      breaks never among them) are removed. */
  lemma IndentToTrim(p: string, column: nat)
    requires '\n' in p
    requires '#' !in p[|p| - IndentOf(p)..]
    requires column < IndentOf(p)
    ensures |IndentTo(p, column)| + (IndentOf(p) - column) == |ReindentComments(p, IndentOf(p))|
    ensures IndentTo(p, column) == ReindentComments(p, IndentOf(p))[..|IndentTo(p, column)|]
    ensures NoBreak(ReindentComments(p, IndentOf(p))[|IndentTo(p, column)|..])
  {
    var q := ReindentComments(p, IndentOf(p));
    IndentToUnfold(p, column);
    RealignedKeepsIndent(p);
    TrimWithinRun(q, column);
  }

  /** Shifting left by less than the indent removes characters of the final
      run only. */
  lemma TrimWithinRun(q: string, column: nat)
    requires column < IndentOf(q)
    ensures |Shifted(q, column - IndentOf(q))| + (IndentOf(q) - column) == |q|
    ensures Shifted(q, column - IndentOf(q)) == q[..|Shifted(q, column - IndentOf(q))|]
    ensures NoBreak(q[|Shifted(q, column - IndentOf(q))|..])
  {
    IndentOfSpec(q);
    NoBreakSuffix(q, |q| - IndentOf(q), |q| - (IndentOf(q) - column));
  }
}
