/** What the indentation pass promises, proved about its value-level model:
    the per-kind rules, the shape of the tree, the stop gate, where messages are
    written, and the baseline of visit(tree, p, parent). */
module IndentsProperties {
  import opened Wrappers
  import opened Prefixes
  import opened YamlTree
  import opened Cursors
  import opened Indents

  // ---------------------------------------------------------------------------
  // The pass rewrites prefixes only
  // ---------------------------------------------------------------------------

  /** Visiting a tree changes no identity, kind or child: only prefixes. */
  lemma {:induction false} VisitKeepsShape(cfg: Config, fs: seq<Frame>, t: Yaml)
    requires ValidChain(fs) && !VisitThrows(fs, t)
    ensures Erase(VisitSpec(cfg, fs, t).0) == Erase(t)
    decreases Size(t), 0
  {
    if !Stopped(fs) {
      var pushed := fs + [NewFrame(t)];
      PushedChain(fs, t);
      var pre := PreVisitSpec(cfg, pushed, t);
      ChildrenSmaller(t);
      SameValuesChain(pushed, pre.1);
      var kids := ChildrenSpec(cfg, pre.1, Children(t));
      ChildrenKeepShape(cfg, pre.1, Children(t));
      EraseRebuilt(t, pre.0.prefix, kids.0);
    }
  }

  lemma {:induction false} ChildrenKeepShape(cfg: Config, fs: seq<Frame>, cs: seq<Yaml>)
    requires ValidChain(fs) && |fs| >= 2
    ensures EraseSeq(ChildrenSpec(cfg, fs, cs).0) == EraseSeq(cs)
    decreases SizeSeq(cs), 1
  {
    if cs != [] {
      var earlier := ChildrenSpec(cfg, fs, cs[..|cs| - 1]);
      ChildrenKeepShape(cfg, fs, cs[..|cs| - 1]);
      SameValuesChain(fs, earlier.1);
      VisitKeepsShape(cfg, earlier.1, cs[|cs| - 1]);
      var last := VisitSpec(cfg, earlier.1, cs[|cs| - 1]);
      var rs := earlier.0 + [last.0];
      assert rs[..|rs| - 1] == earlier.0;
    }
  }

  // ---------------------------------------------------------------------------
  // The stop gate
  // ---------------------------------------------------------------------------

  /** Once a `stop` message is in reach, preVisit and visit hand back their node
      and the chain unchanged, and so does every child visit. */
  lemma StopFreezes(cfg: Config, fs: seq<Frame>, t: Yaml, cs: seq<Yaml>)
    requires ValidChain(fs) && |fs| >= 2 && Stopped(fs)
    ensures PreVisitSpec(cfg, fs, t) == (t, fs)
    ensures VisitSpec(cfg, fs, t) == (t, fs)
    ensures ChildrenSpec(cfg, fs, cs) == (cs, fs)
  {
    ChildrenWhenStopped(cfg, fs, cs);
  }

  lemma {:induction false} ChildrenWhenStopped(cfg: Config, fs: seq<Frame>, cs: seq<Yaml>)
    requires ValidChain(fs) && |fs| >= 2 && Stopped(fs)
    ensures ChildrenSpec(cfg, fs, cs) == (cs, fs)
    decreases |cs|
  {
    if cs != [] {
      ChildrenWhenStopped(cfg, fs, cs[..|cs| - 1]);
      assert cs[..|cs| - 1] + [cs[|cs| - 1]] == cs;
    }
  }

  /** After the node that stopAfter identifies has been visited, the nearest
      enclosing Documents cursor holds `stop`, so the rest of the document is
      left alone. (A Documents node that is itself the target puts the message
      on its own cursor, which is popped.) */
  lemma StopAfterTarget(cfg: Config, fs: seq<Frame>, t: Yaml)
    requires ValidChain(fs) && !VisitThrows(fs, t) && !Stopped(fs)
    requires cfg.stopAfter == Some(t.id) && !t.Documents?
    requires FirstEnclosing(fs, DocumentsKind).Some?
    ensures VisitSpec(cfg, fs, t).1[FirstEnclosing(fs, DocumentsKind).value].stop
    ensures Stopped(VisitSpec(cfg, fs, t).1)
  {
    var pushed := fs + [NewFrame(t)];
    PushedChain(fs, t);
    var pre := PreVisitSpec(cfg, pushed, t);
    ChildrenSmaller(t);
    SameValuesChain(pushed, pre.1);
    var kids := ChildrenSpec(cfg, pre.1, Children(t));
    FirstEnclosingPastNewFrame(fs, t, DocumentsKind);
    FirstEnclosingOfValues(kids.1, pushed, DocumentsKind);
    var i := FirstEnclosing(fs, DocumentsKind).value;
    assert VisitSpec(cfg, fs, t).1[i] == PostVisitSpec(cfg, kids.1, WithChildren(pre.0, kids.0))[i];
  }

  /** Without a stopAfter tree no `stop` message is ever written. */
  lemma {:induction false} NoTargetNoStop(cfg: Config, fs: seq<Frame>, t: Yaml)
    requires ValidChain(fs) && !VisitThrows(fs, t) && cfg.stopAfter.None?
    ensures Stops(VisitSpec(cfg, fs, t).1) == Stops(fs)
    decreases Size(t), 0
  {
    if !Stopped(fs) {
      var pushed := fs + [NewFrame(t)];
      PushedChain(fs, t);
      var pre := PreVisitSpec(cfg, pushed, t);
      ChildrenSmaller(t);
      SameValuesChain(pushed, pre.1);
      ChildrenNoStop(cfg, pre.1, Children(t));
      var kids := ChildrenSpec(cfg, pre.1, Children(t));
      var r := kids.1[..|kids.1| - 1];
      assert Stops(r) == Stops(kids.1)[..|fs|];
      assert Stops(pushed)[..|fs|] == Stops(fs);
    }
  }

  lemma {:induction false} ChildrenNoStop(cfg: Config, fs: seq<Frame>, cs: seq<Yaml>)
    requires ValidChain(fs) && |fs| >= 2 && cfg.stopAfter.None?
    ensures Stops(ChildrenSpec(cfg, fs, cs).1) == Stops(fs)
    decreases SizeSeq(cs), 1
  {
    if cs != [] {
      var earlier := ChildrenSpec(cfg, fs, cs[..|cs| - 1]);
      ChildrenNoStop(cfg, fs, cs[..|cs| - 1]);
      SameValuesChain(fs, earlier.1);
      NoTargetNoStop(cfg, earlier.1, cs[|cs| - 1]);
    }
  }

  // ---------------------------------------------------------------------------
  // Where messages are written
  // ---------------------------------------------------------------------------

  /** preVisit writes messages on the current cursor and its parent only. */
  lemma PreVisitWritesNearby(cfg: Config, fs: seq<Frame>, y: Yaml)
    requires |fs| >= 2 && !PreVisitThrows(fs, y)
    ensures MessageMaps(PreVisitSpec(cfg, fs, y).1)[..|fs| - 2] == MessageMaps(fs)[..|fs| - 2]
  {
    var n := |fs|;
    var lastIndent := Nearest(fs, LastIndent, 0);
    if !Stopped(fs) && '\n' in y.prefix && !UnindentedTopLevel(fs) && y.SequenceEntry? {
      var base := MessageOr(fs[n - 2], SequenceEntryIndent, lastIndent);
      var once := Put(fs, n - 2, SequenceEntryIndent, base);
      PutMessages(fs, n - 2, SequenceEntryIndent, base);
      PutMessages(once, n - 2, LastIndent, base + |FirstIndentOf(y.block)| + 1);
    } else if !Stopped(fs) && y.MappingEntry? && (('\n' in y.prefix && !UnindentedTopLevel(fs)) || IsKindAt(fs, n - 3, SequenceEntryKind)) {
      PutMessages(fs, n - 1, LastIndent, lastIndent + cfg.indentSize);
    }
  }

  /** Visiting t leaves the messages of every cursor above t's parent as they
      were: the messages of t's descendants live on cursors that are popped. */
  lemma {:induction false} VisitKeepsAncestors(cfg: Config, fs: seq<Frame>, t: Yaml)
    requires ValidChain(fs) && !VisitThrows(fs, t)
    ensures MessageMaps(VisitSpec(cfg, fs, t).1)[..|fs| - 1] == MessageMaps(fs)[..|fs| - 1]
    decreases Size(t), 0
  {
    if !Stopped(fs) {
      var pre := PreVisitChain(cfg, fs, t);
      ChildrenWriteOwnOnly(cfg, pre, Children(t));
      AncestorsAfterChildren(cfg, fs, t, pre);
    }
  }

  /** The chain preVisit leaves for a node's children. */
  lemma PreVisitChain(cfg: Config, fs: seq<Frame>, t: Yaml) returns (pre: seq<Frame>)
    requires ValidChain(fs) && !VisitThrows(fs, t) && !Stopped(fs)
    ensures ValidChain(fs + [NewFrame(t)]) && !PreVisitThrows(fs + [NewFrame(t)], t)
    ensures pre == PreVisitSpec(cfg, fs + [NewFrame(t)], t).1
    ensures ValidChain(pre) && |pre| == |fs| + 1 && SizeSeq(Children(t)) < Size(t)
  {
    var pushed := fs + [NewFrame(t)];
    PushedChain(fs, t);
    pre := PreVisitSpec(cfg, pushed, t).1;
    ChildrenSmaller(t);
    SameValuesChain(pushed, pre);
    assert |Values(pre)| == |Values(pushed)|;
  }

  /** The step of VisitKeepsAncestors: when the children's visits keep every
      cursor above the node's own, the whole visit keeps every cursor above
      the node's parent. */
  lemma AncestorsAfterChildren(cfg: Config, fs: seq<Frame>, t: Yaml, pre: seq<Frame>)
    requires ValidChain(fs) && !VisitThrows(fs, t) && !Stopped(fs)
    requires ValidChain(fs + [NewFrame(t)]) && !PreVisitThrows(fs + [NewFrame(t)], t)
    requires pre == PreVisitSpec(cfg, fs + [NewFrame(t)], t).1 && ValidChain(pre) && |pre| == |fs| + 1
    requires MessageMaps(ChildrenSpec(cfg, pre, Children(t)).1)[..|fs|] == MessageMaps(pre)[..|fs|]
    ensures MessageMaps(VisitSpec(cfg, fs, t).1)[..|fs| - 1] == MessageMaps(fs)[..|fs| - 1]
  {
    VisitMessages(cfg, fs, t);
    PreVisitKeepsAncestors(cfg, fs, t);
    var kids := ChildrenSpec(cfg, pre, Children(t)).1;
    TrimmedTwice(MessageMaps(VisitSpec(cfg, fs, t).1), MessageMaps(kids), MessageMaps(pre), MessageMaps(fs), |fs|);
  }

  /** t's parent ends with exactly the messages t's own preVisit left there. */
  lemma VisitWritesParentOnly(cfg: Config, fs: seq<Frame>, t: Yaml)
    requires ValidChain(fs) && !VisitThrows(fs, t) && !Stopped(fs)
    ensures MessageMaps(VisitSpec(cfg, fs, t).1) == MessageMaps(PreVisitSpec(cfg, fs + [NewFrame(t)], t).1)[..|fs|]
  {
    var pre := PreVisitSpec(cfg, fs + [NewFrame(t)], t).1;
    VisitMessages(cfg, fs, t);
    ChildrenWriteOwnOnly(cfg, pre, Children(t));
  }

  /** The messages after visiting t are those its children's visits left on
      the cursors up to t's parent. */
  lemma VisitMessages(cfg: Config, fs: seq<Frame>, t: Yaml)
    requires ValidChain(fs) && !VisitThrows(fs, t) && !Stopped(fs)
    ensures ValidChain(fs + [NewFrame(t)]) && !PreVisitThrows(fs + [NewFrame(t)], t)
    ensures ValidChain(PreVisitSpec(cfg, fs + [NewFrame(t)], t).1)
    ensures |PreVisitSpec(cfg, fs + [NewFrame(t)], t).1| == |fs| + 1
    ensures SizeSeq(Children(t)) < Size(t)
    ensures MessageMaps(VisitSpec(cfg, fs, t).1) ==
      MessageMaps(ChildrenSpec(cfg, PreVisitSpec(cfg, fs + [NewFrame(t)], t).1, Children(t)).1)[..|fs|]
  {
    var pushed := fs + [NewFrame(t)];
    PushedChain(fs, t);
    var pre := PreVisitSpec(cfg, pushed, t);
    ChildrenSmaller(t);
    SameValuesChain(pushed, pre.1);
    assert |Values(pre.1)| == |Values(pushed)|;
    var kids := ChildrenSpec(cfg, pre.1, Children(t));
    var after := PostVisitSpec(cfg, kids.1, WithChildren(pre.0, kids.0));
    VisitUnfolds(cfg, fs, t, pre, kids);
    MessageMapsPrefix(after, |fs|);
  }

  /** preVisit of t leaves the cursors above t's parent as they were. */
  lemma PreVisitKeepsAncestors(cfg: Config, fs: seq<Frame>, t: Yaml)
    requires ValidChain(fs) && !VisitThrows(fs, t) && !Stopped(fs)
    ensures !PreVisitThrows(fs + [NewFrame(t)], t)
    ensures MessageMaps(PreVisitSpec(cfg, fs + [NewFrame(t)], t).1)[..|fs| - 1] == MessageMaps(fs)[..|fs| - 1]
  {
    var pushed := fs + [NewFrame(t)];
    PushedChain(fs, t);
    PreVisitWritesNearby(cfg, pushed, t);
    MessageMapsPushed(fs, t);
    assert (MessageMaps(fs) + [map[]])[..|fs| - 1] == MessageMaps(fs)[..|fs| - 1];
  }

  lemma MessageMapsPushed(fs: seq<Frame>, t: Yaml)
    ensures MessageMaps(fs + [NewFrame(t)]) == MessageMaps(fs) + [map[]]
  {
  }

  /** The chain of prefix equalities behind VisitKeepsAncestors. */
  lemma TrimmedTwice<T>(r: seq<T>, kids: seq<T>, pre: seq<T>, fs: seq<T>, n: nat)
    requires 1 <= n == |fs| && |kids| == |pre| == n + 1
    requires r == kids[..n]
    requires kids[..n] == pre[..n]
    requires pre[..n - 1] == fs[..n - 1]
    ensures r[..n - 1] == fs[..n - 1]
  {
    assert r[..n - 1] == pre[..n - 1];
  }

  /** The children's visits write messages on their parent's cursor only. */
  lemma {:induction false} ChildrenWriteOwnOnly(cfg: Config, fs: seq<Frame>, cs: seq<Yaml>)
    requires ValidChain(fs) && |fs| >= 2
    ensures MessageMaps(ChildrenSpec(cfg, fs, cs).1)[..|fs| - 1] == MessageMaps(fs)[..|fs| - 1]
    decreases SizeSeq(cs), 1
  {
    if cs != [] {
      var earlier := ChildrenSpec(cfg, fs, cs[..|cs| - 1]).1;
      ChildrenWriteOwnOnly(cfg, fs, cs[..|cs| - 1]);
      ChildrenUnfolds(cfg, fs, cs);
      VisitKeepsAncestors(cfg, earlier, cs[|cs| - 1]);
    }
  }

  // ---------------------------------------------------------------------------
  // The rules of preVisit
  // ---------------------------------------------------------------------------

  /** The sequence-entry rule moves the entry to column base + indentSize
      when its prefix has a line feed and no `#` after its last line break. */
  lemma SequenceRuleColumn(cfg: Config, fs: seq<Frame>, y: Yaml, base: nat)
    requires |fs| >= 2 && y.SequenceEntry? && '\n' in y.prefix
    ensures '#' !in y.prefix[|y.prefix| - IndentOf(y.prefix)..] ==>
      IndentOf(SequenceEntryRule(cfg, fs, y, base).0.prefix) == base + cfg.indentSize
  {
    if '#' !in y.prefix[|y.prefix| - IndentOf(y.prefix)..] {
      var column: nat := base + cfg.indentSize;
      IndentToColumn(y.prefix, column);
      assert SequenceEntryRule(cfg, fs, y, base).0.prefix == IndentTo(y.prefix, column);
    }
  }

  /** The parent then holds base as `sequenceEntryIndent` and
      base + |firstIndent(block)| + 1 as `lastIndent`; no other cursor changes. */
  lemma SequenceRuleMessages(cfg: Config, fs: seq<Frame>, y: Yaml, base: nat)
    requires |fs| >= 2 && y.SequenceEntry?
    ensures MessageMaps(SequenceEntryRule(cfg, fs, y, base).1) ==
      MessageMaps(fs)[|fs| - 2 := fs[|fs| - 2].messages[SequenceEntryIndent := base]
                                                       [LastIndent := base + |FirstIndentOf(y.block)| + 1]]
  {
    var once := Put(fs, |fs| - 2, SequenceEntryIndent, base);
    PutMessages(fs, |fs| - 2, SequenceEntryIndent, base);
    PutMessages(once, |fs| - 2, LastIndent, base + |FirstIndentOf(y.block)| + 1);
  }

  lemma SequenceRuleRecordsBase(cfg: Config, fs: seq<Frame>, y: Yaml, base: nat)
    requires |fs| >= 2 && y.SequenceEntry?
    ensures SequenceEntryIndent in SequenceEntryRule(cfg, fs, y, base).1[|fs| - 2].messages
    ensures SequenceEntryRule(cfg, fs, y, base).1[|fs| - 2].messages[SequenceEntryIndent] == base
  {
  }

  /** The rule for a mapping entry on a line of its own moves it to
      indent + indentSize. */
  lemma MappingRuleColumn(cfg: Config, fs: seq<Frame>, y: Yaml, indent: nat)
    requires |fs| >= 1 && y.MappingEntry? && '\n' in y.prefix
    ensures '#' !in y.prefix[|y.prefix| - IndentOf(y.prefix)..] ==>
      IndentOf(MappingEntryRule(cfg, fs, y, indent).0.prefix) == indent + cfg.indentSize
  {
    if '#' !in y.prefix[|y.prefix| - IndentOf(y.prefix)..] {
      assert MappingEntryRule(cfg, fs, y, indent).0.prefix == IndentTo(y.prefix, indent + cfg.indentSize);
      IndentToColumn(y.prefix, indent + cfg.indentSize);
    }
  }

  /** That column becomes the entry's own `lastIndent`, the one its
      descendants find first; no other cursor changes. */
  lemma MappingRuleMessages(cfg: Config, fs: seq<Frame>, y: Yaml, indent: nat)
    requires |fs| >= 1 && y.MappingEntry?
    ensures MessageMaps(MappingEntryRule(cfg, fs, y, indent).1) ==
      MessageMaps(fs)[|fs| - 1 := fs[|fs| - 1].messages[LastIndent := indent + cfg.indentSize]]
    ensures Nearest(MappingEntryRule(cfg, fs, y, indent).1, LastIndent, 0) == indent + cfg.indentSize
  {
    PutMessages(fs, |fs| - 1, LastIndent, indent + cfg.indentSize);
  }

  /** A mapping entry with no line break before it, or at the top level, is
      never moved: only its comment lines may be realigned. */
  lemma InlineRuleKeepsIndent(cfg: Config, fs: seq<Frame>, y: Yaml, indent: nat)
    requires |fs| >= 1 && y.MappingEntry?
    ensures '#' !in y.prefix[|y.prefix| - IndentOf(y.prefix)..] ==>
      IndentOf(InlineMappingEntryRule(cfg, fs, y, indent).0.prefix) == IndentOf(y.prefix)
  {
    if '#' !in y.prefix[|y.prefix| - IndentOf(y.prefix)..] {
      CommentsKeepIndent(y.prefix, indent);
    }
  }

  /** Under a sequence entry (`- key:`) the inline rule records
      indent + indentSize as the entry's own `lastIndent` and leaves the prefix
      alone; elsewhere it writes no message. */
  lemma InlineRuleMessages(cfg: Config, fs: seq<Frame>, y: Yaml, indent: nat)
    requires |fs| >= 1 && y.MappingEntry?
    ensures IsKindAt(fs, |fs| - 3, SequenceEntryKind) ==>
      InlineMappingEntryRule(cfg, fs, y, indent).0 == y &&
      MessageMaps(InlineMappingEntryRule(cfg, fs, y, indent).1) ==
        MessageMaps(fs)[|fs| - 1 := fs[|fs| - 1].messages[LastIndent := indent + cfg.indentSize]]
    ensures !IsKindAt(fs, |fs| - 3, SequenceEntryKind) ==> InlineMappingEntryRule(cfg, fs, y, indent).1 == fs
  {
    PutMessages(fs, |fs| - 1, LastIndent, indent + cfg.indentSize);
  }

  /** A node whose parent or grandparent cursor holds a Document keeps the
      indent of its prefix, whatever its kind. */
  lemma TopLevelKeepsIndent(cfg: Config, fs: seq<Frame>, y: Yaml)
    requires |fs| >= 2 && !PreVisitThrows(fs, y) && UnindentedTopLevel(fs)
    requires '#' !in y.prefix[|y.prefix| - IndentOf(y.prefix)..]
    ensures IndentOf(PreVisitSpec(cfg, fs, y).0.prefix) == IndentOf(y.prefix)
  {
    if !Stopped(fs) && y.MappingEntry? {
      CommentsKeepIndent(y.prefix, Nearest(fs, LastIndent, 0));
    }
  }

  /** A Document on a line of its own loses only the whitespace before a
      leading comment; its chain is unchanged. */
  lemma DocumentStripsLeadingSpace(cfg: Config, fs: seq<Frame>, y: Yaml)
    requires |fs| >= 2 && !PreVisitThrows(fs, y) && !Stopped(fs)
    requires '\n' in y.prefix && !UnindentedTopLevel(fs) && y.Document?
    ensures var r := PreVisitSpec(cfg, fs, y);
      r.1 == fs &&
      r.0.prefix == y.prefix[|y.prefix| - |r.0.prefix|..] &&
      AllSpace(y.prefix[..|y.prefix| - |r.0.prefix|]) &&
      (r.0.prefix != y.prefix <==> CommentAfterRun(y.prefix) && LeadRun(y.prefix) > 0)
  {
    DocumentCase(cfg, fs, y);
    StripOnlySpaces(y.prefix);
  }

  /** Nodes other than sequence entries, mapping entries and Documents are
      left untouched, as is every node once a `stop` message is in reach. */
  lemma OtherKindsUntouched(cfg: Config, fs: seq<Frame>, y: Yaml)
    requires |fs| >= 2 && !PreVisitThrows(fs, y)
    requires Stopped(fs) || (!y.SequenceEntry? && !y.MappingEntry? && !y.Document?)
    ensures PreVisitSpec(cfg, fs, y) == (y, fs)
  {
    UntouchedCase(cfg, fs, y);
  }

  // ---------------------------------------------------------------------------
  // Sibling sequence entries share one column
  // ---------------------------------------------------------------------------

  /** The base column of a sequence entry visited from the chain `fs` (whose
      last cursor is the entry's parent). */
  function EntryBase(fs: seq<Frame>): nat
    requires |fs| >= 1
  {
    MessageOr(fs[|fs| - 1], SequenceEntryIndent, Nearest(fs, LastIndent, 0))
  }

  /** Visiting a sequence entry on a line of its own reindents it to
      EntryBase + indentSize. */
  lemma EntryColumn(cfg: Config, fs: seq<Frame>, t: Yaml)
    requires ValidChain(fs) && |fs| >= 2 && !Stopped(fs)
    requires t.SequenceEntry? && '\n' in t.prefix && !UnindentedTopLevel(fs + [NewFrame(t)])
    ensures VisitSpec(cfg, fs, t).0.prefix == IndentTo(t.prefix, EntryBase(fs) + cfg.indentSize)
  {
    var pushed := fs + [NewFrame(t)];
    PushedChain(fs, t);
    var pre := PreVisitSpec(cfg, pushed, t);
    assert VisitSpec(cfg, fs, t).0.prefix == pre.0.prefix by {
      ChildrenSmaller(t);
      SameValuesChain(pushed, pre.1);
      VisitUnfolds(cfg, fs, t, pre, ChildrenSpec(cfg, pre.1, Children(t)));
    }
    assert pre.0.prefix == IndentTo(t.prefix, EntryBase(fs) + cfg.indentSize) by {
      NearestPastNewFrame(fs, t, LastIndent, 0);
      assert pushed[|fs| - 1] == fs[|fs| - 1];
      SequenceEntryCase(cfg, pushed, t);
    }
  }


  /** It leaves its base on the parent as `sequenceEntryIndent`, whatever its
      children do, so every later sibling entry computes the same base,
      whatever `lastIndent` it finds. */
  lemma EntryKeepsBase(cfg: Config, fs: seq<Frame>, t: Yaml)
    requires ValidChain(fs) && |fs| >= 2 && !Stopped(fs)
    requires t.SequenceEntry? && '\n' in t.prefix && !UnindentedTopLevel(fs + [NewFrame(t)])
    ensures |VisitSpec(cfg, fs, t).1| == |fs| && EntryBase(VisitSpec(cfg, fs, t).1) == EntryBase(fs)
  {
    var pushed := fs + [NewFrame(t)];
    PushedChain(fs, t);
    var base := EntryBase(fs);
    var r := VisitSpec(cfg, fs, t).1;
    var m := PreVisitSpec(cfg, pushed, t).1[|fs| - 1].messages;
    assert r[|fs| - 1].messages == m by {
      VisitWritesParentOnly(cfg, fs, t);
      assert MessageMaps(r)[|fs| - 1] == MessageMaps(PreVisitSpec(cfg, pushed, t).1)[|fs| - 1];
    }
    assert SequenceEntryIndent in m && m[SequenceEntryIndent] == base by {
      NearestPastNewFrame(fs, t, LastIndent, 0);
      assert pushed[|fs| - 1] == fs[|fs| - 1];
      SequenceEntryCase(cfg, pushed, t);
      SequenceRuleRecordsBase(cfg, pushed, t, base);
    }
    MessageOrHeld(r[|fs| - 1], SequenceEntryIndent, base, Nearest(r, LastIndent, 0));
  }

  /** A sequence entry on a line of its own, below the top level of its document. */
  predicate OwnLineEntry(fs: seq<Frame>, t: Yaml) {
    t.SequenceEntry? && '\n' in t.prefix && !UnindentedTopLevel(fs + [NewFrame(t)])
  }

  /** Equal stop flags, equally stopped. */
  lemma StoppedOfStops(a: seq<Frame>, b: seq<Frame>)
    requires Stops(a) == Stops(b)
    ensures Stopped(a) == Stopped(b)
  {
    if Stopped(a) {
      var i :| 0 <= i < |a| && a[i].stop;
      assert Stops(b)[i];
    }
    if Stopped(b) {
      var i :| 0 <= i < |b| && b[i].stop;
      assert Stops(a)[i];
    }
  }

  /** Whether a node is at the top level depends on the cursors' values only. */
  lemma OwnLineOfValues(a: seq<Frame>, b: seq<Frame>, t: Yaml)
    requires SameValues(a, b)
    ensures OwnLineEntry(a, t) == OwnLineEntry(b, t)
  {
    var pa := a + [NewFrame(t)];
    var pb := b + [NewFrame(t)];
    assert |a| == |Values(a)| == |Values(b)| == |b|;
    forall i | 0 <= i < |pa|
      ensures pa[i].value == pb[i].value
    {
      if i < |a| {
        assert Values(a)[i] == Values(b)[i];
      }
    }
  }

  /** One unfolding of ChildrenSpec, for the trees: the earlier siblings'
      results are kept, and the last child is visited from the chain they left. */
  lemma ChildrenTreesUnfold(cfg: Config, fs: seq<Frame>, cs: seq<Yaml>)
    requires ValidChain(fs) && |fs| >= 2 && cs != []
    ensures ValidChain(ChildrenSpec(cfg, fs, cs[..|cs| - 1]).1)
    ensures ChildrenSpec(cfg, fs, cs).0[|cs| - 1] ==
      VisitSpec(cfg, ChildrenSpec(cfg, fs, cs[..|cs| - 1]).1, cs[|cs| - 1]).0
    ensures forall i :: 0 <= i < |cs| - 1 ==> ChildrenSpec(cfg, fs, cs).0[i] == ChildrenSpec(cfg, fs, cs[..|cs| - 1]).0[i]
  {
    SameValuesChain(fs, ChildrenSpec(cfg, fs, cs[..|cs| - 1]).1);
  }

  /** The chain the last of the entries is visited from: its earlier siblings
      kept the base and set no stop. */
  lemma EarlierChain(cfg: Config, fs: seq<Frame>, cs: seq<Yaml>) returns (earlier: seq<Frame>)
    requires ValidChain(fs) && |fs| >= 2 && !Stopped(fs) && cfg.stopAfter.None? && cs != []
    requires forall i :: 0 <= i < |cs| ==> OwnLineEntry(fs, cs[i])
    ensures earlier == ChildrenSpec(cfg, fs, cs[..|cs| - 1]).1
    ensures ValidChain(earlier) && |earlier| >= 2 && !Stopped(earlier)
    ensures EntryBase(earlier) == EntryBase(fs) && OwnLineEntry(earlier, cs[|cs| - 1])
    ensures ChildrenSpec(cfg, fs, cs).0[|cs| - 1] == VisitSpec(cfg, earlier, cs[|cs| - 1]).0
  {
    var init := cs[..|cs| - 1];
    assert forall i :: 0 <= i < |init| ==> init[i] == cs[i];
    ChildrenKeepBase(cfg, fs, init);
    ChildrenTreesUnfold(cfg, fs, cs);
    earlier := ChildrenSpec(cfg, fs, init).1;
    OwnLineOfValues(fs, earlier, cs[|cs| - 1]);
  }

  /** The last of the entries gets the column of the sequence's base. */
  lemma LastEntryColumn(cfg: Config, fs: seq<Frame>, cs: seq<Yaml>)
    requires ValidChain(fs) && |fs| >= 2 && !Stopped(fs) && cfg.stopAfter.None? && cs != []
    requires forall i :: 0 <= i < |cs| ==> OwnLineEntry(fs, cs[i])
    ensures ChildrenSpec(cfg, fs, cs).0[|cs| - 1].prefix == IndentTo(cs[|cs| - 1].prefix, EntryBase(fs) + cfg.indentSize)
  {
    var earlier := EarlierChain(cfg, fs, cs);
    EntryColumn(cfg, earlier, cs[|cs| - 1]);
  }

  /** Visiting the entries of one sequence in order, from the sequence's
      cursor, leaves the base every entry computes as it was, and sets no stop. */
  lemma {:induction false} ChildrenKeepBase(cfg: Config, fs: seq<Frame>, cs: seq<Yaml>)
    requires ValidChain(fs) && |fs| >= 2 && !Stopped(fs) && cfg.stopAfter.None?
    requires forall i :: 0 <= i < |cs| ==> OwnLineEntry(fs, cs[i])
    ensures var r := ChildrenSpec(cfg, fs, cs).1;
            |r| == |fs| && !Stopped(r) && EntryBase(r) == EntryBase(fs)
    decreases |cs|
  {
    if cs != [] {
      var init := cs[..|cs| - 1];
      var last := cs[|cs| - 1];
      assert forall i :: 0 <= i < |init| ==> init[i] == cs[i];
      ChildrenKeepBase(cfg, fs, init);
      ChildrenUnfolds(cfg, fs, cs);
      var earlier := ChildrenSpec(cfg, fs, init).1;
      OwnLineOfValues(fs, earlier, last);
      EntryKeepsBase(cfg, earlier, last);
      NoTargetNoStop(cfg, earlier, last);
      StoppedOfStops(VisitSpec(cfg, earlier, last).1, earlier);
    }
  }

  /** The entry at index i of a sequence, visited after its earlier siblings,
      gets the column of the sequence's base. */
  lemma {:induction false} EntryAtColumn(cfg: Config, fs: seq<Frame>, cs: seq<Yaml>, i: nat)
    requires ValidChain(fs) && |fs| >= 2 && !Stopped(fs) && cfg.stopAfter.None?
    requires forall k :: 0 <= k < |cs| ==> OwnLineEntry(fs, cs[k])
    requires i < |cs|
    ensures ChildrenSpec(cfg, fs, cs).0[i].prefix == IndentTo(cs[i].prefix, EntryBase(fs) + cfg.indentSize)
    decreases |cs|
  {
    if i == |cs| - 1 {
      LastEntryColumn(cfg, fs, cs);
    } else {
      var init := cs[..|cs| - 1];
      assert forall k :: 0 <= k < |init| ==> init[k] == cs[k];
      EntryAtColumn(cfg, fs, init, i);
      ChildrenTreesUnfold(cfg, fs, cs);
      assert init[i] == cs[i];
    }
  }

  /** Sibling sequence entries share one column: each entry on a line of its
      own is reindented to the base the sequence's cursor gives plus the
      indent size, whatever its earlier siblings and their children wrote. */
  lemma SiblingEntriesShareColumn(cfg: Config, fs: seq<Frame>, cs: seq<Yaml>)
    requires ValidChain(fs) && |fs| >= 2 && !Stopped(fs) && cfg.stopAfter.None?
    requires forall i :: 0 <= i < |cs| ==> OwnLineEntry(fs, cs[i])
    ensures forall i :: 0 <= i < |cs| ==>
      ChildrenSpec(cfg, fs, cs).0[i].prefix == IndentTo(cs[i].prefix, EntryBase(fs) + cfg.indentSize)
  {
    forall i | 0 <= i < |cs|
      ensures ChildrenSpec(cfg, fs, cs).0[i].prefix == IndentTo(cs[i].prefix, EntryBase(fs) + cfg.indentSize)
    {
      EntryAtColumn(cfg, fs, cs, i);
    }
  }


  // ---------------------------------------------------------------------------
  // The baseline of visit(tree, p, parent)
  // ---------------------------------------------------------------------------

  /** A cursor whose prefix gives the baseline a `lastIndent`. */
  predicate Qualifies(f: Frame) {
    f.value.Node? && '\n' in f.value.node.prefix && IndentOf(f.value.node.prefix) != 0
  }

  /** After the baseline loop, the `lastIndent` seen from the parent comes from
      the nearest cursor that either has a line break and a nonzero indent in
      its prefix (that indent) or already held a `lastIndent` (that value). */
  lemma BaselineSeenFromParent(fs: seq<Frame>, i: nat, default: nat)
    requires i < |fs| && (Qualifies(fs[i]) || LastIndent in fs[i].messages)
    requires forall j :: i < j < |fs| ==> !Qualifies(fs[j]) && LastIndent !in fs[j].messages
    ensures Nearest(RebaselineChain(fs), LastIndent, default) ==
      if Qualifies(fs[i]) then IndentOf(fs[i].value.node.prefix) else fs[i].messages[LastIndent]
  {
    var r := RebaselineChain(fs);
    NearestIsNearest(r, LastIndent, default);
    assert LastIndent in r[i].messages;
    assert forall j :: i < j < |r| ==> r[j] == fs[j];
  }

  /** With no such cursor the default is seen. */
  lemma BaselineDefault(fs: seq<Frame>, default: nat)
    requires forall j :: 0 <= j < |fs| ==> !Qualifies(fs[j]) && LastIndent !in fs[j].messages
    ensures Nearest(RebaselineChain(fs), LastIndent, default) == default
  {
    var r := RebaselineChain(fs);
    NearestIsNearest(r, LastIndent, default);
    assert forall j :: 0 <= j < |r| ==> r[j] == fs[j];
  }
}
