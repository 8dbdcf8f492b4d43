/** The indentation pass (IndentsVisitor): a pre-order walk over the YAML tree
    that rewrites the prefixes of sequence entries, mapping entries and documents,
    passing the current indentation down the cursor chain as messages.

    The walk is given twice: as functions on values (PreVisitSpec, VisitSpec,
    ChildrenSpec), which the lemmas reason about, and as the visitor class whose
    methods update the cursor in place and are proved to compute those functions. */
module Indents {
  import opened Wrappers
  import opened Prefixes
  import opened YamlTree
  import opened Cursors

  /** The visitor's settings: IndentsStyle.getIndentSize() and the identity of
      the `stopAfter` tree, if any. */
  datatype Config = Config(indentSize: nat, stopAfter: Option<nat>)

  // ---------------------------------------------------------------------------
  // preVisit, isUnindentedTopLevel and postVisit on values
  // ---------------------------------------------------------------------------

  /** getParentOrThrow(2) has no cursor to return: preVisit reaches it when the
      node sits directly under the root cursor and either has a line break in its
      prefix (through isUnindentedTopLevel) or is a mapping entry. */
  predicate PreVisitThrows(fs: seq<Frame>, y: Yaml) {
    !Stopped(fs) && |fs| <= 2 && ('\n' in y.prefix || y.MappingEntry?)
  }

  /** isUnindentedTopLevel: the parent or the grandparent of the current cursor
      holds a Document. */
  predicate UnindentedTopLevel(fs: seq<Frame>) {
    IsKindAt(fs, |fs| - 2, DocumentKind) || IsKindAt(fs, |fs| - 3, DocumentKind)
  }

  /** The sequence-entry rule, from the base column: the entry is reindented to
      the base plus the indent size; the parent keeps the base as its
      `sequenceEntryIndent` and, as its `lastIndent`, the base plus the width of
      the entry's first content prefix plus one (for the `-`). */
  function SequenceEntryRule(cfg: Config, fs: seq<Frame>, y: Yaml, base: nat): (r: (Yaml, seq<Frame>))
    requires |fs| >= 2 && y.SequenceEntry?
    ensures r.0 == WithPrefix(y, r.0.prefix)
    ensures |r.1| == |fs| && Values(r.1) == Values(fs) && Stops(r.1) == Stops(fs)
  {
    (WithPrefix(y, IndentTo(y.prefix, base + cfg.indentSize)),
     Put(Put(fs, |fs| - 2, SequenceEntryIndent, base), |fs| - 2, LastIndent, base + |FirstIndentOf(y.block)| + 1))
  }

  /** The rule for a mapping entry on a line of its own, from the nearest
      `lastIndent`: reindented to it plus the indent size, which becomes the
      entry's own `lastIndent`. */
  function MappingEntryRule(cfg: Config, fs: seq<Frame>, y: Yaml, indent: nat): (r: (Yaml, seq<Frame>))
    requires |fs| >= 1 && y.MappingEntry?
    ensures r.0 == WithPrefix(y, r.0.prefix)
    ensures |r.1| == |fs| && Values(r.1) == Values(fs) && Stops(r.1) == Stops(fs)
  {
    (WithPrefix(y, IndentTo(y.prefix, indent + cfg.indentSize)),
     Put(fs, |fs| - 1, LastIndent, indent + cfg.indentSize))
  }

  /** The rule for a mapping entry without a line break before it, from the
      nearest `lastIndent`: under a sequence entry (`- key:`) it only raises its
      own `lastIndent`; elsewhere its comments are realigned to that indent. */
  function InlineMappingEntryRule(cfg: Config, fs: seq<Frame>, y: Yaml, indent: nat): (r: (Yaml, seq<Frame>))
    requires |fs| >= 1 && y.MappingEntry?
    ensures r.0 == WithPrefix(y, r.0.prefix)
    ensures |r.1| == |fs| && Values(r.1) == Values(fs) && Stops(r.1) == Stops(fs)
  {
    if IsKindAt(fs, |fs| - 3, SequenceEntryKind) then
      (y, Put(fs, |fs| - 1, LastIndent, indent + cfg.indentSize))
    else
      (WithPrefix(y, IndentComments(y.prefix, indent, false)), fs)
  }

  /** preVisit(y) with the cursor chain `fs`, whose last cursor is y's own:
      the rewritten node and the chain with its new messages. */
  function PreVisitSpec(cfg: Config, fs: seq<Frame>, y: Yaml): (r: (Yaml, seq<Frame>))
    requires |fs| >= 2 && !PreVisitThrows(fs, y)
    ensures r.0 == WithPrefix(y, r.0.prefix)
    ensures |r.1| == |fs| && Values(r.1) == Values(fs) && Stops(r.1) == Stops(fs)
  {
    if Stopped(fs) then (y, fs)
    else if '\n' in y.prefix && !UnindentedTopLevel(fs) then
      if y.SequenceEntry? then
        SequenceEntryRule(cfg, fs, y, MessageOr(fs[|fs| - 2], SequenceEntryIndent, Nearest(fs, LastIndent, 0)))
      else if y.MappingEntry? then MappingEntryRule(cfg, fs, y, Nearest(fs, LastIndent, 0))
      else if y.Document? then (WithPrefix(y, IndentComments(y.prefix, 0, true)), fs)
      else (y, fs)
    else if y.MappingEntry? then InlineMappingEntryRule(cfg, fs, y, Nearest(fs, LastIndent, 0))
    else (y, fs)
  }

  /** postVisit(y): after the node identified by stopAfter, the nearest enclosing
      Documents cursor gets the `stop` message. */
  function PostVisitSpec(cfg: Config, fs: seq<Frame>, y: Yaml): (r: seq<Frame>)
    ensures |r| == |fs| && Values(r) == Values(fs) && MessageMaps(r) == MessageMaps(fs)
    ensures cfg.stopAfter != Some(y.id) ==> r == fs
  {
    if cfg.stopAfter == Some(y.id) then WithStopOnFirstEnclosingDocuments(fs) else fs
  }

  /** The branches of preVisit, one lemma each, for the visitor's proof. */
  lemma SequenceEntryCase(cfg: Config, fs: seq<Frame>, y: Yaml)
    requires |fs| >= 3 && !Stopped(fs) && '\n' in y.prefix && !UnindentedTopLevel(fs) && y.SequenceEntry?
    ensures PreVisitSpec(cfg, fs, y) ==
      SequenceEntryRule(cfg, fs, y, MessageOr(fs[|fs| - 2], SequenceEntryIndent, Nearest(fs, LastIndent, 0)))
  {
  }

  lemma MappingEntryCase(cfg: Config, fs: seq<Frame>, y: Yaml)
    requires |fs| >= 3 && !Stopped(fs) && '\n' in y.prefix && !UnindentedTopLevel(fs) && y.MappingEntry?
    ensures PreVisitSpec(cfg, fs, y) == MappingEntryRule(cfg, fs, y, Nearest(fs, LastIndent, 0))
  {
  }

  lemma DocumentCase(cfg: Config, fs: seq<Frame>, y: Yaml)
    requires |fs| >= 2 && !PreVisitThrows(fs, y) && !Stopped(fs) && '\n' in y.prefix && !UnindentedTopLevel(fs) && y.Document?
    ensures PreVisitSpec(cfg, fs, y) == (WithPrefix(y, IndentComments(y.prefix, 0, true)), fs)
  {
  }

  lemma InlineMappingEntryCase(cfg: Config, fs: seq<Frame>, y: Yaml)
    requires |fs| >= 3 && !Stopped(fs) && !('\n' in y.prefix && !UnindentedTopLevel(fs)) && y.MappingEntry?
    ensures PreVisitSpec(cfg, fs, y) == InlineMappingEntryRule(cfg, fs, y, Nearest(fs, LastIndent, 0))
  {
  }

  lemma UntouchedCase(cfg: Config, fs: seq<Frame>, y: Yaml)
    requires |fs| >= 2 && !PreVisitThrows(fs, y)
    requires Stopped(fs) ||
             if '\n' in y.prefix && !UnindentedTopLevel(fs) then !y.SequenceEntry? && !y.MappingEntry? && !y.Document?
             else !y.MappingEntry?
    ensures PreVisitSpec(cfg, fs, y) == (y, fs)
  {
  }

  // ---------------------------------------------------------------------------
  // visit(tree, p) on values
  // ---------------------------------------------------------------------------

  /** Visiting `t` from the chain `fs` throws: `t` would sit directly under the
      root cursor and its preVisit reaches for a grandparent. */
  predicate VisitThrows(fs: seq<Frame>, t: Yaml) {
    |fs| == 1 && PreVisitThrows(fs + [NewFrame(t)], t)
  }

  lemma PushedChain(fs: seq<Frame>, t: Yaml)
    requires ValidChain(fs)
    ensures ValidChain(fs + [NewFrame(t)])
    ensures Stopped(fs + [NewFrame(t)]) == Stopped(fs)
  {
    var pushed := fs + [NewFrame(t)];
    if Stopped(pushed) {
      var i :| 0 <= i < |pushed| && pushed[i].stop;
      assert fs[i].stop;
    }
    if Stopped(fs) {
      var i :| 0 <= i < |fs| && fs[i].stop;
      assert pushed[i].stop;
    }
  }

  lemma SameValuesChain(a: seq<Frame>, b: seq<Frame>)
    requires ValidChain(a) && SameValues(a, b)
    ensures ValidChain(b)
  {
    forall i | 0 <= i < |b|
      ensures b[i].value == a[i].value
    {
      assert Values(b)[i] == Values(a)[i];
    }
  }

  /** Popping the cursor pushed for t gives back the cursors of the chain. */
  lemma PoppedValues(fs: seq<Frame>, t: Yaml, after: seq<Frame>)
    requires Values(after) == Values(fs + [NewFrame(t)])
    ensures SameValues(fs, after[..|after| - 1])
  {
    var popped := after[..|after| - 1];
    forall i | 0 <= i < |fs|
      ensures Values(popped)[i] == Values(fs)[i]
    {
      assert Values(after)[i] == Values(fs + [NewFrame(t)])[i];
    }
  }

  /** visit(t, p): nothing once a `stop` message is in reach; otherwise push t's
      cursor, preVisit, visit the children in order from t's cursor, rebuild,
      postVisit, and pop. The result is the new tree and the chain afterwards. */
  function VisitSpec(cfg: Config, fs: seq<Frame>, t: Yaml): (r: (Yaml, seq<Frame>))
    requires ValidChain(fs) && !VisitThrows(fs, t)
    ensures SameValues(fs, r.1)
    decreases Size(t), 0
  {
    if Stopped(fs) then (t, fs)
    else
      var pushed := fs + [NewFrame(t)];
      PushedChain(fs, t);
      var pre := PreVisitSpec(cfg, pushed, t);
      ChildrenSmaller(t);
      var kids := ChildrenSpec(cfg, pre.1, Children(t));
      var y2 := WithChildren(pre.0, kids.0);
      var fs4 := PostVisitSpec(cfg, kids.1, y2);
      PoppedValues(fs, t, fs4);
      (y2, fs4[..|fs4| - 1])
  }

  /** One unfolding of VisitSpec, for the visitor's proof. */
  lemma VisitUnfolds(cfg: Config, fs: seq<Frame>, t: Yaml, pre: (Yaml, seq<Frame>), kids: (seq<Yaml>, seq<Frame>))
    requires ValidChain(fs) && !VisitThrows(fs, t) && !Stopped(fs)
    requires ValidChain(fs + [NewFrame(t)]) && !PreVisitThrows(fs + [NewFrame(t)], t)
    requires pre == PreVisitSpec(cfg, fs + [NewFrame(t)], t)
    requires ValidChain(pre.1) && SizeSeq(Children(t)) < Size(t)
    requires kids == ChildrenSpec(cfg, pre.1, Children(t)) && |kids.0| == |Children(pre.0)|
    ensures VisitSpec(cfg, fs, t).0 == WithChildren(pre.0, kids.0)
    ensures VisitSpec(cfg, fs, t).1 == PostVisitSpec(cfg, kids.1, WithChildren(pre.0, kids.0))[..|kids.1| - 1]
  {
  }

  /** The children of one node, visited left to right from the node's cursor;
      each sees the messages its earlier siblings left. */
  function ChildrenSpec(cfg: Config, fs: seq<Frame>, cs: seq<Yaml>): (r: (seq<Yaml>, seq<Frame>))
    requires ValidChain(fs) && |fs| >= 2
    ensures |r.0| == |cs| && SameValues(fs, r.1)
    decreases SizeSeq(cs), 1
  {
    if cs == [] then ([], fs)
    else
      var earlier := ChildrenSpec(cfg, fs, cs[..|cs| - 1]);
      SameValuesChain(fs, earlier.1);
      var last := VisitSpec(cfg, earlier.1, cs[|cs| - 1]);
      (earlier.0 + [last.0], last.1)
  }

  /** One unfolding of ChildrenSpec: the last child is visited from the chain
      its earlier siblings left. */
  lemma ChildrenUnfolds(cfg: Config, fs: seq<Frame>, cs: seq<Yaml>)
    requires ValidChain(fs) && |fs| >= 2 && cs != []
    ensures ValidChain(ChildrenSpec(cfg, fs, cs[..|cs| - 1]).1)
    ensures |ChildrenSpec(cfg, fs, cs[..|cs| - 1]).1| == |fs|
    ensures ChildrenSpec(cfg, fs, cs).1 == VisitSpec(cfg, ChildrenSpec(cfg, fs, cs[..|cs| - 1]).1, cs[|cs| - 1]).1
  {
    var earlier := ChildrenSpec(cfg, fs, cs[..|cs| - 1]);
    SameValuesChain(fs, earlier.1);
    assert |Values(earlier.1)| == |Values(fs)|;
  }

  // ---------------------------------------------------------------------------
  // visit(tree, p, parent) on values
  // ---------------------------------------------------------------------------

  /** One step of the baseline loop: a cursor whose node has a line break in its
      prefix and a nonzero findIndent records that indent as `lastIndent`. */
  function Rebaseline(f: Frame): Frame {
    if f.value.Node? && '\n' in f.value.node.prefix && IndentOf(f.value.node.prefix) != 0
    then f.(messages := f.messages[LastIndent := IndentOf(f.value.node.prefix)])
    else f
  }

  /** The baseline loop over every Yaml cursor of the parent chain. */
  function RebaselineChain(fs: seq<Frame>): (r: seq<Frame>)
    ensures SameValues(fs, r)
    ensures forall i :: 0 <= i < |fs| ==> r[i] == Rebaseline(fs[i])
  {
    seq(|fs|, i requires 0 <= i < |fs| => Rebaseline(fs[i]))
  }

  /** The chain visit(tree, p, parent) continues from: the baseline loop, then
      preVisit of the parent node, whose rewritten node is dropped and whose
      messages are kept. None stands for the IllegalStateException of
      getParentOrThrow. */
  function PreparedParent(cfg: Config, parent: seq<Frame>): (r: Option<seq<Frame>>)
    requires ValidChain(parent)
    ensures r.Some? ==> SameValues(parent, r.value)
  {
    var fs := RebaselineChain(parent);
    if |fs| < 2 then Some(fs)
    else if PreVisitThrows(fs, fs[|fs| - 1].value.node) then None
    else Some(PreVisitSpec(cfg, fs, fs[|fs| - 1].value.node).1)
  }

  /** visit(tree, p, parent): the new tree and the chain afterwards, or None
      when getParentOrThrow throws. */
  function VisitWithParentSpec(cfg: Config, parent: seq<Frame>, t: Yaml): (r: Option<(Yaml, seq<Frame>)>)
    requires ValidChain(parent)
    ensures r.Some? ==> SameValues(parent, r.value.1)
  {
    match PreparedParent(cfg, parent)
    case None => None
    case Some(fs) =>
      SameValuesChain(parent, fs);
      if VisitThrows(fs, t) then None else Some(VisitSpec(cfg, fs, t))
  }

  // ---------------------------------------------------------------------------
  // The visitor
  // ---------------------------------------------------------------------------

  /** IndentsVisitor: its style's indent size, the optional stopAfter tree, and
      the cursor it moves as it walks. */
  class IndentsVisitor {
    const indentSize: nat
    const stopAfter: Option<nat>
    const cursor: Cursor

    constructor (indentSize: nat, stopAfter: Option<nat>)
      ensures this.indentSize == indentSize && this.stopAfter == stopAfter
      ensures fresh(cursor) && cursor.frames == [RootFrame]
    {
      this.indentSize := indentSize;
      this.stopAfter := stopAfter;
      cursor := new Cursor();
    }

    function Cfg(): Config {
      Config(indentSize, stopAfter)
    }

    /** preVisit(tree, p). */
    method PreVisit(tree: Yaml) returns (r: Yaml)
      requires |cursor.frames| >= 2 && !PreVisitThrows(cursor.frames, tree)
      modifies cursor
      ensures r == PreVisitSpec(Cfg(), old(cursor.frames), tree).0
      ensures cursor.frames == PreVisitSpec(Cfg(), old(cursor.frames), tree).1
    {
      ghost var fs := cursor.frames;
      if cursor.IsStopped() {
        UntouchedCase(Cfg(), fs, tree);
        return tree;
      }
      var indent := cursor.NearestMessage(LastIndent, 0);
      if '\n' in tree.prefix && !UnindentedTopLevel(cursor.frames) {
        r := OwnLineStep(tree, indent);
      } else if tree.MappingEntry? {
        InlineMappingEntryCase(Cfg(), fs, tree);
        r := InlineMappingEntryStep(tree, indent);
      } else {
        UntouchedCase(Cfg(), fs, tree);
        r := tree;
      }
    }

    /** preVisit of a node with a line break in its prefix, outside the
        unindented top level. */
    method OwnLineStep(tree: Yaml, indent: nat) returns (r: Yaml)
      requires |cursor.frames| >= 2 && !PreVisitThrows(cursor.frames, tree) && !Stopped(cursor.frames)
      requires '\n' in tree.prefix && !UnindentedTopLevel(cursor.frames)
      requires indent == Nearest(cursor.frames, LastIndent, 0)
      modifies cursor
      ensures r == PreVisitSpec(Cfg(), old(cursor.frames), tree).0
      ensures cursor.frames == PreVisitSpec(Cfg(), old(cursor.frames), tree).1
    {
      ghost var fs := cursor.frames;
      if tree.SequenceEntry? {
        SequenceEntryCase(Cfg(), fs, tree);
        r := SequenceEntryStep(tree, indent);
      } else if tree.MappingEntry? {
        MappingEntryCase(Cfg(), fs, tree);
        r := MappingEntryStep(tree, indent);
      } else if tree.Document? {
        DocumentCase(Cfg(), fs, tree);
        r := WithPrefix(tree, IndentComments(tree.prefix, 0, true));
      } else {
        UntouchedCase(Cfg(), fs, tree);
        r := tree;
      }
    }

    /** preVisit's sequence-entry branch, from the nearest `lastIndent`. */
    method SequenceEntryStep(y: Yaml, indent: nat) returns (r: Yaml)
      requires |cursor.frames| >= 2 && y.SequenceEntry?
      modifies cursor
      ensures var base := MessageOr(old(cursor.frames)[|old(cursor.frames)| - 2], SequenceEntryIndent, indent);
              r == SequenceEntryRule(Cfg(), old(cursor.frames), y, base).0 &&
              cursor.frames == SequenceEntryRule(Cfg(), old(cursor.frames), y, base).1
    {
      ghost var fs := cursor.frames;
      var parent := |cursor.frames| - 2;
      var base := MessageOr(cursor.frames[parent], SequenceEntryIndent, indent);
      ghost var rule := SequenceEntryRule(Cfg(), fs, y, base);
      assert rule.0 == WithPrefix(y, IndentTo(y.prefix, base + indentSize));
      assert rule.1 == Put(Put(fs, parent, SequenceEntryIndent, base), parent, LastIndent, base + |FirstIndentOf(y.block)| + 1);
      var prefix := Realign(y.prefix, base + indentSize);
      r := WithPrefix(y, prefix);
      cursor.PutMessageAt(parent, SequenceEntryIndent, base);
      var first := FirstIndent(r.block);
      assert first == FirstIndentOf(y.block);
      cursor.PutMessageAt(parent, LastIndent, base + |first| + 1);
    }

    /** preVisit's branch for a mapping entry on a line of its own. */
    method MappingEntryStep(y: Yaml, indent: nat) returns (r: Yaml)
      requires |cursor.frames| >= 2 && y.MappingEntry?
      modifies cursor
      ensures r == MappingEntryRule(Cfg(), old(cursor.frames), y, indent).0
      ensures cursor.frames == MappingEntryRule(Cfg(), old(cursor.frames), y, indent).1
    {
      var column := indent + indentSize;
      ghost var rule := MappingEntryRule(Cfg(), cursor.frames, y, indent);
      assert rule == (WithPrefix(y, IndentTo(y.prefix, column)), Put(cursor.frames, |cursor.frames| - 1, LastIndent, column));
      var prefix := Realign(y.prefix, column);
      r := WithPrefix(y, prefix);
      cursor.PutMessageAt(|cursor.frames| - 1, LastIndent, column);
    }

    /** preVisit's branch for a mapping entry with no line break before it. */
    method InlineMappingEntryStep(y: Yaml, indent: nat) returns (r: Yaml)
      requires |cursor.frames| >= 2 && y.MappingEntry?
      modifies cursor
      ensures r == InlineMappingEntryRule(Cfg(), old(cursor.frames), y, indent).0
      ensures cursor.frames == InlineMappingEntryRule(Cfg(), old(cursor.frames), y, indent).1
    {
      ghost var rule := InlineMappingEntryRule(Cfg(), cursor.frames, y, indent);
      if IsKindAt(cursor.frames, |cursor.frames| - 3, SequenceEntryKind) {
        assert rule == (y, Put(cursor.frames, |cursor.frames| - 1, LastIndent, indent + indentSize));
        r := y;
        cursor.PutMessageAt(|cursor.frames| - 1, LastIndent, indent + indentSize);
      } else {
        assert rule == (WithPrefix(y, IndentComments(y.prefix, indent, false)), cursor.frames);
        r := WithPrefix(y, IndentComments(y.prefix, indent, false));
      }
    }

    method PostVisit(tree: Yaml)
      modifies cursor
      ensures cursor.frames == PostVisitSpec(Cfg(), old(cursor.frames), tree)
    {
      if stopAfter == Some(tree.id) {
        cursor.PutStopOnFirstEnclosingDocuments();
      }
    }

    /** visit(tree, p), with the base visitor's push, preVisit, children,
        postVisit and pop written out. */
    method Visit(t: Yaml) returns (r: Yaml)
      requires ValidChain(cursor.frames) && !VisitThrows(cursor.frames, t)
      modifies cursor
      ensures r == VisitSpec(Cfg(), old(cursor.frames), t).0
      ensures cursor.frames == VisitSpec(Cfg(), old(cursor.frames), t).1
      decreases Size(t), 1
    {
      if cursor.IsStopped() {
        return t;
      }
      r := VisitOpen(t);
    }

    /** visit of a tree while no `stop` message is set. */
    method VisitOpen(t: Yaml) returns (r: Yaml)
      requires ValidChain(cursor.frames) && !VisitThrows(cursor.frames, t) && !Stopped(cursor.frames)
      modifies cursor
      ensures r == VisitSpec(Cfg(), old(cursor.frames), t).0
      ensures cursor.frames == VisitSpec(Cfg(), old(cursor.frames), t).1
      decreases Size(t), 0
    {
      ghost var fs := cursor.frames;
      PushedChain(fs, t);
      cursor.Push(t);
      var y := PreVisit(t);
      ghost var fs2 := cursor.frames;
      SameValuesChain(fs + [NewFrame(t)], fs2);
      ChildrenSmaller(t);
      var rs := VisitChildren(Children(t));
      ghost var fs3 := cursor.frames;
      VisitUnfolds(Cfg(), fs, t, (y, fs2), (rs, fs3));
      r := WithChildren(y, rs);
      PostVisit(r);
      cursor.Pop();
    }

    /** The children of the current node, visited in order. */
    method VisitChildren(cs: seq<Yaml>) returns (rs: seq<Yaml>)
      requires ValidChain(cursor.frames) && |cursor.frames| >= 2
      modifies cursor
      ensures (rs, cursor.frames) == ChildrenSpec(Cfg(), old(cursor.frames), cs)
      decreases SizeSeq(cs), 2
    {
      ghost var fs := cursor.frames;
      rs := [];
      for i := 0 to |cs|
        invariant (rs, cursor.frames) == ChildrenSpec(Cfg(), fs, cs[..i])
      {
        assert cs[..i + 1][..i] == cs[..i];
        ElementSmaller(cs, i);
        SameValuesChain(fs, cursor.frames);
        var c := Visit(cs[i]);
        rs := rs + [c];
      }
      assert cs[..|cs|] == cs;
    }

    /** The baseline loop of visit(tree, p, parent): from the parent cursor up
        to the root, each Yaml cursor whose prefix has a line break and a nonzero
        findIndent gets that indent as its `lastIndent`. */
    method RestoreBaseline(parent: seq<Frame>)
      requires ValidChain(parent)
      modifies cursor
      ensures cursor.frames == RebaselineChain(parent)
    {
      cursor.SetFrames(parent);
      var i := |parent| - 1;
      while 0 <= i && cursor.frames[i].value.Node?
        invariant -1 <= i < |parent| && |cursor.frames| == |parent|
        invariant forall j :: 0 <= j < |parent| ==>
          cursor.frames[j] == if j > i then Rebaseline(parent[j]) else parent[j]
        decreases i
      {
        var prefix := cursor.frames[i].value.node.prefix;
        if '\n' in prefix {
          var indent := FindIndent(prefix);
          if indent != 0 {
            cursor.PutMessageAt(i, LastIndent, indent);
          }
        }
        i := i - 1;
      }
      assert cursor.frames == RebaselineChain(parent);
    }

    /** The baseline loop and the parent's preVisit. */
    method PrepareParent(parent: seq<Frame>) returns (ok: bool)
      requires ValidChain(parent)
      modifies cursor
      ensures ok <==> PreparedParent(Cfg(), parent).Some?
      ensures ok ==> cursor.frames == PreparedParent(Cfg(), parent).value
      ensures !ok ==> cursor.frames == RebaselineChain(parent)
    {
      RestoreBaseline(parent);
      if |cursor.frames| >= 2 {
        var node := cursor.frames[|cursor.frames| - 1].value.node;
        if PreVisitThrows(cursor.frames, node) {
          return false;
        }
        var _ := PreVisit(node);
      }
      ok := true;
    }

    /** visit(tree, p, parent). When getParentOrThrow throws, the cursors keep
      what the baseline loop (and, if it ran, the parent's preVisit) wrote. */
    method VisitWithParent(t: Yaml, parent: seq<Frame>) returns (r: Option<Yaml>)
      requires ValidChain(parent)
      modifies cursor
      ensures r.None? <==> VisitWithParentSpec(Cfg(), parent, t).None?
      ensures r.Some? ==> r.value == VisitWithParentSpec(Cfg(), parent, t).value.0 &&
                          cursor.frames == VisitWithParentSpec(Cfg(), parent, t).value.1
      ensures PreparedParent(Cfg(), parent).None? ==> cursor.frames == RebaselineChain(parent)
      ensures PreparedParent(Cfg(), parent).Some? && r.None? ==> cursor.frames == PreparedParent(Cfg(), parent).value
    {
      var ok := PrepareParent(parent);
      if !ok {
        return None;
      }
      SameValuesChain(parent, cursor.frames);
      if VisitThrows(cursor.frames, t) {
        return None;
      }
      var y := Visit(t);
      r := Some(y);
    }

    /** visit(tree, p) on a visitor whose cursor is the root. */
    method VisitTree(t: Yaml) returns (r: Option<Yaml>)
      requires cursor.frames == [RootFrame]
      modifies cursor
      ensures r == if VisitThrows([RootFrame], t) then None else Some(VisitSpec(Cfg(), [RootFrame], t).0)
    {
      if VisitThrows(cursor.frames, t) {
        return None;
      }
      var y := Visit(t);
      r := Some(y);
    }
  }
}
