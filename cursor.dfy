/** The cursor chain of a traversal: for each node from the root down to the one
    being visited, its value and its message map. Descendants read messages by
    nearest-ancestor lookup (Cursor.getNearestMessage). */
module Cursors {
  import opened Wrappers
  import opened YamlTree

  /** The integer messages the pass stores on cursors: "lastIndent" and
      "sequenceEntryIndent". */
  datatype Key = LastIndent | SequenceEntryIndent

  /** The value a cursor points at: the root cursor holds no tree node. */
  datatype CursorValue = Root | Node(node: Yaml)

  /** One cursor: its value, its integer messages (`lastIndent`,
      `sequenceEntryIndent`) and whether the `stop` message is set on it. */
  datatype Frame = Frame(value: CursorValue, messages: map<Key, nat>, stop: bool)

  function NewFrame(y: Yaml): Frame {
    Frame(Node(y), map[], false)
  }

  const RootFrame := Frame(Root, map[], false)

  /** A chain runs from the root cursor (index 0) to the current cursor (last). */
  predicate ValidChain(fs: seq<Frame>) {
    |fs| >= 1 && fs[0].value == Root && forall i :: 1 <= i < |fs| ==> fs[i].value.Node?
  }

  /** The cursors' values, stop flags and message maps, root first. */
  function Values(fs: seq<Frame>): (r: seq<CursorValue>)
    ensures |r| == |fs|
  {
    seq(|fs|, i requires 0 <= i < |fs| => fs[i].value)
  }

  function Stops(fs: seq<Frame>): (r: seq<bool>)
    ensures |r| == |fs|
  {
    seq(|fs|, i requires 0 <= i < |fs| => fs[i].stop)
  }

  function MessageMaps(fs: seq<Frame>): (r: seq<map<Key, nat>>)
    ensures |r| == |fs|
  {
    seq(|fs|, i requires 0 <= i < |fs| => fs[i].messages)
  }

  /** Two chains of the same cursors, whatever their messages. */
  predicate SameValues(a: seq<Frame>, b: seq<Frame>) {
    Values(a) == Values(b)
  }

  /** getNearestMessage(key, default): the value on the nearest cursor, from the
      current one towards the root, that holds `key`. */
  function Nearest(fs: seq<Frame>, key: Key, default: nat): nat
    decreases |fs|
  {
    if fs == [] then default
    else if key in fs[|fs| - 1].messages then fs[|fs| - 1].messages[key]
    else Nearest(fs[..|fs| - 1], key, default)
  }

  /** The lookup finds the value on the cursor nearest to the current one, and
      the default when no cursor holds the key. */
  lemma {:induction false} NearestIsNearest(fs: seq<Frame>, key: Key, default: nat)
    ensures (forall i :: 0 <= i < |fs| ==> key !in fs[i].messages) ==> Nearest(fs, key, default) == default
    ensures forall i :: 0 <= i < |fs| && key in fs[i].messages &&
                        (forall j :: i < j < |fs| ==> key !in fs[j].messages) ==>
                        Nearest(fs, key, default) == fs[i].messages[key]
    decreases |fs|
  {
    if fs != [] && key !in fs[|fs| - 1].messages {
      NearestIsNearest(fs[..|fs| - 1], key, default);
      assert forall i :: 0 <= i < |fs| - 1 ==> fs[..|fs| - 1][i] == fs[i];
    }
  }

  /** getNearestMessage("stop") != null. */
  predicate Stopped(fs: seq<Frame>) {
    exists i :: 0 <= i < |fs| && fs[i].stop
  }

  /** getMessage(key, default) on one cursor only. */
  function MessageOr(f: Frame, key: Key, default: nat): nat {
    if key in f.messages then f.messages[key] else default
  }

  lemma MessageOrHeld(f: Frame, key: Key, v: nat, default: nat)
    requires key in f.messages && f.messages[key] == v
    ensures MessageOr(f, key, default) == v
  {
  }

  /** putMessage(key, v) on the cursor at index i. */
  function Put(fs: seq<Frame>, i: nat, key: Key, v: nat): (r: seq<Frame>)
    requires i < |fs|
    ensures |r| == |fs| && Values(r) == Values(fs) && Stops(r) == Stops(fs)
  {
    var r := fs[i := fs[i].(messages := fs[i].messages[key := v])];
    assert Values(r) == Values(fs);
    assert Stops(r) == Stops(fs);
    r
  }

  /** The cursor at index i exists and holds a node of kind k. */
  predicate IsKindAt(fs: seq<Frame>, i: int, k: Kind) {
    0 <= i < |fs| && fs[i].value.Node? && KindOf(fs[i].value.node) == k
  }

  /** The nearest cursor (the current one included) holding a node of kind k. */
  function FirstEnclosing(fs: seq<Frame>, k: Kind): (r: Option<nat>)
    ensures r.Some? ==> r.value < |fs| && IsKindAt(fs, r.value, k) &&
                        forall j :: r.value < j < |fs| ==> !IsKindAt(fs, j, k)
    ensures r.None? ==> forall j :: 0 <= j < |fs| ==> !IsKindAt(fs, j, k)
    decreases |fs|
  {
    if fs == [] then None
    else if IsKindAt(fs, |fs| - 1, k) then Some(|fs| - 1)
    else
      var r := FirstEnclosing(fs[..|fs| - 1], k);
      assert forall j :: 0 <= j < |fs| - 1 ==> (IsKindAt(fs[..|fs| - 1], j, k) <==> IsKindAt(fs, j, k));
      r
  }

  /** putMessageOnFirstEnclosing(Documents.class, "stop", true); nothing happens
      when no enclosing Documents exists. */
  function WithStopOnFirstEnclosingDocuments(fs: seq<Frame>): (r: seq<Frame>)
    ensures |r| == |fs| && Values(r) == Values(fs) && MessageMaps(r) == MessageMaps(fs)
  {
    match FirstEnclosing(fs, DocumentsKind)
    case None => fs
    case Some(i) =>
      var r := fs[i := fs[i].(stop := true)];
      assert Values(r) == Values(fs);
      assert MessageMaps(r) == MessageMaps(fs);
      r
  }

  // ---------------------------------------------------------------------------
  // Facts about chains
  // ---------------------------------------------------------------------------

  lemma ValuesPrefix(fs: seq<Frame>, k: nat)
    requires k <= |fs|
    ensures Values(fs[..k]) == Values(fs)[..k]
  {
  }

  lemma MessageMapsPrefix(fs: seq<Frame>, k: nat)
    requires k <= |fs|
    ensures MessageMaps(fs[..k]) == MessageMaps(fs)[..k]
  {
  }

  /** putMessage writes one key of one cursor's map and nothing else. */
  lemma PutMessages(fs: seq<Frame>, i: nat, key: Key, v: nat)
    requires i < |fs|
    ensures MessageMaps(Put(fs, i, key, v)) == MessageMaps(fs)[i := fs[i].messages[key := v]]
  {
    var r := Put(fs, i, key, v);
    forall j | 0 <= j < |fs|
      ensures MessageMaps(r)[j] == MessageMaps(fs)[i := fs[i].messages[key := v]][j]
    {
    }
  }

  /** A cursor pushed with no messages does not change what lookups find. */
  lemma NearestPastNewFrame(fs: seq<Frame>, y: Yaml, key: Key, default: nat)
    ensures Nearest(fs + [NewFrame(y)], key, default) == Nearest(fs, key, default)
  {
    assert (fs + [NewFrame(y)])[..|fs|] == fs;
  }

  /** The search for an enclosing kind looks at the cursors' values only. */
  lemma {:induction false} FirstEnclosingOfValues(a: seq<Frame>, b: seq<Frame>, k: Kind)
    requires Values(a) == Values(b)
    ensures FirstEnclosing(a, k) == FirstEnclosing(b, k)
    decreases |a|
  {
    if a != [] {
      assert Values(a)[|a| - 1] == Values(b)[|a| - 1];
      ValuesPrefix(a, |a| - 1);
      ValuesPrefix(b, |b| - 1);
      FirstEnclosingOfValues(a[..|a| - 1], b[..|b| - 1], k);
    }
  }

  /** A pushed cursor of another kind does not change the enclosing search. */
  lemma FirstEnclosingPastNewFrame(fs: seq<Frame>, y: Yaml, k: Kind)
    requires KindOf(y) != k
    ensures FirstEnclosing(fs + [NewFrame(y)], k) == FirstEnclosing(fs, k)
  {
    assert (fs + [NewFrame(y)])[..|fs|] == fs;
  }

  /** The visitor's cursor: the chain of frames, updated in place. */
  class Cursor {
    var frames: seq<Frame>

    constructor ()
      ensures frames == [RootFrame]
    {
      frames := [RootFrame];
    }

    /** setCursor(c): the visitor continues from another chain. */
    method SetFrames(fs: seq<Frame>)
      modifies this
      ensures frames == fs
    {
      frames := fs;
    }

    /** new Cursor(cursor, tree). */
    method Push(y: Yaml)
      modifies this
      ensures frames == old(frames) + [NewFrame(y)]
    {
      frames := frames + [NewFrame(y)];
    }

    /** cursor.getParent(). */
    method Pop()
      requires |frames| >= 2
      modifies this
      ensures frames == old(frames)[..|old(frames)| - 1]
    {
      frames := frames[..|frames| - 1];
    }

    /** putMessage on the cursor at index i of the chain. */
    method PutMessageAt(i: nat, key: Key, v: nat)
      requires i < |frames|
      modifies this
      ensures frames == Put(old(frames), i, key, v)
    {
      frames := Put(frames, i, key, v);
    }

    method PutStopOnFirstEnclosingDocuments()
      modifies this
      ensures frames == WithStopOnFirstEnclosingDocuments(old(frames))
    {
      frames := WithStopOnFirstEnclosingDocuments(frames);
    }

    function NearestMessage(key: Key, default: nat): nat
      reads this
    {
      Nearest(frames, key, default)
    }

    predicate IsStopped()
      reads this
    {
      Stopped(frames)
    }
  }
}
