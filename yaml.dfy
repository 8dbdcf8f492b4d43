/** The lossless YAML tree the indentation pass walks (the Yaml interface and its
    node classes), and the read-only first-content probe (firstIndent). */
module YamlTree {
  import opened Wrappers

  /** A node of the tree. Every node has an identity (`id`, what Tree.isScope
      compares) and a prefix. Children are listed in the order the visitor
      descends into them: a mapping entry's key before its value. */
  datatype Yaml =
    | Documents(id: nat, prefix: string, documents: seq<Yaml>)
    | Document(id: nat, prefix: string, block: Yaml)
    | Mapping(id: nat, prefix: string, entries: seq<Yaml>)
    | MappingEntry(id: nat, prefix: string, key: Yaml, value: Yaml)
    | Sequence(id: nat, prefix: string, entries: seq<Yaml>)
    | SequenceEntry(id: nat, prefix: string, block: Yaml)
    | Scalar(id: nat, prefix: string)
    | Other(id: nat, prefix: string, children: seq<Yaml>)

  datatype Kind =
    | DocumentsKind | DocumentKind | MappingKind | MappingEntryKind
    | SequenceKind | SequenceEntryKind | ScalarKind | OtherKind

  function KindOf(y: Yaml): Kind {
    match y
    case Documents(_, _, _) => DocumentsKind
    case Document(_, _, _) => DocumentKind
    case Mapping(_, _, _) => MappingKind
    case MappingEntry(_, _, _, _) => MappingEntryKind
    case Sequence(_, _, _) => SequenceKind
    case SequenceEntry(_, _, _) => SequenceEntryKind
    case Scalar(_, _) => ScalarKind
    case Other(_, _, _) => OtherKind
  }

  /** The children of a node, in visiting order. */
  function Children(y: Yaml): seq<Yaml> {
    match y
    case Documents(_, _, ds) => ds
    case Document(_, _, b) => [b]
    case Mapping(_, _, es) => es
    case MappingEntry(_, _, k, v) => [k, v]
    case Sequence(_, _, es) => es
    case SequenceEntry(_, _, b) => [b]
    case Scalar(_, _) => []
    case Other(_, _, cs) => cs
  }

  /** The node with its children replaced, as the visit methods rebuild a node
      from its visited children. */
  function WithChildren(y: Yaml, cs: seq<Yaml>): (r: Yaml)
    requires |cs| == |Children(y)|
    ensures r.id == y.id && r.prefix == y.prefix && KindOf(r) == KindOf(y)
    ensures Children(r) == cs
  {
    match y
    case Documents(id, p, _) => Documents(id, p, cs)
    case Document(id, p, _) => Document(id, p, cs[0])
    case Mapping(id, p, _) => Mapping(id, p, cs)
    case MappingEntry(id, p, _, _) => MappingEntry(id, p, cs[0], cs[1])
    case Sequence(id, p, _) => Sequence(id, p, cs)
    case SequenceEntry(id, p, _) => SequenceEntry(id, p, cs[0])
    case Scalar(id, p) => Scalar(id, p)
    case Other(id, p, _) => Other(id, p, cs)
  }

  /** withPrefix: the same node with another prefix. */
  function WithPrefix(y: Yaml, p: string): (r: Yaml)
    ensures r.id == y.id && r.prefix == p && KindOf(r) == KindOf(y)
    ensures Children(r) == Children(y)
    ensures p == y.prefix ==> r == y
  {
    match y
    case Documents(id, _, ds) => Documents(id, p, ds)
    case Document(id, _, b) => Document(id, p, b)
    case Mapping(id, _, es) => Mapping(id, p, es)
    case MappingEntry(id, _, k, v) => MappingEntry(id, p, k, v)
    case Sequence(id, _, es) => Sequence(id, p, es)
    case SequenceEntry(id, _, b) => SequenceEntry(id, p, b)
    case Scalar(id, _) => Scalar(id, p)
    case Other(id, _, cs) => Other(id, p, cs)
  }

  lemma WithOwnChildren(y: Yaml)
    ensures WithChildren(y, Children(y)) == y
  {
  }

  // ---------------------------------------------------------------------------
  // Size, for termination of the traversals
  // ---------------------------------------------------------------------------

  function Size(y: Yaml): (n: nat)
    ensures n >= 1
  {
    match y
    case Documents(_, _, ds) => 1 + SizeSeq(ds)
    case Document(_, _, b) => 1 + Size(b)
    case Mapping(_, _, es) => 1 + SizeSeq(es)
    case MappingEntry(_, _, k, v) => 1 + Size(k) + Size(v)
    case Sequence(_, _, es) => 1 + SizeSeq(es)
    case SequenceEntry(_, _, b) => 1 + Size(b)
    case Scalar(_, _) => 1
    case Other(_, _, cs) => 1 + SizeSeq(cs)
  }

  function SizeSeq(cs: seq<Yaml>): nat
    decreases cs
  {
    if cs == [] then 0 else SizeSeq(cs[..|cs| - 1]) + Size(cs[|cs| - 1])
  }

  lemma ChildrenSmaller(y: Yaml)
    ensures SizeSeq(Children(y)) < Size(y)
  {
    match y
    case MappingEntry(_, _, k, v) =>
      assert [k, v][..1] == [k];
      assert [k][..0] == [];
      assert SizeSeq([k]) == Size(k);
      assert SizeSeq([k, v]) == Size(k) + Size(v);
    case Document(_, _, b) =>
      assert [b][..0] == [];
    case SequenceEntry(_, _, b) =>
      assert [b][..0] == [];
    case _ =>
  }

  lemma {:induction false} ElementSmaller(cs: seq<Yaml>, i: nat)
    requires i < |cs|
    ensures Size(cs[i]) <= SizeSeq(cs)
    decreases |cs|
  {
    if i < |cs| - 1 {
      ElementSmaller(cs[..|cs| - 1], i);
    }
  }

  lemma ChildSmaller(y: Yaml, i: nat)
    requires i < |Children(y)|
    ensures Size(Children(y)[i]) < Size(y)
  {
    ElementSmaller(Children(y), i);
    ChildrenSmaller(y);
  }

  // ---------------------------------------------------------------------------
  // The shape of a tree: everything but the prefixes
  // ---------------------------------------------------------------------------

  /** The tree with every prefix emptied: two trees with the same Erase differ
      in their prefixes only. */
  function Erase(y: Yaml): Yaml
    decreases Size(y), 0
  {
    ChildrenSmaller(y);
    WithChildren(WithPrefix(y, ""), EraseSeq(Children(y)))
  }

  function EraseSeq(cs: seq<Yaml>): (r: seq<Yaml>)
    ensures |r| == |cs|
    decreases SizeSeq(cs), 1
  {
    if cs == [] then [] else EraseSeq(cs[..|cs| - 1]) + [Erase(cs[|cs| - 1])]
  }

  /** A node rebuilt with another prefix and other children has the shape of
      those children under the node's own kind and identity. */
  lemma EraseRebuilt(y: Yaml, p: string, cs: seq<Yaml>)
    requires |cs| == |Children(y)|
    ensures Erase(WithChildren(WithPrefix(y, p), cs)) == WithChildren(WithPrefix(y, ""), EraseSeq(cs))
  {
  }

  // ---------------------------------------------------------------------------
  // Pre-order and the first-content probe
  // ---------------------------------------------------------------------------

  /** The node followed by all its descendants, in visiting (pre-)order. */
  function Preorder(y: Yaml): seq<Yaml>
    decreases Size(y), 0
  {
    ChildrenSmaller(y);
    [y] + PreorderSeq(Children(y))
  }

  function PreorderSeq(cs: seq<Yaml>): seq<Yaml>
    decreases SizeSeq(cs), 1
  {
    if cs == [] then [] else PreorderSeq(cs[..|cs| - 1]) + Preorder(cs[|cs| - 1])
  }

  /** The descendants of a node, without the node itself. */
  function Descendants(y: Yaml): seq<Yaml> {
    PreorderSeq(Children(y))
  }

  /** The kinds the probe stops at: anything but a Mapping or a sequence entry. */
  predicate IsContent(y: Yaml) {
    !y.Mapping? && !y.SequenceEntry?
  }

  /** The first content node of a list, if there is one. */
  function FirstContent(s: seq<Yaml>): (r: Option<Yaml>)
    ensures r.None? <==> forall i :: 0 <= i < |s| ==> !IsContent(s[i])
    ensures r.Some? ==> exists i :: 0 <= i < |s| && s[i] == r.value && IsContent(s[i]) &&
                                   forall j :: 0 <= j < i ==> !IsContent(s[j])
  {
    if s == [] then None
    else if IsContent(s[0]) then Some(s[0])
    else
      var r := FirstContent(s[1..]);
      assert forall i :: 1 <= i < |s| ==> s[i] == s[1..][i - 1];
      r
  }

  lemma {:induction false} FirstContentAppend(a: seq<Yaml>, b: seq<Yaml>)
    ensures FirstContent(a + b) == if FirstContent(a).Some? then FirstContent(a) else FirstContent(b)
    decreases |a|
  {
    if a == [] {
      assert a + b == b;
    } else {
      assert (a + b)[0] == a[0];
      assert (a + b)[1..] == a[1..] + b;
      FirstContentAppend(a[1..], b);
    }
  }

  function PrefixOf(o: Option<Yaml>): Option<string> {
    if o.Some? then Some(o.value.prefix) else None
  }

  /** What firstIndent(block) promises: the prefix of the first descendant of
      `block`, in pre-order and other than `block` itself, that is neither a
      Mapping nor a sequence entry; the empty string when there is none. */
  function FirstIndentOf(block: Yaml): string {
    var first := FirstContent(Descendants(block));
    if first.Some? then first.value.prefix else ""
  }

  /** firstIndent is the prefix of the first descendant of the block, in
      pre-order, that is neither a Mapping nor a sequence entry, and the empty
      string when every descendant is one of those. */
  lemma FirstIndentMeaning(block: Yaml, i: nat)
    requires i < |Descendants(block)| && IsContent(Descendants(block)[i])
    requires forall j :: 0 <= j < i ==> !IsContent(Descendants(block)[j])
    ensures FirstIndentOf(block) == Descendants(block)[i].prefix
  {
    var ds := Descendants(block);
    var k :| 0 <= k < |ds| && ds[k] == FirstContent(ds).value && IsContent(ds[k]) &&
             forall j :: 0 <= j < k ==> !IsContent(ds[j]);
    assert k == i;
  }

  lemma FirstIndentNone(block: Yaml)
    requires forall j :: 0 <= j < |Descendants(block)| ==> !IsContent(Descendants(block)[j])
    ensures FirstIndentOf(block) == ""
  {
  }

  /** The AtomicReference that the probe fills. */
  class Holder {
    var value: Option<string>

    constructor ()
      ensures value == None
    {
      value := None;
    }
  }

  /** The probe's visit(tree, indent): nothing once the holder is set; a content
      node other than the block records its prefix and is not descended into;
      any other node is descended into, children in order. */
  method ProbeVisit(y: Yaml, isBlock: bool, holder: Holder)
    modifies holder
    ensures old(holder.value).Some? ==> holder.value == old(holder.value)
    ensures old(holder.value).None? ==>
      holder.value == PrefixOf(FirstContent(if isBlock then Descendants(y) else Preorder(y)))
    decreases Size(y)
  {
    if holder.value.Some? {
      return;
    }
    if !isBlock && IsContent(y) {
      holder.value := Some(y.prefix);
      return;
    }
    var cs := Children(y);
    for i := 0 to |cs|
      invariant holder.value == PrefixOf(FirstContent(PreorderSeq(cs[..i])))
    {
      ProbeStep(cs, i);
      ChildSmaller(y, i);
      ProbeVisit(cs[i], false, holder);
    }
    assert cs[..|cs|] == cs;
    if !isBlock {
      SkipNonContent(y);
    }
  }

  /** The first content of the pre-order of one more child. */
  lemma ProbeStep(cs: seq<Yaml>, i: nat)
    requires i < |cs|
    ensures var before := PrefixOf(FirstContent(PreorderSeq(cs[..i])));
            PrefixOf(FirstContent(PreorderSeq(cs[..i + 1]))) ==
              if before.Some? then before else PrefixOf(FirstContent(Preorder(cs[i])))
  {
    assert cs[..i + 1][..i] == cs[..i];
    FirstContentAppend(PreorderSeq(cs[..i]), Preorder(cs[i]));
  }

  /** A node that is not content is passed over by the probe. */
  lemma SkipNonContent(y: Yaml)
    requires !IsContent(y)
    ensures FirstContent(Preorder(y)) == FirstContent(PreorderSeq(Children(y)))
  {
    FirstContentAppend([y], PreorderSeq(Children(y)));
  }

  /** firstIndent(yaml). */
  method FirstIndent(yaml: Yaml) returns (indent: string)
    ensures indent == FirstIndentOf(yaml)
  {
    var holder := new Holder();
    ProbeVisit(yaml, true, holder);
    indent := if holder.value.Some? then holder.value.value else "";
  }
}
