# YAML indentation pass and Maven download-failure lists, in Dafny

This project models two pieces of OpenRewrite.

**`IndentsVisitor` (rewrite-yaml).** This is the pass that normalises block indentation in a lossless YAML tree. Every node carries a *prefix*: the spaces, line breaks and `#` comments in front of it. The pass walks the tree depth first and rewrites the prefixes of sequence entries, mapping entries and documents. It passes the current column down the cursor chain as integer messages (`lastIndent`, `sequenceEntryIndent`). A `stop` message on the enclosing `Documents` cursor ends the work once the `stopAfter` node has been visited.

The model has five modules:
- `Prefixes` holds the string primitives:
  - `findIndent` is a loop method, proved against `IndentOf`.
  - `shift` and `indent` work on a `StringBuilder` class.
  - The two fixed regular expressions of `indentComments` are written out as the left-to-right matcher: `ReindentComments` for `\n\s*#` and `StripLeadingComment` for `^\s*#`.
  - `indentTo` is the function `IndentTo` and the method `Realign`.
- `YamlTree` holds the node datatype (Documents, Document, Mapping, MappingEntry, Sequence, SequenceEntry, Scalar, Other). It also holds the `firstIndent` probe, a recursive method that fills a holder object, proved against a pre-order search.
- `Cursors` holds the cursor chain (one frame per cursor: its value, its message map and its `stop` flag) and the `Cursor` class the visitor moves.
- `Indents` gives the walk twice:
  - as functions on values (`PreVisitSpec`, `VisitSpec`, `ChildrenSpec`, `VisitWithParentSpec`);
  - as the `IndentsVisitor` class, whose methods update the cursor in place and are proved to compute those functions.
- `IndentsProperties` proves what the pass promises:
  - the per-kind rules, and that the tree's shape never changes;
  - the stop gate;
  - that a visit writes messages only on its parent's cursor;
  - that sibling sequence entries share one base column;
  - what the baseline loop of `visit(tree, p, parent)` makes visible.

**`MavenDownloadingFailures` (rewrite-maven).** Module `MavenFailures` models:
- the two `append` overloads, with `null` modelled as `None`;
- the early return of `warn`;
- the loop that groups failures by group and artifact;
- the choice of which failures of a group to report. Skipped retries, whose message contains the "Did not attempt to download…" text, are dropped unless the whole group consists of them.

Source paths in the table below are relative to the repository root.

`indentTo` realigns comments to the prefix's existing indent (IndentsVisitor.java:125-126), not to the target column. So `IndentTo` realigns comments to `IndentOf(p)` and then shifts the final run to the column.

## Model

| member | source | states |
|---|---|---|
| Prefixes.IndentOf | rewrite-yaml/src/main/java/org/openrewrite/yaml/format/IndentsVisitor.java:166-175 | what findIndent computes: the number of characters after the last `\n` or `\r`, all of p when there is none; never more than \|p\|; IndentOfSpec and IndentOfUnique characterise it |
| Prefixes.IndentOfSpec | rewrite-yaml/src/main/java/org/openrewrite/yaml/format/IndentsVisitor.java:166-175 | the last IndentOf(p) characters hold no `\n`/`\r`, and the character before them, if any, is a line break |
| Prefixes.IndentOfUnique | rewrite-yaml/src/main/java/org/openrewrite/yaml/format/IndentsVisitor.java:166-175 | those two facts determine the count: any m with both properties is IndentOf(p) |
| Prefixes.IndentOfExtremes | rewrite-yaml/src/main/java/org/openrewrite/yaml/format/IndentsVisitor.java:166-175 | the count is \|p\| when p has no line break, and 0 when p ends with one |
| Prefixes.IndentOfAppend | rewrite-yaml/src/main/java/org/openrewrite/yaml/format/IndentsVisitor.java:166-175 | the count of a + b is the count of b when b holds a line break, otherwise the count of a plus \|b\| |
| Prefixes.FindIndent | rewrite-yaml/src/main/java/org/openrewrite/yaml/format/IndentsVisitor.java:166-175 | the loop that resets its counter at every line break returns IndentOf(p) |
| Prefixes.StringBuilder.Append | rewrite-yaml/src/main/java/org/openrewrite/yaml/format/IndentsVisitor.java:158-160 | the buffer gains the character at its end |
| Prefixes.StringBuilder.Delete | rewrite-yaml/src/main/java/org/openrewrite/yaml/format/IndentsVisitor.java:162 | delete(start, length) keeps the first `start` characters |
| Prefixes.Shifted | rewrite-yaml/src/main/java/org/openrewrite/yaml/format/IndentsVisitor.java:156-164 | the text shift leaves in the builder: `shift` spaces appended when positive, otherwise the last -shift characters removed; Shift and Indent are proved to compute it |
| Prefixes.Shift | rewrite-yaml/src/main/java/org/openrewrite/yaml/format/IndentsVisitor.java:156-164 | a positive shift appends that many spaces; otherwise the last -shift characters are deleted |
| Prefixes.Indent | rewrite-yaml/src/main/java/org/openrewrite/yaml/format/IndentsVisitor.java:150-154 | the result is the shifted copy: the text plus `shift` spaces, or, for a shift of zero or less, the prefix of the text that its last -shift characters complete |
| Prefixes.LeadRunSpec | rewrite-yaml/src/main/java/org/openrewrite/yaml/format/IndentsVisitor.java:138 | the leading run is all Java `\s` (space, tab, `\n`, VT, FF, `\r`) and is not followed by another such character |
| Prefixes.StripLeadingComment | rewrite-yaml/src/main/java/org/openrewrite/yaml/format/IndentsVisitor.java:141 | the result is a suffix of p; it differs from p exactly when p starts with a non-empty `\s` run followed by `#`; whenever such a `#` follows the run, the result starts with it |
| Prefixes.StripOnlySpaces | rewrite-yaml/src/main/java/org/openrewrite/yaml/format/IndentsVisitor.java:141 | only `\s` characters are removed |
| Prefixes.IndentComments | rewrite-yaml/src/main/java/org/openrewrite/yaml/format/IndentsVisitor.java:135-148 | a prefix without `#` comes back unchanged; at a Document only `^\s*#` is rewritten; elsewhere every `\n\s*#` is realigned to the indent |
| Prefixes.ReindentComments | rewrite-yaml/src/main/java/org/openrewrite/yaml/format/IndentsVisitor.java:138 | the replace-all of `\n\s*#` by a line feed, n spaces and `#`, as a left-to-right matcher; its properties are the lemmas in the rows below |
| Prefixes.NoCommentUnchanged | rewrite-yaml/src/main/java/org/openrewrite/yaml/format/IndentsVisitor.java:137-138 | with no `#` there is no match, so the replace-all is the identity |
| Prefixes.ReindentLength | rewrite-yaml/src/main/java/org/openrewrite/yaml/format/IndentsVisitor.java:138 | the replace-all either changes nothing or yields a text longer than n, since each replacement holds n spaces |
| Prefixes.ReindentAppend | rewrite-yaml/src/main/java/org/openrewrite/yaml/format/IndentsVisitor.java:138 | when b holds no `#`, the replace-all of a + b is that of a followed by b unchanged |
| Prefixes.NoLeadingCommentKept | rewrite-yaml/src/main/java/org/openrewrite/yaml/format/IndentsVisitor.java:138 | a text that does not start with `\s*#` still does not after the replace-all |
| Prefixes.ReindentIdempotent | rewrite-yaml/src/main/java/org/openrewrite/yaml/format/IndentsVisitor.java:138 | a second replace-all to the same column changes nothing more |
| Prefixes.ReindentKeepsContent | rewrite-yaml/src/main/java/org/openrewrite/yaml/format/IndentsVisitor.java:138 | the replace-all moves whitespace only: the non-`\s` characters survive, in order |
| Prefixes.ReindentKeepsTrailingRun | rewrite-yaml/src/main/java/org/openrewrite/yaml/format/IndentsVisitor.java:138 | with no `#` after the last line break, everything from that break on is kept as it is |
| Prefixes.CommentsKeepIndent | rewrite-yaml/src/main/java/org/openrewrite/yaml/format/IndentsVisitor.java:126 | with no `#` after the last line break, realigning comments to any column keeps the prefix's findIndent |
| Prefixes.IndentTo | rewrite-yaml/src/main/java/org/openrewrite/yaml/format/IndentsVisitor.java:120-123 | a prefix without `\n` is returned unchanged |
| Prefixes.Realign | rewrite-yaml/src/main/java/org/openrewrite/yaml/format/IndentsVisitor.java:120-133 | the method (findIndent's loop, indentComments, the StringBuilder shift) computes IndentTo |
| Prefixes.ReindentLongEnough | rewrite-yaml/src/main/java/org/openrewrite/yaml/format/IndentsVisitor.java:125-130 | the realigned text is at least findIndent(p) long, so the shift's delete never goes past its start |
| Prefixes.RealignedKeepsIndent | rewrite-yaml/src/main/java/org/openrewrite/yaml/format/IndentsVisitor.java:125-126 | realigning comments to the prefix's own indent keeps that indent, and the final run stays shorter than the whole text |
| Prefixes.ShiftedToColumn | rewrite-yaml/src/main/java/org/openrewrite/yaml/format/IndentsVisitor.java:127-130 | shifting by column - indent leaves exactly `column` characters after the last line break |
| Prefixes.IndentToColumn | rewrite-yaml/src/main/java/org/openrewrite/yaml/format/IndentsVisitor.java:120-133 | for a prefix with `\n` and no `#` after its last line break, findIndent(indentTo(p, c)) == c |
| Prefixes.IndentToGrow | rewrite-yaml/src/main/java/org/openrewrite/yaml/format/IndentsVisitor.java:125-130 | when c is at least the old indent, the result is the realigned prefix followed by c - indent spaces |
| Prefixes.IndentToTrim | rewrite-yaml/src/main/java/org/openrewrite/yaml/format/IndentsVisitor.java:125-130 | when c is below the old indent, exactly indent - c characters of the final run are removed, and none of them is a line break |
| Prefixes.TrimWithinRun | rewrite-yaml/src/main/java/org/openrewrite/yaml/format/IndentsVisitor.java:161-163 | a negative shift smaller than the indent removes characters of the final run only, and exactly that many |
| YamlTree.FirstContent | rewrite-yaml/src/main/java/org/openrewrite/yaml/format/IndentsVisitor.java:189 | the first node that is neither a Mapping nor a sequence entry, or None exactly when there is none |
| YamlTree.FirstContentAppend | rewrite-yaml/src/main/java/org/openrewrite/yaml/format/IndentsVisitor.java:180-195 | the first content of a + b is that of a when a has one, otherwise that of b |
| YamlTree.ProbeVisit | rewrite-yaml/src/main/java/org/openrewrite/yaml/format/IndentsVisitor.java:180-195 | a set holder is never changed; an empty one receives the prefix of the first content node in pre-order (the block itself excluded), or stays empty when there is none |
| YamlTree.FirstIndent | rewrite-yaml/src/main/java/org/openrewrite/yaml/format/IndentsVisitor.java:177-199 | firstIndent(block) returns FirstIndentOf(block) |
| YamlTree.FirstIndentMeaning | rewrite-yaml/src/main/java/org/openrewrite/yaml/format/IndentsVisitor.java:177-199 | FirstIndentOf(block) is the prefix of the first pre-order descendant that is neither a Mapping nor a sequence entry |
| YamlTree.FirstIndentNone | rewrite-yaml/src/main/java/org/openrewrite/yaml/format/IndentsVisitor.java:197-198 | it is "" when every descendant is a Mapping or a sequence entry |
| Cursors.Nearest | rewrite-yaml/src/main/java/org/openrewrite/yaml/format/IndentsVisitor.java:68 | getNearestMessage(key, default), searched from the current cursor towards the root; NearestIsNearest states what it returns |
| Cursors.NearestIsNearest | rewrite-yaml/src/main/java/org/openrewrite/yaml/format/IndentsVisitor.java:68 | getNearestMessage finds the value on the cursor nearest the current one, or the default when no cursor holds the key |
| Cursors.MessageOr | rewrite-yaml/src/main/java/org/openrewrite/yaml/format/IndentsVisitor.java:71 | getMessage(key, default) on one cursor: its own value for the key, or the default |
| Cursors.Put | rewrite-yaml/src/main/java/org/openrewrite/yaml/format/IndentsVisitor.java:75-81 | putMessage on one cursor keeps the number of cursors, their values and their stop flags |
| Cursors.FirstEnclosing | rewrite-yaml/src/main/java/org/openrewrite/yaml/format/IndentsVisitor.java:107 | the nearest cursor, the current one included, that holds a node of the kind, or None when there is none |
| Cursors.WithStopOnFirstEnclosingDocuments | rewrite-yaml/src/main/java/org/openrewrite/yaml/format/IndentsVisitor.java:107 | setting `stop` changes no cursor value and no message map |
| Cursors.PutMessages | rewrite-yaml/src/main/java/org/openrewrite/yaml/format/IndentsVisitor.java:75-81 | putMessage writes one key of one cursor's map and nothing else |
| Cursors.FirstEnclosingOfValues | rewrite-yaml/src/main/java/org/openrewrite/yaml/format/IndentsVisitor.java:107 | the enclosing search depends on the cursors' values only |
| Cursors.Cursor.Push | rewrite-yaml/src/main/java/org/openrewrite/yaml/format/IndentsVisitor.java:117 | a new cursor with no messages is pushed for the visited node |
| Cursors.Cursor.Pop | rewrite-yaml/src/main/java/org/openrewrite/yaml/format/IndentsVisitor.java:117 | the visited node's cursor is dropped |
| Cursors.Cursor.PutMessageAt | rewrite-yaml/src/main/java/org/openrewrite/yaml/format/IndentsVisitor.java:75 | putMessage on one cursor of the chain; nothing else changes |
| Cursors.Cursor.PutStopOnFirstEnclosingDocuments | rewrite-yaml/src/main/java/org/openrewrite/yaml/format/IndentsVisitor.java:107 | putMessageOnFirstEnclosing(Documents, "stop", true) |
| YamlTree.WithPrefix | rewrite-yaml/src/main/java/org/openrewrite/yaml/format/IndentsVisitor.java:73 | withPrefix keeps the node's identity, kind and children, sets the prefix, and returns the node itself when the prefix is unchanged |
| Indents.PreVisitThrows | rewrite-yaml/src/main/java/org/openrewrite/yaml/format/IndentsVisitor.java:86 | the cases where getParentOrThrow in preVisit has no cursor to return: a node directly under the root cursor that has a line break in its prefix (isUnindentedTopLevel, lines 100-101) or is a mapping entry |
| Indents.UnindentedTopLevel | rewrite-yaml/src/main/java/org/openrewrite/yaml/format/IndentsVisitor.java:99-102 | isUnindentedTopLevel: the parent or the grandparent cursor holds a Document |
| Indents.VisitThrows | rewrite-yaml/src/main/java/org/openrewrite/yaml/format/IndentsVisitor.java:112-118 | visiting a node from the root cursor reaches the getParentOrThrow exception of its preVisit |
| Indents.SequenceEntryRule | rewrite-yaml/src/main/java/org/openrewrite/yaml/format/IndentsVisitor.java:70-78 | the rule changes only the entry's prefix, and keeps the cursor values and stop flags |
| Indents.MappingEntryRule | rewrite-yaml/src/main/java/org/openrewrite/yaml/format/IndentsVisitor.java:79-81 | the rule changes only the entry's prefix, and keeps the cursor values and stop flags |
| Indents.InlineMappingEntryRule | rewrite-yaml/src/main/java/org/openrewrite/yaml/format/IndentsVisitor.java:85-94 | the rule changes only the entry's prefix, and keeps the cursor values and stop flags |
| Indents.PreVisitSpec | rewrite-yaml/src/main/java/org/openrewrite/yaml/format/IndentsVisitor.java:61-97 | preVisit rewrites at most the node's prefix, and changes no cursor value and no stop flag |
| Indents.PostVisitSpec | rewrite-yaml/src/main/java/org/openrewrite/yaml/format/IndentsVisitor.java:104-110 | postVisit touches stop flags only, and changes nothing unless the node is the stopAfter target |
| Indents.VisitSpec | rewrite-yaml/src/main/java/org/openrewrite/yaml/format/IndentsVisitor.java:112-118 | a visit gives back a chain with the same cursors |
| Indents.ChildrenSpec | rewrite-yaml/src/main/java/org/openrewrite/yaml/format/IndentsVisitor.java:117 | one result per child, and the same cursors |
| Indents.RebaselineChain | rewrite-yaml/src/main/java/org/openrewrite/yaml/format/IndentsVisitor.java:43-53 | each cursor is rebaselined on its own; the cursors stay the same |
| Indents.PreparedParent | rewrite-yaml/src/main/java/org/openrewrite/yaml/format/IndentsVisitor.java:42-57 | the baseline loop and then the parent's preVisit keep the parent's cursors |
| Indents.VisitWithParentSpec | rewrite-yaml/src/main/java/org/openrewrite/yaml/format/IndentsVisitor.java:40-59 | visit(tree, p, parent) keeps the parent's cursors, or reports the getParentOrThrow exception |
| Indents.IndentsVisitor.constructor | rewrite-yaml/src/main/java/org/openrewrite/yaml/format/IndentsVisitor.java:35-38 | the style's indent size and the stopAfter tree, with a root cursor |
| Indents.IndentsVisitor.PreVisit | rewrite-yaml/src/main/java/org/openrewrite/yaml/format/IndentsVisitor.java:61-97 | the method returns PreVisitSpec's node and leaves its chain on the cursor |
| Indents.IndentsVisitor.OwnLineStep | rewrite-yaml/src/main/java/org/openrewrite/yaml/format/IndentsVisitor.java:69-84 | the branches for a prefix with a line feed outside the top level compute PreVisitSpec |
| Indents.IndentsVisitor.SequenceEntryStep | rewrite-yaml/src/main/java/org/openrewrite/yaml/format/IndentsVisitor.java:70-78 | the sequence-entry branch, from the parent's `sequenceEntryIndent` or the nearest `lastIndent`, computes SequenceEntryRule |
| Indents.IndentsVisitor.MappingEntryStep | rewrite-yaml/src/main/java/org/openrewrite/yaml/format/IndentsVisitor.java:79-81 | the mapping-entry branch computes MappingEntryRule |
| Indents.IndentsVisitor.InlineMappingEntryStep | rewrite-yaml/src/main/java/org/openrewrite/yaml/format/IndentsVisitor.java:85-94 | the branch for a mapping entry with no line break before it computes InlineMappingEntryRule |
| Indents.IndentsVisitor.PostVisit | rewrite-yaml/src/main/java/org/openrewrite/yaml/format/IndentsVisitor.java:104-110 | the method leaves PostVisitSpec's chain on the cursor |
| Indents.IndentsVisitor.Visit | rewrite-yaml/src/main/java/org/openrewrite/yaml/format/IndentsVisitor.java:112-118 | visit returns VisitSpec's tree and restores the cursor to VisitSpec's chain |
| Indents.IndentsVisitor.VisitOpen | rewrite-yaml/src/main/java/org/openrewrite/yaml/format/IndentsVisitor.java:117 | push, preVisit, the children in order, rebuild, postVisit and pop compute VisitSpec |
| Indents.IndentsVisitor.VisitChildren | rewrite-yaml/src/main/java/org/openrewrite/yaml/format/IndentsVisitor.java:117 | the children, visited in order from the node's cursor, compute ChildrenSpec |
| Indents.IndentsVisitor.RestoreBaseline | rewrite-yaml/src/main/java/org/openrewrite/yaml/format/IndentsVisitor.java:42-53 | the loop from the parent up to the root leaves RebaselineChain(parent) on the cursor |
| Indents.IndentsVisitor.PrepareParent | rewrite-yaml/src/main/java/org/openrewrite/yaml/format/IndentsVisitor.java:42-57 | the baseline loop and the parent's preVisit compute PreparedParent, and fail exactly when it reports the exception; on failure the cursors keep what the baseline loop wrote |
| Indents.IndentsVisitor.VisitWithParent | rewrite-yaml/src/main/java/org/openrewrite/yaml/format/IndentsVisitor.java:40-59 | visit(tree, p, parent) computes VisitWithParentSpec, the exception included; when it throws, the cursors keep what the baseline loop and, if it ran, the parent's preVisit wrote |
| Indents.IndentsVisitor.VisitTree | rewrite-yaml/src/main/java/org/openrewrite/yaml/format/IndentsVisitor.java:112-118 | visit from the root cursor returns VisitSpec's tree, or None when getParentOrThrow throws |
| IndentsProperties.VisitKeepsShape | rewrite-yaml/src/main/java/org/openrewrite/yaml/format/IndentsVisitor.java:112-118 | a visit changes no identity, kind or child of the tree: only prefixes |
| IndentsProperties.ChildrenKeepShape | rewrite-yaml/src/main/java/org/openrewrite/yaml/format/IndentsVisitor.java:117 | the same holds for a node's children |
| IndentsProperties.StopFreezes | rewrite-yaml/src/main/java/org/openrewrite/yaml/format/IndentsVisitor.java:63-65 | once `stop` is in reach, preVisit, visit and every child visit return their nodes and the chain unchanged |
| IndentsProperties.ChildrenWhenStopped | rewrite-yaml/src/main/java/org/openrewrite/yaml/format/IndentsVisitor.java:114-116 | once `stop` is in reach, the children are returned unchanged |
| IndentsProperties.StopAfterTarget | rewrite-yaml/src/main/java/org/openrewrite/yaml/format/IndentsVisitor.java:105-108 | after the stopAfter node is visited, the nearest enclosing Documents cursor holds `stop`, so the chain is stopped |
| IndentsProperties.NoTargetNoStop | rewrite-yaml/src/main/java/org/openrewrite/yaml/format/IndentsVisitor.java:105-108 | without a stopAfter tree no `stop` flag is ever set |
| IndentsProperties.ChildrenNoStop | rewrite-yaml/src/main/java/org/openrewrite/yaml/format/IndentsVisitor.java:105-108 | the same holds for a node's children |
| IndentsProperties.PreVisitWritesNearby | rewrite-yaml/src/main/java/org/openrewrite/yaml/format/IndentsVisitor.java:61-97 | preVisit writes messages on the current cursor and its parent only |
| IndentsProperties.PreVisitKeepsAncestors | rewrite-yaml/src/main/java/org/openrewrite/yaml/format/IndentsVisitor.java:61-97 | preVisit of a pushed node leaves every cursor above that node's parent as it was |
| IndentsProperties.VisitMessages | rewrite-yaml/src/main/java/org/openrewrite/yaml/format/IndentsVisitor.java:117 | after a visit the cursors up to the parent hold what the children's visits left there |
| IndentsProperties.VisitKeepsAncestors | rewrite-yaml/src/main/java/org/openrewrite/yaml/format/IndentsVisitor.java:112-118 | a visit leaves the messages of every cursor above the node's parent as they were |
| IndentsProperties.VisitWritesParentOnly | rewrite-yaml/src/main/java/org/openrewrite/yaml/format/IndentsVisitor.java:112-118 | after a visit that is not stopped, every message map up to the parent is what the node's own preVisit left there: the children's visits and postVisit change none of them |
| IndentsProperties.ChildrenWriteOwnOnly | rewrite-yaml/src/main/java/org/openrewrite/yaml/format/IndentsVisitor.java:117 | the children's visits change only the messages of their parent's own cursor |
| IndentsProperties.SequenceRuleColumn | rewrite-yaml/src/main/java/org/openrewrite/yaml/format/IndentsVisitor.java:73 | the sequence-entry rule moves the entry to column base + indentSize (a prefix with `\n` and no `#` after its last line break) |
| IndentsProperties.SequenceRuleMessages | rewrite-yaml/src/main/java/org/openrewrite/yaml/format/IndentsVisitor.java:75-78 | the parent records `sequenceEntryIndent` = base and `lastIndent` = base + \|firstIndent(block)\| + 1, with no indentSize term; no other cursor changes |
| IndentsProperties.SequenceRuleRecordsBase | rewrite-yaml/src/main/java/org/openrewrite/yaml/format/IndentsVisitor.java:75 | the parent then holds the base as its `sequenceEntryIndent` |
| IndentsProperties.MappingRuleColumn | rewrite-yaml/src/main/java/org/openrewrite/yaml/format/IndentsVisitor.java:80 | a mapping entry on a line of its own moves to lastIndent + indentSize |
| IndentsProperties.MappingRuleMessages | rewrite-yaml/src/main/java/org/openrewrite/yaml/format/IndentsVisitor.java:81 | that column becomes the entry's own `lastIndent`, the one its descendants see first; no other cursor changes |
| IndentsProperties.InlineRuleKeepsIndent | rewrite-yaml/src/main/java/org/openrewrite/yaml/format/IndentsVisitor.java:85-94 | the rule for a mapping entry that has no line of its own never changes the entry's indent |
| IndentsProperties.InlineRuleMessages | rewrite-yaml/src/main/java/org/openrewrite/yaml/format/IndentsVisitor.java:85-94 | under a sequence entry the entry is not rewritten, and its own cursor records `lastIndent` = indent + indentSize; elsewhere the chain is unchanged |
| IndentsProperties.TopLevelKeepsIndent | rewrite-yaml/src/main/java/org/openrewrite/yaml/format/IndentsVisitor.java:99-102 | a node whose parent or grandparent is a Document keeps the indent of its prefix, whatever its kind |
| IndentsProperties.DocumentStripsLeadingSpace | rewrite-yaml/src/main/java/org/openrewrite/yaml/format/IndentsVisitor.java:82-84 | a Document on a line of its own loses only the whitespace before a leading comment, and its chain is unchanged |
| IndentsProperties.OtherKindsUntouched | rewrite-yaml/src/main/java/org/openrewrite/yaml/format/IndentsVisitor.java:69-84 | other kinds, and every node once `stop` is in reach, come back from preVisit unchanged with the chain unchanged |
| IndentsProperties.EntryColumn | rewrite-yaml/src/main/java/org/openrewrite/yaml/format/IndentsVisitor.java:71-73 | a visited sequence entry on a line of its own gets indentTo(prefix, base + indentSize), where base is its parent's `sequenceEntryIndent` or else the nearest `lastIndent` |
| IndentsProperties.EntryKeepsBase | rewrite-yaml/src/main/java/org/openrewrite/yaml/format/IndentsVisitor.java:71-75 | after the entry's visit its parent yields the same base, so later sibling entries share the column |
| IndentsProperties.ChildrenKeepBase | rewrite-yaml/src/main/java/org/openrewrite/yaml/format/IndentsVisitor.java:71-75 | visiting a sequence's entries in order (each on a line of its own, no stopAfter target) leaves the base every entry computes as it was and sets no stop |
| IndentsProperties.SiblingEntriesShareColumn | rewrite-yaml/src/main/java/org/openrewrite/yaml/format/IndentsVisitor.java:70-78 | every entry of one sequence on a line of its own gets indentTo(prefix, base + indentSize) for the same base, the one the sequence's cursor gives, whatever its earlier siblings and their children wrote |
| IndentsProperties.BaselineSeenFromParent | rewrite-yaml/src/main/java/org/openrewrite/yaml/format/IndentsVisitor.java:43-53 | after the baseline loop, the nearest qualifying cursor decides the `lastIndent` seen from the parent: its indent, or the value it already held |
| IndentsProperties.BaselineDefault | rewrite-yaml/src/main/java/org/openrewrite/yaml/format/IndentsVisitor.java:43-53 | with no such cursor the default is seen |
| MavenFailures.AppendFailure | rewrite-maven/src/main/java/org/openrewrite/maven/MavenDownloadingFailures.java:38-46 | a null list counts as empty; the old failures come first, in order, and the failure goes last |
| MavenFailures.AppendAll | rewrite-maven/src/main/java/org/openrewrite/maven/MavenDownloadingFailures.java:48-61 | both null gives the empty list; a null `exceptions` gives `current` itself; otherwise the concatenation, whose length is the sum |
| MavenFailures.AppendOneIsAppendAll | rewrite-maven/src/main/java/org/openrewrite/maven/MavenDownloadingFailures.java:38-61 | appending one failure is appending the one-element list |
| MavenFailures.AppendAllAssociative | rewrite-maven/src/main/java/org/openrewrite/maven/MavenDownloadingFailures.java:48-61 | accumulating in either grouping gives the same failures in the same order |
| MavenFailures.Bucket | rewrite-maven/src/main/java/org/openrewrite/maven/MavenDownloadingFailures.java:72-76 | byGav.get(ga): the failures of that group and artifact, in list order; never longer than the list |
| MavenFailures.BucketOfItsGroup | rewrite-maven/src/main/java/org/openrewrite/maven/MavenDownloadingFailures.java:72-76 | a group's list holds failures of that group only |
| MavenFailures.InItsBucket | rewrite-maven/src/main/java/org/openrewrite/maven/MavenDownloadingFailures.java:72-76 | every failure is in the list of its own (groupId, artifactId) |
| MavenFailures.BucketEmpty | rewrite-maven/src/main/java/org/openrewrite/maven/MavenDownloadingFailures.java:72-76 | a group's list is empty exactly when no failure has that group |
| MavenFailures.BucketAppend | rewrite-maven/src/main/java/org/openrewrite/maven/MavenDownloadingFailures.java:72-76 | grouping keeps the original order: the list for a + b is the list for a followed by that for b |
| MavenFailures.GroupByCoordinates | rewrite-maven/src/main/java/org/openrewrite/maven/MavenDownloadingFailures.java:72-76 | the computeIfAbsent loop yields a key for exactly the groups that occur, each mapped to its failures in order |
| MavenFailures.WithoutRetries | rewrite-maven/src/main/java/org/openrewrite/maven/MavenDownloadingFailures.java:98-100 | the filtered list holds members of the group that are not skipped retries, and is empty exactly when all are |
| MavenFailures.WithoutRetriesKeeps | rewrite-maven/src/main/java/org/openrewrite/maven/MavenDownloadingFailures.java:98-100 | every failure that is not a skipped retry survives the filter |
| MavenFailures.WithoutRetriesAppend | rewrite-maven/src/main/java/org/openrewrite/maven/MavenDownloadingFailures.java:98-100 | the filter keeps the group's order |
| MavenFailures.ExceptionsToAdd | rewrite-maven/src/main/java/org/openrewrite/maven/MavenDownloadingFailures.java:101-106 | the choice is empty exactly when the group is; with any real failure it holds no skipped retry; when all are retries it is the whole group |
| MavenFailures.ReportedOrSuperseded | rewrite-maven/src/main/java/org/openrewrite/maven/MavenDownloadingFailures.java:98-106 | each failure is reported with its group, or it is a skipped retry and its group reports a failure that is not one |
| MavenFailures.Warn | rewrite-maven/src/main/java/org/openrewrite/maven/MavenDownloadingFailures.java:63-76 | no failures leaves the document unchanged; no resolution result gives the single warning; otherwise the tree walk gets the grouped failures |

## Left out

- The XML walk of `warn` (MavenDownloadingFailures.java:78-114) is left out, with everything it calls: the tag matchers, `getChildValue`, `findDependencies`, `Scope.fromName`, `Markup.warn` and `sanitizeStackTrace`. Their code is not part of this model. `Warn` stops where that walk would start, and the loop that adds one warning per chosen failure (:107-109) is not modelled.
- MavenFailures.Warn: the lookup of the `MavenResolutionResult` marker is a boolean parameter, because markers are not part of this model.
- The MavenDownloadingFailure class is not part of this model. A failure is its message and its coordinates; the stack trace and the other fields are left out.
- The internals of `Cursor`, `YamlIsoVisitor` and `IndentsStyle` are modelled abstractly: a chain of frames with nearest-ancestor lookup, and an `indentSize` parameter. The base visitor's child order is taken to be document order: a mapping entry's key before its value, entries in order. `stopAfter.isScope` is equality of node identities.
- Indents.IndentsVisitor.PreVisit, Visit and VisitOpen require that `getParentOrThrow` does not throw. That exception can only occur for a node directly under the root cursor, and `VisitTree` and `VisitWithParent` model it as `None`.
- Prefixes.Shift and Prefixes.Indent require that a negative shift deletes no more characters than the buffer holds. Java's `StringBuilder.delete` throws past that point; `ReindentLongEnough` proves that `indentTo` never gets there.
- Only the two fixed patterns of `indentComments` are written out. General regular-expression matching is not modelled.
- The final `equals` check of `indentComments` (IndentsVisitor.java:143-145) returns an equal string either way. On values it cannot be told apart, so `IndentComments` returns the rewritten text.
- Messages are natural numbers. Every value the pass stores is a sum of counts and lengths, so Java's `int` never goes negative and never overflows for real prefixes. 32-bit wrap-around is not modelled.
- Null trees passed to `visit` are not modelled, nor is `super.postVisit`, which returns its node.
- Neither idempotence of the whole pass nor "comments land at the target column" is stated, because the code does not promise either. `indentTo` realigns comments to the old indent, so a second run can move them again.
- Prefixes.IndentOf, Prefixes.FindIndent and Indents.SequenceEntryRule count characters as Unicode scalar values, while Java's `toCharArray()` and `length()` (IndentsVisitor.java:78, 168) count UTF-16 code units, because Dafny strings are sequences of scalar values. A character outside the Basic Multilingual Plane, such as U+1F600, counts 1 in the model and 2 in Java. The indents and the stored `lastIndent` therefore agree with Java only for prefixes within that plane.
- IndentsProperties.SiblingEntriesShareColumn and IndentsProperties.ChildrenKeepBase are stated without a stopAfter target. With one, the entries after the target are returned unchanged instead (StopFreezes).
- Tabs, mixed whitespace and `\r\n` line breaks are modelled only as far as `findIndent` and Java's `\s` literally count them.
- `UpdateMovedRecipe` (rewrite-java) holds only recipe metadata and is not part of this model.
