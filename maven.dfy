/** Accumulation of dependency-download failures (MavenDownloadingFailures):
    the two append overloads, and the data steps of warn that group the
    failures by group and artifact and choose which of a group to report. */
module MavenFailures {
  import opened Wrappers

  /** The coordinates a failure was raised for; only the group and artifact
      identifiers take part here. */
  datatype Coordinates = Coordinates(groupId: string, artifactId: string)

  /** One MavenDownloadingFailure: its message and the coordinates it failed on. */
  datatype Failure = Failure(message: string, failedOn: Coordinates)

  /** A MavenDownloadingFailures value; a null reference is None. */
  datatype Failures = Failures(failures: seq<Failure>)

  /** The key of warn's byGav map. */
  datatype GroupArtifact = GroupArtifact(groupId: string, artifactId: string)

  function FailuresOf(c: Option<Failures>): seq<Failure> {
    if c.Some? then c.value.failures else []
  }

  // ---------------------------------------------------------------------------
  // append
  // ---------------------------------------------------------------------------

  /** append(current, failure): a null `current` counts as the empty list; the
      failure goes last. */
  function AppendFailure(current: Option<Failures>, failure: Failure): (r: Failures)
    ensures |r.failures| == |FailuresOf(current)| + 1
    ensures r.failures[..|FailuresOf(current)|] == FailuresOf(current)
    ensures r.failures[|FailuresOf(current)|] == failure
  {
    Failures(FailuresOf(current) + [failure])
  }

  /** append(current, exceptions): both null gives the empty list, a null
      `exceptions` gives `current` itself, and otherwise the two lists are
      concatenated, a null `current` counting as empty. */
  function AppendAll(current: Option<Failures>, exceptions: Option<Failures>): (r: Failures)
    ensures current.None? && exceptions.None? ==> r.failures == []
    ensures current.Some? && exceptions.None? ==> r == current.value
    ensures |r.failures| == |FailuresOf(current)| + |FailuresOf(exceptions)|
    ensures r.failures[..|FailuresOf(current)|] == FailuresOf(current)
    ensures r.failures[|FailuresOf(current)|..] == FailuresOf(exceptions)
  {
    if current.None? && exceptions.None? then Failures([])
    else if exceptions.None? then current.value
    else Failures(FailuresOf(current) + exceptions.value.failures)
  }

  /** Appending one failure is appending the one-element list. */
  lemma AppendOneIsAppendAll(current: Option<Failures>, failure: Failure)
    ensures AppendFailure(current, failure) == AppendAll(current, Some(Failures([failure])))
  {
    var r := AppendAll(current, Some(Failures([failure])));
    assert r.failures == FailuresOf(current) + [failure];
  }

  /** Accumulating in either grouping gives the same failures in the same order. */
  lemma AppendAllAssociative(a: Option<Failures>, b: Option<Failures>, c: Option<Failures>)
    ensures AppendAll(Some(AppendAll(a, b)), c).failures == AppendAll(a, Some(AppendAll(b, c))).failures
  {
    var left := AppendAll(Some(AppendAll(a, b)), c).failures;
    var right := AppendAll(a, Some(AppendAll(b, c))).failures;
    assert left == FailuresOf(a) + FailuresOf(b) + FailuresOf(c) by {
      Concatenation(left, FailuresOf(a) + FailuresOf(b), FailuresOf(c));
      Concatenation(AppendAll(a, b).failures, FailuresOf(a), FailuresOf(b));
    }
    assert right == FailuresOf(a) + (FailuresOf(b) + FailuresOf(c)) by {
      Concatenation(right, FailuresOf(a), FailuresOf(b) + FailuresOf(c));
      Concatenation(AppendAll(b, c).failures, FailuresOf(b), FailuresOf(c));
    }
  }

  /** A sequence is the concatenation of its two parts. */
  lemma Concatenation(s: seq<Failure>, x: seq<Failure>, y: seq<Failure>)
    requires |s| == |x| + |y| && s[..|x|] == x && s[|x|..] == y
    ensures s == x + y
  {
    assert s == s[..|x|] + s[|x|..];
  }

  // ---------------------------------------------------------------------------
  // Grouping by group and artifact (warn, the byGav loop)
  // ---------------------------------------------------------------------------

  function KeyOf(f: Failure): GroupArtifact {
    GroupArtifact(f.failedOn.groupId, f.failedOn.artifactId)
  }

  /** The failures of a list that belong to the group `ga`, in list order. */
  function Bucket(fs: seq<Failure>, ga: GroupArtifact): (r: seq<Failure>)
    ensures |r| <= |fs|
    decreases |fs|
  {
    if fs == [] then []
    else Bucket(fs[..|fs| - 1], ga) + (if KeyOf(fs[|fs| - 1]) == ga then [fs[|fs| - 1]] else [])
  }

  /** A bucket holds failures of its own group only. */
  lemma {:induction false} BucketOfItsGroup(fs: seq<Failure>, ga: GroupArtifact)
    ensures forall k :: 0 <= k < |Bucket(fs, ga)| ==> KeyOf(Bucket(fs, ga)[k]) == ga
    decreases |fs|
  {
    if fs != [] {
      BucketOfItsGroup(fs[..|fs| - 1], ga);
    }
  }

  /** Every failure of the list is in the bucket of its own group. */
  lemma {:induction false} InItsBucket(fs: seq<Failure>, i: nat)
    requires i < |fs|
    ensures fs[i] in Bucket(fs, KeyOf(fs[i]))
    decreases |fs|
  {
    if i < |fs| - 1 {
      InItsBucket(fs[..|fs| - 1], i);
    }
  }

  /** A bucket is empty exactly when no failure of the list has its group. */
  lemma {:induction false} BucketEmpty(fs: seq<Failure>, ga: GroupArtifact)
    ensures Bucket(fs, ga) == [] <==> forall i :: 0 <= i < |fs| ==> KeyOf(fs[i]) != ga
    decreases |fs|
  {
    if fs != [] {
      BucketEmpty(fs[..|fs| - 1], ga);
      assert forall i :: 0 <= i < |fs| - 1 ==> fs[..|fs| - 1][i] == fs[i];
    }
  }

  /** The buckets of a list preserve its order: the bucket of `a + b` is the
      bucket of `a` followed by that of `b`. */
  lemma {:induction false} BucketAppend(a: seq<Failure>, b: seq<Failure>, ga: GroupArtifact)
    ensures Bucket(a + b, ga) == Bucket(a, ga) + Bucket(b, ga)
    decreases |b|
  {
    if b == [] {
      assert a + b == a;
    } else {
      var b' := b[..|b| - 1];
      assert (a + b)[..|a + b| - 1] == a + b';
      BucketAppend(a, b', ga);
    }
  }

  /** The byGav loop: every failure is added, in order, to the list of its
      (groupId, artifactId), which is created on first use. */
  method GroupByCoordinates(failures: seq<Failure>) returns (byGav: map<GroupArtifact, seq<Failure>>)
    ensures forall ga :: ga in byGav <==> Bucket(failures, ga) != []
    ensures forall ga :: ga in byGav ==> byGav[ga] == Bucket(failures, ga)
  {
    byGav := map[];
    for i := 0 to |failures|
      invariant forall ga :: ga in byGav <==> Bucket(failures[..i], ga) != []
      invariant forall ga :: ga in byGav ==> byGav[ga] == Bucket(failures[..i], ga)
    {
      var failure := failures[i];
      var ga := KeyOf(failure);
      var list := if ga in byGav then byGav[ga] else [];
      byGav := byGav[ga := list + [failure]];
      assert failures[..i + 1][..i] == failures[..i];
    }
    assert failures[..|failures|] == failures;
  }

  // ---------------------------------------------------------------------------
  // Choosing the failures to report for one group (warn)
  // ---------------------------------------------------------------------------

  /** The message that marks a failure as a skipped retry. */
  const RetryMarker := "Did not attempt to download because of a previous failure to retrieve from this repository"

  /** `part` occurs in `s` starting at index i. */
  predicate OccursAt(s: string, part: string, i: int) {
    0 <= i && i + |part| <= |s| && s[i..i + |part|] == part
  }

  /** String.contains. */
  predicate Contains(s: string, part: string) {
    exists i :: 0 <= i <= |s| && OccursAt(s, part, i)
  }

  predicate IsRetry(f: Failure) {
    Contains(f.message, RetryMarker)
  }

  /** The failures of a group that are not skipped retries, in order. */
  function WithoutRetries(bucket: seq<Failure>): (r: seq<Failure>)
    ensures |r| <= |bucket|
    ensures forall k :: 0 <= k < |r| ==> !IsRetry(r[k]) && r[k] in bucket
    ensures r == [] <==> forall k :: 0 <= k < |bucket| ==> IsRetry(bucket[k])
    decreases |bucket|
  {
    if bucket == [] then []
    else
      var rest := WithoutRetries(bucket[1..]);
      assert forall k :: 1 <= k < |bucket| ==> bucket[k] == bucket[1..][k - 1];
      if IsRetry(bucket[0]) then rest else [bucket[0]] + rest
  }

  /** exceptionsToAdd: the failures that are not skipped retries, unless every
      failure of the group is one, in which case the whole group. */
  function ExceptionsToAdd(bucket: seq<Failure>): (r: seq<Failure>)
    ensures r == [] <==> bucket == []
    ensures forall k :: 0 <= k < |r| ==> r[k] in bucket
    ensures (exists k :: 0 <= k < |bucket| && !IsRetry(bucket[k])) ==>
              forall k :: 0 <= k < |r| ==> !IsRetry(r[k])
    ensures (forall k :: 0 <= k < |bucket| ==> IsRetry(bucket[k])) ==> r == bucket
  {
    var withoutRetries := WithoutRetries(bucket);
    if withoutRetries != [] then withoutRetries else bucket
  }

  /** The filter keeps the group's order: filtering a list in two parts gives
      the filtered first part followed by the filtered rest. */
  lemma {:induction false} WithoutRetriesAppend(a: seq<Failure>, b: seq<Failure>)
    ensures WithoutRetries(a + b) == WithoutRetries(a) + WithoutRetries(b)
    decreases |a|
  {
    if a == [] {
      assert a + b == b;
    } else {
      assert (a + b)[0] == a[0];
      assert (a + b)[1..] == a[1..] + b;
      WithoutRetriesAppend(a[1..], b);
    }
  }

  /** The filter drops skipped retries only. */
  lemma {:induction false} WithoutRetriesKeeps(bucket: seq<Failure>, i: nat)
    requires i < |bucket| && !IsRetry(bucket[i])
    ensures bucket[i] in WithoutRetries(bucket)
    decreases |bucket|
  {
    if i > 0 {
      assert bucket[1..][i - 1] == bucket[i];
      WithoutRetriesKeeps(bucket[1..], i - 1);
    }
  }

  /** No failure is lost by warn: each one is reported with its group, or it is
      a skipped retry while its group holds a failure that is not one. */
  lemma ReportedOrSuperseded(failures: seq<Failure>, i: nat)
    requires i < |failures|
    ensures var chosen := ExceptionsToAdd(Bucket(failures, KeyOf(failures[i])));
            failures[i] in chosen ||
            (IsRetry(failures[i]) && exists k :: 0 <= k < |chosen| && !IsRetry(chosen[k]))
  {
    var bucket := Bucket(failures, KeyOf(failures[i]));
    InItsBucket(failures, i);
    var j :| 0 <= j < |bucket| && bucket[j] == failures[i];
    var without := WithoutRetries(bucket);
    if !IsRetry(failures[i]) {
      WithoutRetriesKeeps(bucket, j);
    } else if without != [] {
      assert ExceptionsToAdd(bucket) == without;
      assert !IsRetry(without[0]);
    } else {
      assert ExceptionsToAdd(bucket) == bucket;
    }
  }

  // ---------------------------------------------------------------------------
  // warn
  // ---------------------------------------------------------------------------

  /** What warn does before its tree walk: with no failures the document is
      returned as it is; without a resolution result it is marked with a single
      warning; otherwise the tree walk runs with the failures grouped. */
  datatype WarnStep =
    | Unchanged
    | NoResolutionResult
    | Walk(byGav: map<GroupArtifact, seq<Failure>>)

  method Warn(self: Failures, hasResolutionResult: bool) returns (step: WarnStep)
    ensures step == Unchanged <==> self.failures == []
    ensures step == NoResolutionResult <==> self.failures != [] && !hasResolutionResult
    ensures step.Walk? ==> forall ga :: (ga in step.byGav <==> Bucket(self.failures, ga) != [])
    ensures step.Walk? ==> forall ga :: ga in step.byGav ==> step.byGav[ga] == Bucket(self.failures, ga)
  {
    if self.failures == [] {
      return Unchanged;
    }
    if !hasResolutionResult {
      return NoResolutionResult;
    }
    var byGav := GroupByCoordinates(self.failures);
    step := Walk(byGav);
  }
}
