/** Deriving "ignored on server" and "new on server" from a finding's triage record. */
module ServerStatus {
  import opened Wrappers
  import opened Coverity

  datatype ServerState = ServerState(ignored: bool, isNew: bool)

  /** `mergeKeyToIssue.get(mergeKey)`. */
  function Lookup(index: map<string, ProjectIssue>, mergeKey: string): (r: Option<ProjectIssue>)
    ensures r.Some? <==> mergeKey in index
    ensures r.Some? ==> r.value == index[mergeKey]
  {
    if mergeKey in index then Some(index[mergeKey]) else None
  }

  /**
   * The classifications the pass means to treat as dismissed by triage. The source writes this
   * test as `classification in ['False Positive', 'Intentional']`, which JavaScript evaluates as
   * a property-key test on the array (see `InArrayLiteralAsWritten`); the model uses the
   * membership the two listed strings evidently intend.
   */
  function IsDismissedClassification(classification: string): (b: bool)
    ensures b <==> classification in {"False Positive", "Intentional"}
  {
    classification == "False Positive" || classification == "Intentional"
  }

  /**
   * The server state of a finding. An absent record is treated conservatively: not ignored and new,
   * so such a finding stays eligible for a new comment.
   */
  function Classify(record: Option<ProjectIssue>): (s: ServerState)
    ensures record.None? ==> !s.ignored && s.isNew
    ensures record.Some? ==> (s.isNew <==> record.value.firstSnapshotId == record.value.lastSnapshotId)
    ensures record.Some? ==>
      (s.ignored <==> record.value.action == "Ignore" || record.value.classification in {"False Positive", "Intentional"})
  {
    match record
    case None => ServerState(false, true)
    case Some(p) =>
      ServerState(p.action == "Ignore" || IsDismissedClassification(p.classification),
                  p.firstSnapshotId == p.lastSnapshotId)
  }

  /**
   * `key in ['False Positive', 'Intentional']` as JavaScript evaluates it: true when the array has a
   * property named `key`. A two-element array literal has the own keys "0", "1" and "length"; keys
   * inherited from `Array.prototype` are not modelled.
   */
  function InArrayLiteralAsWritten(key: string): (b: bool)
    ensures b <==> key in {"0", "1", "length"}
  {
    key == "0" || key == "1" || key == "length"
  }

  /** `Classify` with the classification test as written in the source. */
  function ClassifyAsWritten(record: Option<ProjectIssue>): (s: ServerState)
    ensures record.None? ==> !s.ignored && s.isNew
    ensures record.Some? ==> (s.isNew <==> record.value.firstSnapshotId == record.value.lastSnapshotId)
    ensures record.Some? ==>
      (s.ignored <==> record.value.action == "Ignore" || record.value.classification in {"0", "1", "length"})
  {
    match record
    case None => ServerState(false, true)
    case Some(p) =>
      ServerState(p.action == "Ignore" || InArrayLiteralAsWritten(p.classification),
                  p.firstSnapshotId == p.lastSnapshotId)
  }

  /** As written, neither dismissed classification ever counts as ignored. */
  lemma AsWrittenMissesDismissedClassifications(classification: string)
    requires IsDismissedClassification(classification)
    ensures !InArrayLiteralAsWritten(classification)
  {
    assert classification[0] != "0"[0] && classification[0] != "1"[0] && classification[0] != "length"[0];
  }

  /**
   * A counterexample: a record triaged as "False Positive" with action "Undecided" is ignored under
   * the intended test and not ignored as written.
   */
  lemma FalsePositiveNotIgnoredAsWritten()
    ensures var record := Some(ProjectIssue("Undecided", "False Positive", 1, 1));
      Classify(record).ignored && !ClassifyAsWritten(record).ignored
  {
    AsWrittenMissesDismissedClassifications("False Positive");
  }
}
