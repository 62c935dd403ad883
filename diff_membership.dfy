/** `isInDiff`: whether a finding's location lies within a hunk of the pull request's diff. */
module DiffMembership {
  import opened Seqs
  import opened Coverity

  /** The filter step of `isInDiff`: this hunk starts at or before `line`. */
  function StartsAtOrBefore(line: int): Hunk -> bool
  {
    (h: Hunk) => h.firstLine <= line
  }

  /** The `some` step of `isInDiff`: this hunk ends at or after `line`. */
  function EndsAtOrAfter(line: int): Hunk -> bool
  {
    (h: Hunk) => line <= h.lastLine
  }

  /**
   * `diffHunks.filter(firstLine <= line).some(line <= lastLine)` when the path has hunks,
   * false when it has none. The result is exactly "some hunk of the file covers the line".
   */
  function IsInDiff(path: string, line: int, diff: DiffMap): (b: bool)
    ensures path !in diff ==> !b
    ensures path in diff ==>
      (b <==> exists j :: 0 <= j < |diff[path]| && Covers(diff[path][j], line))
  {
    if path !in diff then false
    else
      FilterThenSome(diff[path], line);
      AnySatisfies(Filter(diff[path], StartsAtOrBefore(line)), EndsAtOrAfter(line))
  }

  /** Hunk `h` covers `line`. */
  predicate Covers(h: Hunk, line: int)
  {
    h.firstLine <= line <= h.lastLine
  }

  /** Filtering on the start and then asking for some end finds exactly the covering hunks. */
  lemma {:induction false} FilterThenSome(hunks: seq<Hunk>, line: int)
    ensures AnySatisfies(Filter(hunks, StartsAtOrBefore(line)), EndsAtOrAfter(line))
        <==> exists j :: 0 <= j < |hunks| && Covers(hunks[j], line)
  {
    var started := Filter(hunks, StartsAtOrBefore(line));
    if AnySatisfies(started, EndsAtOrAfter(line)) {
      var k :| 0 <= k < |started| && EndsAtOrAfter(line)(started[k]);
      assert StartsAtOrBefore(line)(started[k]);
      var j :| 0 <= j < |hunks| && hunks[j] == started[k];
      assert Covers(hunks[j], line);
    }
    if j :| 0 <= j < |hunks| && Covers(hunks[j], line) {
      assert StartsAtOrBefore(line)(hunks[j]);
      var k :| 0 <= k < |started| && started[k] == hunks[j];
      assert EndsAtOrAfter(line)(started[k]);
    }
  }
}
