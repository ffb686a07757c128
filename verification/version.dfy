/** `Repo#version`: the plugin version is read from `index.php` with the
    Ruby regular expression `/Version: (.*)Author:/m` and stripped. Under `/m`
    the dot also matches line breaks, and `.*` is greedy, so the capture runs
    from the first "Version: " to the LAST "Author:" after it. */
module VersionMarker {
  import opened Platform

  const VersionLabel: string := "Version: "
  const AuthorLabel: string := "Author:"

  predicate OccursAt(s: string, pat: string, i: nat) {
    i + |pat| <= |s| && s[i..i + |pat|] == pat
  }

  /** The first position at or after `from` where `pat` occurs. */
  function FirstOccurrence(s: string, pat: string, from: nat): (r: Option<nat>)
    requires |pat| > 0
    ensures r.Some? ==> from <= r.value && OccursAt(s, pat, r.value)
    ensures r.Some? ==> forall k: nat :: from <= k < r.value ==> !OccursAt(s, pat, k)
    ensures r.None? ==> forall k: nat :: from <= k ==> !OccursAt(s, pat, k)
    decreases |s| - from
  {
    if from + |pat| > |s| then None
    else if OccursAt(s, pat, from) then Some(from)
    else FirstOccurrence(s, pat, from + 1)
  }

  /** The last position at or after `from` where `pat` occurs. */
  function LastOccurrence(s: string, pat: string, from: nat): (r: Option<nat>)
    requires |pat| > 0
    ensures r.Some? ==> from <= r.value && OccursAt(s, pat, r.value)
    ensures r.Some? ==> forall k: nat :: r.value < k ==> !OccursAt(s, pat, k)
    ensures r.None? ==> forall k: nat :: from <= k ==> !OccursAt(s, pat, k)
    decreases |s| - from
  {
    if from + |pat| > |s| then None
    else match LastOccurrence(s, pat, from + 1)
      case Some(j) => Some(j)
      case None => if OccursAt(s, pat, from) then Some(from) else None
  }

  /** The regular expression matches `s` with "Version: " at `i` and
      "Author:" at `j`, the capture group being `s[i + 9..j]`. */
  ghost predicate MatchesAt(s: string, i: nat, j: nat) {
    OccursAt(s, VersionLabel, i) && i + |VersionLabel| <= j && OccursAt(s, AuthorLabel, j)
  }

  /** Ruby's `match`: the first "Version: ", and the last "Author:" that
      starts after it. */
  function Match(s: string): Option<(nat, nat)> {
    match FirstOccurrence(s, VersionLabel, 0)
    case None => None
    case Some(i) =>
      match LastOccurrence(s, AuthorLabel, i + |VersionLabel|)
      case None => None
      case Some(j) => Some((i, j))
  }

  /** `Match` finds the leftmost place where the pattern matches and, for
      that start, the longest capture (greedy `.*`); it finds none exactly
      when the pattern matches nowhere. */
  lemma MatchIsLeftmostLongest(s: string)
    ensures var r := Match(s);
      r.Some? ==> MatchesAt(s, r.value.0, r.value.1)
    ensures var r := Match(s);
      r.Some? ==> forall i: nat, j: nat :: MatchesAt(s, i, j) ==> r.value.0 < i || (r.value.0 == i && j <= r.value.1)
    ensures Match(s).None? <==> forall i: nat, j: nat :: !MatchesAt(s, i, j)
  {
    match FirstOccurrence(s, VersionLabel, 0)
    case None =>
    case Some(i) =>
      match LastOccurrence(s, AuthorLabel, i + |VersionLabel|)
      case None =>
      case Some(j) => assert MatchesAt(s, i, j);
  }

  /** `index_file.match(/Version: (.*)Author:/m)[1].strip`: when there is no
      match, `match` yields nil and `[1]` raises. */
  function Version(indexFile: string): Outcome<string> {
    match Match(indexFile)
    case None => Raised(NilMatch)
    case Some((i, j)) => Returned(Strip(indexFile[i + |VersionLabel|..j]))
  }

  /** `Repo#version`: `File.read` of `index.php` raises when the file is
      missing; `indexFile` is its content, or None when it does not exist. */
  function ReadVersion(indexFile: Option<string>): Outcome<string> {
    match indexFile
    case None => Raised(NoSuchEntry("index.php"))
    case Some(text) => Version(text)
  }

  /** Reading the version raises `Errno::ENOENT` when `index.php` is missing
      and `NoMethodError` exactly when the pattern matches nowhere in it;
      otherwise it is the stripped capture of the leftmost-longest match. */
  lemma ReadVersionOutcome(indexFile: Option<string>)
    ensures indexFile.None? ==> ReadVersion(indexFile) == Raised(NoSuchEntry("index.php"))
    ensures indexFile.Some? ==>
      (ReadVersion(indexFile) == Raised(NilMatch) <==> forall i: nat, j: nat :: !MatchesAt(indexFile.value, i, j))
    ensures indexFile.Some? && ReadVersion(indexFile).Returned? ==>
      exists i: nat, j: nat :: && Match(indexFile.value) == Some((i, j)) && MatchesAt(indexFile.value, i, j)
                              && ReadVersion(indexFile).value == Strip(indexFile.value[i + |VersionLabel|..j])
  {
    if indexFile.Some? {
      MatchIsLeftmostLongest(indexFile.value);
    }
  }

  /** The greedy capture swallows every "Author:" but the last: when the text
      after the first "Version: " holds two "Author:" markers, the version
      read contains the first of them. */
  lemma GreedyCaptureKeepsEarlierAuthor(s: string, i: nat, j1: nat, j2: nat)
    requires OccursAt(s, VersionLabel, i) && forall k: nat :: k < i ==> !OccursAt(s, VersionLabel, k)
    requires i + |VersionLabel| <= j1 && j1 + |AuthorLabel| <= j2
    requires OccursAt(s, AuthorLabel, j1) && OccursAt(s, AuthorLabel, j2)
    ensures Match(s).Some? && Match(s).value.0 == i
    ensures var c := s[i + |VersionLabel|..Match(s).value.1];
      OccursAt(c, AuthorLabel, j1 - (i + |VersionLabel|))
  {
    MatchIsLeftmostLongest(s);
    assert MatchesAt(s, i, j2);
    var (i0, j) := Match(s).value;
    assert MatchesAt(s, i, j1);
    assert i0 == i;
    assert j2 <= j;
    var c := s[i + |VersionLabel|..j];
    var d := j1 - (i + |VersionLabel|);
    assert c[d..d + |AuthorLabel|] == s[j1..j1 + |AuthorLabel|];
  }
}
