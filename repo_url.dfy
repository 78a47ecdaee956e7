/**
 * Recognition of a GitHub repository URL by the one pattern the release
 * checker uses, `/github.com[/:]([^/]+)\/([^/]+)(?:.git)?/i`, and the
 * removal of a trailing `.git` from the repository name.
 *
 * The pattern is unanchored, so the first position at which it matches
 * wins.  Without the `u` flag the pattern runs over UTF-16 code units, and
 * under the `i` flag only ASCII letters fold case.  The unescaped `.`
 * matches one code unit that is not a line terminator: a character outside
 * the Basic Multilingual Plane is two code units, the second of which
 * never matches the `c` after the dot, so such a character never matches
 * there.  The
 * greedy `[^/]+` groups take whole runs of non-`/` characters: the owner
 * run must be followed by `/`, and the optional `(?:.git)?` never shortens
 * the repository run.
 */
module RepoUrl {
  import opened Wrappers

  /** A match: where it starts, and its two capture groups. */
  datatype RepoMatch = RepoMatch(start: nat, owner: string, repo: string)

  predicate IsLineTerminator(c: char) {
    c == '\n' || c == '\r' || c == '\U{2028}' || c == '\U{2029}'
  }

  /** The character `c` at the position of the pattern's `.`: one UTF-16
      code unit, and not a line terminator. */
  predicate DotMatches(c: char) {
    c as int < 0x1_0000 && !IsLineTerminator(c)
  }

  /** `c` matches the lower-case pattern character `p` case-insensitively. */
  predicate FoldsTo(c: char, p: char) {
    c == p || ('a' <= p <= 'z' && c as int == p as int - 32)
  }

  /** The literal `lit` (lower case) occurs in `s` at `i`, ignoring case. */
  predicate LiteralAt(s: string, i: nat, lit: string) {
    i + |lit| <= |s| && forall k :: 0 <= k < |lit| ==> FoldsTo(s[i + k], lit[k])
  }

  predicate NoSlash(t: string) {
    forall k :: 0 <= k < |t| ==> t[k] != '/'
  }

  /**
   * What it means for the pattern to match `s` at `i` with capture groups
   * `owner` and `repo`, written out from the pattern itself.
   */
  predicate MatchesAt(s: string, i: nat, owner: string, repo: string) {
    var o := i + 11;
    var r := o + |owner| + 1;
    && r + |repo| <= |s|
    && LiteralAt(s, i, "github") && DotMatches(s[i + 6]) && LiteralAt(s, i + 7, "com")
    && (s[i + 10] == '/' || s[i + 10] == ':')
    && owner != [] && NoSlash(owner) && s[o..o + |owner|] == owner && s[o + |owner|] == '/'
    && repo != [] && NoSlash(repo) && s[r..r + |repo|] == repo
    && (r + |repo| == |s| || s[r + |repo|] == '/')
  }

  /** End of the run of non-`/` characters that starts at `j`. */
  function RunEnd(s: string, j: nat): (e: nat)
    requires j <= |s|
    ensures j <= e <= |s|
    ensures NoSlash(s[j..e])
    ensures e < |s| ==> s[e] == '/'
    decreases |s| - j
  {
    if j == |s| || s[j] == '/' then j
    else
      var e := RunEnd(s, j + 1);
      assert s[j..e] == [s[j]] + s[j + 1..e];
      e
  }

  /** The scanner's attempt to match at position `i`. */
  function MatchAt(s: string, i: nat): (m: Option<RepoMatch>)
    requires i <= |s|
    ensures m.Some? ==> m.value.start == i && MatchesAt(s, i, m.value.owner, m.value.repo)
  {
    if i + 11 <= |s| && LiteralAt(s, i, "github") && DotMatches(s[i + 6])
       && LiteralAt(s, i + 7, "com") && (s[i + 10] == '/' || s[i + 10] == ':')
    then
      var ownerEnd := RunEnd(s, i + 11);
      if i + 11 < ownerEnd < |s| then
        var repoEnd := RunEnd(s, ownerEnd + 1);
        if ownerEnd + 1 < repoEnd then
          Some(RepoMatch(i, s[i + 11..ownerEnd], s[ownerEnd + 1..repoEnd]))
        else None
      else None
    else None
  }

  /** The leftmost match that starts at `i` or later. */
  function FindMatchFrom(s: string, i: nat): (m: Option<RepoMatch>)
    requires i <= |s|
    ensures m.Some? ==> i <= m.value.start <= |s|
    decreases |s| - i
  {
    match MatchAt(s, i)
    case Some(r) => Some(r)
    case None => if i == |s| then None else FindMatchFrom(s, i + 1)
  }

  /** What the search returns is the scanner's match at its start. */
  lemma {:induction false} FindMatchFromFound(s: string, i: nat)
    requires i <= |s|
    ensures var m := FindMatchFrom(s, i);
            m.Some? ==> MatchAt(s, m.value.start) == m
    decreases |s| - i
  {
    if MatchAt(s, i).None? && i < |s| {
      FindMatchFromFound(s, i + 1);
    }
  }

  /** The search finds the first position from `i` where the scanner
      matches: nothing matches before it, and nothing at all when it
      finds nothing. */
  lemma {:induction false} FindMatchFromIsFirst(s: string, i: nat)
    requires i <= |s|
    ensures var m := FindMatchFrom(s, i);
            forall j :: i <= j <= |s| && (m.None? || j < m.value.start) ==> MatchAt(s, j).None?
    decreases |s| - i
  {
    if MatchAt(s, i).None? && i < |s| {
      FindMatchFromIsFirst(s, i + 1);
    }
  }

  /** `repoUrl.match(pattern)`: the leftmost match, if any. */
  function MatchRepoUrl(url: string): Option<RepoMatch> {
    FindMatchFrom(url, 0)
  }

  /** `repo.replace(/\.git$/, '')`. */
  function StripGitSuffix(repo: string): (r: string)
    ensures repo == r + ".git" || (r == repo && !(|repo| >= 4 && repo[|repo| - 4..] == ".git"))
  {
    if |repo| >= 4 && repo[|repo| - 4..] == ".git" then repo[..|repo| - 4] else repo
  }

  lemma {:induction false} RunEndAt(s: string, j: nat, e: nat)
    requires j <= e <= |s|
    requires NoSlash(s[j..e]) && (e == |s| || s[e] == '/')
    ensures RunEnd(s, j) == e
    decreases e - j
  {
    if j < e {
      assert s[j..e][0] == s[j];
      assert s[j + 1..e] == s[j..e][1..];
      RunEndAt(s, j + 1, e);
    }
  }

  /** The scanner finds every match the pattern describes, with exactly
      its groups. */
  lemma MatchAtComplete(s: string, i: nat, owner: string, repo: string)
    requires i <= |s|
    requires MatchesAt(s, i, owner, repo)
    ensures MatchAt(s, i) == Some(RepoMatch(i, owner, repo))
  {
    var o := i + 11;
    var r := o + |owner| + 1;
    RunEndAt(s, o, o + |owner|);
    RunEndAt(s, r, r + |repo|);
  }

  /** No match at all exactly when no position satisfies the pattern. */
  lemma NoMatchIffNoPosition(url: string)
    ensures MatchRepoUrl(url).None? <==>
            forall i, owner, repo :: 0 <= i <= |url| ==> !MatchesAt(url, i, owner, repo)
  {
    FindMatchFromFound(url, 0);
    FindMatchFromIsFirst(url, 0);
    if MatchRepoUrl(url).None? {
      forall i, owner, repo | 0 <= i <= |url| && MatchesAt(url, i, owner, repo)
        ensures false
      {
        MatchAtComplete(url, i, owner, repo);
      }
    }
  }

  /** A match found is the pattern's leftmost one, and its groups are
      non-empty and free of `/`. */
  lemma MatchIsLeftmost(url: string)
    requires MatchRepoUrl(url).Some?
    ensures var m := MatchRepoUrl(url).value;
            && MatchesAt(url, m.start, m.owner, m.repo)
            && m.owner != [] && NoSlash(m.owner) && m.repo != [] && NoSlash(m.repo)
            && forall j, owner, repo :: 0 <= j < m.start ==> !MatchesAt(url, j, owner, repo)
  {
    var m := MatchRepoUrl(url).value;
    FindMatchFromFound(url, 0);
    FindMatchFromIsFirst(url, 0);
    forall j, owner, repo | 0 <= j < m.start && MatchesAt(url, j, owner, repo)
      ensures false
    {
      MatchAtComplete(url, j, owner, repo);
    }
  }

  /** A literal written out exactly is matched by `LiteralAt`. */
  lemma ExactLiteral(s: string, i: nat, lit: string)
    requires i + |lit| <= |s| && s[i..i + |lit|] == lit
    ensures LiteralAt(s, i, lit)
  {
    forall k | 0 <= k < |lit| ensures FoldsTo(s[i + k], lit[k]) {
      assert s[i + k] == s[i..i + |lit|][k];
    }
  }

  /** No match can start at a character other than `g` or `G`. */
  lemma NoMatchWithoutG(s: string, k: nat)
    requires k < |s| && !FoldsTo(s[k], 'g')
    ensures MatchAt(s, k).None?
  {
    assert !LiteralAt(s, k, "github") by { assert "github"[0] == 'g'; }
  }

  /** The search skips positions where nothing matches. */
  lemma {:induction false} FindSkips(s: string, i: nat, j: nat)
    requires i <= j <= |s|
    requires forall k :: i <= k < j ==> MatchAt(s, k).None?
    ensures FindMatchFrom(s, i) == FindMatchFrom(s, j)
    decreases j - i
  {
    if i < j {
      FindStep(s, i);
      FindSkips(s, i + 1, j);
    }
  }

  /** With no `g` or `G` from `i` on, the search from `i` finds nothing. */
  lemma {:induction false} NoMatchWithoutGFrom(s: string, i: nat)
    requires i <= |s|
    requires forall k :: i <= k < |s| ==> !FoldsTo(s[k], 'g')
    ensures FindMatchFrom(s, i) == None
    decreases |s| - i
  {
    if i < |s| {
      NoMatchWithoutG(s, i);
      FindStep(s, i);
      NoMatchWithoutGFrom(s, i + 1);
    }
  }

  /** One position without a match is passed over. */
  lemma FindStep(s: string, i: nat)
    requires i < |s| && MatchAt(s, i).None?
    ensures FindMatchFrom(s, i) == FindMatchFrom(s, i + 1)
  {
  }
}
