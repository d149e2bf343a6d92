/** The repository matrix of `github.rs`: the URLs of the repos hosted on GitHub, in repo-name
    order, with the `https://github.com/` prefix removed. */
module GitHub {
  import opened Outcomes
  import opened Text
  import opened Schema

  const GitHubPrefix: string := "https://github.com/"

  /** `pat` occurs in `s` at position `k`. */
  predicate OccursAt(s: string, pat: string, k: nat) {
    k + |pat| <= |s| && s[k..k + |pat|] == pat
  }

  /** The first position at or after `from` where `pat` occurs, if any. */
  function FindFrom(s: string, pat: string, from: nat): (r: Option<nat>)
    ensures r.Some? ==> from <= r.value && OccursAt(s, pat, r.value)
    ensures r.Some? ==> forall k :: from <= k < r.value ==> !OccursAt(s, pat, k)
    ensures r.None? ==> forall k :: from <= k ==> !OccursAt(s, pat, k)
    decreases |s| - from
  {
    if from + |pat| > |s| then None
    else if OccursAt(s, pat, from) then Some(from)
    else FindFrom(s, pat, from + 1)
  }

  /** `s.replacen(pat, rep, 1)`: the first occurrence of `pat` replaced by `rep`; `s` itself
      when `pat` does not occur. */
  function ReplaceFirst(s: string, pat: string, rep: string): string {
    match FindFrom(s, pat, 0)
    case None => s
    case Some(k) => s[..k] + rep + s[k + |pat|..]
  }

  /** Removing the first occurrence of a prefix the string starts with removes the prefix. */
  lemma ReplacePrefix(s: string, pat: string)
    requires StartsWith(s, pat)
    ensures ReplaceFirst(s, pat, "") == s[|pat|..]
  {
    assert OccursAt(s, pat, 0);
    assert s[..0] + "" == "";
  }

  /** The matrix entry of a URL: the rest of a GitHub URL, nothing for any other. */
  function Entry(url: string): seq<string> {
    if StartsWith(url, GitHubPrefix) then [ReplaceFirst(url, GitHubPrefix, "")] else []
  }

  /** `get_matrix`: the repos in name order, those hosted on GitHub kept, the prefix
      stripped. */
  function Matrix(repos: seq<(string, Repo)>): (r: seq<string>)
    ensures |r| <= |repos|
    decreases |repos|
  {
    if |repos| == 0 then [] else Entry(repos[0].1.url) + Matrix(repos[1..])
  }

  /** An entry is in the matrix exactly when the prefix followed by it is some repo's URL. */
  lemma {:induction false} MatrixMember(repos: seq<(string, Repo)>, s: string)
    ensures s in Matrix(repos) <==> exists i :: 0 <= i < |repos| && repos[i].1.url == GitHubPrefix + s
    decreases |repos|
  {
    if |repos| > 0 {
      var url := repos[0].1.url;
      MatrixMember(repos[1..], s);
      if StartsWith(url, GitHubPrefix) {
        ReplacePrefix(url, GitHubPrefix);
        assert url == GitHubPrefix + url[|GitHubPrefix|..];
      }
      if url == GitHubPrefix + s {
        assert StartsWith(url, GitHubPrefix);
        assert url[|GitHubPrefix|..] == s;
      }
      if exists i :: 0 <= i < |repos| && repos[i].1.url == GitHubPrefix + s {
        var i :| 0 <= i < |repos| && repos[i].1.url == GitHubPrefix + s;
        if i > 0 {
          assert repos[1..][i - 1] == repos[i];
        }
      }
      if exists i :: 0 <= i < |repos[1..]| && repos[1..][i].1.url == GitHubPrefix + s {
        var i :| 0 <= i < |repos[1..]| && repos[1..][i].1.url == GitHubPrefix + s;
        assert repos[i + 1] == repos[1..][i];
      }
    }
  }

  /** Every GitHub repo is represented in the matrix, by its URL less the prefix. */
  lemma RepoInMatrix(repos: seq<(string, Repo)>, i: nat)
    requires i < |repos| && StartsWith(repos[i].1.url, GitHubPrefix)
    ensures repos[i].1.url[|GitHubPrefix|..] in Matrix(repos)
  {
    var url := repos[i].1.url;
    assert url == GitHubPrefix + url[|GitHubPrefix|..];
    MatrixMember(repos, url[|GitHubPrefix|..]);
  }

  /** The matrix keeps the repo order: the matrix of consecutive runs of repos is the
      concatenation of their matrices. */
  lemma {:induction false} MatrixConcat(a: seq<(string, Repo)>, b: seq<(string, Repo)>)
    ensures Matrix(a + b) == Matrix(a) + Matrix(b)
    decreases |a|
  {
    if |a| == 0 {
      assert a + b == b;
    } else {
      assert (a + b)[0] == a[0];
      assert (a + b)[1..] == a[1..] + b;
      MatrixConcat(a[1..], b);
      ConcatAssoc(Entry(a[0].1.url), Matrix(a[1..]), Matrix(b));
    }
  }

  /** A repo hosted elsewhere adds nothing, wherever it stands. */
  lemma NonGitHubIgnored(a: seq<(string, Repo)>, r: (string, Repo), b: seq<(string, Repo)>)
    requires !StartsWith(r.1.url, GitHubPrefix)
    ensures Matrix(a + [r] + b) == Matrix(a + b)
  {
    MatrixConcat(a + [r], b);
    MatrixConcat(a, [r]);
    MatrixConcat(a, b);
    assert Matrix([r]) == Entry(r.1.url) + Matrix([r][1..]);
  }

  /** When every repo is on GitHub the matrix is all their URLs less the prefix, in repo
      order. */
  lemma {:induction false} MatrixAllGitHub(repos: seq<(string, Repo)>)
    requires forall i :: 0 <= i < |repos| ==> StartsWith(repos[i].1.url, GitHubPrefix)
    ensures |Matrix(repos)| == |repos|
    ensures forall i :: 0 <= i < |repos| ==> |repos[i].1.url| >= |GitHubPrefix|
    ensures forall i :: 0 <= i < |repos| ==> Matrix(repos)[i] == repos[i].1.url[|GitHubPrefix|..]
    decreases |repos|
  {
    if |repos| > 0 {
      var t := repos[1..];
      assert forall i :: 0 <= i < |t| ==> t[i] == repos[i + 1];
      MatrixAllGitHub(t);
      ReplacePrefix(repos[0].1.url, GitHubPrefix);
    }
  }
}
