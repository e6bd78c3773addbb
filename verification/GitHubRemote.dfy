/** The two GitHub URL patterns of GetCommitInfo as hand-written recognizers:
      `^https?://github\.com/(?<username>[A-z0-9-]+)/.*\.git$`
      `^git@github\.com:(?<username>[A-z0-9-]+)/.*\.git$`
    tried in that order. Only the host github.com is known.
 */
module GitHubRemote {
  import opened Wrappers
  import Text

  const HttpsPrefix := "https://github.com/"
  const HttpPrefix := "http://github.com/"
  const SshPrefix := "git@github.com:"
  const GitSuffix := ".git"

  /** `[A-z0-9-]`: the ordinal range A..z, which also holds [ \ ] ^ _ and the
      backquote, plus digits and the hyphen. The slash is not in the class. */
  predicate IsUserChar(c: char) {
    ('A' <= c <= 'z') || ('0' <= c <= '9') || c == '-'
  }

  predicate IsUserName(u: string) {
    |u| > 0 && forall k :: 0 <= k < |u| ==> IsUserChar(u[k])
  }

  /** `.*\.git$` against the text after the user's slash: `.` never matches a
      newline, and `$` matches at the very end or just before one final newline. */
  predicate EndsInGit(tail: string) {
    var body := if |tail| > 0 && tail[|tail| - 1] == '\n' then tail[..|tail| - 1] else tail;
    '\n' !in body && |GitSuffix| <= |body| && body[|body| - |GitSuffix|..] == GitSuffix
  }

  /** `(?<username>[A-z0-9-]+)/.*\.git$` against the text after a pattern's
      literal head: the user is the run up to the first slash. */
  function UserIn(rest: string): (r: Option<string>)
    ensures r.Some? ==> IsUserName(r.value) && r.value + "/" <= rest
  {
    var slash := Text.IndexOf(rest, '/');
    if slash >= 0 && IsUserName(rest[..slash]) && EndsInGit(rest[slash + 1..]) then
      AroundSlash(rest, slash);
      Some(rest[..slash])
    else None
  }

  /** One pattern, given its literal head. */
  function UserAfter(prefix: string, url: string): (r: Option<string>)
    ensures r.Some? ==> IsUserName(r.value) && prefix + r.value + "/" <= url
  {
    if prefix <= url then UserIn(url[|prefix|..]) else None
  }

  /** `https?://`: "https://" and "http://" cannot both be heads of one URL. */
  function HttpUser(url: string): Option<string>
  {
    match UserAfter(HttpsPrefix, url)
    case Some(user) => Some(user)
    case None => UserAfter(HttpPrefix, url)
  }

  function SshUser(url: string): Option<string>
  {
    UserAfter(SshPrefix, url)
  }

  /** GitUser from OriginUrl: the HTTP pattern first, then the SSH one. */
  function GitUser(url: string): (r: Option<string>)
    ensures r.Some? ==> IsUserName(r.value)
    ensures r.Some? ==>
      || HttpsPrefix + r.value + "/" <= url
      || HttpPrefix + r.value + "/" <= url
      || SshPrefix + r.value + "/" <= url
  {
    match HttpUser(url)
    case Some(user) => Some(user)
    case None => SshUser(url)
  }

  predicate IsKnownPrefix(prefix: string) {
    prefix == HttpsPrefix || prefix == HttpPrefix || prefix == SshPrefix
  }

  /** The part after the head: the user, a slash, a newline-free path,
      ".git", and at most one final newline. */
  predicate IsUserPath(rest: string, user: string, path: string, ending: string) {
    && IsUserName(user)
    && '\n' !in path
    && (ending == "" || ending == "\n")
    && rest == user + "/" + path + GitSuffix + ending
  }

  /** `url` is one of the recognised shapes, with user `user`. */
  predicate IsGitHubUrl(url: string, user: string, prefix: string, path: string, ending: string) {
    && IsKnownPrefix(prefix)
    && prefix <= url
    && IsUserPath(url[|prefix|..], user, path, ending)
  }

  lemma UserNameHasNoSlash(user: string)
    requires IsUserName(user)
    ensures '/' !in user
  {
    forall k | 0 <= k < |user| ensures user[k] != '/' {
      assert IsUserChar(user[k]);
    }
  }

  lemma EndsInGitOf(path: string, ending: string)
    requires '\n' !in path
    requires ending == "" || ending == "\n"
    ensures EndsInGit(path + GitSuffix + ending)
  {
    var body := path + GitSuffix;
    var tail := body + ending;
    assert ending == "\n" ==> tail[..|tail| - 1] == body;
    assert body[|body| - |GitSuffix|..] == GitSuffix;
    forall k | 0 <= k < |body| ensures body[k] != '\n' {
      if k < |path| {
        assert body[k] == path[k];
      } else {
        assert body[k] == GitSuffix[k - |path|];
      }
    }
  }

  /** The pattern body reads the user back out of a well-shaped rest. */
  lemma UserInOfShape(rest: string, user: string, path: string, ending: string)
    requires IsUserPath(rest, user, path, ending)
    ensures UserIn(rest) == Some(user)
  {
    var tail := path + GitSuffix + ending;
    assert rest == user + ['/'] + tail;
    UserNameHasNoSlash(user);
    Text.IndexOfAfter(user, '/', tail);
    assert rest[..|user|] == user;
    assert rest[|user| + 1..] == tail;
    EndsInGitOf(path, ending);
  }

  /** The text after the user's slash that `EndsInGit` accepts is a
      newline-free path, ".git" and at most one final newline. */
  lemma EndsInGitShape(tail: string) returns (path: string, ending: string)
    requires EndsInGit(tail)
    ensures '\n' !in path
    ensures ending == "" || ending == "\n"
    ensures tail == path + GitSuffix + ending
  {
    ending := if |tail| > 0 && tail[|tail| - 1] == '\n' then "\n" else "";
    var body := tail[..|tail| - |ending|];
    path := body[..|body| - |GitSuffix|];
    assert body == path + GitSuffix;
    assert tail == body + ending;
    forall k | 0 <= k < |path| ensures path[k] != '\n' {
      assert path[k] == body[k];
    }
  }

  /** A text is its part before position `k`, the character there, and the rest. */
  lemma AroundSlash(rest: string, k: int)
    requires 0 <= k < |rest| && rest[k] == '/'
    ensures rest == rest[..k] + "/" + rest[k + 1..]
  {
    assert rest == rest[..k] + [rest[k]] + rest[k + 1..];
  }

  lemma SplitShape(rest: string, user: string, tail: string, path: string, ending: string)
    requires rest == user + "/" + tail
    requires tail == path + GitSuffix + ending
    ensures rest == user + "/" + path + GitSuffix + ending
  {
  }

  /** What the pattern body accepts is a well-shaped rest. */
  lemma UserInShape(rest: string)
    requires UserIn(rest).Some?
    ensures exists path, ending :: IsUserPath(rest, UserIn(rest).value, path, ending)
  {
    var slash := Text.IndexOf(rest, '/');
    var user := rest[..slash];
    var tail := rest[slash + 1..];
    assert IsUserName(user) && EndsInGit(tail);
    var path, ending := EndsInGitShape(tail);
    AroundSlash(rest, slash);
    SplitShape(rest, user, tail, path, ending);
    assert IsUserPath(rest, user, path, ending);
  }

  /** A URL can begin with at most one of the three heads. */
  lemma HeadsExclusive(url: string)
    ensures HttpsPrefix <= url ==> !(HttpPrefix <= url) && !(SshPrefix <= url)
    ensures HttpPrefix <= url ==> !(SshPrefix <= url)
  {
    if HttpsPrefix <= url {
      assert url[4] == 's';
      assert url[0] == 'h';
    }
    if HttpPrefix <= url {
      assert url[0] == 'h';
    }
  }

  /** Every URL of a recognised shape yields its user. */
  lemma RecognisesGitHubUrls(url: string, user: string, prefix: string, path: string, ending: string)
    requires IsGitHubUrl(url, user, prefix, path, ending)
    ensures GitUser(url) == Some(user)
  {
    UserInOfShape(url[|prefix|..], user, path, ending);
    HeadsExclusive(url);
  }

  /** Only URLs of a recognised shape yield a user, and it is the user named in the URL. */
  lemma OnlyGitHubUrls(url: string)
    requires GitUser(url).Some?
    ensures exists prefix, path, ending :: IsGitHubUrl(url, GitUser(url).value, prefix, path, ending)
  {
    var prefix :=
      if UserAfter(HttpsPrefix, url).Some? then HttpsPrefix
      else if UserAfter(HttpPrefix, url).Some? then HttpPrefix
      else SshPrefix;
    assert UserAfter(prefix, url) == GitUser(url);
    var rest := url[|prefix|..];
    assert prefix <= url && UserIn(rest) == GitUser(url);
    UserInShape(rest);
    var path, ending :| IsUserPath(rest, UserIn(rest).value, path, ending);
    assert IsGitHubUrl(url, GitUser(url).value, prefix, path, ending);
  }

  /** The two patterns never both match, so trying SSH first would give the same user. */
  lemma PatternOrderIrrelevant(url: string)
    ensures HttpUser(url).None? || SshUser(url).None?
    ensures GitUser(url) == (match SshUser(url) case Some(user) => Some(user) case None => HttpUser(url))
  {
    HeadsExclusive(url);
  }
}
