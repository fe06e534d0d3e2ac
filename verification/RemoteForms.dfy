/** Git URLs in the forms people write them, and what they are reduced to. */
module RemoteForms {
  import opened Text
  import opened GitRemote
  import opened TokenClone

  // ---------------------------------------------------------------- the end of a URL

  // A path in its shortest form.
  predicate Path(p: string) {
    && p != "" && p[0] != '/' && p[|p| - 1] != '/' && !IsSpace(p[|p| - 1]) && !HasSuffix(p, ".git")
  }

  // What may stand behind it.
  predicate Suffix(s: string) { s == "" || s == "/" || s == ".git" || s == ".git/" }

  predicate Blank(s: string) { forall i :: 0 <= i < |s| ==> s[i] == ' ' || s[i] == '\t' || s[i] == '\n' || s[i] == '\r' }

  lemma {:induction false} BlanksAreCut(s: string, b: string)
    requires s != "" && !IsSpace(s[|s| - 1]) && Blank(b)
    ensures TrimRight(s + b, IsSpace) == s
  {
    if b == "" {
      assert s + b == s;
    } else {
      assert (s + b)[..|s + b| - 1] == s + b[..|b| - 1];
      BlanksAreCut(s, b[..|b| - 1]);
    }
  }

  lemma SuffixCut(s: string, p: string)
    ensures TrimSuffix(s + p, p) == s
  {
    assert (s + p)[|s|..] == p && (s + p)[..|s|] == s;
  }

  lemma NoSuffix(s: string, c: char)
    requires s != "" && s[|s| - 1] != c
    ensures TrimSuffix(s, [c]) == s
  {
  }

  lemma GitEnds(s: string)
    ensures (s + ".git") != "" && (s + ".git")[|s + ".git"| - 1] == 't'
    ensures s + ".git/" == (s + ".git") + "/"
  {
  }

  /** A suffix and white space behind a path are cleaned away. */
  lemma TailIsCleaned(s: string, suffix: string, blank: string)
    requires s != "" && s[|s| - 1] != '/' && !IsSpace(s[|s| - 1]) && !HasSuffix(s, ".git") && Suffix(suffix) && Blank(blank)
    ensures CleanTail(s + suffix + blank) == s
  {
    hide TrimSuffix, TrimRight;
    GitEnds(s);
    assert s + "" == s;
    SlashAndTee();
    BlanksAreCut(s + suffix, blank);
    NoSuffix(s, '/');
    NoSuffix(s + ".git", '/');
    SuffixCut(s, "/");
    SuffixCut(s + ".git", "/");
    SuffixCut(s, ".git");
    Unsuffixed(s, ".git");
  }

  lemma SlashAndTee()
    ensures !IsSpace('/') && !IsSpace('t') && ("/")[|"/"| - 1] == '/' && GIT == ".git"
  {
  }

  lemma Unsuffixed(s: string, p: string)
    requires !HasSuffix(s, p)
    ensures TrimSuffix(s, p) == s
  {
  }

  // ---------------------------------------------------------------- the authority

  predicate Host(h: string) { h != "" && '/' !in h && '@' !in h && ':' !in h }

  // host, user@host, host:port or user@host:port.
  predicate Authority(a: string, h: string) {
    || UserAndHost(a, h)
    || (exists k :: 0 <= k < |a| && a[k] == ':' && AllDigits(a[k + 1..]) && UserAndHost(a[..k], h))
  }

  predicate UserAndHost(a: string, h: string) {
    a == h || exists i :: 0 <= i < |a| && a[i] == '@' && a[i + 1..] == h && '/' !in a[..i]
  }

  lemma UserIsDropped(a: string, h: string, rest: string)
    requires UserAndHost(a, h) && '@' !in h && '@' !in rest
    ensures DropUser(a + rest) == h + rest
  {
    if a != h {
      var i :| 0 <= i < |a| && a[i] == '@' && a[i + 1..] == h && '/' !in a[..i];
      SplitAt(a, i);
      assert a + rest == a[..i] + ['@'] + (h + rest);
      LastOf(a[..i], '@', h + rest);
      Parts(a[..i], '@', h + rest);
    }
  }

  lemma PortIsDropped(h: string, digits: string)
    requires ':' !in h && AllDigits(digits)
    ensures DropPort(h + [':'] + digits) == h
    ensures DropPort(h) == h
  {
    DigitsExclude(digits, ':');
    LastOf(h, ':', digits);
    Parts(h, ':', digits);
  }

  lemma NoPort(a: string, h: string)
    requires Host(h) && UserAndHost(a, h)
    ensures DropPort(DropUser(a)) == h && '/' !in a
  {
    hide DropUser, DropPort;
    UserIsDropped(a, h, "");
    assert a + "" == a && h + "" == h;
    OneDigit();
    PortIsDropped(h, "0");
    NoSlashInUser(a, h);
  }

  lemma NoSlashInUser(a: string, h: string)
    requires Host(h) && UserAndHost(a, h)
    ensures '/' !in a
  {
    if a != h {
      var i :| 0 <= i < |a| && a[i] == '@' && a[i + 1..] == h && '/' !in a[..i];
      SplitAt(a, i);
    }
  }

  lemma WithPort(a: string, h: string, digits: string)
    requires Host(h) && UserAndHost(a, h) && AllDigits(digits)
    ensures DropPort(DropUser(a + [':'] + digits)) == h && '/' !in a + [':'] + digits
  {
    hide DropUser, DropPort, AllDigits, UserAndHost;
    NoneInDigits(digits);
    UserIsDropped(a, h, [':'] + digits);
    assert a + [':'] + digits == a + ([':'] + digits) && h + ([':'] + digits) == h + [':'] + digits;
    PortIsDropped(h, digits);
    NoSlashInUser(a, h);
  }

  /** A user name and a port are dropped, and only they. */
  lemma AuthorityIs(a: string, h: string)
    requires Host(h) && Authority(a, h)
    ensures DropPort(DropUser(a)) == h && '/' !in a
  {
    hide DropUser, DropPort, AllDigits, UserAndHost;
    if UserAndHost(a, h) {
      NoPort(a, h);
    } else {
      var k :| 0 <= k < |a| && a[k] == ':' && AllDigits(a[k + 1..]) && UserAndHost(a[..k], h);
      SplitAt(a, k);
      WithPort(a[..k], h, a[k + 1..]);
    }
  }

  lemma OneDigit()
    ensures AllDigits("0")
  {
  }

  lemma NoneInDigits(digits: string)
    requires AllDigits(digits)
    ensures '@' !in digits && '/' !in digits
  {
    DigitsExclude(digits, '@');
    DigitsExclude(digits, '/');
  }

  // ---------------------------------------------------------------- URLs

  predicate Scheme(q: string) { q != "" && !IsSpace(q[0]) && ':' !in q && '/' !in q }

  lemma SchemeIs(q: string)
    requires Scheme(q)
    ensures SchemeOf(q) && TrimLeft(q, IsSpace) == q
  {
    var s := q + SCHEME;
    assert s[|q|..|q| + 3] == SCHEME;
    forall j | 0 <= j < |q| ensures !OccursAt(s, SCHEME, j) { assert s[j] == q[j]; if OccursAt(s, SCHEME, j) { OccursFirst(s, SCHEME, j); } }
    IndexIs(s, SCHEME, |q|);
  }

  lemma PathIsKept(p: string)
    requires Path(p)
    ensures TrimRight(TrimLeft(p, IsSlash), IsSlash) == p
  {
  }

  lemma CutAtSlash(a: string, p: string)
    requires '/' !in a
    ensures BeforeSlash(a + ['/'] + p) == a && AfterSlash(a + ['/'] + p) == p
  {
    FirstOf(a, '/', p);
    Parts(a, '/', p);
  }

  lemma SuffixOfRight(a: string, c: char, p: string, m: string)
    requires HasSuffix(a + [c] + p, m) && |m| <= |p|
    ensures HasSuffix(p, m)
  {
    var s := a + [c] + p;
    assert s[|s| - |m|..] == p[|p| - |m|..];
  }

  // A path behind a separator ends as it does alone.
  lemma EndsAsPath(a: string, c: char, p: string)
    requires Path(p) && (c == '/' || c == ':')
    ensures var s := a + [c] + p; s != "" && s[|s| - 1] != '/' && !IsSpace(s[|s| - 1]) && !HasSuffix(s, ".git")
  {
    if HasSuffix(a + [c] + p, ".git") {
      if |p| < 4 { SuffixHolds(a, c, p, ".git"); } else { SuffixOfRight(a, c, p, ".git"); }
      assert false;
    }
  }

  /** scheme://[user@]host[:port]/path in every spelling stands for host and path. */
  lemma UrlIs(q: string, a: string, h: string, p: string, suffix: string, blank: string)
    requires Scheme(q) && Host(h) && Authority(a, h) && Path(p) && Suffix(suffix) && Blank(blank)
    ensures NormalizeGitRemote(q + "://" + (a + ['/'] + p + suffix + blank)) == Remote(h, p)
  {
    hide NormalizeGitRemote, Authority, DropUser, DropPort, CleanTail, BeforeSlash, AfterSlash, HasSuffix, Path;
    var s := a + ['/'] + p;
    AuthorityIs(a, h);
    EndsAsPath(a, '/', p);
    TailIsCleaned(s, suffix, blank);
    SchemeIs(q);
    SomethingLeft(s, suffix + blank);
    assert s + suffix + blank == s + (suffix + blank);
    NormalizeParts(q, s + suffix + blank);
    CutAtSlash(a, p);
    PathIsKept(p);
    assert WithScheme(q, s + suffix + blank) == q + "://" + (s + suffix + blank);
  }

  lemma SomethingLeft(s: string, more: string)
    requires s != "" && !IsSpace(s[|s| - 1])
    ensures TrimRight(s + more, IsSpace) != ""
  {
    var front, c := s[..|s| - 1], s[|s| - 1];
    assert s + more == front + [c] + more;
    TrimRightSplits(front, c, more, IsSpace);
  }

  /** So does [user@]host:path, the form without a scheme. */
  lemma ShortFormIs(a: string, h: string, p: string, suffix: string, blank: string)
    requires Host(h) && UserAndHost(a, h) && ':' !in a && '/' !in a && a != "" && !IsSpace(a[0])
    requires Path(p) && Suffix(suffix) && Blank(blank) && !Contains(a + [':'] + p, SCHEME)
    ensures NormalizeGitRemote(a + [':'] + p + suffix + blank) == Remote(h, p)
  {
    hide DropUser, DropPort, CleanTail, HasSuffix, Path, UserAndHost, Contains;
    var s := a + [':'] + p;
    EndsAsPath(a, ':', p);
    TailIsCleaned(s, suffix, blank);
    assert s + suffix + blank == s + (suffix + blank) && (s + suffix + blank)[0] == a[0];
    assert Clean(s + suffix + blank) == s;
    FirstOf(a, ':', p);
    Parts(a, ':', p);
    UserIsDropped(a, h, "");
    assert a + "" == a && h + "" == h;
    PortIsDropped(h, "0") by { OneDigit(); }
    PathIsKept(p);
    assert Index(s, SCHEME) < 0;
  }

  // ---------------------------------------------------------------- hosts, owners and directories

  /** Hosts are compared without regard to ASCII case. */
  lemma FoldIff(c: char, d: char)
    ensures FoldChar(c) == FoldChar(d) <==>
            c == d || ('A' <= c <= 'Z' && d as int == c as int + 32) || ('A' <= d <= 'Z' && c as int == d as int + 32)
  {
  }

  lemma HostsIff(a: string, b: string)
    ensures Fold(a) == Fold(b) <==> |a| == |b| && forall i :: 0 <= i < |a| ==> FoldChar(a[i]) == FoldChar(b[i])
  {
    if Fold(a) == Fold(b) {
      forall i | 0 <= i < |a| ensures FoldChar(a[i]) == FoldChar(b[i]) { assert Fold(a)[i] == Fold(b)[i]; }
    }
  }

  /** Two URLs are of one repository exactly when they stand for hosts alike but for case, and
      for one and the same path. */
  lemma SameIff(a: string, b: string, ra: Remote, rb: Remote)
    requires NormalizeGitRemote(a) == ra && NormalizeGitRemote(b) == rb && ra.path != "" && rb.path != ""
    ensures SameGitRemote(a, b) <==>
              && ra.path == rb.path && |ra.host| == |rb.host|
              && forall i :: 0 <= i < |ra.host| ==> FoldChar(ra.host[i]) == FoldChar(rb.host[i])
  {
    hide NormalizeGitRemote, Fold, FoldChar;
    HostsIff(ra.host, rb.host);
  }

  predicate PlainSegment(s: string) { s != "" && s != "." && s != ".." && '/' !in s && '\\' !in s && '\0' !in s }

  lemma {:induction false} LastTwo(parents: string, owner: string, repo: string)
    requires '/' !in owner && '/' !in repo
    ensures var segs := Split(parents + ['/'] + (owner + ['/'] + repo), '/');
            |segs| >= 2 && segs[|segs| - 2] == owner && segs[|segs| - 1] == repo
    ensures Split(owner + ['/'] + repo, '/') == [owner, repo]
  {
    SplitPiece(owner, '/');
    SplitPiece(repo, '/');
    SplitConcat(owner, repo, '/');
    SplitConcat(parents, owner + ['/'] + repo, '/');
  }

  lemma PlainIsKept(s: string)
    requires PlainSegment(s)
    ensures SanitizePathSegment(s) == s
  {
  }

  /** A scenario's directory is the last two segments of the path, owner and repo, with two
      underscores between them; with one segment it is that one. */
  lemma DirectoryIs(url: string, r: Remote, parents: string, owner: string, repo: string)
    requires NormalizeGitRemote(url) == r && PlainSegment(owner) && PlainSegment(repo)
    ensures r.path == owner + ['/'] + repo ==> ScenarioDirName(url) == owner + "__" + repo
    ensures r.path == parents + ['/'] + (owner + ['/'] + repo) ==> ScenarioDirName(url) == owner + "__" + repo
    ensures r.path == repo ==> ScenarioDirName(url) == repo
  {
    hide NormalizeGitRemote, Split, SanitizePathSegment, PlainSegment;
    LastTwo(parents, owner, repo) by { assert PlainSegment(owner) && PlainSegment(repo); NoSlashes(owner, repo); }
    NoSlashes(owner, repo);
    SplitPiece(repo, '/');
    PlainIsKept(owner);
    PlainIsKept(repo);
  }

  lemma NoSlashes(a: string, b: string)
    requires PlainSegment(a) && PlainSegment(b)
    ensures '/' !in a && '/' !in b && a != "" && b != ""
  {
  }

  // ---------------------------------------------------------------- the token

  lemma AtFront(m: string, rest: string)
    requires m != ""
    ensures Index(m + rest, m) == 0 && (m + rest)[|m|..] == rest
  {
    assert (m + rest)[0..|m|] == m;
    IndexIs(m + rest, m, 0);
  }

  lemma WordsAre(p: string)
    ensures GITHUB_SSH == "git@github.com:" && GITHUB_HTTPS == "https://github.com/" && HTTPS == "https://"
    ensures "https://github.com/" + p == HTTPS + ("github.com/" + p)
  {
  }

  lemma NotSsh(rest: string)
    ensures !HasPrefix(HTTPS + rest, GITHUB_SSH)
  {
    assert (HTTPS + rest)[0] == 'h' && GITHUB_SSH[0] == 'g';
  }

  /** The token stands between the scheme and github.com, in front of the same path. */
  lemma TokenUrlIs(p: string, token: string)
    ensures TokenUrl("https://github.com/" + p, token) == "https://" + token + "@github.com/" + p
    ensures TokenUrl("git@github.com:" + p, token) == "https://" + token + "@github.com/" + p
  {
    hide HasPrefix, Index, TrimPrefix;
    var rest := "github.com/" + p;
    WordsAre(p);
    AtFront(HTTPS, rest);
    NotSsh(rest);
    TokenTexts(p, token);
    TrimPrefixOf("git@github.com:", p);
    SshFront(p);
  }

  lemma SshFront(p: string)
    ensures HasPrefix("git@github.com:" + p, "git@github.com:")
  {
  }

  lemma TokenTexts(p: string, token: string)
    ensures "" + ("https://" + token + "@") + ("github.com/" + p) == "https://" + token + "@github.com/" + p
    ensures ("https://" + ("github.com/" + p))[..0] == ""
  {
  }

  /** A URL without a path, and a text without a colon, stand for no repository. */
  lemma NoPathIs(q: string, a: string, h: string, s: string)
    requires Scheme(q) && Host(h) && Authority(a, h) && a != "" && a[|a| - 1] != 't' && !IsSpace(a[|a| - 1])
    requires ':' !in s
    ensures NormalizeGitRemote(q + "://" + a) == Remote(h, "")
    ensures NormalizeGitRemote(s) == Remote("", "")
  {
    hide DropUser, DropPort, Authority;
    AuthorityIs(a, h);
    SchemeIs(q);
    AuthorityEnds(a);
    NormalizeParts(q, a);
    assert WithScheme(q, a) == q + "://" + a;
    CleanKeeps(s);
    forall j | 0 <= j <= |Clean(s)| ensures !OccursAt(Clean(s), SCHEME, j) { if OccursAt(Clean(s), SCHEME, j) { OccursFirst(Clean(s), SCHEME, j); } }
    EmptyPathIs();
  }

  lemma EmptyPathIs()
    ensures TrimRight(TrimLeft("", IsSlash), IsSlash) == ""
  {
  }

  lemma AuthorityEnds(a: string)
    requires a != "" && '/' !in a && a[|a| - 1] != 't' && !IsSpace(a[|a| - 1])
    ensures CleanTail(a) == a && TrimRight(a, IsSpace) == a && BeforeSlash(a) == a && AfterSlash(a) == ""
  {
    assert TrimRight(a, IsSpace) == a;
    NoSuffix(a, '/');
    var front := a[..|a| - 1];
    assert a == front + [a[|a| - 1]];
    NoGitBehind(front, a[|a| - 1]);
  }

  lemma CleanKeeps(s: string)
    requires ':' !in s
    ensures ':' !in Clean(s)
  {
    var l := TrimLeft(s, IsSpace);
    TrimLeftIs(s, IsSpace);
    TrimRightIs(l, IsSpace);
  }

  /** Without anything in front of the colon the host is empty. */
  lemma NoHostIs(p: string)
    requires Path(p) && !Contains([':'] + p, SCHEME)
    ensures NormalizeGitRemote([':'] + p) == Remote("", p)
  {
    hide HasSuffix, Contains, Index, DropUser, DropPort, Clean, IndexChar;
    var s := [':'] + p;
    CleanColon(p);
    ColonFirst(p);
    PathIsKept(p);
    EmptyAuthority();
    NoSchemeAt(s);
  }

  lemma NoSchemeAt(s: string)
    requires !Contains(s, SCHEME)
    ensures Index(s, SCHEME) < 0
  {
  }

  lemma ColonFirst(p: string)
    ensures IndexChar([':'] + p, ':') == 0 && ([':'] + p)[..0] == "" && ([':'] + p)[1..] == p
  {
    assert "" + [':'] + p == [':'] + p;
    FirstOf("", ':', p);
  }

  lemma CleanColon(p: string)
    requires Path(p)
    ensures Clean([':'] + p) == [':'] + p
  {
    hide CleanTail;
    assert "" + [':'] + p == [':'] + p && [':'] + p + "" + "" == [':'] + p;
    EndsAsPath("", ':', p);
    TailIsCleaned([':'] + p, "", "");
    assert !IsSpace(':');
  }

  lemma EmptyAuthority()
    ensures DropPort(DropUser("")) == ""
  {
  }
}
