/** The clone fallback that puts a token into a URL, and when its clone is still
    taken for a clone of the declared URL. */
module TokenClone {
  import opened Text
  import opened GitRemote

  const HTTPS := "https" + SCHEME
  const GITHUB := "github.com"
  const GITHUB_SSH := WithUser("git", GITHUB) + [':']
  const GITHUB_HTTPS := HTTPS + GITHUB + ['/']

  function HttpsUrl(url: string): string {
    if HasPrefix(url, GITHUB_SSH) then GITHUB_HTTPS + TrimPrefix(url, GITHUB_SSH) else url
  }

  // The token goes behind the first "https://".
  function InjectToken(https: string, token: string): string {
    var i := Index(https, HTTPS);
    if i < 0 then https else https[..i] + (HTTPS + token + "@") + https[i + |HTTPS|..]
  }

  function TokenUrl(url: string, token: string): string { InjectToken(HttpsUrl(url), token) }

  // An ssh URL that still shows a scheme when cleaned, and so is not read as one.
  predicate SshWithScheme(url: string) { HasPrefix(url, GITHUB_SSH) && Contains(Clean(url), SCHEME) }

  // The token stands where normalising drops it: in front of the host, all of it.
  predicate TokenIsDropped(url: string, token: string) {
    var https := HttpsUrl(url);
    var i := Index(https, HTTPS);
    || i < 0
    || (&& '/' !in token && Index(https, SCHEME) == i + 5 && TrimRight(https[i + |HTTPS|..], IsSpace) != ""
        && !SshWithScheme(url))
  }

  // ---------------------------------------------------------------- counting '@'

  function Ats(s: string): nat { multiset(s)['@'] }

  lemma AtsConcat(a: string, b: string)
    ensures Ats(a + b) == Ats(a) + Ats(b)
  {
  }

  lemma AtsAround(a: string, c: char, b: string)
    ensures Ats(a + [c] + b) == Ats(a) + Ats(b) + if c == '@' then 1 else 0
  {
    AtsConcat(a + [c], b);
    AtsConcat(a, [c]);
  }

  lemma NoAts(s: string)
    requires '@' !in s
    ensures Ats(s) == 0
  {
  }

  lemma AtsOfPrefix(s: string, n: nat)
    requires n <= |s| && forall i :: n <= i < |s| ==> s[i] != '@'
    ensures Ats(s[..n]) == Ats(s)
  {
    assert s == s[..n] + s[n..];
    AtsConcat(s[..n], s[n..]);
    NoAts(s[n..]);
  }

  lemma AtsOfSuffix(s: string, n: nat)
    requires n <= |s| && forall i :: 0 <= i < n ==> s[i] != '@'
    ensures Ats(s[n..]) == Ats(s)
  {
    assert s == s[..n] + s[n..];
    AtsConcat(s[..n], s[n..]);
    NoAts(s[..n]);
  }

  lemma AtsOfTrimmed(s: string, cut: char -> bool)
    requires !cut('@')
    ensures Ats(TrimLeft(s, cut)) == Ats(s) && Ats(TrimRight(s, cut)) == Ats(s)
  {
    hide Ats, TrimLeft, TrimRight;
    TrimLeftIs(s, cut);
    TrimRightIs(s, cut);
    AtsOfSuffix(s, |s| - |TrimLeft(s, cut)|);
    AtsOfPrefix(s, |TrimRight(s, cut)|);
  }

  lemma AtsOfTrimSuffix(s: string, p: string)
    requires '@' !in p
    ensures Ats(TrimSuffix(s, p)) == Ats(s)
  {
    if HasSuffix(s, p) {
      assert s == s[..|s| - |p|] + p;
      AtsConcat(s[..|s| - |p|], p);
      NoAts(p);
    }
  }

  lemma AtsOfCleanTail(s: string)
    ensures Ats(CleanTail(s)) == Ats(s)
  {
    var s1 := TrimRight(s, IsSpace);
    AtsOfTrimmed(s, IsSpace);
    AtsOfTrimSuffix(s1, "/");
    AtsOfTrimSuffix(TrimSuffix(s1, "/"), GIT);
  }

  function Path(rest: string): string { TrimRight(TrimLeft(rest, IsSlash), IsSlash) }

  lemma AtsOfPath(rest: string)
    ensures Ats(Path(rest)) == Ats(rest)
  {
    AtsOfTrimmed(rest, IsSlash);
    AtsOfTrimmed(TrimLeft(rest, IsSlash), IsSlash);
  }

  lemma AtsAfterSlash(s: string)
    ensures Ats(AfterSlash(s)) <= Ats(s)
  {
    var i := IndexChar(s, '/');
    if i >= 0 {
      SplitAt(s, i);
      AtsAround(s[..i], '/', s[i + 1..]);
    }
  }

  // What follows the first slash when there is one in the left part.
  lemma AfterSlashOfLeft(a: string, b: string)
    requires '/' in a
    ensures AfterSlash(a + b) == AfterSlash(a) + b
  {
    var i := IndexChar(a, '/');
    SplitAt(a, i);
    assert a + b == a[..i] + ['/'] + (a[i + 1..] + b);
    FirstOf(a[..i], '/', a[i + 1..] + b);
    Parts(a[..i], '/', a[i + 1..] + b);
  }

  // ---------------------------------------------------------------- the first scheme is the token's

  // With a token free of slashes, and something behind the scheme, nothing changes.
  lemma TokenBehindScheme(q: string, rest: string, token: string)
    requires SchemeOf(q) && '/' !in token && TrimRight(rest, IsSpace) != ""
    ensures NormalizeGitRemote(WithScheme(q, WithUser(token, rest))) == NormalizeGitRemote(WithScheme(q, rest))
  {
    hide NormalizeGitRemote, FromAuthority, BeforeSlash, AfterSlash, CleanTail;
    CredentialIsDropped(q, token, rest);
    NormalizeParts(q, rest);
  }

  // The path of a URL whose credential holds a slash starts inside the credential.
  lemma SlashedTokenPath(q: string, rest: string, token: string)
    requires SchemeOf(q) && '/' in token
    ensures NormalizeGitRemote(WithScheme(q, WithUser(token, rest))).path == Path(WithUser(AfterSlash(token), CleanTail(rest)))
  {
    hide NormalizeGitRemote, CleanTail, BeforeSlash, AfterSlash, FromAuthority, WithScheme, WithUser, SchemeOf, Path;
    var c := CleanTail(rest);
    CleanWithUser(token, rest);
    NormalizeParts(q, WithUser(token, rest));
    AuthorityPath(BeforeSlash(WithUser(token, c)), AfterSlash(WithUser(token, c)));
    AfterSlashOfUser(token, c);
  }

  lemma AfterSlashOfUser(user: string, rest: string)
    requires '/' in user
    ensures AfterSlash(WithUser(user, rest)) == WithUser(AfterSlash(user), rest)
  {
    hide AfterSlash;
    assert WithUser(user, rest) == user + (['@'] + rest);
    AfterSlashOfLeft(user, ['@'] + rest);
    assert AfterSlash(user) + (['@'] + rest) == WithUser(AfterSlash(user), rest);
  }

  lemma SlashedTokenAts(q: string, rest: string, token: string)
    requires SchemeOf(q) && '/' in token
    ensures Ats(NormalizeGitRemote(WithScheme(q, WithUser(token, rest))).path) > Ats(rest)
  {
    hide NormalizeGitRemote, CleanTail, AfterSlash, Path;
    SlashedTokenPath(q, rest, token);
    AtsOfPath(WithUser(AfterSlash(token), CleanTail(rest)));
    AtsAround(AfterSlash(token), '@', CleanTail(rest));
    AtsOfCleanTail(rest);
  }

  lemma PlainPathAts(q: string, rest: string)
    requires SchemeOf(q) && TrimRight(rest, IsSpace) != ""
    ensures Ats(NormalizeGitRemote(WithScheme(q, rest)).path) <= Ats(rest)
  {
    hide NormalizeGitRemote, CleanTail, BeforeSlash, AfterSlash, DropUser, DropPort;
    NormalizeParts(q, rest);
    AtsOfPath(AfterSlash(CleanTail(rest)));
    AtsAfterSlash(CleanTail(rest));
    AtsOfCleanTail(rest);
  }

  // ---------------------------------------------------------------- nothing behind the scheme

  lemma CleanBlank(q: string, rest: string)
    requires TrimRight(rest, IsSpace) == ""
    ensures Clean(WithScheme(q, rest)) == TrimLeft(q, IsSpace) + ":/"
  {
    hide IsSpace, TrimSuffix, WithScheme;
    var r := TrimLeft(q, IsSpace);
    TrimLeftOfUrl(q, rest);
    SlashSeam(r, rest);
    SlashIsNoSpace();
    TrimRightSplits(r + ":/", '/', rest, IsSpace);
    CutSlash(r + ":/");
    NoGitBehind(r + ":", '/');
    assert r + ":/" == r + ":" + ['/'];
  }

  lemma SlashIsNoSpace()
    ensures !IsSpace('/')
  {
  }

  lemma CutSlash(a: string)
    ensures TrimSuffix(a + ['/'] + "", "/") == a
  {
    var s := a + ['/'] + "";
    assert s == a + ['/'];
    assert s[|s| - 1..] == "/" && s[..|s| - 1] == a;
  }

  lemma NoGitBehind(a: string, c: char)
    requires c != 't'
    ensures TrimSuffix(a + [c], GIT) == a + [c]
  {
    var s := a + [c];
    assert |s| >= 4 ==> s[|s| - 4..][3] == s[|s| - 1];
  }

  lemma NoSchemeLeft(q: string)
    requires SchemeOf(q)
    ensures !Contains(q + ":/", SCHEME)
  {
    var s := q + ":/";
    forall j | 0 <= j <= |s| ensures !OccursAt(s, SCHEME, j) {
      if OccursAt(s, SCHEME, j) {
        assert s <= q + SCHEME;
        OccursInPrefix(s, q + SCHEME, SCHEME, j);
      }
    }
  }

  lemma NoSchemeParts(s: string, c: nat)
    requires !Contains(s, SCHEME) && IndexChar(s, ':') == c
    ensures NormalizeClean(s) == FromAuthority(s[..c], s[c + 1..])
  {
  }

  lemma LastOfPath(a: string, c: char, slash: string)
    requires c != '/' && TrimRight(slash, IsSlash) == ""
    ensures Path(a + [c] + slash) != "" && Path(a + [c] + slash)[|Path(a + [c] + slash)| - 1] == c
  {
    TrimLeftSplits(a, c, slash, IsSlash);
    TrimRightSplits(TrimLeft(a, IsSlash), c, slash, IsSlash);
  }

  // Then the path, if there is one, ends in a colon.
  lemma BlankPath(q: string, rest: string)
    requires SchemeOf(q) && TrimRight(rest, IsSpace) == ""
    ensures var path := NormalizeGitRemote(WithScheme(q, rest)).path; path == "" || path[|path| - 1] == ':'
  {
    hide FromAuthority, NormalizeClean, Contains, Clean;
    var r := TrimLeft(q, IsSpace);
    CleanBlank(q, rest);
    TrimmedScheme(q);
    NoSchemeLeft(r);
    ColonThenSlash(r);
  }

  lemma ColonThenSlash(r: string)
    requires !Contains(r + ":/", SCHEME)
    ensures var path := NormalizeClean(r + ":/").path; path == "" || path[|path| - 1] == ':'
  {
    hide NormalizeClean, Contains, FromAuthority;
    var s := r + ":/";
    assert s[|r|] == ':';
    var c := IndexChar(s, ':');
    NoSchemeParts(s, c);
    AuthorityPath(s[..c], s[c + 1..]);
    assert TrimRight("/", IsSlash) == "";
    if c < |r| {
      assert s[c + 1..] == r[c + 1..] + [':'] + "/";
      LastOfPath(r[c + 1..], ':', "/");
    } else {
      assert s[c + 1..] == "/";
    }
  }

  lemma CleanTailOfBlank(rest: string)
    requires TrimRight(rest, IsSpace) == ""
    ensures CleanTail(rest) == ""
  {
  }

  /** With nothing behind the scheme a token makes another URL of it, or none. */
  lemma TokenBehindBareScheme(q: string, rest: string, token: string)
    requires SchemeOf(q) && TrimRight(rest, IsSpace) == ""
    ensures !SameGitRemote(WithScheme(q, WithUser(token, rest)), WithScheme(q, rest))
  {
    hide NormalizeGitRemote, WithScheme, Path;
    BlankPath(q, rest);
    CleanTailOfBlank(rest);
    if '/' in token {
      SlashedTokenPath(q, rest, token);
      EndsInAt(AfterSlash(token));
    } else {
      CredentialIsDropped(q, token, rest);
      EmptyHasNoPath();
    }
  }

  lemma EndsInAt(a: string)
    ensures var path := Path(WithUser(a, "")); path != "" && path[|path| - 1] == '@'
  {
    LastOfPath(a, '@', "");
  }

  lemma EmptyHasNoPath()
    ensures FromAuthority(BeforeSlash(""), AfterSlash("")).path == ""
  {
    hide FromAuthority;
    AuthorityPath(BeforeSlash(""), AfterSlash(""));
    assert AfterSlash("") == "" && Path("") == "";
  }

  // ---------------------------------------------------------------- an earlier scheme

  // The slash behind w splits off what w holds of the path.
  lemma AtsBehindSlash(w: string, t: string)
    ensures Ats(AfterSlash(w + ['/'] + t)) == Ats(AfterSlash(w)) + Ats(t)
  {
    if '/' in w {
      assert w + ['/'] + t == w + (['/'] + t);
      AfterSlashOfLeft(w, ['/'] + t);
      AtsConcat(AfterSlash(w), ['/'] + t);
      AtsConcat(['/'], t);
    } else {
      FirstOf(w, '/', t);
      Parts(w, '/', t);
      assert AfterSlash(w) == "";
    }
  }

  // The number of '@' in the path of a URL with "https://" behind its scheme.
  lemma InnerPathAts(q: string, m: string, z: string)
    requires SchemeOf(q)
    ensures Ats(NormalizeGitRemote(WithScheme(q, m + HTTPS + z)).path) == Ats(AfterSlash(m + "https:")) + Ats(z)
  {
    hide NormalizeGitRemote, CleanTail, BeforeSlash, AfterSlash, DropUser, DropPort;
    var w, t := m + "https:", "/" + z;
    assert m + HTTPS + z == w + ['/'] + t;
    SlashIsText(w, z);
    NormalizeParts(q, w + ['/'] + t);
    CleanTailSplits(w, '/', t);
    AtsOfPath(AfterSlash(w + ['/'] + CleanTail(t)));
    AtsBehindSlash(w, CleanTail(t));
    AtsOfCleanTail(t);
    AtsConcat("/", z);
  }

  lemma SlashIsText(w: string, z: string)
    ensures TrimRight("/" + z, IsSpace) != "" && TrimRight(w + ['/'] + ("/" + z), IsSpace) != ""
    ensures !IsSpace('/') && '/' !in GIT
  {
    TrimRightSplits("", '/', z, IsSpace);
    assert "" + ['/'] + z == "/" + z;
    TrimRightSplits(w, '/', "/" + z, IsSpace);
  }

  // A token that lands in the path changes it.
  lemma TokenInPath(q: string, m: string, rest: string, token: string)
    requires SchemeOf(q)
    ensures !SameGitRemote(WithScheme(q, m + HTTPS + WithUser(token, rest)), WithScheme(q, m + HTTPS + rest))
  {
    hide NormalizeGitRemote, AfterSlash, WithScheme;
    InnerPathAts(q, m, rest);
    InnerPathAts(q, m, WithUser(token, rest));
    AtsAround(token, '@', rest);
  }

  // ---------------------------------------------------------------- URLs as they are

  lemma InjectionSplits(h: string, token: string, i: nat)
    requires Index(h, HTTPS) == i
    ensures h == h[..i] + HTTPS + h[i + 8..]
    ensures InjectToken(h, token) == h[..i] + HTTPS + WithUser(token, h[i + 8..])
    ensures 0 <= Index(h, SCHEME) <= i + 5
  {
    CutAround(h, HTTPS, i);
    assert h[i..i + 8] == HTTPS;
    assert h[i + 5..i + 8] == HTTPS[5..8] == SCHEME;
    assert OccursAt(h, SCHEME, i + 5);
    assert h[..i] + (HTTPS + token + "@") + h[i + 8..] == h[..i] + HTTPS + WithUser(token, h[i + 8..]);
  }

  // The first scheme belongs to the first "https://".
  lemma InjectionAtScheme(h: string, token: string, i: nat) returns (q: string)
    requires Index(h, HTTPS) == i && Index(h, SCHEME) == i + 5
    ensures SchemeOf(q) && h == WithScheme(q, h[i + 8..])
    ensures InjectToken(h, token) == WithScheme(q, WithUser(token, h[i + 8..]))
  {
    hide InjectToken, WithUser, SchemeOf;
    q := h[..i + 5];
    InjectionSplits(h, token, i);
    SchemeSplits(h, i + 5);
    SchemeInHttps(h, i);
    RegroupHttps(h[..i], WithUser(token, h[i + 8..]));
  }

  lemma SchemeInHttps(h: string, i: nat)
    requires OccursAt(h, HTTPS, i)
    ensures h[..i + 5] == h[..i] + "https"
  {
    assert h[i..i + 5] == h[i..i + 8][..5];
  }

  lemma RegroupHttps(x: string, z: string)
    ensures x + HTTPS + z == WithScheme(x + "https", z)
  {
  }

  // An earlier scheme ends in front of it.
  lemma InjectionInside(h: string, token: string, i: nat) returns (q: string, m: string)
    requires Index(h, HTTPS) == i && Index(h, SCHEME) != i + 5
    ensures SchemeOf(q) && h == WithScheme(q, m + HTTPS + h[i + 8..])
    ensures InjectToken(h, token) == WithScheme(q, m + HTTPS + WithUser(token, h[i + 8..]))
  {
    hide InjectToken, WithUser;
    InjectionSplits(h, token, i);
    var j := Index(h, SCHEME);
    SchemeSplits(h, j);
    SchemesApart(h, i, j);
    q, m := h[..j], h[j + 3..i];
    CutAtScheme(h, i, j);
    RegroupUrl(q, m, h[i + 8..]);
    RegroupUrl(q, m, WithUser(token, h[i + 8..]));
  }

  lemma CutAtScheme(h: string, i: nat, j: nat)
    requires OccursAt(h, SCHEME, j) && j + 3 <= i <= |h|
    ensures h[..i] == h[..j] + SCHEME + h[j + 3..i]
  {
    assert h[j..j + 3] == SCHEME;
  }

  lemma RegroupUrl(q: string, m: string, z: string)
    ensures (q + SCHEME + m) + HTTPS + z == WithScheme(q, m + HTTPS + z)
  {
  }

  lemma SchemesApart(h: string, i: nat, j: nat)
    requires OccursAt(h, HTTPS, i) && OccursAt(h, SCHEME, j) && j < i + 5
    ensures j + 3 <= i
  {
    assert forall k :: 0 <= k < 5 ==> HTTPS[k] != ':' && HTTPS[k] != '/';
    assert forall k :: i <= k < i + 5 ==> h[k] == h[i..i + 8][k - i] == HTTPS[k - i];
    assert h[j..j + 3][0] == h[j] && h[j..j + 3][1] == h[j + 1] && h[j..j + 3][2] == h[j + 2];
    assert h[j] == ':' && h[j + 1] == '/' && h[j + 2] == '/';
  }

  // ---------------------------------------------------------------- ssh URLs

  lemma CleanSsh(p: string)
    ensures Clean(GITHUB_SSH + p) == GITHUB_SSH + CleanTail(p)
  {
    var url := GITHUB_SSH + p;
    assert url[0] == 'g';
    assert TrimLeft(url, IsSpace) == url;
    CleanTailSplits(WithUser("git", GITHUB), ':', p);
  }

  // Read as ssh, a URL names the same host and path as its https form with any user.
  lemma SshRemote(p: string)
    requires !Contains(GITHUB_SSH + CleanTail(p), SCHEME)
    ensures NormalizeGitRemote(GITHUB_SSH + p) == FromAuthority(GITHUB, CleanTail(p))
  {
    var clean := CleanTail(p);
    var s := GITHUB_SSH + clean;
    CleanSsh(p);
    assert s == WithUser("git", GITHUB) + [':'] + clean;
    FirstOf(WithUser("git", GITHUB), ':', clean);
    Parts(WithUser("git", GITHUB), ':', clean);
    DropUserOf("git", GITHUB);
  }

  lemma HttpsGithubParts(p: string)
    requires TrimRight(p, IsSpace) != ""
    ensures BeforeSlash(CleanTail(GITHUB + ['/'] + p)) == GITHUB && AfterSlash(CleanTail(GITHUB + ['/'] + p)) == CleanTail(p)
  {
    SlashIsText(GITHUB, p);
    hide CleanTail, IsSpace;
    CleanTailSplits(GITHUB, '/', p);
    FirstOf(GITHUB, '/', CleanTail(p));
    Parts(GITHUB, '/', CleanTail(p));
  }

  lemma NoColonNoScheme(s: string, n: nat)
    requires forall j :: 0 <= j < n && j < |s| ==> s[j] != ':'
    ensures forall j :: 0 <= j < n ==> !OccursAt(s, SCHEME, j)
  {
    forall j | 0 <= j < n ensures !OccursAt(s, SCHEME, j) {
      if OccursAt(s, SCHEME, j) { OccursFirst(s, SCHEME, j); }
    }
  }

  lemma HttpsIsAScheme()
    ensures SchemeOf("https")
  {
    var s := "https" + SCHEME;
    assert s[5..8] == SCHEME;
    NoColonNoScheme(s, 5);
    IndexIs(s, SCHEME, 5);
  }

  // The https form of an ssh URL, with the token.
  lemma SshTokenUrl(p: string, token: string)
    ensures HttpsUrl(GITHUB_SSH + p) == WithScheme("https", GITHUB + ['/'] + p)
    ensures Index(HttpsUrl(GITHUB_SSH + p), HTTPS) == 0 && Index(HttpsUrl(GITHUB_SSH + p), SCHEME) == 5
    ensures HttpsUrl(GITHUB_SSH + p)[8..] == GITHUB + ['/'] + p
    ensures TokenUrl(GITHUB_SSH + p, token) == WithScheme("https", WithUser(token, GITHUB + ['/'] + p))
  {
    var rest := GITHUB + ['/'] + p;
    var h := WithScheme("https", rest);
    TrimPrefixOf(GITHUB_SSH, p);
    assert GITHUB_HTTPS + p == h;
    assert h[0..8] == HTTPS && h[8..] == rest;
    IndexIs(h, HTTPS, 0);
    HttpsIsAScheme();
    SchemeFound("https", rest);
    InjectionSplits(h, token, 0);
    assert h[..0] + HTTPS + WithUser(token, rest) == WithScheme("https", WithUser(token, rest));
  }

  // The ssh user stands in front of the path, whichever way the URL is read.
  lemma SshPathAts(p: string)
    ensures Ats(NormalizeGitRemote(GITHUB_SSH + p).path) <= Ats(p)
  {
    hide NormalizeGitRemote, CleanTail, BeforeSlash, AfterSlash, FromAuthority, Path;
    var c := CleanTail(p);
    CleanSsh(p);
    AtsOfCleanTail(p);
    if Contains(GITHUB_SSH + c, SCHEME) {
      var y := SshScheme(p);
      AuthorityPath(BeforeSlash(y), AfterSlash(y));
      AtsOfPath(AfterSlash(y));
      AtsAfterSlash(y);
    } else {
      SshRemote(p);
      AuthorityPath(GITHUB, c);
      AtsOfPath(c);
    }
  }

  lemma AuthorityPath(authority: string, rest: string)
    ensures FromAuthority(authority, rest).path == Path(rest)
  {
  }

  // What stands behind the "://" an ssh URL shows: the tail of its path.
  lemma SshScheme(p: string) returns (y: string)
    requires Contains(GITHUB_SSH + CleanTail(p), SCHEME)
    ensures NormalizeGitRemote(GITHUB_SSH + p) == FromAuthority(BeforeSlash(y), AfterSlash(y))
    ensures CleanTail(p) == "//" + y || exists x :: CleanTail(p) == x + [':'] + ("//" + y)
    ensures Ats(y) <= Ats(CleanTail(p))
  {
    hide BeforeSlash, AfterSlash, FromAuthority, CleanTail, Ats;
    var c := CleanTail(p);
    var j := Index(GITHUB_SSH + c, SCHEME);
    CleanSsh(p);
    y := (GITHUB_SSH + c)[j + 3..];
    FirstColon(c, j);
    TailAtScheme(WithUser("git", GITHUB), c, j);
  }

  // A "://" at or behind the colon between g and c.
  lemma TailAtScheme(g: string, c: string, j: nat)
    requires OccursAt(g + [':'] + c, SCHEME, j) && j >= |g|
    ensures var y := (g + [':'] + c)[j + 3..];
            && (c == "//" + y || exists x :: c == x + [':'] + ("//" + y))
            && Ats(y) <= Ats(c)
  {
    hide Ats;
    var s, n := g + [':'] + c, |g| + 1;
    var y := s[j + 3..];
    Parts(g, ':', c);
    if j == |g| {
      SlashesFollow(s, j);
      CutTwo(s, n);
      AtsConcat("//", y);
    } else {
      var x := s[n..j];
      CutInner(s, n, j);
      SchemeChars(x, y);
      AtsAround(x, ':', "//" + y);
      AtsConcat("//", y);
    }
  }

  lemma CutTwo(s: string, n: nat)
    requires n + 2 <= |s|
    ensures s[n..] == s[n..n + 2] + s[n + 2..]
  {
  }

  lemma CutInner(s: string, n: nat, j: nat)
    requires OccursAt(s, SCHEME, j) && n <= j
    ensures s[n..] == s[n..j] + SCHEME + s[j + 3..]
  {
    assert s[j..j + 3] == SCHEME;
  }

  lemma SchemeChars(x: string, y: string)
    ensures x + SCHEME + y == x + [':'] + ("//" + y)
  {
  }

  lemma SlashesFollow(s: string, j: nat)
    requires OccursAt(s, SCHEME, j)
    ensures s[j + 1..j + 3] == "//"
  {
    assert s[j + 1..j + 3] == s[j..j + 3][1..3];
  }

  lemma FirstColon(c: string, j: nat)
    requires OccursAt(GITHUB_SSH + c, SCHEME, j)
    ensures j >= |GITHUB_SSH| - 1
  {
    OccursFirst(GITHUB_SSH + c, SCHEME, j);
    assert ':' !in WithUser("git", GITHUB);
    assert forall k :: 0 <= k < |GITHUB_SSH| - 1 ==> (GITHUB_SSH + c)[k] == WithUser("git", GITHUB)[k];
  }

  // ---------------------------------------------------------------- an ssh URL that shows a scheme

  lemma TrimRightKeeps(a: string, t: string)
    requires TrimRight(t, IsSlash) != ""
    ensures TrimRight(a + t, IsSlash) == a + TrimRight(t, IsSlash)
  {
    var r := TrimRight(t, IsSlash);
    TrimRightIs(t, IsSlash);
    var k := |r| - 1;
    assert t == r[..k] + [r[k]] + t[k + 1..];
    TrimRightSplits(r[..k], r[k], t[k + 1..], IsSlash);
    assert r == r[..k] + [r[k]];
    assert TrimRight(t[k + 1..], IsSlash) == "" by { assert TrimRight(t, IsSlash) == r[..k] + [r[k]] + TrimRight(t[k + 1..], IsSlash); }
    assert a + t == (a + r[..k]) + [r[k]] + t[k + 1..];
    TrimRightSplits(a + r[..k], r[k], t[k + 1..], IsSlash);
    assert a + r == (a + r[..k]) + [r[k]] + "";
  }

  lemma PathIsShorter(y: string)
    requires Path(AfterSlash(y)) != ""
    ensures TrimRight(y, IsSlash) != "" && |TrimRight(y, IsSlash)| > |Path(AfterSlash(y))|
    ensures y == BeforeSlash(y) + ['/'] + AfterSlash(y)
  {
    var i := IndexChar(y, '/');
    assert i < 0 ==> AfterSlash(y) == "" && Path("") == "";
    SplitAt(y, i);
    var t := AfterSlash(y);
    TrimLeftIs(t, IsSlash);
    TrimRightIs(t, IsSlash);
    TrimmedBothWays(t);
    TrimRightKeeps(BeforeSlash(y) + ['/'], t);
  }

  lemma TrimmedBothWays(t: string)
    requires Path(t) != ""
    ensures TrimRight(t, IsSlash) != "" && |TrimRight(t, IsSlash)| >= |Path(t)|
  {
    var l := TrimLeft(t, IsSlash);
    TrimLeftIs(t, IsSlash);
    var k := |t| - |l|;
    assert t == t[..k] + l;
    TrimRightKeeps(t[..k], l);
  }

  /** Read with a scheme, an ssh URL never names what its https form names. */
  lemma SshSchemeDiffers(c: string, y: string)
    requires c == "//" + y || exists x :: c == x + [':'] + ("//" + y)
    requires Path(AfterSlash(y)) != ""
    ensures FromAuthority(BeforeSlash(y), AfterSlash(y)).path != FromAuthority(GITHUB, c).path
            || Fold(FromAuthority(BeforeSlash(y), AfterSlash(y)).host) != Fold(FromAuthority(GITHUB, c).host)
  {
    hide DropPort, DropUser, Fold, BeforeSlash, AfterSlash;
    PathIsShorter(y);
    if c == "//" + y {
      if y[0] == '/' {
        HostlessIsNotGithub(y);
      } else {
        TwoSlashes(y);
      }
    } else {
      var x :| c == x + [':'] + ("//" + y);
      TrimLeftSplits(x, ':', "//" + y, IsSlash);
      TrimRightSplits(TrimLeft(x, IsSlash), ':', "//" + y, IsSlash);
      TrimRightKeeps("//", y);
    }
  }

  lemma TwoSlashes(y: string)
    requires y != "" && y[0] != '/'
    ensures Path("//" + y) == TrimRight(y, IsSlash)
  {
    assert ("//" + y)[1..] == "/" + y && ("/" + y)[1..] == y;
    assert TrimLeft("/" + y, IsSlash) == TrimLeft(y, IsSlash) == y;
    assert TrimLeft("//" + y, IsSlash) == TrimLeft("/" + y, IsSlash);
  }

  lemma HostlessIsNotGithub(y: string)
    requires y != "" && y[0] == '/'
    ensures Fold(FromAuthority(BeforeSlash(y), AfterSlash(y)).host) != Fold(FromAuthority(GITHUB, "//" + y).host)
  {
    hide FromAuthority, DropUser, DropPort;
    assert IndexChar(y, '/') == 0;
    AuthorityHost(BeforeSlash(y), AfterSlash(y));
    AuthorityHost(GITHUB, "//" + y);
    EmptyHost();
    GithubHost();
    assert |Fold("")| == 0 && |Fold(GITHUB)| == 10;
  }

  lemma AuthorityHost(authority: string, rest: string)
    ensures FromAuthority(authority, rest).host == DropPort(DropUser(authority))
  {
  }

  lemma EmptyHost()
    ensures DropPort(DropUser("")) == ""
  {
  }

  lemma GithubHost()
    ensures DropPort(DropUser(GITHUB)) == GITHUB
  {
    assert '@' !in GITHUB && ':' !in GITHUB;
    assert DropUser(GITHUB) == GITHUB;
  }

  // ---------------------------------------------------------------- the theorem

  lemma SshTokenIff(p: string, token: string)
    requires SameGitRemote(GITHUB_SSH + p, GITHUB_SSH + p)
    ensures SameGitRemote(TokenUrl(GITHUB_SSH + p, token), GITHUB_SSH + p) <==> '/' !in token && !Contains(GITHUB_SSH + CleanTail(p), SCHEME)
  {
    hide NormalizeGitRemote, FromAuthority, BeforeSlash, AfterSlash, CleanTail, TokenUrl, WithScheme, WithUser, Contains, Path, Ats;
    var rest := GITHUB + ['/'] + p;
    SshTokenUrl(p, token);
    HttpsIsAScheme();
    if '/' in token {
      SlashedTokenAts("https", rest, token);
      SshPathAts(p);
      AtsAround(GITHUB, '/', p);
    } else {
      if TrimRight(p, IsSpace) == "" { BlankSsh(p); }
      CredentialIsDropped("https", token, rest);
      HttpsGithubParts(p);
      if Contains(GITHUB_SSH + CleanTail(p), SCHEME) {
        var y := SshScheme(p);
        AuthorityPath(BeforeSlash(y), AfterSlash(y));
        SshSchemeDiffers(CleanTail(p), y);
      } else {
        SshRemote(p);
      }
    }
  }

  lemma BlankSsh(p: string)
    requires TrimRight(p, IsSpace) == ""
    ensures NormalizeGitRemote(GITHUB_SSH + p).path == ""
  {
    hide NormalizeGitRemote, FromAuthority, Contains, Path;
    CleanTailOfBlank(p);
    assert GITHUB_SSH + "" == GITHUB_SSH;
    SshHasNoScheme();
    SshRemote(p);
    AuthorityPath(GITHUB, "");
    EmptyPath();
  }

  lemma EmptyPath()
    ensures Path("") == ""
  {
  }

  lemma SshHasNoScheme()
    ensures !Contains(GITHUB_SSH, SCHEME)
  {
    forall j | 0 <= j <= |GITHUB_SSH| ensures !OccursAt(GITHUB_SSH, SCHEME, j) {
      if OccursAt(GITHUB_SSH, SCHEME, j) {
        assert GITHUB_SSH + "" == GITHUB_SSH;
        FirstColon("", j);
      }
    }
  }

  lemma InjectedIff(h: string, token: string, i: nat)
    requires SameGitRemote(h, h) && Index(h, HTTPS) == i
    ensures SameGitRemote(InjectToken(h, token), h)
            <==> '/' !in token && Index(h, SCHEME) == i + 5 && TrimRight(h[i + 8..], IsSpace) != ""
  {
    hide NormalizeGitRemote, InjectToken, WithScheme, WithUser, Ats, CleanTail;
    var rest := h[i + 8..];
    if Index(h, SCHEME) != i + 5 {
      var q, m := InjectionInside(h, token, i);
      TokenInPath(q, m, rest, token);
    } else {
      var q := InjectionAtScheme(h, token, i);
      if TrimRight(rest, IsSpace) == "" {
        TokenBehindBareScheme(q, rest, token);
      } else if '/' in token {
        SlashedTokenAts(q, rest, token);
        PlainPathAts(q, rest);
      } else {
        TokenBehindScheme(q, rest, token);
      }
    }
  }

  /** A clone made by the token fallback counts as a clone of the declared URL exactly
      when normalising drops the token, for every URL that is understood and every token. */
  lemma TokenCloneIsAcceptedIff(url: string, token: string)
    requires SameGitRemote(url, url)
    ensures SameGitRemote(TokenUrl(url, token), url) <==> TokenIsDropped(url, token)
  {
    hide NormalizeGitRemote, CleanTail, Contains, Clean, InjectToken, TokenUrl, WithScheme;
    if HasPrefix(url, GITHUB_SSH) {
      var p := TrimPrefix(url, GITHUB_SSH);
      PrefixSplits(url, GITHUB_SSH);
      SshTokenIff(p, token);
      SshTokenUrl(p, token);
      CleanSsh(p);
      TextBehindHost(p);
    } else {
      PlainTokenIff(url, token);
    }
  }

  lemma TextBehindHost(p: string)
    ensures TrimRight(GITHUB + ['/'] + p, IsSpace) != ""
  {
    TrimRightSplits(GITHUB, '/', p, IsSpace);
  }

  lemma PlainTokenIff(url: string, token: string)
    requires SameGitRemote(url, url) && !HasPrefix(url, GITHUB_SSH)
    ensures SameGitRemote(TokenUrl(url, token), url) <==> TokenIsDropped(url, token)
  {
    hide NormalizeGitRemote, CleanTail, Contains, Clean;
    if Index(url, HTTPS) >= 0 { InjectedIff(url, token, Index(url, HTTPS)); }
  }
}
