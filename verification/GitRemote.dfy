/** Git URLs reduced to a host and a path, and the scenario directory named after them. */
module GitRemote {
  import opened Text

  datatype Remote = Remote(host: string, path: string)

  const SCHEME := "://"
  const GIT := ".git"

  predicate IsSlash(c: char) { c == '/' }

  // ---------------------------------------------------------------- normalising

  // Trailing space, one trailing slash and one trailing .git go, in that order.
  function CleanTail(s: string): string { TrimSuffix(TrimSuffix(TrimRight(s, IsSpace), "/"), GIT) }

  function Clean(url: string): string { CleanTail(TrimLeft(url, IsSpace)) }

  function BeforeSlash(s: string): string { if IndexChar(s, '/') < 0 then s else s[..IndexChar(s, '/')] }

  function AfterSlash(s: string): string { if IndexChar(s, '/') < 0 then "" else s[IndexChar(s, '/') + 1..] }

  function DropUser(authority: string): string { authority[LastIndexChar(authority, '@') + 1..] }

  function DropPort(authority: string): string {
    var c := LastIndexChar(authority, ':');
    if c >= 0 && AllDigits(authority[c + 1..]) then authority[..c] else authority
  }

  function FromAuthority(authority: string, rest: string): Remote {
    Remote(DropPort(DropUser(authority)), TrimRight(TrimLeft(rest, IsSlash), IsSlash))
  }

  function NormalizeClean(s: string): Remote {
    var i := Index(s, SCHEME);
    if i >= 0 then FromAuthority(BeforeSlash(s[i + 3..]), AfterSlash(s[i + 3..]))
    else
      var c := IndexChar(s, ':');
      if c >= 0 then FromAuthority(s[..c], s[c + 1..]) else Remote("", "")
  }

  function NormalizeGitRemote(url: string): Remote { NormalizeClean(Clean(url)) }

  // ---------------------------------------------------------------- hiding the credential

  function RedactGitUrl(url: string): string {
    var i := Index(url, SCHEME);
    if i < 0 then url
    else
      var rest := url[i + 3..];
      var at := LastIndexChar(BeforeSlash(rest), '@');
      if at < 0 then url else url[..i + 3] + "***@" + rest[at + 1..]
  }

  // ---------------------------------------------------------------- the same repository

  function FoldChar(c: char): char { if 'A' <= c <= 'Z' then c - 'A' + 'a' else c }

  function Fold(s: string): string { seq(|s|, i requires 0 <= i < |s| => FoldChar(s[i])) }

  predicate SameGitRemote(a: string, b: string) {
    var ra, rb := NormalizeGitRemote(a), NormalizeGitRemote(b);
    ra.path != "" && rb.path != "" && Fold(ra.host) == Fold(rb.host) && ra.path == rb.path
  }

  // ---------------------------------------------------------------- the directory a scenario clones into

  datatype OwnerRepo = OwnerRepo(owner: string, repo: string)

  function SplitOwnerRepo(url: string): OwnerRepo {
    var path := NormalizeGitRemote(url).path;
    if path == "" then OwnerRepo("", "")
    else
      var segs := Split(path, '/');
      if |segs| < 2 then OwnerRepo("", segs[|segs| - 1]) else OwnerRepo(segs[|segs| - 2], segs[|segs| - 1])
  }

  function InertChar(c: char): char { if c == '/' || c == '\\' || c == '\0' then '_' else c }

  function SanitizePathSegment(s: string): string {
    if s == "" || s == "." || s == ".." then "" else seq(|s|, i requires 0 <= i < |s| => InertChar(s[i]))
  }

  function DirNameOf(pair: OwnerRepo): string {
    var repo := SanitizePathSegment(pair.repo);
    if repo == "" then ""
    else if pair.owner == "" then repo
    else
      var owner := SanitizePathSegment(pair.owner);
      if owner == "" then "" else owner + "__" + repo
  }

  function ScenarioDirName(url: string): string { DirNameOf(SplitOwnerRepo(url)) }

  // ---------------------------------------------------------------- cleaning keeps what stands before a seam

  // A suffix longer than the right part holds the seam's character.
  lemma SuffixHolds(h: string, c: char, t: string, p: string)
    requires HasSuffix(h + [c] + t, p) && |p| > |t|
    ensures c in p
  {
    var s := h + [c] + t;
    assert p[|p| - |t| - 1] == s[|s| - |t| - 1];
  }

  // A suffix that the seam's character is not part of is cut from the right part alone.
  lemma TrimSuffixSplits(h: string, c: char, t: string, p: string)
    requires c !in p || |p| <= |t|
    ensures TrimSuffix(h + [c] + t, p) == h + [c] + TrimSuffix(t, p)
  {
    var s := h + [c] + t;
    if |p| <= |t| {
      assert s[|s| - |p|..] == t[|t| - |p|..];
      if HasSuffix(t, p) { assert s[..|s| - |p|] == h + [c] + t[..|t| - |p|]; }
    } else if HasSuffix(s, p) {
      SuffixHolds(h, c, t, p);
      assert false;
    }
  }

  lemma CleanTailSplits(h: string, c: char, t: string)
    requires !IsSpace(c) && c !in GIT && (c == '/' ==> TrimRight(t, IsSpace) != "")
    ensures CleanTail(h + [c] + t) == h + [c] + CleanTail(t)
  {
    var t1 := TrimRight(t, IsSpace);
    TrimRightSplits(h, c, t, IsSpace);
    TrimSuffixSplits(h, c, t1, "/");
    TrimSuffixSplits(h, c, TrimSuffix(t1, "/"), GIT);
  }

  // ---------------------------------------------------------------- URLs with a scheme

  function WithScheme(q: string, rest: string): string { q + SCHEME + rest }

  // The first "://" of q + "://" is the one at its end.
  predicate SchemeOf(q: string) { Index(q + SCHEME, SCHEME) == |q| }

  lemma SchemeFound(q: string, rest: string)
    requires SchemeOf(q)
    ensures Index(WithScheme(q, rest), SCHEME) == |q|
    ensures WithScheme(q, rest)[|q| + 3..] == rest
  {
    var s := WithScheme(q, rest);
    assert s[|q|..|q| + 3] == SCHEME;
    forall j | 0 <= j < |q| ensures !OccursAt(s, SCHEME, j) {
      assert s[j..j + 3] == (q + SCHEME)[j..j + 3];
      assert !OccursAt(q + SCHEME, SCHEME, j);
    }
    IndexIs(s, SCHEME, |q|);
  }

  // Taking leading space off a scheme does not move its "://".
  lemma TrimmedScheme(q: string)
    requires SchemeOf(q)
    ensures SchemeOf(TrimLeft(q, IsSpace))
  {
    var r := TrimLeft(q, IsSpace);
    TrimLeftIs(q, IsSpace);
    var k := |q| - |r|;
    assert (r + SCHEME)[|r|..|r| + 3] == SCHEME;
    forall j | 0 <= j < |r| ensures !OccursAt(r + SCHEME, SCHEME, j) {
      assert (r + SCHEME)[j..j + 3] == (q + SCHEME)[k + j..k + j + 3];
      assert !OccursAt(q + SCHEME, SCHEME, k + j);
    }
    IndexIs(r + SCHEME, SCHEME, |r|);
  }

  lemma TrimLeftOfUrl(q: string, rest: string)
    ensures TrimLeft(WithScheme(q, rest), IsSpace) == WithScheme(TrimLeft(q, IsSpace), rest)
  {
    assert WithScheme(q, rest) == q + [':'] + ("//" + rest);
    TrimLeftSplits(q, ':', "//" + rest, IsSpace);
    assert TrimLeft(q, IsSpace) + [':'] + ("//" + rest) == WithScheme(TrimLeft(q, IsSpace), rest);
  }

  lemma CleanParts(q: string, rest: string)
    requires TrimRight(rest, IsSpace) != ""
    ensures Clean(WithScheme(q, rest)) == WithScheme(TrimLeft(q, IsSpace), CleanTail(rest))
  {
    assert !IsSpace('/') && '/' !in GIT;
    hide CleanTail, IsSpace;
    var r := TrimLeft(q, IsSpace);
    TrimLeftOfUrl(q, rest);
    SlashSeam(r, rest);
    CleanTailSplits(r + ":/", '/', rest);
    SlashSeam(r, CleanTail(rest));
  }

  lemma SlashSeam(q: string, rest: string)
    ensures WithScheme(q, rest) == (q + ":/") + ['/'] + rest
  {
  }

  // What a URL with a scheme is normalised to, when anything follows the scheme.
  lemma NormalizeParts(q: string, rest: string)
    requires SchemeOf(q) && TrimRight(rest, IsSpace) != ""
    ensures NormalizeGitRemote(WithScheme(q, rest)) == FromAuthority(BeforeSlash(CleanTail(rest)), AfterSlash(CleanTail(rest)))
  {
    hide CleanTail, FromAuthority, BeforeSlash, AfterSlash, Clean, WithScheme;
    var r := TrimLeft(q, IsSpace);
    CleanParts(q, rest);
    TrimmedScheme(q);
    SchemeFound(r, CleanTail(rest));
  }

  // ---------------------------------------------------------------- a credential in front of the host

  function WithUser(user: string, rest: string): string { user + ['@'] + rest }

  lemma UserOfAuthority(user: string, rest: string)
    requires '/' !in user
    ensures BeforeSlash(WithUser(user, rest)) == WithUser(user, BeforeSlash(rest))
    ensures AfterSlash(WithUser(user, rest)) == AfterSlash(rest)
  {
    var j := IndexChar(rest, '/');
    if j >= 0 {
      var host, path := rest[..j], rest[j + 1..];
      SplitAt(rest, j);
      assert WithUser(user, rest) == WithUser(user, host) + ['/'] + path;
      FirstOf(WithUser(user, host), '/', path);
      Parts(WithUser(user, host), '/', path);
    }
  }

  lemma DropUserOf(user: string, host: string)
    ensures DropUser(WithUser(user, host)) == DropUser(host)
  {
    var j := LastIndexChar(host, '@');
    if j < 0 {
      LastOf(user, '@', host);
      Parts(user, '@', host);
    } else {
      var inner, last := host[..j], host[j + 1..];
      SplitAt(host, j);
      assert WithUser(user, host) == WithUser(WithUser(user, inner), last);
      LastOf(WithUser(user, inner), '@', last);
      Parts(WithUser(user, inner), '@', last);
    }
  }

  lemma CleanWithUser(user: string, rest: string)
    ensures CleanTail(WithUser(user, rest)) == WithUser(user, CleanTail(rest))
    ensures TrimRight(WithUser(user, rest), IsSpace) != ""
  {
    CleanTailSplits(user, '@', rest);
    TrimRightSplits(user, '@', rest, IsSpace);
  }

  // A credential in front of the host does not change what the URL names.
  lemma CredentialIsDropped(q: string, user: string, rest: string)
    requires SchemeOf(q) && '/' !in user
    ensures NormalizeGitRemote(WithScheme(q, WithUser(user, rest))) == FromAuthority(BeforeSlash(CleanTail(rest)), AfterSlash(CleanTail(rest)))
  {
    var clean := CleanTail(rest);
    CleanWithUser(user, rest);
    NormalizeParts(q, WithUser(user, rest));
    UserOfAuthority(user, clean);
    DropUserOf(user, BeforeSlash(clean));
  }

  // ---------------------------------------------------------------- redaction

  lemma CutAround(s: string, sub: string, i: nat)
    requires OccursAt(s, sub, i)
    ensures s[..i] + sub == s[..i + |sub|]
    ensures s == s[..i] + sub + s[i + |sub|..]
  {
    assert s[i..i + |sub|] == sub;
  }

  // A URL cut at its first "://".
  lemma SchemeSplits(url: string, i: nat)
    requires Index(url, SCHEME) == i
    ensures SchemeOf(url[..i]) && url == WithScheme(url[..i], url[i + 3..])
    ensures url[..i] + SCHEME == url[..i + 3]
  {
    var s := url[..i + 3];
    CutAround(url, SCHEME, i);
    forall j | 0 <= j < i ensures !OccursAt(s, SCHEME, j) {
      if OccursAt(s, SCHEME, j) { OccursInPrefix(s, url, SCHEME, j); }
    }
    assert s[i..i + 3] == url[i..i + 3];
    IndexIs(s, SCHEME, i);
  }

  // The part after a scheme cut at the last '@' of its authority.
  lemma UserSplits(all: string, at: nat)
    requires LastIndexChar(BeforeSlash(all), '@') == at
    ensures at < |all| && '/' !in all[..at] && '@' !in BeforeSlash(all[at + 1..])
    ensures all == WithUser(all[..at], all[at + 1..])
  {
    var authority := BeforeSlash(all);
    var user, rest := all[..at], all[at + 1..];
    SplitAt(all, at);
    assert user == authority[..at];
    UserOfAuthority(user, rest);
    Parts(user, '@', BeforeSlash(rest));
    assert BeforeSlash(rest) == authority[at + 1..];
  }

  // What redaction finds: the scheme, a credential free of '/', and the rest.
  lemma RedactedParts(url: string) returns (q: string, user: string, rest: string)
    requires RedactGitUrl(url) != url
    ensures SchemeOf(q) && '/' !in user && '@' !in BeforeSlash(rest)
    ensures url == WithScheme(q, WithUser(user, rest))
    ensures RedactGitUrl(url) == WithScheme(q, WithUser("***", rest))
  {
    hide BeforeSlash, SchemeOf;
    var i := Index(url, SCHEME);
    var all := url[i + 3..];
    var at := LastIndexChar(BeforeSlash(all), '@');
    SchemeSplits(url, i);
    UserSplits(all, at);
    q, user, rest := url[..i], all[..at], all[at + 1..];
    StarSeam(q, rest);
  }

  lemma StarSeam(q: string, rest: string)
    ensures (q + SCHEME) + "***@" + rest == WithScheme(q, WithUser("***", rest))
  {
  }

  /** A redacted URL still names the same repository, for every URL. */
  lemma RedactionKeepsTheRemote(url: string)
    ensures NormalizeGitRemote(RedactGitUrl(url)) == NormalizeGitRemote(url)
  {
    hide RedactGitUrl, NormalizeGitRemote, FromAuthority, BeforeSlash, AfterSlash, CleanTail;
    if RedactGitUrl(url) != url {
      var q, user, rest := RedactedParts(url);
      CredentialIsDropped(q, user, rest);
      CredentialIsDropped(q, "***", rest);
    }
  }

  /** What redaction prints does not depend on the credential it hides. */
  lemma RedactionHidesTheCredential(q: string, user: string, rest: string)
    requires SchemeOf(q) && '/' !in user && '@' !in BeforeSlash(rest)
    ensures RedactGitUrl(WithScheme(q, WithUser(user, rest))) == WithScheme(q, WithUser("***", rest))
  {
    var all := WithUser(user, rest);
    SchemeFound(q, all);
    UserOfAuthority(user, rest);
    LastOf(user, '@', BeforeSlash(rest));
    Parts(user, '@', rest);
    assert WithScheme(q, all)[..|q| + 3] == q + SCHEME;
    StarSeam(q, rest);
  }

  // ---------------------------------------------------------------- sameness

  /** Sameness is symmetric and transitive, holds of a URL and itself exactly when the
      URL was understood, and puts both URLs in one directory. */
  lemma SameRemoteIsAnEquivalence(a: string, b: string, c: string)
    ensures SameGitRemote(a, b) ==> SameGitRemote(b, a) && ScenarioDirName(a) == ScenarioDirName(b)
    ensures SameGitRemote(a, b) && SameGitRemote(b, c) ==> SameGitRemote(a, c)
    ensures SameGitRemote(a, a) <==> NormalizeGitRemote(a).path != ""
  {
    hide NormalizeGitRemote;
  }

  /** Every URL that gets a directory matches itself, redacted or not: a second init
      accepts the clone the first one made. */
  lemma OwnCloneIsAccepted(url: string)
    requires ScenarioDirName(url) != ""
    ensures SameGitRemote(url, url) && SameGitRemote(RedactGitUrl(url), url)
    ensures ScenarioDirName(RedactGitUrl(url)) == ScenarioDirName(url)
  {
    hide NormalizeGitRemote, RedactGitUrl;
    RedactionKeepsTheRemote(url);
  }

  // ---------------------------------------------------------------- the directory name

  predicate Traverses(s: string) { s == "" || s == "." || s == ".." }

  lemma SanitizedIs(s: string)
    ensures var r := SanitizePathSegment(s);
            && (Traverses(r) <==> r == "") && (r == "" <==> Traverses(s))
            && '/' !in r && '\\' !in r && '\0' !in r
  {
    var r := SanitizePathSegment(s);
    if |s| == 1 { assert s == [s[0]] && (s == "." <==> s[0] == '.'); }
    if |s| == 2 { assert s == [s[0], s[1]] && (s == ".." <==> s[0] == '.' && s[1] == '.'); }
  }

  /** A directory name is one inert path component, whatever the URL holds; and there is
      one exactly when neither of the last two segments is a traversal or the repo empty. */
  lemma DirNameIsInert(pair: OwnerRepo)
    ensures var dir := DirNameOf(pair);
            && '/' !in dir && '\\' !in dir && '\0' !in dir && dir != "." && dir != ".."
            && (dir != "" <==> !Traverses(pair.repo) && (pair.owner == "" || !Traverses(pair.owner)))
  {
    SanitizedIs(pair.repo);
    SanitizedIs(pair.owner);
  }

  lemma ScenarioDirIsOneComponent(url: string)
    ensures var dir := ScenarioDirName(url); '/' !in dir && '\\' !in dir && '\0' !in dir && dir != "." && dir != ".."
    ensures ScenarioDirName(url) != "" ==> NormalizeGitRemote(url).path != ""
  {
    hide NormalizeGitRemote, DirNameOf;
    DirNameIsInert(SplitOwnerRepo(url));
    NoPairNoDir();
  }

  lemma NoPairNoDir()
    ensures DirNameOf(OwnerRepo("", "")) == ""
  {
  }

  // A path segment that can name a directory.
  predicate Segment(s: string) { !Traverses(s) && '/' !in s }

  predicate Owned(pair: OwnerRepo) { Segment(pair.owner) && Segment(pair.repo) }

  lemma SegmentsHaveNoSlash(url: string)
    ensures '/' !in SplitOwnerRepo(url).owner && '/' !in SplitOwnerRepo(url).repo
  {
    hide NormalizeGitRemote;
    SplitPiecesFree(NormalizeGitRemote(url).path, '/');
  }

  // A character that is an underscore in the directory name.
  predicate Blurs(c: char) { c == '_' || c == '\\' || c == '\0' }

  predicate Plain(s: string) { forall i :: 0 <= i < |s| ==> !Blurs(s[i]) }

  predicate SharesDir(b: OwnerRepo, a: OwnerRepo) { b != a && Owned(b) && DirNameOf(b) == DirNameOf(a) }

  lemma OwnedDir(pair: OwnerRepo)
    requires Owned(pair)
    ensures var o, r := SanitizePathSegment(pair.owner), SanitizePathSegment(pair.repo);
            && |o| == |pair.owner| && |r| == |pair.repo| && DirNameOf(pair) == o + ['_'] + (['_'] + r)
  {
  }

  // The other character that becomes an underscore, at position i.
  function Swapped(s: string, i: nat): string
    requires i < |s|
  {
    s[i := if s[i] == '_' then '\\' else '_']
  }

  lemma SwappedSharesSegment(s: string, i: nat)
    requires Segment(s) && i < |s| && Blurs(s[i])
    ensures Segment(Swapped(s, i)) && Swapped(s, i) != s && SanitizePathSegment(Swapped(s, i)) == SanitizePathSegment(s)
  {
    var t := Swapped(s, i);
    assert t[i] != s[i] && t[i] != '.';
    assert !Traverses(t);
    assert SanitizePathSegment(t) == SanitizePathSegment(s);
  }

  lemma BlurredIsShared(a: OwnerRepo) returns (b: OwnerRepo)
    requires Owned(a) && (!Plain(a.owner) || !Plain(a.repo))
    ensures SharesDir(b, a)
  {
    if !Plain(a.owner) {
      var i :| 0 <= i < |a.owner| && Blurs(a.owner[i]);
      SwappedSharesSegment(a.owner, i);
      b := a.(owner := Swapped(a.owner, i));
    } else {
      var i :| 0 <= i < |a.repo| && Blurs(a.repo[i]);
      SwappedSharesSegment(a.repo, i);
      b := a.(repo := Swapped(a.repo, i));
    }
    OwnedDir(a);
    OwnedDir(b);
  }

  // A segment whose sanitized form is plain was not rewritten.
  lemma PlainIsUnchanged(s: string, plain: string)
    requires Segment(s) && Plain(plain) && SanitizePathSegment(s) == plain
    ensures s == plain
  {
    forall i | 0 <= i < |s| ensures s[i] == plain[i] { assert !Blurs(plain[i]); }
  }

  lemma PlainStays(s: string)
    requires Segment(s) && Plain(s)
    ensures SanitizePathSegment(s) == s
  {
    assert forall i :: 0 <= i < |s| ==> !Blurs(s[i]);
  }

  // Where the only two underscores of a text stand.
  lemma TwoUnderscores(x: string, y: string, o: string, r: string)
    requires '_' !in x && '_' !in y && x + ['_'] + (['_'] + y) == o + ['_'] + (['_'] + r)
    ensures o == x && r == y
  {
    var s := x + ['_'] + (['_'] + y);
    FirstOf(x, '_', ['_'] + y);
    assert s == x + ['_'] + ['_'] + y && s == o + ['_'] + ['_'] + r;
    LastOf(x + ['_'], '_', y);
    assert s[|o|] == '_' && s[|o| + 1] == '_';
    assert |o| == |x|;
    Parts(x, '_', ['_'] + y);
    Parts(o, '_', ['_'] + r);
    TrimPrefixOf(['_'], y);
    TrimPrefixOf(['_'], r);
  }

  lemma PlainIsNotShared(a: OwnerRepo, b: OwnerRepo)
    requires Owned(a) && Plain(a.owner) && Plain(a.repo)
    ensures !SharesDir(b, a)
  {
    if Owned(b) && DirNameOf(b) == DirNameOf(a) {
      OwnedDir(a);
      OwnedDir(b);
      PlainStays(a.owner);
      PlainStays(a.repo);
      assert '_' !in a.owner && '_' !in a.repo;
      TwoUnderscores(a.owner, a.repo, SanitizePathSegment(b.owner), SanitizePathSegment(b.repo));
      PlainIsUnchanged(b.owner, a.owner);
      PlainIsUnchanged(b.repo, a.repo);
    }
  }

  /** A repository shares its directory with another owner and repository exactly when one
      of its two names holds an underscore, a backslash or a NUL. */
  lemma SharedDirIff(a: OwnerRepo)
    requires Owned(a)
    ensures (exists b :: SharesDir(b, a)) <==> !Plain(a.owner) || !Plain(a.repo)
  {
    if !Plain(a.owner) || !Plain(a.repo) {
      var b := BlurredIsShared(a);
    } else {
      forall b ensures !SharesDir(b, a) { PlainIsNotShared(a, b); }
    }
  }

  /** A URL with one path segment, spelled like the directory name, always shares it too. */
  lemma OneSegmentShares(a: OwnerRepo)
    requires Owned(a)
    ensures DirNameOf(OwnerRepo("", DirNameOf(a))) == DirNameOf(a)
  {
    DirNameIsInert(a);
    OwnedDir(a);
    var dir := DirNameOf(a);
    assert !Traverses(dir) && SanitizePathSegment(dir) == dir;
  }

  // A segment sanitizing leaves as it is.
  predicate Inert(s: string) { !Traverses(s) && forall i :: 0 <= i < |s| ==> InertChar(s[i]) == s[i] }

  lemma InertStays(pair: OwnerRepo)
    requires Inert(pair.owner) && Inert(pair.repo)
    ensures DirNameOf(pair) == pair.owner + ['_'] + ("_" + pair.repo)
  {
    assert SanitizePathSegment(pair.owner) == pair.owner && SanitizePathSegment(pair.repo) == pair.repo;
  }

  /** A corollary for names as forges allow them: without backslash or NUL anywhere and
      without underscores in the owners, even repos with underscores are kept apart. */
  lemma InertOwnersAreKeptApart(a: OwnerRepo, b: OwnerRepo)
    requires Inert(a.owner) && Inert(a.repo) && Inert(b.owner) && Inert(b.repo)
    requires '_' !in a.owner && '_' !in b.owner
    ensures DirNameOf(a) == DirNameOf(b) <==> a == b
  {
    InertStays(a);
    InertStays(b);
    if DirNameOf(a) == DirNameOf(b) {
      FirstOf(a.owner, '_', "_" + a.repo);
      FirstOf(b.owner, '_', "_" + b.repo);
      Parts(a.owner, '_', "_" + a.repo);
      Parts(b.owner, '_', "_" + b.repo);
      TrimPrefixOf("_", a.repo);
      TrimPrefixOf("_", b.repo);
    }
  }

  /** Two collisions: underscores in an owner's name, and a backslash in a repo's. */
  lemma BlurredNamesCollide()
    ensures DirNameOf(OwnerRepo("a__b", "c")) == DirNameOf(OwnerRepo("a", "b__c"))
    ensures DirNameOf(OwnerRepo("o", "a\\b")) == DirNameOf(OwnerRepo("o", "a_b")) == "o__a_b"
  {
    assert SanitizePathSegment("a__b") == "a__b" && SanitizePathSegment("c") == "c";
    assert SanitizePathSegment("a") == "a" && SanitizePathSegment("b__c") == "b__c";
    assert SanitizePathSegment("a\\b") == "a_b" == SanitizePathSegment("a_b") && SanitizePathSegment("o") == "o";
  }
}
