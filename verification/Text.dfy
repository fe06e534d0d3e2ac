/** The string operations the modelled code calls, with the facts about them
    that the proofs use. Positions are -1 when nothing is found, as in Go. */
module Text {

  // ---------------------------------------------------------------- splitting and joining on one character

  function Split(s: string, c: char): (parts: seq<string>)
    ensures |parts| >= 1
  {
    if s == [] then [[]]
    else
      var rest := Split(s[1..], c);
      if s[0] == c then [[]] + rest else Prepend(s[0], rest)
  }

  function Prepend(ch: char, parts: seq<string>): (out: seq<string>)
    requires |parts| >= 1
    ensures |out| == |parts|
  {
    [[ch] + parts[0]] + parts[1..]
  }

  lemma PrependConcat(ch: char, a: seq<string>, b: seq<string>)
    requires |a| >= 1
    ensures Prepend(ch, a + b) == Prepend(ch, a) + b
  {
    assert (a + b)[1..] == a[1..] + b;
  }

  function Join(parts: seq<string>, c: char): string
    requires |parts| >= 1
  {
    if |parts| == 1 then parts[0] else parts[0] + [c] + Join(parts[1..], c)
  }

  lemma {:induction false} SplitPiece(s: string, c: char)
    requires c !in s
    ensures Split(s, c) == [s]
  {
    if s != [] {
      SplitPiece(s[1..], c);
      assert [s[0]] + s[1..] == s;
    }
  }

  lemma {:induction false} SplitPiecesFree(s: string, c: char)
    ensures forall i :: 0 <= i < |Split(s, c)| ==> c !in Split(s, c)[i]
  {
    if s != [] { SplitPiecesFree(s[1..], c); }
  }

  lemma HeadAndTail(a: string, b: string, c: string)
    requires a != []
    ensures (a + b + c)[0] == a[0] && (a + b + c)[1..] == a[1..] + b + c
  {
  }

  lemma {:induction false} SplitConcat(a: string, b: string, c: char)
    ensures Split(a + [c] + b, c) == Split(a, c) + Split(b, c)
  {
    var whole := a + [c] + b;
    if a == [] {
      assert whole[0] == c && whole[1..] == b;
    } else {
      SplitConcat(a[1..], b, c);
      HeadAndTail(a, [c], b);
      PrependConcat(a[0], Split(a[1..], c), Split(b, c));
    }
  }

  /** Lines put together and taken apart again are the same lines. */
  lemma {:induction false} SplitOfJoin(parts: seq<string>, c: char)
    requires |parts| >= 1 && forall i :: 0 <= i < |parts| ==> c !in parts[i]
    ensures Split(Join(parts, c), c) == parts
  {
    SplitPiece(parts[0], c);
    if |parts| > 1 {
      SplitOfJoin(parts[1..], c);
      SplitConcat(parts[0], Join(parts[1..], c), c);
    }
  }

  lemma {:induction false} JoinConcat(a: seq<string>, b: seq<string>, c: char)
    requires |a| >= 1 && |b| >= 1
    ensures Join(a + b, c) == Join(a, c) + [c] + Join(b, c)
  {
    if |a| == 1 {
      assert (a + b)[1..] == b;
    } else {
      assert (a + b)[1..] == a[1..] + b;
      JoinConcat(a[1..], b, c);
    }
  }

  // ---------------------------------------------------------------- searching

  predicate OccursAt(s: string, sub: string, i: int) {
    0 <= i <= |s| - |sub| && s[i..i + |sub|] == sub
  }

  predicate Contains(s: string, sub: string) {
    exists i :: 0 <= i <= |s| && OccursAt(s, sub, i)
  }

  // The least position of `sub` in `s` at or after `from`.
  function IndexFrom(s: string, sub: string, from: nat): (i: int)
    requires from <= |s|
    ensures -1 <= i
    ensures i >= 0 ==> from <= i && OccursAt(s, sub, i) && forall j :: from <= j < i ==> !OccursAt(s, sub, j)
    ensures i < 0 ==> forall j :: from <= j ==> !OccursAt(s, sub, j)
    decreases |s| - from
  {
    if OccursAt(s, sub, from) then from
    else if from == |s| then -1
    else IndexFrom(s, sub, from + 1)
  }

  function Index(s: string, sub: string): (i: int)
    ensures -1 <= i
    ensures i >= 0 ==> OccursAt(s, sub, i) && forall j :: 0 <= j < i ==> !OccursAt(s, sub, j)
    ensures i < 0 <==> !Contains(s, sub)
  {
    IndexFrom(s, sub, 0)
  }

  lemma OccursFirst(s: string, sub: string, i: int)
    requires OccursAt(s, sub, i) && sub != ""
    ensures s[i] == sub[0]
  {
    assert s[i..i + |sub|][0] == s[i];
  }

  lemma OccursInPrefix(s: string, whole: string, sub: string, i: int)
    requires s <= whole && OccursAt(s, sub, i)
    ensures OccursAt(whole, sub, i)
  {
    assert whole[i..i + |sub|] == s[i..i + |sub|];
  }

  lemma PrefixContains(s: string, whole: string, sub: string)
    requires s <= whole && !Contains(whole, sub)
    ensures !Contains(s, sub)
  {
    forall i | 0 <= i <= |s| ensures !OccursAt(s, sub, i) {
      if OccursAt(s, sub, i) { OccursInPrefix(s, whole, sub, i); }
    }
  }

  // The position is determined: the only occurrence with none before it.
  lemma IndexIs(s: string, sub: string, i: nat)
    requires OccursAt(s, sub, i)
    requires forall j :: 0 <= j < i ==> !OccursAt(s, sub, j)
    ensures Index(s, sub) == i
  {
  }

  function FirstFrom(s: string, c: char, from: nat): (i: int)
    requires from <= |s|
    ensures -1 <= i < |s|
    ensures i >= 0 ==> from <= i && s[i] == c && forall j :: from <= j < i ==> s[j] != c
    ensures i < 0 ==> forall j :: from <= j < |s| ==> s[j] != c
    decreases |s| - from
  {
    if from == |s| then -1 else if s[from] == c then from else FirstFrom(s, c, from + 1)
  }

  function IndexChar(s: string, c: char): (i: int)
    ensures -1 <= i < |s|
    ensures i >= 0 ==> s[i] == c && forall j :: 0 <= j < i ==> s[j] != c
    ensures i < 0 <==> c !in s
  {
    FirstFrom(s, c, 0)
  }

  function LastBefore(s: string, c: char, n: nat): (i: int)
    requires n <= |s|
    ensures -1 <= i < n
    ensures i >= 0 ==> s[i] == c && forall j :: i < j < n ==> s[j] != c
    ensures i < 0 ==> forall j :: 0 <= j < n ==> s[j] != c
  {
    if n == 0 then -1 else if s[n - 1] == c then n - 1 else LastBefore(s, c, n - 1)
  }

  function LastIndexChar(s: string, c: char): (i: int)
    ensures -1 <= i < |s|
    ensures i >= 0 ==> s[i] == c && forall j :: i < j < |s| ==> s[j] != c
    ensures i < 0 <==> c !in s
  {
    LastBefore(s, c, |s|)
  }

  lemma SplitAt(s: string, i: nat)
    requires i < |s|
    ensures s == s[..i] + [s[i]] + s[i + 1..]
  {
  }

  lemma Parts(a: string, c: char, b: string)
    ensures var s := a + [c] + b; s[|a|] == c && s[..|a|] == a && s[|a| + 1..] == b
  {
  }

  lemma FirstOf(a: string, c: char, b: string)
    requires c !in a
    ensures IndexChar(a + [c] + b, c) == |a|
  {
    assert (a + [c] + b)[|a|] == c;
  }

  lemma LastOf(a: string, c: char, b: string)
    requires c !in b
    ensures LastIndexChar(a + [c] + b, c) == |a|
  {
    assert (a + [c] + b)[|a|] == c;
    assert forall j :: |a| < j < |a + [c] + b| ==> (a + [c] + b)[j] == b[j - |a| - 1];
  }

  // ---------------------------------------------------------------- prefixes and suffixes

  predicate HasPrefix(s: string, p: string) { p <= s }

  predicate HasSuffix(s: string, p: string) { |p| <= |s| && s[|s| - |p|..] == p }

  function TrimPrefix(s: string, p: string): string { if HasPrefix(s, p) then s[|p|..] else s }

  lemma TrimPrefixOf(p: string, rest: string)
    ensures TrimPrefix(p + rest, p) == rest
  {
  }

  lemma PrefixSplits(s: string, p: string)
    requires HasPrefix(s, p)
    ensures s == p + TrimPrefix(s, p)
  {
  }

  function TrimSuffix(s: string, p: string): string { if HasSuffix(s, p) then s[..|s| - |p|] else s }

  // ---------------------------------------------------------------- trimming

  function TrimLeft(s: string, cut: char -> bool): string {
    if s != [] && cut(s[0]) then TrimLeft(s[1..], cut) else s
  }

  function TrimRight(s: string, cut: char -> bool): string {
    if s != [] && cut(s[|s| - 1]) then TrimRight(s[..|s| - 1], cut) else s
  }

  // Go's unicode.IsSpace.
  predicate IsSpace(c: char) {
    || '\t' <= c <= '\r' || c == ' ' || c == '\U{0085}' || c == '\U{00A0}'
    || c == '\U{1680}' || '\U{2000}' <= c <= '\U{200A}' || c == '\U{2028}' || c == '\U{2029}'
    || c == '\U{202F}' || c == '\U{205F}' || c == '\U{3000}'
  }

  function TrimSpace(s: string): string { TrimRight(TrimLeft(s, IsSpace), IsSpace) }

  lemma {:induction false} TrimLeftIs(s: string, cut: char -> bool)
    ensures var r := TrimLeft(s, cut);
            && (r != "" ==> !cut(r[0]))
            && |r| <= |s| && r == s[|s| - |r|..]
            && (forall i :: 0 <= i < |s| - |r| ==> cut(s[i]))
  {
    if s != "" && cut(s[0]) {
      TrimLeftIs(s[1..], cut);
      var r := TrimLeft(s, cut);
      forall i | 0 <= i < |s| - |r| ensures cut(s[i]) {
        if i > 0 { assert s[i] == s[1..][i - 1]; }
      }
    }
  }

  lemma {:induction false} TrimRightIs(s: string, cut: char -> bool)
    ensures var r := TrimRight(s, cut);
            && (r != "" ==> !cut(r[|r| - 1]))
            && |r| <= |s| && r == s[..|r|]
            && (forall i :: |r| <= i < |s| ==> cut(s[i]))
  {
    if s != "" && cut(s[|s| - 1]) { TrimRightIs(s[..|s| - 1], cut); }
  }

  // Trimming a text on one side leaves everything beyond a character it keeps.
  lemma {:induction false} TrimLeftSplits(h: string, c: char, t: string, cut: char -> bool)
    requires !cut(c)
    ensures TrimLeft(h + [c] + t, cut) == TrimLeft(h, cut) + [c] + t
  {
    if h != "" {
      HeadAndTail(h, [c], t);
      if cut(h[0]) { TrimLeftSplits(h[1..], c, t, cut); }
    } else {
      assert h + [c] + t == [c] + t;
    }
  }

  lemma {:induction false} TrimRightSplits(h: string, c: char, t: string, cut: char -> bool)
    requires !cut(c)
    ensures TrimRight(h + [c] + t, cut) == h + [c] + TrimRight(t, cut)
  {
    var s := h + [c] + t;
    if t == "" {
      assert s == h + [c];
    } else {
      assert s[|s| - 1] == t[|t| - 1] && s[..|s| - 1] == h + [c] + t[..|t| - 1];
      if cut(t[|t| - 1]) { TrimRightSplits(h, c, t[..|t| - 1], cut); }
    }
  }

  /** Trimming is determined by what it leaves: a piece with no space at its ends,
      and only spaces around it. */
  lemma TrimSpaceIs(s: string)
    ensures var r := TrimSpace(s);
            && (r != "" ==> !IsSpace(r[0]) && !IsSpace(r[|r| - 1]))
            && (forall c :: c in r ==> c in s)
            && (r == "" <==> forall i :: 0 <= i < |s| ==> IsSpace(s[i]))
  {
    var l := TrimLeft(s, IsSpace);
    TrimLeftIs(s, IsSpace);
    TrimRightIs(l, IsSpace);
    var k := |s| - |l|;
    assert forall i :: 0 <= i < |l| ==> l[i] == s[k + i];
  }

  lemma TrimSpaceFixes(s: string)
    requires s == "" || (!IsSpace(s[0]) && !IsSpace(s[|s| - 1]))
    ensures TrimSpace(s) == s
  {
  }

  // ---------------------------------------------------------------- replacing

  function ReplaceAll(s: string, from: string, to: string): string
    requires from != []
  {
    if |s| < |from| then s
    else if HasPrefix(s, from) then to + ReplaceAll(s[|from|..], from, to)
    else [s[0]] + ReplaceAll(s[1..], from, to)
  }

  // ---------------------------------------------------------------- character classes

  predicate IsDigit(c: char) { '0' <= c <= '9' }

  predicate AllDigits(s: string) { s != [] && forall i :: 0 <= i < |s| ==> IsDigit(s[i]) }

  lemma DigitsExclude(s: string, c: char)
    requires AllDigits(s) && !IsDigit(c)
    ensures c !in s
  {
  }
}
