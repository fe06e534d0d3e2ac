/** Splicing the generated block into CLAUDE.md, and the import line beside it. */
module ManagedBlock {
  import opened Common
  import opened Text

  const START_TAIL := "!-- polyforge:managed:version=\"1.0\" -->"
  const END_TAIL := "!-- /polyforge:managed -->"
  const START := "<" + START_TAIL
  const END := "<" + END_TAIL

  const NEW_REF := "@.polyforge/usage.md"
  const OLD_REF := "@.claude/polyforge.md"

  // Whether the splice replaces a block it finds, rather than appending.
  predicate Replaces(existing: string) {
    Index(existing, START) >= 0 && Index(existing, END) >= 0 && Index(existing, END) > Index(existing, START)
  }

  function EndOfTag(existing: string): nat
    requires Replaces(existing)
    ensures EndOfTag(existing) <= |existing|
  {
    var e := Index(existing, END) + |END|;
    if e < |existing| && existing[e] == '\n' then e + 1 else e
  }

  // What the splice keeps in front of the block, and after it.
  function Before(existing: string): string {
    if Replaces(existing) then existing[..Index(existing, START)]
    else existing + (if existing != "" && !HasSuffix(existing, "\n") then "\n" else "") + "\n"
  }

  function After(existing: string): string {
    if Replaces(existing) then existing[EndOfTag(existing)..] else ""
  }

  // A missing file is read as an empty one.
  function Upsert(existing: string, block: string): string {
    if Replaces(existing) then existing[..Index(existing, START)] + block + existing[EndOfTag(existing)..]
    else (existing + if existing != "" && !HasSuffix(existing, "\n") then "\n" else "") + "\n" + block
  }

  function EnsureRef(file: Option<string>): string {
    match file
    case None => NEW_REF + "\n"
    case Some(s) =>
      if Contains(s, NEW_REF) then s
      else if Contains(s, OLD_REF) then ReplaceAll(s, OLD_REF, NEW_REF)
      else NEW_REF + "\n" + ((if s != "" && !HasPrefix(s, "\n") then "\n" else "") + s)
  }

  // One init's effect on the file: the splice, then the import line.
  function InitFile(existing: string, block: string): string { EnsureRef(Some(Upsert(existing, block))) }

  function ManagedBlockOf(s: string): Option<string> {
    var start := Index(s, START);
    if start < 0 then None
    else
      var end := Index(s[start..], END);
      if end < 0 then None else Some(s[start..start + end + |END|])
  }

  // A text with the start marker at its front and a newline at its end.
  predicate Framed(block: string) {
    |START| + |END| + 1 <= |block| && OccursAt(block, START, 0) && block[|block| - 1] == '\n'
  }

  /** A text that works as a block: the start marker at its front, the end marker at its end
      and nowhere before, then a newline. */
  ghost predicate IsBlock(block: string) {
    && Framed(block)
    && OccursAt(block, END, EndIn(block)) && (forall i :: OccursAt(block, END, i) ==> i == EndIn(block))
  }

  function EndIn(block: string): int { |block| - 1 - |END| }

  /** A file the splice handles: it has neither marker, or its first start marker comes before its first end marker. */
  predicate WellMarked(existing: string) {
    || (!Contains(existing, START) && !Contains(existing, END))
    || Replaces(existing)
  }

  // ---------------------------------------------------------------- occurrences across a seam

  // A marker: '<' first, and nowhere else in it.
  predicate IsMarker(m: string) { m != "" && m[0] == '<' && forall i :: 0 < i < |m| ==> m[i] != '<' }

  lemma StartTailChars()
    ensures forall i :: 0 <= i < |START_TAIL| ==> START_TAIL[i] != '<' && START_TAIL[i] != '\n' && START_TAIL[i] != '@'
  {
  }

  lemma EndTailChars()
    ensures forall i :: 0 <= i < |END_TAIL| ==> END_TAIL[i] != '<' && END_TAIL[i] != '\n' && END_TAIL[i] != '@'
  {
  }

  lemma MarkerFrom(tail: string)
    requires forall i :: 0 <= i < |tail| ==> tail[i] != '<' && tail[i] != '\n' && tail[i] != '@'
    ensures IsMarker("<" + tail)
    ensures forall i :: 0 <= i < |"<" + tail| ==> ("<" + tail)[i] != '\n' && ("<" + tail)[i] != '@'
  {
  }

  lemma MarkersAre()
    ensures IsMarker(START) && IsMarker(END)
    ensures forall i :: 0 <= i < |START| ==> START[i] != '\n' && START[i] != '@'
    ensures forall i :: 0 <= i < |END| ==> END[i] != '\n' && END[i] != '@'
  {
    StartTailChars();
    MarkerFrom(START_TAIL);
    EndTailChars();
    MarkerFrom(END_TAIL);
  }

  // An occurrence across a seam contains the first character of the right part.
  lemma SeamChar(a: string, b: string, m: string, i: int)
    requires b != "" && OccursAt(a + b, m, i) && i < |a| < i + |m|
    ensures m[|a| - i] == b[0]
  {
    assert (a + b)[i..i + |m|][|a| - i] == (a + b)[|a|];
  }

  lemma EachSide(a: string, b: string, m: string, i: int)
    ensures OccursAt(a, m, i) ==> OccursAt(a + b, m, i)
    ensures OccursAt(b, m, i - |a|) ==> OccursAt(a + b, m, i)
    ensures OccursAt(a + b, m, i) && i + |m| <= |a| ==> OccursAt(a, m, i)
    ensures OccursAt(a + b, m, i) && i >= |a| ==> OccursAt(b, m, i - |a|)
  {
    var s := a + b;
    if 0 <= i && i + |m| <= |a| { assert s[i..i + |m|] == a[i..i + |m|]; }
    if |a| <= i && i + |m| <= |s| { assert s[i..i + |m|] == b[i - |a|..i - |a| + |m|]; }
  }

  // Where the right part starts with '<', an occurrence of a marker lies on one side or the other.
  lemma NoStraddle(a: string, b: string, m: string, i: int)
    requires IsMarker(m) && b != "" && b[0] == '<'
    ensures OccursAt(a + b, m, i) <==> OccursAt(a, m, i) || OccursAt(b, m, i - |a|)
  {
    EachSide(a, b, m, i);
    if OccursAt(a + b, m, i) && i < |a| < i + |m| {
      SeamChar(a, b, m, i);
      assert false;
    }
  }

  // A seam whose right part starts with a character foreign to the text sought is not straddled either.
  lemma NoStraddleRight(a: string, b: string, m: string, i: int)
    requires m != "" && b != "" && forall k :: 0 <= k < |m| ==> m[k] != b[0]
    ensures OccursAt(a + b, m, i) <==> OccursAt(a, m, i) || OccursAt(b, m, i - |a|)
  {
    EachSide(a, b, m, i);
    if OccursAt(a + b, m, i) && i < |a| < i + |m| {
      SeamChar(a, b, m, i);
      assert false;
    }
  }

  // Nor one whose left part ends with such a character.
  lemma NoStraddleLeft(a: string, b: string, m: string, i: int)
    requires m != "" && (a == "" || forall k :: 0 <= k < |m| ==> m[k] != a[|a| - 1])
    ensures OccursAt(a + b, m, i) <==> OccursAt(a, m, i) || OccursAt(b, m, i - |a|)
  {
    EachSide(a, b, m, i);
    if OccursAt(a + b, m, i) && i < |a| < i + |m| {
      BeforeSeam(a, b, m, i);
      assert false;
    }
  }

  lemma BeforeSeam(a: string, b: string, m: string, i: int)
    requires OccursAt(a + b, m, i) && i < |a| < i + |m|
    ensures m[|a| - 1 - i] == a[|a| - 1]
  {
    assert (a + b)[i..i + |m|][|a| - 1 - i] == (a + b)[|a| - 1];
  }

  lemma FirstStaysFirst(a: string, b: string, m: string)
    requires m != "" && Contains(a, m)
    ensures Index(a + b, m) == Index(a, m)
  {
    var i := Index(a, m);
    EachSide(a, b, m, i);
    forall j | 0 <= j < i ensures !OccursAt(a + b, m, j) { EachSide(a, b, m, j); }
    IndexIs(a + b, m, i);
  }

  // ---------------------------------------------------------------- the splice

  lemma SpliceIs(existing: string, block: string)
    ensures Upsert(existing, block) == Before(existing) + block + After(existing)
  {
  }

  // What is first in a block is first in a file that holds the block behind a text without it.
  lemma FirstInBlock(pre: string, block: string, post: string, m: string)
    requires IsMarker(m) && block != "" && block[0] == '<' && !Contains(pre, m) && Contains(block, m)
    ensures Index(pre + block + post, m) == |pre| + Index(block, m)
  {
    var k := |pre| + Index(block, m);
    NoStraddle(pre, block, m, k);
    forall i | 0 <= i < k ensures !OccursAt(pre + block, m, i) { NoStraddle(pre, block, m, i); }
    IndexIs(pre + block, m, k);
    FirstStaysFirst(pre + block, post, m);
  }

  lemma FramedFront(block: string)
    requires Framed(block)
    ensures block[0] == '<' && Contains(block, START) && Index(block, START) == 0
  {
    MarkersAre();
    assert block[0..|START|][0] == block[0];
    IndexIs(block, START, 0);
  }

  lemma BlockEnd(block: string)
    requires IsBlock(block)
    ensures Contains(block, END) && Index(block, END) == EndIn(block)
  {
  }

  // A block between two texts, the first of them without markers, is found where it is.
  lemma MarkersInPlace(pre: string, block: string, post: string)
    requires IsBlock(block) && !Contains(pre, START) && !Contains(pre, END)
    ensures Index(pre + block + post, START) == |pre|
    ensures Index(pre + block + post, END) == |pre| + EndIn(block)
  {
    MarkersAre();
    FramedFront(block);
    BlockEnd(block);
    hide Contains, IsMarker, Index;
    FirstInBlock(pre, block, post, START);
    FirstInBlock(pre, block, post, END);
  }

  /** Splicing into a file that holds a block replaces exactly that block, whatever is spliced in. */
  lemma ReplacesInPlace(pre: string, block: string, post: string, block': string)
    requires IsBlock(block) && !Contains(pre, START) && !Contains(pre, END)
    ensures Replaces(pre + block + post) && Before(pre + block + post) == pre && After(pre + block + post) == post
    ensures Upsert(pre + block + post, block') == pre + block' + post
  {
    var s := pre + block + post;
    MarkersInPlace(pre, block, post);
    assert s[|pre| + |block| - 1] == block[|block| - 1] == '\n';
    assert EndOfTag(s) == |pre| + |block|;
    CutThree(pre, block, post);
  }

  lemma CutThree(a: string, b: string, c: string)
    ensures (a + b + c)[..|a|] == a && (a + b + c)[|a|..] == b + c && (a + b + c)[|a| + |b|..] == c
  {
  }

  /** ... and reading the block back returns it, without its final newline. */
  lemma ReadsBack(pre: string, block: string, post: string)
    requires IsBlock(block) && !Contains(pre, START) && !Contains(pre, END)
    ensures ManagedBlockOf(pre + block + post) == Some(block[..|block| - 1])
  {
    hide ManagedBlockOf, Contains, Index, OccursAt;
    MarkersInPlace(pre, block, post);
    MarkersAtFront(block, post);
    CutThree(pre, block, post);
    BlockFound(pre + block + post, block + post, |pre|, EndIn(block));
    Middle(pre, block, post, |block| - 1);
  }

  lemma MarkersAtFront(block: string, post: string)
    requires IsBlock(block)
    ensures Index(block + post, END) == EndIn(block)
  {
    hide IsBlock, Contains, Index, EndIn;
    MarkersAre();
    EmptyContainsNone(START);
    EmptyContainsNone(END);
    MarkersInPlace([], block, post);
    NothingInFront(block, post);
  }

  lemma EmptyContainsNone(m: string)
    requires m != ""
    ensures !Contains([], m)
  {
  }

  lemma NothingInFront(a: string, b: string)
    ensures [] + a + b == a + b
  {
  }

  lemma BlockFound(s: string, rest: string, start: nat, end: nat)
    requires start <= |s| && s[start..] == rest
    requires Index(s, START) == start && Index(rest, END) == end
    ensures start + end + |END| <= |s| && ManagedBlockOf(s) == Some(s[start..start + end + |END|])
  {
  }

  lemma Middle(a: string, b: string, c: string, n: nat)
    requires n <= |b|
    ensures (a + b + c)[|a|..|a| + n] == b[..n]
  {
  }

  lemma NewlineAddsNoMarker(s: string, m: string)
    requires m == START || m == END
    ensures Contains(s + "\n", m) <==> Contains(s, m)
  {
    MarkersAre();
    forall i ensures OccursAt(s + "\n", m, i) <==> OccursAt(s, m, i) {
      NoStraddleRight(s, "\n", m, i);
    }
    if Contains(s, m) { assert OccursAt(s + "\n", m, Index(s, m)); }
    if Contains(s + "\n", m) { assert OccursAt(s, m, Index(s + "\n", m)); }
  }

  lemma AppendedBefore(existing: string, m: string)
    requires m == START || m == END
    requires !Replaces(existing)
    ensures Contains(Before(existing), m) <==> Contains(existing, m)
    ensures Contains(existing, m) ==> Index(Before(existing), m) == Index(existing, m)
    ensures |Before(existing)| > |existing| && HasPrefix(Before(existing), existing)
  {
    NewlineAddsNoMarker(existing, m);
    NewlineAddsNoMarker(existing + "\n", m);
    assert existing + "" + "\n" == existing + "\n";
    if Contains(existing, m) {
      assert existing + "\n" + "\n" == existing + "\n\n";
      FirstStaysFirst(existing, Before(existing)[|existing|..], m);
      assert Before(existing) == existing + Before(existing)[|existing|..];
    }
  }

  lemma BeforeHasNoMarkers(existing: string)
    requires WellMarked(existing)
    ensures !Contains(Before(existing), START) && !Contains(Before(existing), END)
  {
    if Replaces(existing) {
      var s := Index(existing, START);
      forall m, i | (m == START || m == END) ensures !OccursAt(existing[..s], m, i) {
        if OccursAt(existing[..s], m, i) {
          assert existing[i..i + |m|] == existing[..s][i..i + |m|];
          assert OccursAt(existing, m, i);
        }
      }
    } else {
      AppendedBefore(existing, START);
      AppendedBefore(existing, END);
    }
  }

  // The text a splice takes out: from the start marker through the end marker and one newline.
  function Replaced(existing: string): string
    requires Replaces(existing)
  {
    existing[Index(existing, START)..EndOfTag(existing)]
  }

  /** Preservation. Outside the block the file is what it was: a replaced file was
      the same two texts around the old block, an appended one starts with all of it. */
  lemma SplicePreserves(existing: string, block: string)
    requires IsBlock(block) && WellMarked(existing)
    ensures Upsert(existing, block) == Before(existing) + block + After(existing)
    ensures ManagedBlockOf(Upsert(existing, block)) == Some(block[..|block| - 1])
    ensures Replaces(existing) ==> existing == Before(existing) + Replaced(existing) + After(existing)
    ensures !Replaces(existing) ==> Before(existing) == existing + "\n" || Before(existing) == existing + "\n\n"
    ensures !Replaces(existing) ==> After(existing) == ""
  {
    SpliceIs(existing, block);
    BeforeHasNoMarkers(existing);
    ReadsBack(Before(existing), block, After(existing));
    if Replaces(existing) {
      SplitThree(existing, Index(existing, START), EndOfTag(existing));
    } else {
      assert existing + "" + "\n" == existing + "\n";
      assert existing + "\n" + "\n" == existing + "\n\n";
    }
  }

  // What is taken out begins with the start marker and ends with the end marker, or a newline after it.
  lemma ReplacedIsABlock(existing: string)
    requires Replaces(existing)
    ensures HasPrefix(Replaced(existing), START)
    ensures HasSuffix(Replaced(existing), END) || HasSuffix(Replaced(existing), END + "\n")
  {
    hide EndOfTag, OccursAt, HasPrefix, HasSuffix, Contains;
    StartBeforeEnd(existing);
    TagEnds(existing);
    SliceBetween(existing, Index(existing, START), EndOfTag(existing), START, END);
  }

  // A slice from one marker to behind another, or behind the newline after it.
  lemma SliceBetween(s: string, i: nat, j: nat, m: string, m': string)
    requires i + |m| <= j <= |s| && OccursAt(s, m, i)
    requires (i + |m'| <= j && OccursAt(s, m', j - |m'|)) || (i + |m' + "\n"| <= j && OccursAt(s, m' + "\n", j - |m' + "\n"|))
    ensures HasPrefix(s[i..j], m)
    ensures HasSuffix(s[i..j], m') || HasSuffix(s[i..j], m' + "\n")
  {
    StartsWith(s, i, j, m);
    EndsWith(s, i, j, m');
    EndsWith(s, i, j, m' + "\n");
  }

  // Where the tag taken out ends: at the marker, or at the newline behind it.
  lemma TagEnds(existing: string)
    requires Replaces(existing)
    ensures var e, n := Index(existing, END), EndOfTag(existing);
            (n == e + |END| && OccursAt(existing, END, e)) || (n == e + |END + "\n"| && OccursAt(existing, END + "\n", e))
  {
    var e := Index(existing, END);
    if EndOfTag(existing) != e + |END| { MarkerAndNewline(existing, END, e); }
  }

  lemma MarkerAndNewline(s: string, m: string, e: nat)
    requires OccursAt(s, m, e) && e + |m| < |s| && s[e + |m|] == '\n'
    ensures OccursAt(s, m + "\n", e)
  {
    assert s[e..e + |m| + 1] == s[e..e + |m|] + [s[e + |m|]];
  }

  lemma StartsWith(s: string, i: nat, j: nat, m: string)
    requires OccursAt(s, m, i) && i + |m| <= j <= |s|
    ensures HasPrefix(s[i..j], m)
  {
    assert s[i..j][..|m|] == s[i..i + |m|];
  }

  lemma EndsWith(s: string, i: nat, j: nat, m: string)
    requires i <= j <= |s|
    ensures i + |m| <= j && OccursAt(s, m, j - |m|) ==> HasSuffix(s[i..j], m)
  {
    if i + |m| <= j && OccursAt(s, m, j - |m|) { assert s[i..j][j - i - |m|..] == s[j - |m|..j]; }
  }

  lemma SplitThree(s: string, i: nat, j: nat)
    requires i <= j <= |s|
    ensures s == s[..i] + s[i..j] + s[j..]
  {
  }

  // The end marker cannot begin inside the start marker.
  lemma StartBeforeEnd(existing: string)
    requires Replaces(existing)
    ensures Index(existing, START) + |START| <= Index(existing, END)
  {
    hide Index, OccursAt;
    var s, e := Index(existing, START), Index(existing, END);
    FoundThere(existing, START);
    FoundThere(existing, END);
    MarkersAre();
    CharOf(existing, END, e, 0);
    if e < s + |START| { CharOf(existing, START, s, e - s); }
  }

  lemma FoundThere(s: string, m: string)
    requires Index(s, m) >= 0
    ensures OccursAt(s, m, Index(s, m))
  {
  }

  lemma CharOf(s: string, m: string, i: int, k: nat)
    requires OccursAt(s, m, i) && k < |m|
    ensures s[i + k] == m[k]
  {
    assert s[i..i + |m|][k] == s[i + k];
  }

  // ---------------------------------------------------------------- idempotence of the splice

  /** Splicing again what was just spliced changes nothing exactly when the file was
      well marked. With a stray end marker in front every further splice appends one
      more block; with an unterminated start marker the second splice swallows the
      text between it and the first. */
  lemma UpsertIsIdempotentIff(existing: string, block: string)
    requires IsBlock(block)
    ensures Upsert(Upsert(existing, block), block) == Upsert(existing, block) <==> WellMarked(existing)
  {
    var pre, once := Before(existing), Upsert(existing, block);
    SpliceIs(existing, block);
    if WellMarked(existing) {
      BeforeHasNoMarkers(existing);
      ReplacesInPlace(pre, block, After(existing), block);
    } else {
      AppendedBefore(existing, START);
      AppendedBefore(existing, END);
      assert once == pre + block + "" == pre + block;
      if Contains(existing, END) {
        StrayEnd(existing, block);
      } else {
        UnterminatedStart(existing, block);
      }
    }
  }

  lemma StrayEnd(existing: string, block: string)
    requires IsBlock(block) && !Replaces(existing) && Contains(existing, END)
    ensures |Upsert(Upsert(existing, block), block)| > |Upsert(existing, block)|
    ensures !Replaces(Upsert(existing, block)) && Contains(Upsert(existing, block), END)
  {
    var pre, once := Before(existing), Upsert(existing, block);
    SpliceIs(existing, block);
    AppendedBefore(existing, START);
    AppendedBefore(existing, END);
    assert once == pre + block;
    FirstStaysFirst(pre, block, END);
    if Contains(existing, START) {
      FirstStaysFirst(pre, block, START);
    } else {
      StartIsAt(pre, block);
    }
    assert Contains(once, END);
  }

  lemma StartIsAt(pre: string, block: string)
    requires IsBlock(block) && !Contains(pre, START)
    ensures Index(pre + block, START) == |pre|
  {
    MarkersAre();
    assert block[0] == START[0] by { assert block[0..|START|] == START; }
    NoStraddle(pre, block, START, |pre|);
    forall i | 0 <= i < |pre| ensures !OccursAt(pre + block, START, i) { NoStraddle(pre, block, START, i); }
    IndexIs(pre + block, START, |pre|);
  }

  lemma EndIsAt(pre: string, block: string)
    requires IsBlock(block) && !Contains(pre, END)
    ensures Index(pre + block, END) == |pre| + EndIn(block)
  {
    MarkersAre();
    assert block[0] == START[0] by { assert block[0..|START|] == START; }
    forall i ensures OccursAt(pre + block, END, i) <==> i == |pre| + EndIn(block) { NoStraddle(pre, block, END, i); }
    IndexIs(pre + block, END, |pre| + EndIn(block));
  }

  lemma UnterminatedStart(existing: string, block: string)
    requires IsBlock(block) && Contains(existing, START) && !Contains(existing, END)
    ensures Upsert(Upsert(existing, block), block) == existing[..Index(existing, START)] + block
    ensures |Upsert(Upsert(existing, block), block)| < |Upsert(existing, block)|
  {
    hide Contains, Upsert, Before, IsBlock, HasPrefix;
    var pre := Before(existing);
    StartOnly(existing);
    AppendedOnce(existing, block);
    AppendedBefore(existing, START);
    AppendedBefore(existing, END);
    SecondSplice(pre, block);
    PrefixIs(existing, pre, Index(existing, START));
  }

  lemma StartOnly(s: string)
    requires Contains(s, START) && !Contains(s, END)
    ensures !Replaces(s) && 0 <= Index(s, START) <= |s|
  {
  }

  lemma PrefixIs(a: string, b: string, n: nat)
    requires HasPrefix(b, a) && n <= |a|
    ensures n <= |b| && b[..n] == a[..n]
  {
  }

  lemma AppendedOnce(existing: string, block: string)
    requires !Replaces(existing)
    ensures Upsert(existing, block) == Before(existing) + block
  {
  }

  lemma SecondSplice(pre: string, block: string)
    requires IsBlock(block) && Contains(pre, START) && !Contains(pre, END)
    ensures Upsert(pre + block, block) == pre[..Index(pre, START)] + block
  {
    FirstStaysFirst(pre, block, START);
    EndIsAt(pre, block);
    LastChar(pre, block);
    SwallowsToEnd(pre + block, block, Index(pre, START));
    PrefixOf(pre, block, Index(pre, START));
  }

  lemma LastChar(a: string, b: string)
    requires b != ""
    ensures (a + b)[|a + b| - 1] == b[|b| - 1]
  {
  }

  lemma PrefixOf(a: string, b: string, n: nat)
    requires n <= |a|
    ensures (a + b)[..n] == a[..n]
  {
  }

  lemma SwallowsToEnd(text: string, block: string, s: nat)
    requires |END| < |text| && Index(text, START) == s < Index(text, END) == |text| - 1 - |END| && text[|text| - 1] == '\n'
    ensures Upsert(text, block) == text[..s] + block
  {
    assert EndOfTag(text) == |text|;
    assert text[|text|..] == "";
    assert text[..s] + block + "" == text[..s] + block;
  }

  // ---------------------------------------------------------------- a block with an end marker inside

  // A block whose end marker comes again: what the splice takes out ends inside it.
  predicate EndsEarly(block: string) {
    Framed(block) && 0 < Index(block, END) && Index(block, END) + |END| + 1 < |block|
  }

  lemma EarlyMarkersInPlace(pre: string, block: string, post: string)
    requires EndsEarly(block) && !Contains(pre, START) && !Contains(pre, END)
    ensures Index(pre + block + post, START) == |pre|
    ensures Index(pre + block + post, END) == |pre| + Index(block, END)
  {
    MarkersAre();
    FramedFront(block);
    hide Contains, IsMarker, Framed;
    FirstInBlock(pre, block, post, START);
    FirstInBlock(pre, block, post, END);
  }

  // Such a block is never replaced as a whole: its tail stays behind the new block.
  lemma EarlyEndLeavesTail(pre: string, block: string, post: string, block': string) returns (tail: string)
    requires EndsEarly(block) && !Contains(pre, START) && !Contains(pre, END)
    ensures tail != "" && tail[|tail| - 1] == '\n'
    ensures Upsert(pre + block + post, block') == pre + block' + (tail + post)
  {
    hide EndOfTag, Contains, Framed, Index, Upsert, OccursAt;
    var s := pre + block + post;
    EarlyMarkersInPlace(pre, block, post);
    FoundMeansReplaced(s, block');
    TagIsShort(s);
    var n := EndOfTag(s) - |pre|;
    FramedEnds(block);
    tail := block[n..];
    CutThree(pre, block, post);
    TailOf(pre, block, post, n);
  }

  lemma FoundMeansReplaced(s: string, block: string)
    requires 0 <= Index(s, START) < Index(s, END)
    ensures Replaces(s) && Index(s, START) <= |s| && Upsert(s, block) == s[..Index(s, START)] + block + s[EndOfTag(s)..]
  {
  }

  lemma FramedEnds(block: string)
    requires Framed(block)
    ensures block[|block| - 1] == '\n'
  {
  }

  lemma TailOf(pre: string, block: string, post: string, n: nat)
    requires n <= |block|
    ensures (pre + block + post)[|pre| + n..] == block[n..] + post
  {
  }

  /** ... so every splice leaves the file longer. */
  lemma EarlyEndGrows(pre: string, block: string, post: string) returns (post': string)
    requires EndsEarly(block) && !Contains(pre, START) && !Contains(pre, END)
    ensures Upsert(pre + block + post, block) == pre + block + post'
    ensures |post'| > |post| && |post| <= |post'| && post'[|post'| - |post|..] == post
  {
    hide EndsEarly, Contains, Upsert;
    var tail := EarlyEndLeavesTail(pre, block, post, block);
    post' := tail + post;
  }

  lemma TagIsShort(s: string)
    requires Replaces(s)
    ensures Index(s, END) + |END| <= EndOfTag(s) <= Index(s, END) + |END| + 1
  {
  }
}
