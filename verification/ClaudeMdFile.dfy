/** One init's effect on CLAUDE.md as a whole, splice and import line, run twice. */
module ClaudeMdFile {
  import opened Common
  import opened Text
  import opened ManagedBlock

  // ---------------------------------------------------------------- replacing the old import line

  lemma RefsAre()
    ensures |OLD_REF| >= 1 && |NEW_REF| >= 1 && OLD_REF[0] == '@' && NEW_REF[0] == '@'
    ensures '<' !in NEW_REF && '<' !in OLD_REF && '\n' !in OLD_REF && '\n' !in NEW_REF
  {
  }

  // No replacement reaches across a seam whose right part starts with a foreign character.
  lemma {:induction false} ReplaceConcat(a: string, b: string, from: string, to: string)
    requires from != "" && b != "" && b[0] !in from
    ensures ReplaceAll(a + b, from, to) == ReplaceAll(a, from, to) + ReplaceAll(b, from, to)
  {
    if a == "" {
      assert a + b == b;
      assert ReplaceAll(a, from, to) == "";
    } else {
      FrontOf(a, b, 1);
      PrefixBeforeSeam(a, b, from);
      if HasPrefix(a, from) {
        ReplaceConcat(a[|from|..], b, from, to);
        FrontOf(a, b, |from|);
        Regroup(to, ReplaceAll(a[|from|..], from, to), ReplaceAll(b, from, to));
      } else {
        ReplaceConcat(a[1..], b, from, to);
        ReplaceShort(a + b, from, to);
        ReplaceShort(a, from, to);
        Regroup([a[0]], ReplaceAll(a[1..], from, to), ReplaceAll(b, from, to));
      }
    }
  }

  lemma FrontOf(a: string, b: string, n: nat)
    requires 0 < n <= |a|
    ensures (a + b)[0] == a[0] && (a + b)[n..] == a[n..] + b
  {
  }

  lemma Regroup(x: string, y: string, z: string)
    ensures x + (y + z) == x + y + z
  {
  }

  lemma PrefixBeforeSeam(a: string, b: string, from: string)
    requires a != "" && b != "" && b[0] !in from
    ensures HasPrefix(a + b, from) <==> HasPrefix(a, from)
  {
    if |a| < |from| && HasPrefix(a + b, from) {
      PrefixOccurs(a + b, from);
      SeamChar(a, b, from, 0);
      assert false;
    }
  }

  // A text that does not start with `from` keeps its first character.
  lemma ReplaceShort(s: string, from: string, to: string)
    requires from != "" && s != "" && !HasPrefix(s, from)
    ensures ReplaceAll(s, from, to) == [s[0]] + ReplaceAll(s[1..], from, to)
  {
    if |s| < |from| {
      assert ReplaceAll(s[1..], from, to) == s[1..];
    }
  }

  lemma {:induction false} ReplaceNothing(s: string, from: string, to: string)
    requires from != "" && !Contains(s, from)
    ensures ReplaceAll(s, from, to) == s
  {
    if |from| <= |s| {
      assert HasPrefix(s, from) ==> OccursAt(s, from, 0);
      TailContainsLess(s, from);
      ReplaceNothing(s[1..], from, to);
    }
  }

  lemma TailContainsLess(s: string, m: string)
    requires s != "" && !Contains(s, m)
    ensures !Contains(s[1..], m)
  {
    forall i ensures !OccursAt(s[1..], m, i) {
      if OccursAt(s[1..], m, i) {
        assert s[i + 1..i + 1 + |m|] == s[1..][i..i + |m|];
        assert OccursAt(s, m, i + 1);
      }
    }
  }

  lemma {:induction false} SuffixContainsLess(s: string, m: string, k: nat)
    requires k <= |s| && !Contains(s, m)
    ensures !Contains(s[k..], m)
  {
    forall i ensures !OccursAt(s[k..], m, i) {
      if OccursAt(s[k..], m, i) {
        assert s[i + k..i + k + |m|] == s[k..][i..i + |m|];
        assert OccursAt(s, m, i + k);
      }
    }
  }

  // A text free of the new text's first character shows through a replacement.
  lemma {:induction false} PrefixThrough(s: string, p: string, from: string, to: string)
    requires from != "" && to != "" && to[0] !in p
    requires HasPrefix(ReplaceAll(s, from, to), p)
    ensures HasPrefix(s, p)
  {
    if p != "" && |from| <= |s| {
      var r := ReplaceAll(s, from, to);
      assert p[0] == r[0];
      assert !HasPrefix(s, from);
      ReplaceShort(s, from, to);
      assert r[1..] == ReplaceAll(s[1..], from, to);
      assert r[1..][..|p| - 1] == p[1..];
      PrefixThrough(s[1..], p[1..], from, to);
      assert s == [s[0]] + s[1..] && p == [p[0]] + p[1..];
    }
  }

  // Replacing references cannot create a marker.
  lemma {:induction false} ReplaceMakesNoMarker(s: string, m: string, from: string, to: string)
    requires from != "" && to != "" && '<' !in to && to[0] !in m
    requires IsMarker(m) && !Contains(s, m)
    ensures !Contains(ReplaceAll(s, from, to), m)
  {
    var r := ReplaceAll(s, from, to);
    if |from| <= |s| {
      if HasPrefix(s, from) {
        var rest := ReplaceAll(s[|from|..], from, to);
        SuffixContainsLess(s, m, |from|);
        ReplaceMakesNoMarker(s[|from|..], m, from, to);
        forall i ensures !OccursAt(to + rest, m, i) { NotInHeader(to, rest, m, i); }
      } else {
        var rest := ReplaceAll(s[1..], from, to);
        TailContainsLess(s, m);
        ReplaceMakesNoMarker(s[1..], m, from, to);
        forall i ensures !OccursAt(r, m, i) {
          PrefixOccurs(s, m);
          PrefixOccurs(r, m);
          EachSide([s[0]], rest, m, i);
          if HasPrefix(r, m) {
            PrefixThrough(s, m, from, to);
            assert false;
          }
        }
      }
    }
  }

  lemma PrefixOccurs(s: string, m: string)
    ensures HasPrefix(s, m) <==> OccursAt(s, m, 0)
  {
  }

  lemma NotInHeader(header: string, rest: string, m: string, i: int)
    requires IsMarker(m) && '<' !in header && !Contains(rest, m)
    ensures !OccursAt(header + rest, m, i)
  {
    if OccursAt(header + rest, m, i) {
      assert (header + rest)[i..i + |m|][0] == (header + rest)[i] == '<';
      EachSide(header, rest, m, i);
    }
  }

  lemma OccursInTail(s: string, m: string, i: int)
    requires OccursAt(s, m, i) && i > 0
    ensures OccursAt(s[1..], m, i - 1)
  {
    assert s[1..][i - 1..i - 1 + |m|] == s[i..i + |m|];
  }

  lemma {:induction false} ReplaceLeavesNew(s: string, from: string, to: string)
    requires from != "" && Contains(s, from)
    ensures Contains(ReplaceAll(s, from, to), to)
  {
    if HasPrefix(s, from) {
      EachSide(to, ReplaceAll(s[|from|..], from, to), to, 0);
      assert OccursAt(to, to, 0);
      assert OccursAt(ReplaceAll(s, from, to), to, 0);
    } else {
      PrefixOccurs(s, from);
      OccursInTail(s, from, Index(s, from));
      ReplaceLeavesNew(s[1..], from, to);
      var rest := ReplaceAll(s[1..], from, to);
      EachSide([s[0]], rest, to, Index(rest, to) + 1);
      assert OccursAt([s[0]] + rest, to, Index(rest, to) + 1);
    }
  }

  // ---------------------------------------------------------------- the whole file

  // The import line's edit leaves the block in place and puts no marker in front of it.
  lemma EnsureRefKeepsBlock(pre: string, block: string, post: string) returns (pre': string, post': string)
    requires Framed(block) && !Contains(block, OLD_REF)
    requires !Contains(pre, START) && !Contains(pre, END)
    ensures EnsureRef(Some(pre + block + post)) == pre' + block + post'
    ensures !Contains(pre', START) && !Contains(pre', END)
    ensures Contains(pre' + block + post', NEW_REF)
  {
    var s := pre + block + post;
    MarkersAre();
    RefsAre();
    if Contains(s, NEW_REF) {
      return pre, post;
    } else if Contains(s, OLD_REF) {
      pre', post' := ReplaceAll(pre, OLD_REF, NEW_REF), ReplaceAll(post, OLD_REF, NEW_REF);
      ReplaceMakesNoMarker(pre, START, OLD_REF, NEW_REF);
      ReplaceMakesNoMarker(pre, END, OLD_REF, NEW_REF);
      ReplaceLeavesNew(s, OLD_REF, NEW_REF);
      ReplaceAround(pre, block, post);
    } else {
      var header := NEW_REF + "\n" + if HasPrefix(s, "\n") then "" else "\n";
      pre', post' := header + pre, post;
      assert '<' !in header;
      forall i ensures !OccursAt(pre', START, i) && !OccursAt(pre', END, i) {
        NotInHeader(header, pre, START, i);
        NotInHeader(header, pre, END, i);
      }
      assert s != "";
      HeaderFirst(pre, block, post, header);
    }
  }

  lemma HeaderFirst(pre: string, block: string, post: string, header: string)
    requires pre + block + post != "" && !Contains(pre + block + post, NEW_REF) && !Contains(pre + block + post, OLD_REF)
    requires header == NEW_REF + "\n" + if HasPrefix(pre + block + post, "\n") then "" else "\n"
    ensures EnsureRef(Some(pre + block + post)) == header + pre + block + post
    ensures Contains(header + pre + block + post, NEW_REF)
  {
    var s := pre + block + post;
    hide Contains, HasPrefix, ReplaceAll;
    HeaderGroups(pre, block, post, header);
    HeaderOpens(NEW_REF, header[|NEW_REF|..], s);
    assert header == NEW_REF + header[|NEW_REF|..];
    if !HasPrefix(s, "\n") { HeaderNewline(NEW_REF + "\n", s); }
  }

  lemma HeaderNewline(h: string, s: string)
    ensures (h + "\n") + s == h + ("\n" + s)
  {
  }

  lemma HeaderGroups(pre: string, block: string, post: string, header: string)
    ensures header + pre + block + post == header + (pre + block + post)
  {
  }

  lemma HeaderOpens(m: string, more: string, s: string)
    ensures Contains((m + more) + s, m)
  {
    assert ((m + more) + s)[0..|m|] == m;
    assert OccursAt((m + more) + s, m, 0);
  }

  lemma ReplaceAround(pre: string, block: string, post: string)
    requires Framed(block) && !Contains(block, OLD_REF)
    ensures ReplaceAll(pre + block + post, OLD_REF, NEW_REF)
         == ReplaceAll(pre, OLD_REF, NEW_REF) + block + ReplaceAll(post, OLD_REF, NEW_REF)
  {
    RefsAre();
    var body, tail := block[..|block| - 1], "\n" + post;
    BlockEnds(block);
    Regroup(body, "\n", post);
    Regroup(pre, block, post);
    ReplaceConcat(pre, block + post, OLD_REF, NEW_REF);
    ReplaceConcat(body, tail, OLD_REF, NEW_REF);
    ReplaceNothing(body, OLD_REF, NEW_REF);
    assert !HasPrefix(tail, OLD_REF);
    ReplaceShort(tail, OLD_REF, NEW_REF);
    assert tail[1..] == post && [tail[0]] == "\n";
    Regroup(body, "\n", ReplaceAll(post, OLD_REF, NEW_REF));
    Regroup(ReplaceAll(pre, OLD_REF, NEW_REF), block, ReplaceAll(post, OLD_REF, NEW_REF));
  }

  lemma BlockEnds(block: string)
    requires Framed(block) && !Contains(block, OLD_REF)
    ensures block[0] == '<' && block == block[..|block| - 1] + "\n"
    ensures !Contains(block[..|block| - 1], OLD_REF)
  {
    var body := block[..|block| - 1];
    assert block[0] == '<' by { assert block[0..|START|][0] == block[0]; }
    assert block == body + "\n";
    forall i ensures !OccursAt(body, OLD_REF, i) { EachSide(body, "\n", OLD_REF, i); }
  }

  /** Running init again on the file init wrote changes nothing: splice and import
      line together are idempotent on every well-marked file, including a missing
      one, and even when the import line is first rewritten or added. */
  lemma InitFileIsIdempotent(existing: string, block: string)
    requires IsBlock(block) && !Contains(block, OLD_REF) && WellMarked(existing)
    ensures InitFile(InitFile(existing, block), block) == InitFile(existing, block)
    ensures ManagedBlockOf(InitFile(existing, block)) == Some(block[..|block| - 1])
  {
    SpliceIs(existing, block);
    BeforeHasNoMarkers(existing);
    var pre, post := EnsureRefKeepsBlock(Before(existing), block, After(existing));
    ReplacesInPlace(pre, block, post, block);
    ReadsBack(pre, block, post);
  }

  /** With an end marker inside the block, running init again makes the file longer. */
  lemma EarlyEndInitGrows(existing: string, block: string)
    requires EndsEarly(block) && !Contains(block, OLD_REF) && WellMarked(existing)
    ensures |InitFile(InitFile(existing, block), block)| > |InitFile(existing, block)|
  {
    SpliceIs(existing, block);
    BeforeHasNoMarkers(existing);
    var pre, post := EnsureRefKeepsBlock(Before(existing), block, After(existing));
    var post' := EarlyEndGrows(pre, block, post);
    RefSurvives(pre, block, post, post');
  }

  // The import line is still there when text has been put between the block and what follows.
  lemma RefSurvives(pre: string, block: string, post: string, post': string)
    requires Contains(pre + block + post, NEW_REF)
    requires |post| <= |post'| && post'[|post'| - |post|..] == post
    requires block != "" && block[|block| - 1] == '\n'
    ensures Contains(pre + block + post', NEW_REF)
  {
    RefsAre();
    OccurrenceSurvives(pre + block, post, post', NEW_REF);
  }

  lemma OccurrenceSurvives(front: string, post: string, post': string, m: string)
    requires m != "" && '\n' !in m && front != "" && front[|front| - 1] == '\n' && Contains(front + post, m)
    requires |post| <= |post'| && post'[|post'| - |post|..] == post
    ensures Contains(front + post', m)
  {
    var middle, i := post'[..|post'| - |post|], Index(front + post, m);
    NoStraddleLeft(front, post, m, i);
    assert post' == middle + post;
    Regroup(front, middle, post);
    if OccursAt(front, m, i) {
      EachSide(front, post', m, i);
      assert OccursAt(front + post', m, i);
    } else {
      EachSide(front + middle, post, m, |middle| + i);
      assert OccursAt(front + post', m, |middle| + i);
    }
  }
}
