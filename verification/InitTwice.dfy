/** Init run twice and then doctor, whatever the fields and the file hold: rendering, splice,
    import line and reading back together. */
module InitTwice {
  import opened Common
  import opened Text
  import opened ManagedBlock
  import opened ClaudeMdFile
  import opened BlockRendering
  import opened BlockReading
  import opened BlockSplice

  // The import-line edit reaches into the block: it holds the old reference and the file holds no new one.
  predicate Rewrites(existing: string, block: string) {
    !Contains(Upsert(existing, block), NEW_REF) && Contains(block, OLD_REF)
  }

  function Renewed(s: string): string { ReplaceAll(s, OLD_REF, NEW_REF) }

  function Block(body: string): string { START + body + END + "\n" }

  // ---------------------------------------------------------------- the edit, part by part

  lemma MarkersStay()
    ensures Renewed(START) == START && Renewed(END) == END
  {
    NoOldRefInMarkers();
    RefsAre();
    assert END <= END + "\n";
    PrefixContains(END, END + "\n", OLD_REF);
    ReplaceNothing(START, OLD_REF, NEW_REF);
    ReplaceNothing(END, OLD_REF, NEW_REF);
  }

  lemma SeamIsForeign()
    ensures OLD_REF != "" && '\n' !in OLD_REF && '<' !in OLD_REF
  {
    RefsAre();
  }

  lemma NewlineStays(post: string)
    ensures Renewed("\n" + post) == "\n" + Renewed(post)
  {
    RefsAre();
    var s := "\n" + post;
    assert !HasPrefix(s, OLD_REF);
    ReplaceShort(s, OLD_REF, NEW_REF);
    assert s[1..] == post && [s[0]] == "\n";
  }

  lemma EndAndRest(post: string)
    ensures Renewed(END + ("\n" + post)) == END + ("\n" + Renewed(post))
  {
    SeamIsForeign();
    MarkersStay();
    ReplaceConcat(END, "\n" + post, OLD_REF, NEW_REF);
    NewlineStays(post);
  }

  lemma EndIsAngle(post: string)
    ensures (END + ("\n" + post))[0] == '<'
  {
  }

  // Markers and the text around the block are edited apart.
  lemma EditedInParts(pre: string, body: string, post: string)
    requires body != "" && body[0] == '\n'
    ensures Renewed(pre + Block(body) + post) == Renewed(pre) + Block(Renewed(body)) + Renewed(post)
  {
    SeamIsForeign();
    MarkersStay();
    var rest := END + ("\n" + post);
    EndIsAngle(post);
    EndAndRest(post);
    ReplaceConcat(body, rest, OLD_REF, NEW_REF);
    ReplaceConcat(START, body + rest, OLD_REF, NEW_REF);
    StartIsAngle(body + rest);
    ReplaceConcat(pre, START + (body + rest), OLD_REF, NEW_REF);
    Regrouped(pre, body, post);
    Regrouped(Renewed(pre), Renewed(body), Renewed(post));
  }

  lemma StartIsAngle(s: string)
    ensures (START + s)[0] == '<'
  {
  }

  lemma Regrouped(pre: string, body: string, post: string)
    ensures pre + Block(body) + post == pre + (START + (body + (END + ("\n" + post))))
  {
    FourParts(START, body, END, post);
    Regroup(pre, Block(body), post);
  }

  lemma FourParts(a: string, b: string, c: string, post: string)
    ensures (a + b + c + "\n") + post == a + (b + (c + ("\n" + post)))
  {
  }

  lemma EditKeepsBlock(body: string)
    requires body != "" && body[0] == '\n' && !Contains(body, END)
    ensures Renewed(body) != "" && Renewed(body)[0] == '\n' && IsBlock(Block(Renewed(body)))
  {
    RefsAre();
    MarkersAre();
    assert !HasPrefix(body, OLD_REF);
    ReplaceShort(body, OLD_REF, NEW_REF);
    ReplaceMakesNoMarker(body, END, OLD_REF, NEW_REF);
    BodyIsABlockIff(Renewed(body));
  }

  lemma EditKeepsMarkersOut(pre: string)
    requires !Contains(pre, START) && !Contains(pre, END)
    ensures !Contains(Renewed(pre), START) && !Contains(Renewed(pre), END)
  {
    RefsAre();
    MarkersAre();
    ReplaceMakesNoMarker(pre, START, OLD_REF, NEW_REF);
    ReplaceMakesNoMarker(pre, END, OLD_REF, NEW_REF);
  }

  lemma ContainsInside(a: string, b: string, c: string, m: string)
    ensures Contains(a, m) || Contains(b, m) || Contains(c, m) ==> Contains(a + b + c, m)
  {
    hide Contains;
    StaysInside(a, b, m);
    StaysInside(a + b, c, m);
  }

  lemma StaysInside(a: string, b: string, m: string)
    ensures Contains(a, m) || Contains(b, m) ==> Contains(a + b, m)
  {
    if Contains(a, m) {
      EachSide(a, b, m, Index(a, m));
      assert OccursAt(a + b, m, Index(a, m));
    } else if Contains(b, m) {
      EachSide(a, b, m, |a| + Index(b, m));
      assert OccursAt(a + b, m, |a| + Index(b, m));
    }
  }

  // The edited block differs: it now holds the new reference, which the block did not.
  lemma EditShows(body: string)
    requires Contains(body, OLD_REF) && !Contains(Block(body), NEW_REF)
    ensures Block(Renewed(body)) != Block(body)
  {
    RefsAre();
    ReplaceLeavesNew(body, OLD_REF, NEW_REF);
    ContainsInside(START, Renewed(body), END, NEW_REF);
    ContainsInside(START + Renewed(body) + END, "\n", "", NEW_REF);
    assert Block(Renewed(body)) + "" == Block(Renewed(body));
  }

  // ---------------------------------------------------------------- init with a rewritten block

  // What the first init writes, what the second splice makes of it, and whether the edit reaches it again.
  lemma RewrittenTwice(existing: string, body: string)
    requires WellMarked(existing) && body != "" && body[0] == '\n' && !Contains(body, END)
    requires Contains(body, OLD_REF) && Rewrites(existing, Block(body))
    ensures var pre, post, b := Before(existing), After(existing), Block(body);
            && InitFile(existing, b) == Renewed(pre) + Block(Renewed(body)) + Renewed(post)
            && Upsert(InitFile(existing, b), b) == Renewed(pre) + b + Renewed(post)
            && ManagedBlockOf(InitFile(existing, b)) == Some(Block(Renewed(body))[..|Block(Renewed(body))| - 1])
  {
    hide IsBlock, Contains, Renewed, WellMarked, ManagedBlockOf, Before, After, Block;
    var pre, post, b := Before(existing), After(existing), Block(body);
    SpliceIs(existing, b);
    EditedInParts(pre, body, post);
    EditKeepsBlock(body);
    BeforeHasNoMarkers(existing);
    EditKeepsMarkersOut(pre);
    OldRefInFile(pre, b, post);
    EditIsReplacement(pre + b + post);
    ReplacesInPlace(Renewed(pre), Block(Renewed(body)), Renewed(post), b);
    ReadsBack(Renewed(pre), Block(Renewed(body)), Renewed(post));
  }

  lemma OldRefInFile(pre: string, b: string, post: string)
    requires Contains(b, OLD_REF)
    ensures Contains(pre + b + post, OLD_REF)
  {
    ContainsInside(pre, b, post, OLD_REF);
  }

  lemma EditIsReplacement(s: string)
    requires Contains(s, OLD_REF) && !Contains(s, NEW_REF)
    ensures EnsureRef(Some(s)) == Renewed(s)
  {
  }

  lemma NothingToEdit(s: string)
    requires !Contains(s, OLD_REF)
    ensures Renewed(s) == s
  {
    RefsAre();
    ReplaceNothing(s, OLD_REF, NEW_REF);
  }

  lemma SameMiddle(pre: string, b: string, c: string, post: string)
    requires pre + b + post == pre + c + post
    ensures b == c
  {
    assert |b| == |c|;
    CutThree(pre, b, post);
    CutThree(pre, c, post);
    assert (b + post)[..|b|] == b && (c + post)[..|c|] == c;
  }

  lemma KeepsNew(s: string)
    requires Contains(s, NEW_REF)
    ensures EnsureRef(Some(s)) == s
  {
  }

  // Outside the block, too, the file holds the old reference.
  predicate OldRefAround(existing: string) { Contains(Before(existing), OLD_REF) || Contains(After(existing), OLD_REF) }

  lemma RewrittenInit(existing: string, body: string)
    requires WellMarked(existing) && body != "" && body[0] == '\n' && !Contains(body, END)
    requires Contains(body, OLD_REF) && Rewrites(existing, Block(body))
    ensures var file := InitFile(existing, Block(body));
            && (InitFile(file, Block(body)) == file <==> !OldRefAround(existing))
            && ManagedBlockOf(file) != Some(Block(body)[..|Block(body)| - 1])
  {
    hide IsBlock, Contains, Renewed, WellMarked, ManagedBlockOf, Before, After, Block, Upsert, EnsureRef;
    var pre, post, b := Before(existing), After(existing), Block(body);
    RewrittenTwice(existing, body);
    SpliceIs(existing, b);
    NoNewInBlock(pre, b, post);
    EditShows(body);
    if OldRefAround(existing) {
      NewAround(pre, b, post);
      KeepsNew(Renewed(pre) + b + Renewed(post));
      if Renewed(pre) + b + Renewed(post) == InitFile(existing, b) { SameMiddle(Renewed(pre), b, Block(Renewed(body)), Renewed(post)); }
    } else {
      NothingToEdit(pre);
      NothingToEdit(post);
    }
    BlocksEndAlike(body, Renewed(body));
  }

  lemma NoNewInBlock(pre: string, b: string, post: string)
    requires !Contains(pre + b + post, NEW_REF)
    ensures !Contains(b, NEW_REF)
  {
    ContainsInside(pre, b, post, NEW_REF);
  }

  lemma NewAround(pre: string, b: string, post: string)
    requires Contains(pre, OLD_REF) || Contains(post, OLD_REF)
    ensures Contains(Renewed(pre) + b + Renewed(post), NEW_REF)
  {
    RefsAre();
    if Contains(pre, OLD_REF) { ReplaceLeavesNew(pre, OLD_REF, NEW_REF); } else { ReplaceLeavesNew(post, OLD_REF, NEW_REF); }
    ContainsInside(Renewed(pre), b, Renewed(post), NEW_REF);
  }

  lemma BlocksEndAlike(x: string, y: string)
    ensures Block(x)[..|Block(x)| - 1] == Block(y)[..|Block(y)| - 1] ==> Block(x) == Block(y)
  {
    assert Block(x) == Block(x)[..|Block(x)| - 1] + "\n" && Block(y) == Block(y)[..|Block(y)| - 1] + "\n";
  }

  // ---------------------------------------------------------------- an end marker beside the old reference

  lemma {:induction false} ForeignFront(x: string, y: string)
    requires '@' !in x
    ensures Renewed(x + y) == x + Renewed(y)
  {
    RefsAre();
    if x == "" {
      assert x + y == y;
    } else {
      assert (x + y)[0] == x[0] && (x + y)[1..] == x[1..] + y && x[0] in x;
      ReplaceShort(x + y, OLD_REF, NEW_REF);
      ForeignFront(x[1..], y);
      assert [x[0]] + (x[1..] + Renewed(y)) == x + Renewed(y);
    }
  }

  // The end marker survives the edit.
  lemma EndSurvives(body: string)
    requires Contains(body, END)
    ensures Contains(Renewed(body), END)
  {
    SeamIsForeign();
    MarkersAre();
    var i := Index(body, END);
    var x, y := body[..i], body[i + |END|..];
    AroundOccurrence(body, END, i);
    assert (END + y)[0] == '<';
    ReplaceConcat(x, END + y, OLD_REF, NEW_REF);
    ForeignFront(END, y);
    EndInMiddle(Renewed(x), Renewed(y));
  }

  lemma AroundOccurrence(s: string, m: string, i: nat)
    requires OccursAt(s, m, i)
    ensures s == s[..i] + (m + s[i + |m|..])
  {
  }

  lemma EndInMiddle(x: string, y: string)
    ensures Contains(x + (END + y), END)
  {
    assert (x + (END + y))[|x|..|x| + |END|] == END;
    assert OccursAt(x + (END + y), END, |x|);
  }

  // The new reference is shorter, and neither is empty.
  lemma {:induction false} RenewedIsNoLonger(s: string)
    ensures |Renewed(s)| <= |s| && (s != "" ==> Renewed(s) != "")
  {
    if |OLD_REF| <= |s| {
      if HasPrefix(s, OLD_REF) { RenewedIsNoLonger(s[|OLD_REF|..]); } else { RenewedIsNoLonger(s[1..]); }
    }
  }

  // A text without the new reference has lost no old one to the edit.
  lemma StillNoNew(s: string)
    requires !Contains(Renewed(s), NEW_REF)
    ensures Renewed(s) == s
  {
    RefsAre();
    if Contains(s, OLD_REF) { ReplaceLeavesNew(s, OLD_REF, NEW_REF); } else { NothingToEdit(s); }
  }

  // A line and what follows it are edited apart.
  lemma LineApart(tail: string, post: string)
    requires tail != "" && tail[|tail| - 1] == '\n'
    ensures Renewed(tail + post) == Renewed(tail) + Renewed(post)
  {
    hide Renewed;
    var front := tail[..|tail| - 1];
    NothingStays();
    LineEnd(front, "");
    LineEnd(front, post);
    assert tail == front + "\n" == front + "\n" + "";
  }

  lemma LineEnd(front: string, post: string)
    ensures Renewed(front + "\n" + post) == Renewed(front) + "\n" + Renewed(post)
  {
    SeamIsForeign();
    ReplaceConcat(front, "\n" + post, OLD_REF, NEW_REF);
    NewlineStays(post);
    hide Renewed, ReplaceAll;
    Regroup(front, "\n", post);
    Regroup(Renewed(front), "\n", Renewed(post));
  }

  lemma NothingStays()
    ensures Renewed("") == ""
  {
  }

  lemma BlockEndsEarly(body: string)
    requires body != "" && body[0] == '\n' && Contains(body, END)
    ensures Renewed(body) != "" && Renewed(body)[0] == '\n' && EndsEarly(Block(Renewed(body)))
  {
    hide Contains, EndsEarly, IsBlock;
    EndSurvives(body);
    RefsAre();
    assert !HasPrefix(body, OLD_REF);
    ReplaceShort(body, OLD_REF, NEW_REF);
    BodyIsABlockIff(Renewed(body));
  }

  // The edit only ever shortens a file to what its parts shorten to.
  lemma SecondEdit(pre: string, body: string, tail: string, post: string)
    requires body != "" && body[0] == '\n' && tail != "" && tail[|tail| - 1] == '\n'
    requires Contains(body, OLD_REF)
    ensures |EnsureRef(Some(Renewed(pre) + Block(body) + (tail + Renewed(post))))|
          > |Renewed(pre) + Block(Renewed(body)) + Renewed(post)|
  {
    hide Contains, Renewed, Block;
    var p, q := Renewed(pre), Renewed(post);
    var s := p + Block(body) + (tail + q);
    BlockSizes(body);
    RenewedIsNoLonger(body);
    RenewedIsNoLonger(tail);
    if Contains(s, NEW_REF) {
      KeepsNew(s);
    } else {
      ContainsInside(p, Block(body), tail + q, NEW_REF);
      StaysInside(tail, q, NEW_REF);
      StillNoNew(pre);
      StillNoNew(post);
      BlockHolds(body, OLD_REF);
      OldRefInFile(p, Block(body), tail + q);
      EditIsReplacement(s);
      EditedInParts(p, body, tail + q);
      LineApart(tail, q);
    }
  }

  lemma BlockSizes(body: string)
    ensures |Block(body)| == |Block("")| + |body| && |Block(Renewed(body))| == |Block("")| + |Renewed(body)|
  {
  }

  lemma BlockHolds(body: string, m: string)
    requires Contains(body, m)
    ensures Contains(Block(body), m)
  {
    ContainsInside(START, body, END, m);
    StaysInside(START + body + END, "\n", m);
  }

  // What is read back of a block that ends early is shorter than the block.
  lemma ReadsBackLess(pre: string, block: string, post: string)
    requires EndsEarly(block) && !Contains(pre, START) && !Contains(pre, END)
    ensures ManagedBlockOf(pre + block + post).Some? && |ManagedBlockOf(pre + block + post).value| < |block| - 1
  {
    hide ManagedBlockOf, Contains, Framed;
    EmptyContainsNone(START);
    EmptyContainsNone(END);
    EarlyMarkersInPlace(pre, block, post);
    EarlyMarkersInPlace("", block, post);
    NothingInFront(block, post);
    CutThree(pre, block, post);
    BlockFound(pre + block + post, block + post, |pre|, Index(block, END));
  }

  lemma RewrittenInitGrows(existing: string, body: string)
    requires WellMarked(existing) && body != "" && body[0] == '\n' && Contains(body, END)
    requires Contains(body, OLD_REF) && Rewrites(existing, Block(body))
    ensures |InitFile(InitFile(existing, Block(body)), Block(body))| > |InitFile(existing, Block(body))|
    ensures ManagedBlockOf(InitFile(existing, Block(body))) != Some(Block(body)[..|Block(body)| - 1])
  {
    hide IsBlock, EndsEarly, Contains, Renewed, WellMarked, ManagedBlockOf, Before, After, Block, EnsureRef, Upsert;
    var pre, post, b := Before(existing), After(existing), Block(body);
    SpliceIs(existing, b);
    EditedInParts(pre, body, post);
    BlockEndsEarly(body);
    BeforeHasNoMarkers(existing);
    EditKeepsMarkersOut(pre);
    OldRefInFile(pre, b, post);
    EditIsReplacement(pre + b + post);
    var tail := EarlyEndLeavesTail(Renewed(pre), Block(Renewed(body)), Renewed(post), b);
    SecondEdit(pre, body, tail, post);
    BlockSizes(body);
    RenewedIsNoLonger(body);
    ReadsBackLess(Renewed(pre), Block(Renewed(body)), Renewed(post));
  }

  // A file that already holds the new reference grows by the block's tail.
  lemma KeptInitGrows(existing: string, block: string)
    requires WellMarked(existing) && EndsEarly(block) && Contains(Upsert(existing, block), NEW_REF)
    ensures |InitFile(InitFile(existing, block), block)| > |InitFile(existing, block)|
    ensures ManagedBlockOf(InitFile(existing, block)) != Some(block[..|block| - 1])
  {
    hide Contains, WellMarked, ManagedBlockOf, Before, After, EnsureRef, Upsert, Framed;
    var pre, post := Before(existing), After(existing);
    SpliceIs(existing, block);
    BeforeHasNoMarkers(existing);
    KeepsNew(Upsert(existing, block));
    var post' := EarlyEndGrows(pre, block, post);
    FramedEnds(block);
    RefSurvives(pre, block, post, post');
    KeepsNew(pre + block + post');
    ReadsBackLess(pre, block, post);
  }

  // Without an old reference in the block the edit leaves it whole.
  lemma PlainInitReadsLess(existing: string, block: string)
    requires EndsEarly(block) && !Contains(block, OLD_REF) && WellMarked(existing)
    ensures ManagedBlockOf(InitFile(existing, block)) != Some(block[..|block| - 1])
  {
    hide Contains, WellMarked, ManagedBlockOf, Before, After, EnsureRef, Upsert, Framed;
    SpliceIs(existing, block);
    BeforeHasNoMarkers(existing);
    var pre, post := EnsureRefKeepsBlock(Before(existing), block, After(existing));
    ReadsBackLess(pre, block, post);
  }

  lemma EndInFieldGrows(existing: string, blocks: seq<ProjectBlock>)
    requires WellMarked(existing) && FieldCarries(blocks, END)
    ensures var b := Rendered(blocks);
            var file := InitFile(existing, b);
            && |InitFile(file, b)| > |file|
            && ManagedBlockOf(file) != Some(b[..|b| - 1])
  {
    hide IsBlock, EndsEarly, Contains, FieldCarries, WellMarked, ManagedBlockOf, InitFile, Body, Upsert, Replaces;
    var b, body := Rendered(blocks), Body(blocks);
    RenderedParts(blocks);
    RenderedIsABlockIff(blocks);
    NoEndInBody(blocks);
    OldRefInBody(blocks);
    if Rewrites(existing, b) {
      RewrittenInitGrows(existing, body);
    } else if Contains(b, OLD_REF) {
      KeptInitGrows(existing, b);
    } else {
      EarlyEndInitGrows(existing, b);
      PlainInitReadsLess(existing, b);
    }
  }

  // ---------------------------------------------------------------- rendered blocks

  // With no end marker in a field.
  lemma NoEndInField(existing: string, blocks: seq<ProjectBlock>)
    requires WellMarked(existing) && !FieldCarries(blocks, END)
    ensures var b := Rendered(blocks);
            var file := InitFile(existing, b);
            && (ManagedBlockOf(file) == Some(b[..|b| - 1]) <==> !Rewrites(existing, b))
            && (InitFile(file, b) == file <==> !(Rewrites(existing, b) && OldRefAround(existing)))
  {
    hide IsBlock, Contains, FieldCarries, WellMarked, ManagedBlockOf, Before, After, EndsEarly, Body, EnsureRef, Upsert, Replaces;
    var b, body := Rendered(blocks), Body(blocks);
    RenderedParts(blocks);
    RenderedIsABlockIff(blocks);
    RenderedOldRefIff(blocks);
    NoEndInBody(blocks);
    if Rewrites(existing, b) {
      OldRefInBody(blocks);
      RewrittenInit(existing, body);
    } else if Contains(b, OLD_REF) {
      KeptAsSpliced(existing, b);
    } else {
      InitFileIsIdempotent(existing, b);
    }
  }

  /** Whatever the fields hold: init writes a block that is read back as rendered exactly when
      no field holds the end marker and the import-line edit does not reach into the block; and
      it is idempotent exactly when no field holds the end marker, unless the edit reaches into
      the block while the file holds the old reference outside it as well. An end marker in a
      field makes the second file longer. */
  lemma InitIsIdempotentIff(existing: string, blocks: seq<ProjectBlock>)
    requires WellMarked(existing)
    ensures var b := Rendered(blocks);
            var file := InitFile(existing, b);
            && (ManagedBlockOf(file) == Some(b[..|b| - 1]) <==> !FieldCarries(blocks, END) && !Rewrites(existing, b))
            && (InitFile(file, b) == file <==> !FieldCarries(blocks, END) && !(Rewrites(existing, b) && OldRefAround(existing)))
            && (FieldCarries(blocks, END) ==> |InitFile(file, b)| > |file|)
  {
    hide Rendered, FieldCarries, WellMarked, ManagedBlockOf, InitFile, Rewrites, OldRefAround;
    if FieldCarries(blocks, END) {
      EndInFieldGrows(existing, blocks);
    } else {
      NoEndInField(existing, blocks);
    }
  }

  lemma NoEndInBody(blocks: seq<ProjectBlock>)
    ensures Contains(Body(blocks), END) <==> FieldCarries(blocks, END)
  {
    hide Contains, FieldCarries, Body;
    EndIsANeedle();
    BodyHolds(blocks, END);
  }

  lemma OldRefInBody(blocks: seq<ProjectBlock>)
    ensures Contains(Body(blocks), OLD_REF) <==> Contains(Rendered(blocks), OLD_REF)
  {
    hide Contains, FieldCarries, Body, Rendered;
    OldRefIsANeedle();
    BodyHolds(blocks, OLD_REF);
    RenderedOldRefIff(blocks);
  }

  // A file that already holds the new reference is left as the splice made it.
  lemma KeptAsSpliced(existing: string, b: string)
    requires WellMarked(existing) && IsBlock(b) && Contains(Upsert(existing, b), NEW_REF)
    ensures InitFile(existing, b) == Upsert(existing, b) && InitFile(InitFile(existing, b), b) == InitFile(existing, b)
    ensures ManagedBlockOf(InitFile(existing, b)) == Some(b[..|b| - 1])
  {
    hide IsBlock, Contains, WellMarked, ManagedBlockOf, Before, After, EnsureRef;
    SpliceIs(existing, b);
    BeforeHasNoMarkers(existing);
    KeepsNew(Upsert(existing, b));
    ReplacesInPlace(Before(existing), b, After(existing), b);
    ReadsBack(Before(existing), b, After(existing));
  }

  /** Init, init again, then doctor: for fields without the end marker and a file where the
      import-line edit does not reach into the block, the second run changes nothing, and what
      is read back is the block rendered, never classified legacy; its projects are the rendered
      ones exactly when no description forges a heading. */
  lemma InitThenDoctor(existing: string, blocks: seq<ProjectBlock>)
    requires WellMarked(existing) && !FieldCarries(blocks, END) && !Rewrites(existing, Rendered(blocks))
    requires NamesHaveNoBreak(blocks) && NamesAreTrimmed(blocks)
    ensures var file := InitFile(existing, Rendered(blocks));
            && InitFile(file, Rendered(blocks)) == file
            && ManagedBlockOf(file) == Some(BlockBody(blocks))
            && !BlockIsLegacyFormat(BlockBody(blocks))
    ensures var lines := Split(BlockBody(blocks), '\n');
            Headings(lines, |lines|) == Names(blocks, |blocks|) <==> forall k :: 0 <= k < |blocks| ==> !Forges(blocks[k])
  {
    hide InitFile, ManagedBlockOf, WellMarked, FieldCarries, BlockIsLegacyFormat, Rewrites, OldRefAround;
    InitIsIdempotentIff(existing, blocks);
    LinesReadBack(blocks);
    assert (BlockBody(blocks) + "\n")[..|BlockBody(blocks)|] == BlockBody(blocks);
    BodyIsNeverLegacy(blocks);
    ProjectsReadBackIff(blocks);
  }
}
