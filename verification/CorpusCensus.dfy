/** Streaming counters over call transcripts: pairing calls with results, and what the
    per-tool numbers add up to. */
module CorpusCensus {
  import opened Common
  import opened Versions

  // ---------------------------------------------------------------- counters

  // A counter that counts exactly the members of `ms`.
  ghost predicate Tally<T(!new)>(counter: map<T, nat>, ms: multiset<T>) {
    forall x :: (x in counter <==> x in ms) && (x in counter ==> counter[x] == ms[x])
  }

  function Bump<T>(counter: map<T, nat>, x: T): map<T, nat> {
    counter[x := (if x in counter then counter[x] else 0) + 1]
  }

  lemma BumpTallies<T(!new)>(counter: map<T, nat>, ms: multiset<T>, x: T)
    requires Tally(counter, ms)
    ensures Tally(Bump(counter, x), ms + multiset{x})
  {
  }

  // ---------------------------------------------------------------- one tool's census

  // A timestamp's code points; empty when there is none.
  type Stamp = seq<nat>

  datatype ErrorKey = ErrorKey(tool: string, status: string, code: string, message: string)

  // One result, classified.
  datatype Body = Body(kind: string, isError: bool, status: string, code: string, message: string)

  datatype Call = Call(tool: string, ts: Stamp, body: Body)

  datatype Census = Census(calls: nat, errors: nat, unpaired: nat, first: Option<Stamp>, last: Option<Stamp>,
                           outKinds: map<string, nat>, errorCodes: map<string, nat>)

  const EMPTY := Census(0, 0, 0, None, None, map[], map[])

  function See(c: Census, ts: Stamp): Census {
    if ts == [] then c
    else
      c.(first := if c.first.None? || Less(ts, c.first.value) then Some(ts) else c.first,
         last := if c.last.None? || Less(c.last.value, ts) then Some(ts) else c.last)
  }

  // ---------------------------------------------------------------- the calls of one tool

  function Key(c: Call): ErrorKey { ErrorKey(c.tool, c.body.status, c.body.code, c.body.message) }

  function Kinds(log: seq<Call>, n: nat, tool: string): multiset<string>
    requires n <= |log|
  {
    if n == 0 then multiset{}
    else if log[n - 1].tool == tool then Kinds(log, n - 1, tool) + multiset{log[n - 1].body.kind}
    else Kinds(log, n - 1, tool)
  }

  predicate ErrorOf(c: Call, tool: string) { c.tool == tool && c.body.isError }

  function Codes(log: seq<Call>, n: nat, tool: string): multiset<string>
    requires n <= |log|
  {
    if n == 0 then multiset{}
    else if ErrorOf(log[n - 1], tool) then Codes(log, n - 1, tool) + multiset{log[n - 1].body.code}
    else Codes(log, n - 1, tool)
  }

  // The taxonomy keys of one tool's errors.
  function Keys(log: seq<Call>, n: nat, tool: string): multiset<ErrorKey>
    requires n <= |log|
  {
    if n == 0 then multiset{}
    else if ErrorOf(log[n - 1], tool) then Keys(log, n - 1, tool) + multiset{Key(log[n - 1])}
    else Keys(log, n - 1, tool)
  }

  function Stamps(log: seq<Call>, n: nat, tool: string): seq<Stamp>
    requires n <= |log|
  {
    if n == 0 then []
    else if log[n - 1].tool == tool && log[n - 1].ts != [] then Stamps(log, n - 1, tool) + [log[n - 1].ts]
    else Stamps(log, n - 1, tool)
  }

  predicate IsLeast(stamps: seq<Stamp>, f: Option<Stamp>) {
    match f
    case None => stamps == []
    case Some(t) => t in stamps && forall i :: 0 <= i < |stamps| ==> AtMost(t, stamps[i])
  }

  predicate IsGreatest(stamps: seq<Stamp>, f: Option<Stamp>) {
    match f
    case None => stamps == []
    case Some(t) => t in stamps && forall i :: 0 <= i < |stamps| ==> AtMost(stamps[i], t)
  }

  /** The census of a tool is what a second pass over its calls would count. */
  ghost predicate Counts(c: Census, log: seq<Call>, tool: string) {
    && c.calls == |Kinds(log, |log|, tool)| && Tally(c.outKinds, Kinds(log, |log|, tool))
    && c.errors == |Codes(log, |log|, tool)| && Tally(c.errorCodes, Codes(log, |log|, tool))
    && IsLeast(Stamps(log, |log|, tool), c.first) && IsGreatest(Stamps(log, |log|, tool), c.last)
  }

  lemma {:induction false} LogPrefix(log: seq<Call>, c: Call, n: nat, tool: string)
    requires n <= |log|
    ensures Kinds(log + [c], n, tool) == Kinds(log, n, tool) && Codes(log + [c], n, tool) == Codes(log, n, tool)
    ensures Keys(log + [c], n, tool) == Keys(log, n, tool) && Stamps(log + [c], n, tool) == Stamps(log, n, tool)
  {
    if n > 0 { LogPrefix(log, c, n - 1, tool); }
  }

  function WithStamp(stamps: seq<Stamp>, ts: Stamp): seq<Stamp> { if ts == [] then stamps else stamps + [ts] }

  lemma SeeKeepsEnds(c: Census, stamps: seq<Stamp>, ts: Stamp)
    requires IsLeast(stamps, c.first) && IsGreatest(stamps, c.last)
    ensures IsLeast(WithStamp(stamps, ts), See(c, ts).first) && IsGreatest(WithStamp(stamps, ts), See(c, ts).last)
  {
    if ts != [] {
      var all := WithStamp(stamps, ts);
      assert all[|stamps|] == ts;
      if c.first.Some? {
        LessIsTotal(ts, c.first.value);
        assert c.first.value in all;
        forall i | 0 <= i < |stamps| && Less(ts, c.first.value) ensures AtMost(ts, all[i]) {
          if stamps[i] != c.first.value { LessIsTransitive(ts, c.first.value, stamps[i]); }
        }
      }
      if c.last.Some? {
        LessIsTotal(ts, c.last.value);
        assert c.last.value in all;
        forall i | 0 <= i < |stamps| && Less(c.last.value, ts) ensures AtMost(all[i], ts) {
          if stamps[i] != c.last.value { LessIsTransitive(stamps[i], c.last.value, ts); }
        }
      }
    }
  }

  // One call, in the census of its own tool.
  function After(c: Census, call: Call): Census {
    var seen := See(c.(calls := c.calls + 1), call.ts);
    var kinds := seen.(outKinds := Bump(seen.outKinds, call.body.kind));
    if call.body.isError then kinds.(errors := kinds.errors + 1, errorCodes := Bump(kinds.errorCodes, call.body.code)) else kinds
  }

  // What one more call of the tool adds to its batch counts.
  lemma OneMoreCall(log: seq<Call>, call: Call)
    ensures var n, t, all := |log|, call.tool, log + [call];
            && Kinds(all, n + 1, t) == Kinds(log, n, t) + multiset{call.body.kind}
            && Codes(all, n + 1, t) == (if call.body.isError then Codes(log, n, t) + multiset{call.body.code} else Codes(log, n, t))
            && Keys(all, n + 1, t) == (if call.body.isError then Keys(log, n, t) + multiset{Key(call)} else Keys(log, n, t))
            && Stamps(all, n + 1, t) == WithStamp(Stamps(log, n, t), call.ts)
  {
    LogPrefix(log, call, |log|, call.tool);
  }

  lemma AfterCounts(c: Census, log: seq<Call>, call: Call)
    requires Counts(c, log, call.tool)
    ensures Counts(After(c, call), log + [call], call.tool)
  {
    hide Tally, IsLeast, IsGreatest, Bump, See, Kinds, Codes, Stamps;
    OneMoreCall(log, call);
    BumpTallies(c.outKinds, Kinds(log, |log|, call.tool), call.body.kind);
    BumpTallies(c.errorCodes, Codes(log, |log|, call.tool), call.body.code);
    SeeKeepsEnds(c.(calls := c.calls + 1), Stamps(log, |log|, call.tool), call.ts);
    SeeFrame(c.(calls := c.calls + 1), call.ts);
  }

  lemma SeeFrame(c: Census, ts: Stamp)
    ensures See(c, ts).(first := c.first, last := c.last) == c
  {
  }

  lemma OtherCounts(c: Census, log: seq<Call>, call: Call, tool: string)
    requires Counts(c, log, tool) && call.tool != tool
    ensures Counts(c, log + [call], tool)
  {
    LogPrefix(log, call, |log|, tool);
  }

  // ---------------------------------------------------------------- one file

  datatype Use = Use(tool: string, ts: Stamp, paired: bool)

  // The blocks of a transcript that reach the pairing.
  datatype Block = ToolUse(id: string, tool: string, ts: Stamp) | ToolResult(id: string, body: Body)

  predicate IsOpen(uses: map<string, Use>, id: string) { id in uses && !uses[id].paired }

  // The first result of a call still open.
  predicate Pairs(uses: map<string, Use>, b: Block) { b.ToolResult? && IsOpen(uses, b.id) }

  // A call opened under the id of one still open, which is thereby forgotten.
  predicate Overwrites(uses: map<string, Use>, b: Block) { b.ToolUse? && IsOpen(uses, b.id) }

  // The calls of the first n blocks, by id.
  function Uses(blocks: seq<Block>, n: nat): map<string, Use>
    requires n <= |blocks|
  {
    if n == 0 then map[]
    else
      var uses, b := Uses(blocks, n - 1), blocks[n - 1];
      if b.ToolUse? then uses[b.id := Use(b.tool, b.ts, false)]
      else if Pairs(uses, b) then uses[b.id := uses[b.id].(paired := true)]
      else uses
  }

  function PairedCalls(blocks: seq<Block>, n: nat): seq<Call>
    requires n <= |blocks|
  {
    if n == 0 then []
    else
      var uses, b := Uses(blocks, n - 1), blocks[n - 1];
      if Pairs(uses, b) then PairedCalls(blocks, n - 1) + [Call(uses[b.id].tool, uses[b.id].ts, b.body)]
      else PairedCalls(blocks, n - 1)
  }

  function ToolUses(blocks: seq<Block>, n: nat): nat
    requires n <= |blocks|
  {
    if n == 0 then 0 else ToolUses(blocks, n - 1) + if blocks[n - 1].ToolUse? then 1 else 0
  }

  function Forgotten(blocks: seq<Block>, n: nat): nat
    requires n <= |blocks|
  {
    if n == 0 then 0 else Forgotten(blocks, n - 1) + if Overwrites(Uses(blocks, n - 1), blocks[n - 1]) then 1 else 0
  }

  // The open calls among some ids, of any tool or of one.
  function OpenAmong(uses: map<string, Use>, ids: set<string>): set<string> { set id | id in ids && IsOpen(uses, id) }

  function OpenOfAmong(uses: map<string, Use>, ids: set<string>, tool: string): set<string> {
    set id | id in ids && IsOpen(uses, id) && uses[id].tool == tool
  }

  function OpenIds(uses: map<string, Use>): set<string> { OpenAmong(uses, uses.Keys) }

  function OpenOf(uses: map<string, Use>, tool: string): set<string> { OpenOfAmong(uses, uses.Keys, tool) }

  /** What happens to the calls of a file: each is paired, still open at the end, or forgotten. */
  lemma {:induction false} UsesAreAccountedFor(blocks: seq<Block>, n: nat)
    requires n <= |blocks|
    ensures ToolUses(blocks, n) == |PairedCalls(blocks, n)| + |OpenIds(Uses(blocks, n))| + Forgotten(blocks, n)
  {
    if n > 0 {
      UsesAreAccountedFor(blocks, n - 1);
      var before, after := Uses(blocks, n - 1), Uses(blocks, n);
      var id := blocks[n - 1].id;
      if blocks[n - 1].ToolUse? {
        assert OpenIds(after) == OpenIds(before) + {id};
      } else if Pairs(before, blocks[n - 1]) {
        assert OpenIds(after) == OpenIds(before) - {id};
      }
    }
  }

  lemma {:induction false} NothingForgottenIff(blocks: seq<Block>, n: nat)
    requires n <= |blocks|
    ensures Forgotten(blocks, n) == 0 <==> forall k :: 0 <= k < n ==> !Overwrites(Uses(blocks, k), blocks[k])
  {
    hide Overwrites, Uses;
    if n > 0 { NothingForgottenIff(blocks, n - 1); }
  }

  /** Uses equal pairs plus leftovers exactly when no call id is reused while its call is open. */
  lemma UsesArePairedOrLeftIff(blocks: seq<Block>)
    ensures ToolUses(blocks, |blocks|) == |PairedCalls(blocks, |blocks|)| + |OpenIds(Uses(blocks, |blocks|))|
            <==> forall k :: 0 <= k < |blocks| ==> !Overwrites(Uses(blocks, k), blocks[k])
  {
    UsesAreAccountedFor(blocks, |blocks|);
    NothingForgottenIff(blocks, |blocks|);
  }

  predicate UniqueIds(blocks: seq<Block>) {
    forall i, j :: 0 <= i < j < |blocks| && blocks[i].ToolUse? && blocks[j].ToolUse? ==> blocks[i].id != blocks[j].id
  }

  lemma {:induction false} OpenedBefore(blocks: seq<Block>, n: nat, id: string)
    requires n <= |blocks| && id in Uses(blocks, n)
    ensures exists k :: 0 <= k < n && blocks[k].ToolUse? && blocks[k].id == id
  {
    if !(blocks[n - 1].ToolUse? && blocks[n - 1].id == id) { OpenedBefore(blocks, n - 1, id); }
  }

  /** With ids unique in the file nothing is forgotten. */
  lemma UniqueIdsForgetNothing(blocks: seq<Block>)
    requires UniqueIds(blocks)
    ensures ToolUses(blocks, |blocks|) == |PairedCalls(blocks, |blocks|)| + |OpenIds(Uses(blocks, |blocks|))|
  {
    forall k | 0 <= k < |blocks| ensures !Overwrites(Uses(blocks, k), blocks[k]) {
      if Overwrites(Uses(blocks, k), blocks[k]) { OpenedBefore(blocks, k, blocks[k].id); }
    }
    UsesArePairedOrLeftIff(blocks);
  }

  // ---------------------------------------------------------------- the collector

  function Lookup(census: map<string, Census>, tool: string): Census { if tool in census then census[tool] else EMPTY }

  class Collector {
    var census: map<string, Census>
    var taxonomy: map<ErrorKey, nat>
    var toolUses: nat
    var paired: nat
    var unpaired: nat
    ghost var log: seq<Call>  // every call paired so far

    ghost predicate Valid()
      reads this
    {
      && paired == |log|
      && (forall tool :: Counts(Lookup(census, tool), log, tool))
      && (forall tool :: InTaxonomy(taxonomy, log, tool))
    }

    constructor ()
      ensures Valid() && log == [] && toolUses == 0 && unpaired == 0
      ensures forall tool :: Lookup(census, tool).unpaired == 0
    {
      census, taxonomy, toolUses, paired, unpaired, log := map[], map[], 0, 0, 0, [];
    }

    // A result joins its call: counters, timestamps, kinds, errors.
    method OnPair(u: Use, body: Body)
      requires Valid()
      modifies this
      ensures Valid() && log == old(log) + [Call(u.tool, u.ts, body)]
      ensures toolUses == old(toolUses) && unpaired == old(unpaired)
      ensures forall tool :: Lookup(census, tool).unpaired == old(Lookup(census, tool).unpaired)
    {
      hide Counts, InTaxonomy, See, Bump;
      ghost var call := Call(u.tool, u.ts, body);
      ghost var was := census;
      paired := paired + 1;
      var cs := Lookup(census, u.tool);
      SeeFrame(cs.(calls := cs.calls + 1), u.ts);
      cs := See(cs.(calls := cs.calls + 1), u.ts);
      cs := cs.(outKinds := Bump(cs.outKinds, body.kind));
      if body.isError {
        cs := cs.(errors := cs.errors + 1, errorCodes := Bump(cs.errorCodes, body.code));
        taxonomy := Bump(taxonomy, ErrorKey(u.tool, body.status, body.code, body.message));
      }
      census := census[u.tool := cs];
      CensusStep(was, census, log, call);
      TaxonomyStep(old(taxonomy), taxonomy, log, call);
      log := log + [call];
    }

    /** One transcript. Every use is paired, left unpaired, or forgotten because its id was
        opened again; the per-tool leftovers add to the census. */
    method ScanFile(blocks: seq<Block>)
      requires Valid()
      modifies this
      ensures Valid() && log == old(log) + PairedCalls(blocks, |blocks|)
      ensures toolUses == old(toolUses) + ToolUses(blocks, |blocks|)
      ensures unpaired == old(unpaired) + |OpenIds(Uses(blocks, |blocks|))|
      ensures forall tool :: Lookup(census, tool).unpaired == old(Lookup(census, tool).unpaired) + |OpenOf(Uses(blocks, |blocks|), tool)|
    {
      hide Counts, InTaxonomy, Lookup;
      var uses: map<string, Use> := map[];
      for i := 0 to |blocks|
        invariant Valid() && uses == Uses(blocks, i)
        invariant log == old(log) + PairedCalls(blocks, i)
        invariant toolUses == old(toolUses) + ToolUses(blocks, i) && unpaired == old(unpaired)
        invariant forall tool :: Lookup(census, tool).unpaired == old(Lookup(census, tool).unpaired)
      {
        match blocks[i]
        case ToolUse(id, tool, ts) =>
          uses := uses[id := Use(tool, ts, false)];
          toolUses := toolUses + 1;
        case ToolResult(id, body) =>
          if id !in uses || uses[id].paired { continue; }
          var u := uses[id];
          uses := uses[id := u.(paired := true)];
          OnPair(u, body);
      }
      CountLeftovers(uses);
    }

    method CountLeftover(tool: string)
      requires Valid()
      modifies this`census, this`unpaired
      ensures Valid() && unpaired == old(unpaired) + 1
      ensures forall t :: Lookup(census, t).unpaired == old(Lookup(census, t).unpaired) + if t == tool then 1 else 0
    {
      hide Counts, InTaxonomy;
      ghost var was := census;
      var cs := Lookup(census, tool);
      census := census[tool := cs.(unpaired := cs.unpaired + 1)];
      LeftoverKeepsCounts(was, census, log, tool);
      unpaired := unpaired + 1;
    }

    // The final loop over the calls of a file, in whatever order they are listed.
    method CountLeftovers(uses: map<string, Use>)
      requires Valid()
      modifies this`census, this`unpaired
      ensures Valid() && unpaired == old(unpaired) + |OpenIds(uses)|
      ensures forall tool :: Lookup(census, tool).unpaired == old(Lookup(census, tool).unpaired) + |OpenOf(uses, tool)|
    {
      hide Counts, InTaxonomy, OpenAmong, OpenOfAmong, Lookup;
      NoneAmongNone(uses);
      var left := uses.Keys;
      ghost var done: set<string> := {};
      while left != {}
        invariant Valid() && done + left == uses.Keys && done !! left
        invariant unpaired == old(unpaired) + |OpenAmong(uses, done)|
        invariant forall tool :: Lookup(census, tool).unpaired == old(Lookup(census, tool).unpaired) + |OpenOfAmong(uses, done, tool)|
        decreases left
      {
        var id :| id in left;
        left := left - {id};
        OneMore(uses, done, id);
        done := done + {id};
        if !uses[id].paired { CountLeftover(uses[id].tool); }
      }
      assert done == uses.Keys;
    }
  }

  lemma NoneAmongNone(uses: map<string, Use>)
    ensures OpenAmong(uses, {}) == {} && forall tool :: OpenOfAmong(uses, {}, tool) == {}
  {
  }

  lemma OneMoreOpen(uses: map<string, Use>, done: set<string>, id: string)
    requires id in uses && id !in done
    ensures |OpenAmong(uses, done + {id})| == |OpenAmong(uses, done)| + if uses[id].paired then 0 else 1
  {
    assert OpenAmong(uses, done + {id}) == OpenAmong(uses, done) + if uses[id].paired then {} else {id};
  }

  lemma OneMoreOf(uses: map<string, Use>, done: set<string>, id: string, tool: string)
    requires id in uses && id !in done
    ensures |OpenOfAmong(uses, done + {id}, tool)|
         == |OpenOfAmong(uses, done, tool)| + if uses[id].paired || uses[id].tool != tool then 0 else 1
  {
    assert OpenOfAmong(uses, done + {id}, tool)
        == OpenOfAmong(uses, done, tool) + if uses[id].paired || uses[id].tool != tool then {} else {id};
  }

  lemma OneMore(uses: map<string, Use>, done: set<string>, id: string)
    requires id in uses && id !in done
    ensures |OpenAmong(uses, done + {id})| == |OpenAmong(uses, done)| + if uses[id].paired then 0 else 1
    ensures forall tool :: |OpenOfAmong(uses, done + {id}, tool)|
              == |OpenOfAmong(uses, done, tool)| + if uses[id].paired || uses[id].tool != tool then 0 else 1
  {
    hide OpenAmong, OpenOfAmong;
    OneMoreOpen(uses, done, id);
    forall tool
      ensures |OpenOfAmong(uses, done + {id}, tool)|
           == |OpenOfAmong(uses, done, tool)| + if uses[id].paired || uses[id].tool != tool then 0 else 1
    {
      OneMoreOf(uses, done, id, tool);
    }
  }

  lemma LeftoverKeepsCounts(was: map<string, Census>, now: map<string, Census>, log: seq<Call>, tool: string)
    requires forall t :: Counts(Lookup(was, t), log, t)
    requires now == was[tool := Lookup(was, tool).(unpaired := Lookup(was, tool).unpaired + 1)]
    ensures forall t :: Counts(Lookup(now, t), log, t)
  {
    forall t ensures Counts(Lookup(now, t), log, t) { assert Counts(Lookup(was, t), log, t); }
  }

  lemma CensusStep(was: map<string, Census>, now: map<string, Census>, log: seq<Call>, call: Call)
    requires forall t :: Counts(Lookup(was, t), log, t)
    requires now == was[call.tool := After(Lookup(was, call.tool), call)]
    ensures forall t :: Counts(Lookup(now, t), log + [call], t)
  {
    hide Counts, After;
    forall t ensures Counts(Lookup(now, t), log + [call], t) {
      assert Counts(Lookup(was, t), log, t);
      if t == call.tool { AfterCounts(Lookup(was, t), log, call); } else { OtherCounts(Lookup(was, t), log, call, t); }
    }
  }

  // The taxonomy counts exactly this tool's errors under this tool's keys.
  ghost predicate InTaxonomy(taxonomy: map<ErrorKey, nat>, log: seq<Call>, tool: string) {
    forall key: ErrorKey :: key.tool == tool ==>
      (key in taxonomy <==> key in Keys(log, |log|, tool)) && (key in taxonomy ==> taxonomy[key] == Keys(log, |log|, tool)[key])
  }

  lemma TaxonomyStep(was: map<ErrorKey, nat>, now: map<ErrorKey, nat>, log: seq<Call>, call: Call)
    requires forall t :: InTaxonomy(was, log, t)
    requires now == if call.body.isError then Bump(was, Key(call)) else was
    ensures forall t :: InTaxonomy(now, log + [call], t)
  {
    forall t ensures InTaxonomy(now, log + [call], t) {
      assert InTaxonomy(was, log, t);
      LogPrefix(log, call, |log|, t);
    }
  }

  // ---------------------------------------------------------------- what the numbers add up to

  /** Per tool: as many taxonomy entries as errors, all under the tool's own keys. */
  lemma {:induction false} ErrorsAreClassified(log: seq<Call>, n: nat, tool: string)
    requires n <= |log|
    ensures |Keys(log, n, tool)| == |Codes(log, n, tool)| <= |Kinds(log, n, tool)|
    ensures forall key :: key in Keys(log, n, tool) ==> key.tool == tool
  {
    if n > 0 { ErrorsAreClassified(log, n - 1, tool); }
  }

  // A listing of a map's keys, each once.
  ghost predicate ListsKeys<K(!new), V>(keys: seq<K>, m: map<K, V>) {
    && (forall i, j :: 0 <= i < j < |keys| ==> keys[i] != keys[j])
    && forall k :: k in keys <==> k in m
  }

  function ValueSum<T>(counter: map<T, nat>, keys: seq<T>): nat
    requires forall k :: k in keys ==> k in counter
  {
    if keys == [] then 0 else ValueSum(counter, keys[..|keys| - 1]) + counter[keys[|keys| - 1]]
  }

  // The values of a counter add up to what was counted.
  lemma {:induction false} TallySum<T(!new)>(counter: map<T, nat>, ms: multiset<T>, keys: seq<T>)
    requires Tally(counter, ms) && ListsKeys(keys, counter)
    ensures ValueSum(counter, keys) == |ms|
  {
    if keys == [] {
      assert ms == multiset{};
    } else {
      var front, k := keys[..|keys| - 1], keys[|keys| - 1];
      assert keys == front + [k];
      var rest := map x | x in counter && x != k :: counter[x];
      forall x ensures x in front <==> x in rest { assert x in keys <==> x in front || x == k; }
      TallySum(rest, ms[k := 0], front);
      SumAgrees(counter, rest, front);
    }
  }

  lemma {:induction false} SumAgrees<T>(a: map<T, nat>, b: map<T, nat>, keys: seq<T>)
    requires forall k :: k in keys ==> k in a && k in b && a[k] == b[k]
    ensures ValueSum(a, keys) == ValueSum(b, keys)
  {
    if keys != [] { SumAgrees(a, b, keys[..|keys| - 1]); }
  }

  /** The numbers of one tool: its result kinds add up to its calls and its error codes to its
      errors, of which there are no more than calls. */
  lemma CensusAddsUp(c: Census, log: seq<Call>, tool: string, kinds: seq<string>, codes: seq<string>)
    requires Counts(c, log, tool) && ListsKeys(kinds, c.outKinds) && ListsKeys(codes, c.errorCodes)
    ensures ValueSum(c.outKinds, kinds) == c.calls
    ensures ValueSum(c.errorCodes, codes) == c.errors <= c.calls
  {
    hide Tally, Kinds, Codes, Keys, ListsKeys, ValueSum;
    TallySum(c.outKinds, Kinds(log, |log|, tool), kinds);
    TallySum(c.errorCodes, Codes(log, |log|, tool), codes);
    ErrorsAreClassified(log, |log|, tool);
  }

  function OfTool(taxonomy: map<ErrorKey, nat>, tool: string): map<ErrorKey, nat> {
    map key | key in taxonomy && key.tool == tool :: taxonomy[key]
  }

  /** ... and its entries in the taxonomy add up to its errors. */
  lemma TaxonomyAddsUp(c: Census, taxonomy: map<ErrorKey, nat>, log: seq<Call>, tool: string, keys: seq<ErrorKey>)
    requires Counts(c, log, tool) && InTaxonomy(taxonomy, log, tool) && ListsKeys(keys, OfTool(taxonomy, tool))
    ensures ValueSum(OfTool(taxonomy, tool), keys) == c.errors
  {
    hide Kinds, Codes, Keys, ListsKeys, ValueSum, IsLeast, IsGreatest;
    ErrorsAreClassified(log, |log|, tool);
    TallySum(OfTool(taxonomy, tool), Keys(log, |log|, tool), keys);
  }

  predicate ListsTools(log: seq<Call>, tools: seq<string>) {
    && (forall i, j :: 0 <= i < j < |tools| ==> tools[i] != tools[j])
    && forall i :: 0 <= i < |log| ==> log[i].tool in tools
  }

  // The calls of the first m tools listed among the first n in the log.
  function PartCallSum(log: seq<Call>, n: nat, tools: seq<string>, m: nat): nat
    requires n <= |log| && m <= |tools|
  {
    if m == 0 then 0 else PartCallSum(log, n, tools, m - 1) + |Kinds(log, n, tools[m - 1])|
  }

  lemma {:induction false} OneCallOneTool(log: seq<Call>, n: nat, tools: seq<string>, m: nat)
    requires n < |log| && m <= |tools| && forall i, j :: 0 <= i < j < |tools| ==> tools[i] != tools[j]
    ensures PartCallSum(log, n + 1, tools, m) == PartCallSum(log, n, tools, m) + if log[n].tool in tools[..m] then 1 else 0
  {
    if m > 0 {
      OneCallOneTool(log, n, tools, m - 1);
      assert tools[..m] == tools[..m - 1] + [tools[m - 1]];
    }
  }

  /** Over all tools: the calls add up to the paired results. */
  lemma {:induction false} CallsAddUp(log: seq<Call>, n: nat, tools: seq<string>)
    requires n <= |log| && ListsTools(log, tools)
    ensures PartCallSum(log, n, tools, |tools|) == n
  {
    if n == 0 {
      NoCalls(log, tools, |tools|);
    } else {
      CallsAddUp(log, n - 1, tools);
      OneCallOneTool(log, n - 1, tools, |tools|);
      assert tools[..|tools|] == tools;
    }
  }

  lemma {:induction false} NoCalls(log: seq<Call>, tools: seq<string>, m: nat)
    requires m <= |tools|
    ensures PartCallSum(log, 0, tools, m) == 0
  {
    if m > 0 { NoCalls(log, tools, m - 1); }
  }

  // ---------------------------------------------------------------- one parameter

  const MAX_PARAM_VALUES := 64

  /** What is recorded of one parameter: how often it was given, with which types and values. */
  class Param {
    var n: nat
    var types: map<string, nat>
    var values: map<string, nat>
    var hiCard: bool
    ghost var typeLog: multiset<string>
    ghost var valueLog: multiset<string>

    ghost predicate Valid()
      reads this
    {
      && n == |typeLog| == |valueLog| && Tally(types, typeLog)
      && (hiCard <==> |DistinctOf(valueLog)| > MAX_PARAM_VALUES)
      && (if hiCard then values == map[] else Tally(values, valueLog) && |values| <= MAX_PARAM_VALUES)
    }

    constructor ()
      ensures Valid() && valueLog == multiset{} && typeLog == multiset{}
    {
      n, types, values, hiCard, typeLog, valueLog := 0, map[], map[], false, multiset{}, multiset{};
    }

    /** A parameter either counts all its values, at most 64 of them, or is marked as having
        more than 64 and counts none. */
    method Observe(kind: string, value: string)
      requires Valid()
      modifies this
      ensures Valid()
      ensures typeLog == old(typeLog) + multiset{kind} && valueLog == old(valueLog) + multiset{value}
    {
      n := n + 1;
      BumpTallies(types, typeLog, kind);
      types := Bump(types, kind);
      DistinctGrows(valueLog, value);
      if !hiCard {
        BumpTallies(values, valueLog, value);
        values := Bump(values, value);
        TallySize(values, valueLog + multiset{value});
        if |values| > MAX_PARAM_VALUES {
          hiCard := true;
          values := map[];
        }
      }
      typeLog, valueLog := typeLog + multiset{kind}, valueLog + multiset{value};
    }
  }

  /** What a parameter's record says: how often it was given, with each type, and with each value
      unless there were more than 64 of them. */
  lemma ParamIs(p: Param, kind: string, value: string)
    requires p.Valid()
    ensures p.n == |p.valueLog| && (if kind in p.types then p.types[kind] else 0) == p.typeLog[kind]
    ensures p.hiCard <==> |DistinctOf(p.valueLog)| > 64
    ensures p.hiCard ==> p.values == map[]
    ensures !p.hiCard ==> (if value in p.values then p.values[value] else 0) == p.valueLog[value]
  {
  }

  ghost function DistinctOf(ms: multiset<string>): set<string> { set x | x in ms }

  lemma DistinctGrows(ms: multiset<string>, x: string)
    ensures |DistinctOf(ms + multiset{x})| >= |DistinctOf(ms)|
  {
    assert DistinctOf(ms + multiset{x}) == DistinctOf(ms) + {x};
    if x in ms { assert DistinctOf(ms) + {x} == DistinctOf(ms); }
  }

  lemma TallySize(counter: map<string, nat>, ms: multiset<string>)
    requires Tally(counter, ms)
    ensures |counter| == |DistinctOf(ms)|
  {
    assert counter.Keys == DistinctOf(ms);
  }

  // ---------------------------------------------------------------- what is counted, written out

  // Which of the first n calls are of this tool and of this kind, or of this tool and failed with this code or key.
  function OfKind(log: seq<Call>, n: nat, tool: string, kind: string): set<int>
    requires n <= |log|
  {
    set i | 0 <= i < n && log[i].tool == tool && log[i].body.kind == kind
  }

  function OfCode(log: seq<Call>, n: nat, tool: string, code: string): set<int>
    requires n <= |log|
  {
    set i | 0 <= i < n && log[i].tool == tool && log[i].body.isError && log[i].body.code == code
  }

  function OfError(log: seq<Call>, n: nat, tool: string, status: string, code: string, message: string): set<int>
    requires n <= |log|
  {
    set i | 0 <= i < n && log[i].tool == tool && log[i].body.isError && log[i].body.status == status
              && log[i].body.code == code && log[i].body.message == message
  }

  lemma {:induction false} KindsCount(log: seq<Call>, n: nat, tool: string, kind: string)
    requires n <= |log|
    ensures Kinds(log, n, tool)[kind] == |OfKind(log, n, tool, kind)|
  {
    if n > 0 {
      KindsCount(log, n - 1, tool, kind);
      var now, before := OfKind(log, n, tool, kind), OfKind(log, n - 1, tool, kind);
      if n - 1 in now { assert now == before + {n - 1}; } else { assert now == before; }
    }
  }

  lemma {:induction false} CodesCount(log: seq<Call>, n: nat, tool: string, code: string)
    requires n <= |log|
    ensures Codes(log, n, tool)[code] == |OfCode(log, n, tool, code)|
  {
    if n > 0 {
      CodesCount(log, n - 1, tool, code);
      var now, before := OfCode(log, n, tool, code), OfCode(log, n - 1, tool, code);
      if n - 1 in now { assert now == before + {n - 1}; } else { assert now == before; }
    }
  }

  lemma {:induction false} KeysCount(log: seq<Call>, n: nat, tool: string, status: string, code: string, message: string)
    requires n <= |log|
    ensures Keys(log, n, tool)[ErrorKey(tool, status, code, message)] == |OfError(log, n, tool, status, code, message)|
  {
    if n > 0 {
      KeysCount(log, n - 1, tool, status, code, message);
      var now, before := OfError(log, n, tool, status, code, message), OfError(log, n - 1, tool, status, code, message);
      if n - 1 in now { assert now == before + {n - 1}; } else { assert now == before; }
    }
  }

  function CallsOf(log: seq<Call>, n: nat, tool: string): set<int>
    requires n <= |log|
  {
    set i | 0 <= i < n && log[i].tool == tool
  }

  function ErrorsOf(log: seq<Call>, n: nat, tool: string): set<int>
    requires n <= |log|
  {
    set i | 0 <= i < n && log[i].tool == tool && log[i].body.isError
  }

  lemma {:induction false} CallsCount(log: seq<Call>, n: nat, tool: string)
    requires n <= |log|
    ensures |Kinds(log, n, tool)| == |CallsOf(log, n, tool)|
  {
    if n > 0 {
      CallsCount(log, n - 1, tool);
      var now, before := CallsOf(log, n, tool), CallsOf(log, n - 1, tool);
      if n - 1 in now { assert now == before + {n - 1}; } else { assert now == before; }
    }
  }

  lemma {:induction false} ErrorsCount(log: seq<Call>, n: nat, tool: string)
    requires n <= |log|
    ensures |Codes(log, n, tool)| == |ErrorsOf(log, n, tool)|
  {
    if n > 0 {
      ErrorsCount(log, n - 1, tool);
      var now, before := ErrorsOf(log, n, tool), ErrorsOf(log, n - 1, tool);
      if n - 1 in now { assert now == before + {n - 1}; } else { assert now == before; }
    }
  }

  lemma {:induction false} StampsAre(log: seq<Call>, n: nat, tool: string, ts: Stamp)
    requires n <= |log|
    ensures ts in Stamps(log, n, tool) <==> ts != [] && exists i :: 0 <= i < n && log[i].tool == tool && log[i].ts == ts
  {
    if n > 0 { StampsAre(log, n - 1, tool, ts); }
  }

  /** A tool's census, number by number: its calls and errors, and how many of them were of each
      kind and code; the first and last timestamps are those of its calls. */
  lemma CensusIs(c: Census, log: seq<Call>, tool: string, kind: string, code: string)
    requires Counts(c, log, tool)
    ensures c.calls == |CallsOf(log, |log|, tool)| && c.errors == |ErrorsOf(log, |log|, tool)|
    ensures (if kind in c.outKinds then c.outKinds[kind] else 0) == |OfKind(log, |log|, tool, kind)|
    ensures (if code in c.errorCodes then c.errorCodes[code] else 0) == |OfCode(log, |log|, tool, code)|
    ensures forall i :: 0 <= i < |log| && log[i].tool == tool && log[i].ts != [] ==>
              c.first.Some? && c.last.Some? && AtMost(c.first.value, log[i].ts) && AtMost(log[i].ts, c.last.value)
    ensures c.first.Some? ==> exists i :: 0 <= i < |log| && log[i].tool == tool && log[i].ts == c.first.value
    ensures c.last.Some? ==> exists i :: 0 <= i < |log| && log[i].tool == tool && log[i].ts == c.last.value
  {
    hide Kinds, Codes, Keys, Stamps, OfKind, OfCode, CallsOf, ErrorsOf, AtMost;
    CallsCount(log, |log|, tool);
    ErrorsCount(log, |log|, tool);
    KindsCount(log, |log|, tool, kind);
    CodesCount(log, |log|, tool, code);
    if c.first.Some? { StampsAre(log, |log|, tool, c.first.value); }
    if c.last.Some? { StampsAre(log, |log|, tool, c.last.value); }
    forall i | 0 <= i < |log| && log[i].tool == tool && log[i].ts != []
      ensures c.first.Some? && c.last.Some? && AtMost(c.first.value, log[i].ts) && AtMost(log[i].ts, c.last.value)
    {
      StampsAre(log, |log|, tool, log[i].ts);
    }
  }

  /** The taxonomy's entry for one kind of failure: how many calls failed that way. */
  lemma TaxonomyIs(taxonomy: map<ErrorKey, nat>, log: seq<Call>, tool: string, status: string, code: string, message: string)
    requires InTaxonomy(taxonomy, log, tool)
    ensures var key := ErrorKey(tool, status, code, message);
            (if key in taxonomy then taxonomy[key] else 0) == |OfError(log, |log|, tool, status, code, message)|
  {
    hide Keys, OfError;
    KeysCount(log, |log|, tool, status, code, message);
  }

  // Block j answers the call of block i: a result for its id, with no use and no result of that id between.
  predicate Answers(blocks: seq<Block>, i: int, j: int) {
    && 0 <= i < j < |blocks| && blocks[i].ToolUse? && blocks[j].ToolResult? && blocks[j].id == blocks[i].id
    && forall m :: i < m < j ==> blocks[m].id != blocks[i].id
  }

  // The last block of that id before n, if there is one, is the use that is open.
  lemma {:induction false} OpenIs(blocks: seq<Block>, n: nat, id: string)
    requires n <= |blocks|
    ensures IsOpen(Uses(blocks, n), id) <==>
            exists i :: 0 <= i < n && blocks[i].ToolUse? && blocks[i].id == id && forall m :: i < m < n ==> blocks[m].id != id
    ensures forall i :: 0 <= i < n && blocks[i].ToolUse? && blocks[i].id == id && (forall m :: i < m < n ==> blocks[m].id != id) ==>
              id in Uses(blocks, n) && Uses(blocks, n)[id] == Use(blocks[i].tool, blocks[i].ts, false)
  {
    if n > 0 { OpenIs(blocks, n - 1, id); }
  }

  /** Which calls are paired: a result joins the last use of its id exactly when nothing of that id
      stands between, and the call carries that use's tool and time and the result's body. */
  lemma {:induction false} PairedCallsAre(blocks: seq<Block>, n: nat, c: Call)
    requires n <= |blocks|
    ensures c in PairedCalls(blocks, n) <==>
            exists i, j :: Answers(blocks, i, j) && j < n && c == Call(blocks[i].tool, blocks[i].ts, blocks[j].body)
  {
    hide Uses;
    if n > 0 {
      PairedCallsAre(blocks, n - 1, c);
      OpenIs(blocks, n - 1, blocks[n - 1].id);
    }
  }
}
