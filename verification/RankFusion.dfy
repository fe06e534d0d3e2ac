/** Reciprocal rank fusion over exact reals: what the fused scores are, the bound on
    them, and what they add up to. */
module RankFusion {
  import opened Common

  // One channel: its ranked rows, best first, and its weight.
  datatype Channel = Channel(ranks: seq<RowId>, weight: real)

  // What one place in a channel is worth.
  function Worth(w: real, k: int, r: nat): real
    requires k > 0
  {
    w * (1.0 / (k + r) as real)
  }

  // What the first n places of a channel give a row.
  function FromChannel(ch: Channel, k: int, n: nat, row: RowId): real
    requires k > 0 && n <= |ch.ranks|
  {
    if n == 0 then 0.0
    else if ch.ranks[n - 1] == row then FromChannel(ch, k, n - 1, row) + Worth(ch.weight, k, n - 1)
    else FromChannel(ch, k, n - 1, row)
  }

  // What a channel gives a row; a channel of weight zero is skipped.
  function Share(ch: Channel, k: int, row: RowId): real
    requires k > 0
  {
    if ch.weight == 0.0 then 0.0 else FromChannel(ch, k, |ch.ranks|, row)
  }

  function Score(chs: seq<Channel>, k: int, n: nat, row: RowId): real
    requires k > 0 && n <= |chs|
  {
    if n == 0 then 0.0 else Score(chs, k, n - 1, row) + Share(chs[n - 1], k, row)
  }

  // A row scored by some active channel among the first n.
  predicate Ranked(chs: seq<Channel>, n: nat, row: RowId)
    requires n <= |chs|
  {
    exists c :: 0 <= c < n && chs[c].weight != 0.0 && row in chs[c].ranks
  }

  // The rank lists and the weights, paired off; the longer list's tail is dropped.
  function Zip(rankLists: seq<seq<RowId>>, weights: seq<real>): (chs: seq<Channel>)
    ensures |chs| == if |rankLists| < |weights| then |rankLists| else |weights|
    ensures forall c :: 0 <= c < |chs| ==> chs[c] == Channel(rankLists[c], weights[c])
  {
    var n := if |rankLists| < |weights| then |rankLists| else |weights|;
    seq(n, c requires 0 <= c < n => Channel(rankLists[c], weights[c]))
  }

  type Scores = map<RowId, real>

  // The scores hold exactly the ranked rows, each with its score.
  ghost predicate Fused(scores: Scores, chs: seq<Channel>, k: int, n: nat)
    requires k > 0 && n <= |chs|
  {
    && (forall row :: row in scores <==> Ranked(chs, n, row))
    && (forall row :: row in scores ==> scores[row] == Score(chs, k, n, row))
  }

  // The same in the middle of channel n, after r of its places.
  ghost predicate FusedUpTo(scores: Scores, chs: seq<Channel>, k: int, n: nat, r: nat)
    requires k > 0 && n < |chs| && r <= |chs[n].ranks|
  {
    && (forall row :: row in scores <==> Ranked(chs, n, row) || row in chs[n].ranks[..r])
    && (forall row :: row in scores ==> scores[row] == Score(chs, k, n, row) + FromChannel(chs[n], k, r, row))
  }

  method RrfFuse(rankLists: seq<seq<RowId>>, weights: seq<real>, k: int) returns (scores: Scores)
    requires k > 0
    ensures var chs := Zip(rankLists, weights); Fused(scores, chs, k, |chs|)
  {
    hide Fused, FusedUpTo;
    var chs := Zip(rankLists, weights);
    scores := map[];
    NothingFused(chs, k);
    for c := 0 to |chs|
      invariant Fused(scores, chs, k, c)
    {
      var ranks, w := chs[c].ranks, chs[c].weight;
      if w == 0.0 {
        SkippedChannel(scores, chs, k, c);
        continue;
      }
      StartChannel(scores, chs, k, c);
      for r := 0 to |ranks|
        invariant FusedUpTo(scores, chs, k, c, r)
      {
        var row := ranks[r];
        ghost var before := scores;
        scores := scores[row := (if row in scores then scores[row] else 0.0) + Worth(w, k, r)];
        OnePlace(before, scores, chs, k, c, r);
      }
      EndChannel(scores, chs, k, c);
    }
  }

  lemma NothingFused(chs: seq<Channel>, k: int)
    requires k > 0
    ensures Fused(map[], chs, k, 0)
  {
  }

  lemma SkippedChannel(scores: Scores, chs: seq<Channel>, k: int, c: nat)
    requires k > 0 && c < |chs| && chs[c].weight == 0.0 && Fused(scores, chs, k, c)
    ensures Fused(scores, chs, k, c + 1)
  {
    forall row ensures Ranked(chs, c + 1, row) <==> Ranked(chs, c, row) {}
  }

  lemma StartChannel(scores: Scores, chs: seq<Channel>, k: int, c: nat)
    requires k > 0 && c < |chs| && Fused(scores, chs, k, c)
    ensures FusedUpTo(scores, chs, k, c, 0)
  {
  }

  lemma {:induction false} NotRanked(ch: Channel, k: int, n: nat, row: RowId)
    requires k > 0 && n <= |ch.ranks| && row !in ch.ranks[..n]
    ensures FromChannel(ch, k, n, row) == 0.0
  {
    if n > 0 {
      assert ch.ranks[..n] == ch.ranks[..n - 1] + [ch.ranks[n - 1]];
      NotRanked(ch, k, n - 1, row);
    }
  }

  lemma {:induction false} NoScore(chs: seq<Channel>, k: int, n: nat, row: RowId)
    requires k > 0 && n <= |chs| && !Ranked(chs, n, row)
    ensures Score(chs, k, n, row) == 0.0
  {
    if n > 0 {
      NoScore(chs, k, n - 1, row);
      assert chs[n - 1].ranks[..|chs[n - 1].ranks|] == chs[n - 1].ranks;
      if chs[n - 1].weight != 0.0 { NotRanked(chs[n - 1], k, |chs[n - 1].ranks|, row); }
    }
  }

  lemma OnePlace(before: Scores, after: Scores, chs: seq<Channel>, k: int, c: nat, r: nat)
    requires k > 0 && c < |chs| && r < |chs[c].ranks| && FusedUpTo(before, chs, k, c, r)
    requires var row := chs[c].ranks[r];
             after == before[row := (if row in before then before[row] else 0.0) + Worth(chs[c].weight, k, r)]
    ensures FusedUpTo(after, chs, k, c, r + 1)
  {
    var ranks := chs[c].ranks;
    assert ranks[..r + 1] == ranks[..r] + [ranks[r]];
    if ranks[r] !in before {
      NoScore(chs, k, c, ranks[r]);
      NotRanked(chs[c], k, r, ranks[r]);
    }
  }

  lemma EndChannel(scores: Scores, chs: seq<Channel>, k: int, c: nat)
    requires k > 0 && c < |chs| && chs[c].weight != 0.0 && FusedUpTo(scores, chs, k, c, |chs[c].ranks|)
    ensures Fused(scores, chs, k, c + 1)
  {
    assert chs[c].ranks[..|chs[c].ranks|] == chs[c].ranks;
    forall row ensures Ranked(chs, c + 1, row) <==> Ranked(chs, c, row) || row in chs[c].ranks {
      if row in chs[c].ranks { assert chs[c].weight != 0.0 && row in chs[c].ranks; }
    }
  }

  // ---------------------------------------------------------------- what a place is worth

  /** The row at place r of a channel without repeats gets weight / (k + r) from it. */
  lemma {:induction false} ShareOfPlace(ch: Channel, k: int, n: nat, r: nat)
    requires k > 0 && NoRepeats(ch.ranks) && r < n <= |ch.ranks|
    ensures FromChannel(ch, k, n, ch.ranks[r]) == ch.weight / (k + r) as real
  {
    if r == n - 1 {
      assert ch.ranks[r] !in ch.ranks[..r];
      NotRanked(ch, k, r, ch.ranks[r]);
      Divided(ch.weight, (k + r) as real);
    } else {
      ShareOfPlace(ch, k, n - 1, r);
    }
  }

  lemma Divided(w: real, d: real)
    requires d != 0.0
    ensures w * (1.0 / d) == w / d
  {
    assert (w / d) * d == w && (w * (1.0 / d)) * d == w * ((1.0 / d) * d) == w;
  }

  // Where each channel has the row, counted from 0; -1 where it does not.
  predicate Places(chs: seq<Channel>, row: RowId, places: seq<int>) {
    && |places| == |chs|
    && forall c :: 0 <= c < |chs| ==>
         -1 <= places[c] < |chs[c].ranks| && (if places[c] < 0 then row !in chs[c].ranks else chs[c].ranks[places[c]] == row)
  }

  function Sum(xs: seq<real>): real { if xs == [] then 0.0 else Sum(xs[..|xs| - 1]) + xs[|xs| - 1] }

  function SharesAt(chs: seq<Channel>, k: int, places: seq<int>): (xs: seq<real>)
    requires k > 0 && |places| == |chs|
    ensures |xs| == |chs|
  {
    seq(|chs|, c requires 0 <= c < |chs| => if places[c] < 0 then 0.0 else chs[c].weight / (k + places[c]) as real)
  }

  /** A row's score is the sum, over the channels that have it, of weight / (k + place). */
  lemma {:induction false} ScoreIsSumOfShares(chs: seq<Channel>, k: int, row: RowId, places: seq<int>)
    requires k > 0 && (forall c :: 0 <= c < |chs| ==> NoRepeats(chs[c].ranks)) && Places(chs, row, places)
    ensures Score(chs, k, |chs|, row) == Sum(SharesAt(chs, k, places))
  {
    if chs != [] {
      var n := |chs| - 1;
      ScoreIsSumOfShares(chs[..n], k, row, places[..n]);
      ScorePrefix(chs[..n], [chs[n]], k, n, row);
      assert chs[..n] + [chs[n]] == chs;
      assert SharesAt(chs, k, places)[..n] == SharesAt(chs[..n], k, places[..n]);
      ShareAtPlace(chs[n], k, row, places[n]);
    }
  }

  lemma ShareAtPlace(ch: Channel, k: int, row: RowId, place: int)
    requires k > 0 && NoRepeats(ch.ranks) && -1 <= place < |ch.ranks|
    requires if place < 0 then row !in ch.ranks else ch.ranks[place] == row
    ensures Share(ch, k, row) == if place < 0 then 0.0 else ch.weight / (k + place) as real
  {
    assert ch.ranks[..|ch.ranks|] == ch.ranks;
    if place < 0 { NotRanked(ch, k, |ch.ranks|, row); } else { ShareOfPlace(ch, k, |ch.ranks|, place); }
  }

  // ---------------------------------------------------------------- the bound

  function PositiveSum(weights: seq<real>, n: nat): real
    requires n <= |weights|
  {
    if n == 0 then 0.0
    else if weights[n - 1] > 0.0 then PositiveSum(weights, n - 1) + weights[n - 1]
    else PositiveSum(weights, n - 1)
  }

  function ScoreMaxTheoretical(weights: seq<real>, k: int): real
    requires k > 0
  {
    PositiveSum(weights, |weights|) * (1.0 / k as real)
  }

  predicate NoRepeats(ranks: seq<RowId>) { forall i, j :: 0 <= i < j < |ranks| ==> ranks[i] != ranks[j] }

  predicate FirstIn(ch: Channel, row: RowId) { ch.ranks != [] && ch.ranks[0] == row }

  // A smaller divisor makes a larger share.
  lemma WorthFalls(w: real, k: int, r: nat)
    requires k > 0 && w > 0.0
    ensures 0.0 < Worth(w, k, r) <= Worth(w, k, 0)
    ensures r > 0 ==> Worth(w, k, r) < Worth(w, k, 0)
  {
    var x, y := k as real, (k + r) as real;
    assert 0.0 < x <= y;
    Reciprocals(x, y);
    Scaled(w, 1.0 / y, 1.0 / x);
  }

  lemma Reciprocals(x: real, y: real)
    requires 0.0 < x <= y
    ensures 0.0 < 1.0 / y <= 1.0 / x
    ensures x < y ==> 1.0 / y < 1.0 / x
  {
    assert (1.0 / x) * x == 1.0 && (1.0 / y) * y == 1.0;
  }

  lemma Scaled(w: real, a: real, b: real)
    requires w > 0.0 && 0.0 < a <= b
    ensures 0.0 < w * a <= w * b
    ensures a < b ==> w * a < w * b
  {
  }

  // In a list without repeats a row is given the worth of its one place.
  lemma {:induction false} OnePlaceOnly(ch: Channel, k: int, n: nat, row: RowId)
    requires k > 0 && ch.weight > 0.0 && n <= |ch.ranks| && NoRepeats(ch.ranks)
    ensures FromChannel(ch, k, n, row) <= Worth(ch.weight, k, 0)
    ensures FromChannel(ch, k, n, row) == Worth(ch.weight, k, 0) <==> n > 0 && ch.ranks[0] == row
  {
    WorthFalls(ch.weight, k, 0);
    if n > 0 {
      if ch.ranks[n - 1] == row {
        assert row !in ch.ranks[..n - 1];
        NotRanked(ch, k, n - 1, row);
        WorthFalls(ch.weight, k, n - 1);
      } else {
        OnePlaceOnly(ch, k, n - 1, row);
      }
    }
  }

  // The channel's largest share.
  function Most(ch: Channel, k: int): real
    requires k > 0
  {
    if ch.weight > 0.0 then Worth(ch.weight, k, 0) else 0.0
  }

  lemma ShareBound(ch: Channel, k: int, row: RowId)
    requires k > 0 && ch.weight >= 0.0 && NoRepeats(ch.ranks)
    ensures Share(ch, k, row) <= Most(ch, k)
    ensures Share(ch, k, row) == Most(ch, k) <==> (ch.weight > 0.0 ==> FirstIn(ch, row))
  {
    if ch.weight > 0.0 { OnePlaceOnly(ch, k, |ch.ranks|, row); }
  }

  function MostSum(chs: seq<Channel>, k: int, n: nat): real
    requires k > 0 && n <= |chs|
  {
    if n == 0 then 0.0 else MostSum(chs, k, n - 1) + Most(chs[n - 1], k)
  }

  lemma {:induction false} ScoreBound(chs: seq<Channel>, k: int, n: nat, row: RowId)
    requires k > 0 && n <= |chs|
    requires forall c :: 0 <= c < |chs| ==> chs[c].weight >= 0.0 && NoRepeats(chs[c].ranks)
    ensures Score(chs, k, n, row) <= MostSum(chs, k, n)
    ensures Score(chs, k, n, row) == MostSum(chs, k, n) <==>
            forall c :: 0 <= c < n && chs[c].weight > 0.0 ==> FirstIn(chs[c], row)
  {
    if n > 0 {
      ScoreBound(chs, k, n - 1, row);
      ShareBound(chs[n - 1], k, row);
    }
  }

  lemma {:induction false} MostSumIs(chs: seq<Channel>, weights: seq<real>, k: int, n: nat)
    requires k > 0 && n <= |chs| <= |weights| && forall c :: 0 <= c < |chs| ==> chs[c].weight == weights[c]
    ensures MostSum(chs, k, n) == PositiveSum(weights, n) * (1.0 / k as real)
  {
    if n > 0 { MostSumIs(chs, weights, k, n - 1); }
  }

  lemma {:induction false} PositiveSumGrows(weights: seq<real>, m: nat, n: nat)
    requires m <= n <= |weights|
    ensures PositiveSum(weights, m) <= PositiveSum(weights, n)
    ensures PositiveSum(weights, m) == PositiveSum(weights, n) <==> forall c :: m <= c < n ==> weights[c] <= 0.0
  {
    if m < n { PositiveSumGrows(weights, m, n - 1); }
  }

  /** For weights that are not negative and rank lists without repeats, no score exceeds
      the stated maximum, and a row reaches it exactly when every active weight has a
      rank list and the row is first in it. */
  lemma ScoreAtMostTheoretical(rankLists: seq<seq<RowId>>, weights: seq<real>, k: int, row: RowId)
    requires k > 0 && (forall c :: 0 <= c < |weights| ==> weights[c] >= 0.0)
    requires forall c :: 0 <= c < |rankLists| ==> NoRepeats(rankLists[c])
    ensures var chs := Zip(rankLists, weights);
            && Score(chs, k, |chs|, row) <= ScoreMaxTheoretical(weights, k)
            && (Score(chs, k, |chs|, row) == ScoreMaxTheoretical(weights, k) <==>
                forall c :: 0 <= c < |weights| && weights[c] > 0.0 ==>
                  c < |rankLists| && rankLists[c] != [] && rankLists[c][0] == row)
  {
    hide Score, MostSum, PositiveSum, NoRepeats;
    var chs := Zip(rankLists, weights);
    var a, b, inv := PositiveSum(weights, |chs|), PositiveSum(weights, |weights|), 1.0 / k as real;
    ScoreBound(chs, k, |chs|, row);
    MostSumIs(chs, weights, k, |chs|);
    PositiveSumGrows(weights, |chs|, |weights|);
    Reciprocals(k as real, k as real);
    BoundChain(Score(chs, k, |chs|, row), a, b, inv);
  }

  lemma BoundChain(score: real, a: real, b: real, inv: real)
    requires score <= a * inv && a <= b && inv > 0.0
    ensures score <= b * inv && (score == b * inv <==> score == a * inv && a == b)
  {
    if a < b { ScaledLess(a, b, inv); }
  }

  lemma ScaledLess(a: real, b: real, w: real)
    requires a < b && w > 0.0
    ensures a * w < b * w
  {
  }

  // ---------------------------------------------------------------- conservation

  // What the first n places of a channel are worth together.
  function Harmonic(w: real, k: int, n: nat): real
    requires k > 0
  {
    if n == 0 then 0.0 else Harmonic(w, k, n - 1) + Worth(w, k, n - 1)
  }

  function Total(chs: seq<Channel>, k: int, n: nat): real
    requires k > 0 && n <= |chs|
  {
    if n == 0 then 0.0
    else Total(chs, k, n - 1) + if chs[n - 1].weight == 0.0 then 0.0 else Harmonic(chs[n - 1].weight, k, |chs[n - 1].ranks|)
  }

  function ChannelSum(ch: Channel, k: int, n: nat, rows: seq<RowId>, m: nat): real
    requires k > 0 && n <= |ch.ranks| && m <= |rows|
  {
    if m == 0 then 0.0 else ChannelSum(ch, k, n, rows, m - 1) + FromChannel(ch, k, n, rows[m - 1])
  }

  function ShareSum(ch: Channel, k: int, rows: seq<RowId>, m: nat): real
    requires k > 0 && m <= |rows|
  {
    if m == 0 then 0.0 else ShareSum(ch, k, rows, m - 1) + Share(ch, k, rows[m - 1])
  }

  // The scores of the first m rows listed, counting the first n channels.
  function PartSum(chs: seq<Channel>, k: int, n: nat, rows: seq<RowId>, m: nat): real
    requires k > 0 && n <= |chs| && m <= |rows|
  {
    if m == 0 then 0.0 else PartSum(chs, k, n, rows, m - 1) + Score(chs, k, n, rows[m - 1])
  }

  // One more place adds its worth once among rows without repeats.
  lemma {:induction false} PlaceCountsOnce(ch: Channel, k: int, n: nat, rows: seq<RowId>, m: nat)
    requires k > 0 && n < |ch.ranks| && m <= |rows| && NoRepeats(rows)
    ensures ChannelSum(ch, k, n + 1, rows, m) ==
            ChannelSum(ch, k, n, rows, m) + if ch.ranks[n] in rows[..m] then Worth(ch.weight, k, n) else 0.0
  {
    if m > 0 {
      PlaceCountsOnce(ch, k, n, rows, m - 1);
      assert rows[..m] == rows[..m - 1] + [rows[m - 1]];
    }
  }

  lemma {:induction false} ChannelSumIs(ch: Channel, k: int, n: nat, rows: seq<RowId>)
    requires k > 0 && n <= |ch.ranks| && NoRepeats(rows) && forall r :: 0 <= r < |ch.ranks| ==> ch.ranks[r] in rows
    ensures ChannelSum(ch, k, n, rows, |rows|) == Harmonic(ch.weight, k, n)
  {
    if n > 0 {
      ChannelSumIs(ch, k, n - 1, rows);
      PlaceCountsOnce(ch, k, n - 1, rows, |rows|);
      assert rows[..|rows|] == rows;
    } else {
      NothingYet(ch, k, rows, |rows|);
    }
  }

  lemma {:induction false} NothingYet(ch: Channel, k: int, rows: seq<RowId>, m: nat)
    requires k > 0 && m <= |rows|
    ensures ChannelSum(ch, k, 0, rows, m) == 0.0
  {
    if m > 0 { NothingYet(ch, k, rows, m - 1); }
  }

  lemma {:induction false} ShareSumIs(ch: Channel, k: int, rows: seq<RowId>, m: nat)
    requires k > 0 && m <= |rows|
    ensures ShareSum(ch, k, rows, m) == if ch.weight == 0.0 then 0.0 else ChannelSum(ch, k, |ch.ranks|, rows, m)
  {
    if m > 0 { ShareSumIs(ch, k, rows, m - 1); }
  }

  lemma {:induction false} PartSumSplits(chs: seq<Channel>, k: int, n: nat, rows: seq<RowId>, m: nat)
    requires k > 0 && n < |chs| && m <= |rows|
    ensures PartSum(chs, k, n + 1, rows, m) == PartSum(chs, k, n, rows, m) + ShareSum(chs[n], k, rows, m)
  {
    if m > 0 { PartSumSplits(chs, k, n, rows, m - 1); }
  }

  lemma {:induction false} NoChannels(chs: seq<Channel>, k: int, rows: seq<RowId>, m: nat)
    requires k > 0 && m <= |rows|
    ensures PartSum(chs, k, 0, rows, m) == 0.0
  {
    if m > 0 { NoChannels(chs, k, rows, m - 1); }
  }

  // The rows listed, without repeats: every row of an active channel is among them.
  predicate ListsAll(chs: seq<Channel>, rows: seq<RowId>) {
    NoRepeats(rows) && forall c, r :: 0 <= c < |chs| && chs[c].weight != 0.0 && 0 <= r < |chs[c].ranks| ==> chs[c].ranks[r] in rows
  }

  lemma {:induction false} PartSumIs(chs: seq<Channel>, k: int, n: nat, rows: seq<RowId>)
    requires k > 0 && n <= |chs| && ListsAll(chs, rows)
    ensures PartSum(chs, k, n, rows, |rows|) == Total(chs, k, n)
  {
    if n > 0 {
      var ch := chs[n - 1];
      PartSumIs(chs, k, n - 1, rows);
      PartSumSplits(chs, k, n - 1, rows, |rows|);
      ShareSumIs(ch, k, rows, |rows|);
      if ch.weight != 0.0 { ChannelSumIs(ch, k, |ch.ranks|, rows); }
    } else {
      NoChannels(chs, k, rows, |rows|);
    }
  }

  /** Conservation: over any listing of the fused rows, the scores add up to what the
      places of the active channels are worth, repeats in a rank list or not. */
  lemma ScoresAddUp(scores: Scores, chs: seq<Channel>, k: int, rows: seq<RowId>)
    requires k > 0 && Fused(scores, chs, k, |chs|)
    requires NoRepeats(rows) && forall row :: row in scores ==> row in rows
    ensures PartSum(chs, k, |chs|, rows, |rows|) == Total(chs, k, |chs|)
    ensures forall i :: 0 <= i < |rows| && rows[i] in scores ==> Score(chs, k, |chs|, rows[i]) == scores[rows[i]]
  {
    forall c, r | 0 <= c < |chs| && chs[c].weight != 0.0 && 0 <= r < |chs[c].ranks| ensures chs[c].ranks[r] in rows {
      assert Ranked(chs, |chs|, chs[c].ranks[r]);
    }
    PartSumIs(chs, k, |chs|, rows);
  }

  // ---------------------------------------------------------------- the order of the channels

  lemma {:induction false} ScorePrefix(a: seq<Channel>, b: seq<Channel>, k: int, n: nat, row: RowId)
    requires k > 0 && n <= |a|
    ensures Score(a + b, k, n, row) == Score(a, k, n, row)
  {
    if n > 0 { ScorePrefix(a, b, k, n - 1, row); }
  }

  lemma {:induction false} ScoreConcat(a: seq<Channel>, b: seq<Channel>, k: int, n: nat, row: RowId)
    requires k > 0 && n <= |b|
    ensures Score(a + b, k, |a| + n, row) == Score(a, k, |a|, row) + Score(b, k, n, row)
  {
    if n == 0 {
      ScorePrefix(a, b, k, |a|, row);
    } else {
      ScoreConcat(a, b, k, n - 1, row);
      assert (a + b)[|a| + n - 1] == b[n - 1];
    }
  }

  function ScoreOf(chs: seq<Channel>, k: int, row: RowId): real
    requires k > 0
  {
    Score(chs, k, |chs|, row)
  }

  lemma ScoreSplits(a: seq<Channel>, ch: Channel, b: seq<Channel>, k: int, row: RowId)
    requires k > 0
    ensures ScoreOf(a + [ch] + b, k, row) == ScoreOf(a + b, k, row) + Share(ch, k, row)
  {
    ScoreConcat(a + [ch], b, k, |b|, row);
    ScoreConcat(a, [ch], k, 1, row);
    ScoreConcat(a, b, k, |b|, row);
    assert Score([ch], k, 0, row) == 0.0;
  }

  lemma {:induction false} ScoreOfPermuted(a: seq<Channel>, b: seq<Channel>, k: int, row: RowId)
    requires k > 0 && multiset(a) == multiset(b)
    ensures ScoreOf(a, k, row) == ScoreOf(b, k, row)
    decreases |a|
  {
    hide Score;
    SameSize(a, b);
    if a != [] {
      var i := PlaceOf(a, b);
      CutOne(a, b, i);
      ScoreOfPermuted(a[1..], b[..i] + b[i + 1..], k, row);
      ScoreSplits([], a[0], a[1..], k, row);
      ScoreSplits(b[..i], a[0], b[i + 1..], k, row);
    }
  }

  /** The order of the channels does not matter: the fused maps are equal. */
  lemma ChannelOrderDoesNotMatter(x: Scores, y: Scores, a: seq<Channel>, b: seq<Channel>, k: int)
    requires k > 0 && multiset(a) == multiset(b) && Fused(x, a, k, |a|) && Fused(y, b, k, |b|)
    ensures x == y
  {
    forall row ensures Ranked(a, |a|, row) ==> Ranked(b, |b|, row) { if Ranked(a, |a|, row) { RankedPermuted(a, b, row); } }
    forall row ensures Ranked(b, |b|, row) ==> Ranked(a, |a|, row) { if Ranked(b, |b|, row) { RankedPermuted(b, a, row); } }
    forall row | row in x ensures row in y && x[row] == y[row] {
      ScoreOfPermuted(a, b, k, row);
    }
  }

  lemma RankedPermuted(a: seq<Channel>, b: seq<Channel>, row: RowId)
    requires multiset(a) == multiset(b) && Ranked(a, |a|, row)
    ensures Ranked(b, |b|, row)
  {
    var c :| 0 <= c < |a| && a[c].weight != 0.0 && row in a[c].ranks;
    assert a[c] in multiset(a);
    assert a[c] in b;
  }
}
