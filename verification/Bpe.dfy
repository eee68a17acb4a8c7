/** Splitting a token by its merge ranks (`QwenModel.bpe` of convert_hf_to_gguf.py). */
module Bpe {
  import opened Results

  type Ranks = map<string, int>

  function Join(parts: seq<string>): string {
    if parts == [] then "" else parts[0] + Join(parts[1..])
  }

  function Singles(token: string): seq<string> {
    seq(|token|, i requires 0 <= i < |token| => [token[i]])
  }

  predicate Ranked(ranks: Ranks, parts: seq<string>, i: int) {
    0 <= i < |parts| - 1 && parts[i] + parts[i + 1] in ranks
  }

  function RankAt(ranks: Ranks, parts: seq<string>, i: int): int
    requires Ranked(ranks, parts, i)
  {
    ranks[parts[i] + parts[i + 1]]
  }

  /** The pair at `i` has the least rank of all, and is the first that does. */
  ghost predicate Best(ranks: Ranks, parts: seq<string>, i: int) {
    && Ranked(ranks, parts, i)
    && forall j :: Ranked(ranks, parts, j) ==>
         RankAt(ranks, parts, i) <= RankAt(ranks, parts, j)
             && (j < i ==> RankAt(ranks, parts, i) < RankAt(ranks, parts, j))
  }

  predicate Below(rank: int, max: Option<int>) { max.None? || rank < max.value }

  function MergedAt(parts: seq<string>, i: int): seq<string>
    requires 0 <= i < |parts| - 1
  {
    parts[..i] + [parts[i] + parts[i + 1]] + parts[i + 2..]
  }

  /** `to` comes from `from` by merging the best pair, again and again, as long as its rank is below the limit. */
  ghost predicate Merges(ranks: Ranks, max: Option<int>, from: seq<string>, to: seq<string>)
    decreases |from|
  {
    if exists i :: Best(ranks, from, i) && Below(RankAt(ranks, from, i), max)
    then exists i ::
           Best(ranks, from, i) && Below(RankAt(ranks, from, i), max) && Merges(ranks, max, MergedAt(from, i), to)
    else to == from
  }

  lemma OneBest(ranks: Ranks, parts: seq<string>, i: int, j: int)
    requires Best(ranks, parts, i) && Best(ranks, parts, j)
    ensures i == j
  {
  }

  /** The outcome is determined. */
  lemma {:induction false} MergesOnce(ranks: Ranks, max: Option<int>, from: seq<string>, to: seq<string>,
      to': seq<string>)
    requires Merges(ranks, max, from, to) && Merges(ranks, max, from, to')
    ensures to == to'
    decreases |from|
  {
    if i :| Best(ranks, from, i) && Below(RankAt(ranks, from, i), max) && Merges(ranks, max, MergedAt(from, i), to) {
      var j :| Best(ranks, from, j) && Below(RankAt(ranks, from, j), max) && Merges(ranks, max, MergedAt(from, j), to');
      OneBest(ranks, from, i, j);
      MergesOnce(ranks, max, MergedAt(from, i), to, to');
    }
  }

  // ---------------------------------------------------------------- what every merge keeps

  /** Every part is a single byte or a token ranked below the limit. */
  predicate Known(ranks: Ranks, max: Option<int>, parts: seq<string>) {
    forall i :: 0 <= i < |parts| ==>
        |parts[i]| == 1 || (parts[i] in ranks && parts[i] != "" && Below(ranks[parts[i]], max))
  }

  /** No adjacent pair could still be merged. */
  ghost predicate Done(ranks: Ranks, max: Option<int>, parts: seq<string>) {
    forall i :: Ranked(ranks, parts, i) ==> !Below(RankAt(ranks, parts, i), max)
  }

  lemma {:induction false} JoinAppend(a: seq<string>, b: seq<string>)
    ensures Join(a + b) == Join(a) + Join(b)
  {
    if a == [] {
      assert a + b == b;
    } else {
      assert (a + b)[1..] == a[1..] + b;
      JoinAppend(a[1..], b);
    }
  }

  lemma JoinPair(a: string, b: string, rest: seq<string>)
    ensures Join([a, b] + rest) == Join([a + b] + rest)
  {
    assert ([a, b] + rest)[1..] == [b] + rest && ([b] + rest)[1..] == rest && ([a + b] + rest)[1..] == rest;
    assert a + (b + Join(rest)) == a + b + Join(rest);
  }

  lemma JoinMerged(parts: seq<string>, i: int)
    requires 0 <= i < |parts| - 1
    ensures Join(MergedAt(parts, i)) == Join(parts)
  {
    hide Join;
    var front, two, one, rest := parts[..i], [parts[i], parts[i + 1]], [parts[i] + parts[i + 1]], parts[i + 2..];
    assert parts == front + (two + rest) && MergedAt(parts, i) == front + (one + rest);
    JoinAppend(front, two + rest);
    JoinAppend(front, one + rest);
    JoinPair(parts[i], parts[i + 1], rest);
  }

  lemma {:induction false} JoinSingles(token: string)
    ensures Join(Singles(token)) == token
  {
    if token != "" {
      assert Singles(token)[1..] == Singles(token[1..]);
      JoinSingles(token[1..]);
    }
  }

  lemma KnownMerged(ranks: Ranks, max: Option<int>, parts: seq<string>, i: int)
    requires Known(ranks, max, parts) && Ranked(ranks, parts, i) && Below(RankAt(ranks, parts, i), max)
    ensures Known(ranks, max, MergedAt(parts, i))
  {
    var m := MergedAt(parts, i);
    forall k | 0 <= k < |m|
      ensures |m[k]| == 1 || (m[k] in ranks && m[k] != "" && Below(ranks[m[k]], max))
    {
      if k < i {
        assert m[k] == parts[k];
      } else if k > i {
        assert m[k] == parts[k + 1];
      }
    }
  }

  // ---------------------------------------------------------------- the loops

  /** The scan over adjacent pairs. */
  method FindBest(ranks: Ranks, parts: seq<string>) returns (at: Option<nat>)
    ensures at.Some? ==> Best(ranks, parts, at.value)
    ensures at.None? ==> forall i :: !Ranked(ranks, parts, i)
  {
    at := None;
    var minRank := 0;
    for i := 0 to |parts| - if parts == [] then 0 else 1
      invariant at.Some? ==> at.value < i && Ranked(ranks, parts, at.value) && minRank == RankAt(ranks, parts, at.value)
      invariant forall j :: j < i && Ranked(ranks, parts, j) ==>
                  at.Some? && minRank <= RankAt(ranks, parts, j) && (j < at.value ==> minRank < RankAt(ranks, parts, j))
    {
      var pair := parts[i] + parts[i + 1];
      if pair in ranks && (at.None? || ranks[pair] < minRank) {
        at, minRank := Some(i), ranks[pair];
      }
    }
  }

  /** `bpe`: the parts are those of the greedy merging. They make up the token, are bytes or tokens of lower rank,
      and no two neighbours could be merged. The limit itself is excluded: a token of several bytes whose own rank is
      the limit or above stays divided. */
  method Split(ranks: Ranks, token: string, max: Option<int>) returns (parts: seq<string>)
    ensures Merges(ranks, max, Singles(token), parts)
    ensures Join(parts) == token
    ensures forall i :: 0 <= i < |parts| && |parts[i]| != 1 ==>
              parts[i] != "" && parts[i] in ranks && (max.Some? ==> ranks[parts[i]] < max.value)
    ensures forall i :: Ranked(ranks, parts, i) ==> max.Some? && max.value <= RankAt(ranks, parts, i)
    ensures |token| > 1 && token in ranks && max.Some? && max.value <= ranks[token] ==> |parts| >= 2
  {
    parts := Singles(token);
    JoinSingles(token);
    while true
      invariant Join(parts) == token && Known(ranks, max, parts)
      invariant forall to :: Merges(ranks, max, parts, to) ==> Merges(ranks, max, Singles(token), to)
      decreases |parts|
    {
      var at := FindBest(ranks, parts);
      if at.None? || !Below(RankAt(ranks, parts, at.value), max) {
        NoneToMerge(ranks, max, parts);
        break;
      }
      var i := at.value;
      JoinMerged(parts, i);
      KnownMerged(ranks, max, parts, i);
      forall to | Merges(ranks, max, MergedAt(parts, i), to) ensures Merges(ranks, max, parts, to) {
        assert Best(ranks, parts, i) && Below(RankAt(ranks, parts, i), max);
      }
      parts := MergedAt(parts, i);
    }
    if |parts| == 1 { WholeToken(parts); }
  }

  lemma NoneToMerge(ranks: Ranks, max: Option<int>, parts: seq<string>)
    requires (forall i :: !Ranked(ranks, parts, i))
               || (exists i :: Best(ranks, parts, i) && !Below(RankAt(ranks, parts, i), max))
    ensures Done(ranks, max, parts) && Merges(ranks, max, parts, parts)
  {
    if i :| Best(ranks, parts, i) && !Below(RankAt(ranks, parts, i), max) {
      forall j | Best(ranks, parts, j) ensures j == i { OneBest(ranks, parts, i, j); }
    }
  }

  lemma WholeToken(parts: seq<string>)
    requires |parts| == 1
    ensures Join(parts) == parts[0]
  {
    assert parts[1..] == [];
  }
}
