/** The plurality vote the source performs twice (career prediction in the
    quiz hook, top career in the admin statistics): tally keys into a
    counter object in insertion order, then reduce its entries with a
    strict `>` starting from a default pair with count 0. */
module Tally {
  import opened Wrappers
  import opened Seqs
  import opened Records

  /** A counter object; counts are plain integers, as in JavaScript. */
  type Counts<K> = Entries<K, int>

  /** `counts[k] || 0`. */
  function CountOf<K(==)>(cs: Counts<K>, k: K): int
  {
    match Get(cs, k)
    case Some(n) => n
    case None => 0
  }

  /** `counts[k] = (counts[k] || 0) + 1`. */
  function Bump<K(==,!new)>(cs: Counts<K>, k: K): Counts<K>
  {
    Put(cs, k, CountOf(cs, k) + 1)
  }

  /** `ks.forEach(k => bump(counts, k))` from an empty counter. */
  function Count<K(==,!new)>(ks: seq<K>): Counts<K>
  {
    if |ks| == 0 then [] else Bump(Count(ks[..|ks| - 1]), ks[|ks| - 1])
  }

  /** `Object.entries(cs).reduce((max, [k, c]) => c > max[1] ? [k, c] : max, init)`. */
  function Best<K>(cs: Counts<K>, init: (K, int)): (K, int)
  {
    if |cs| == 0 then init
    else
      var m := Best(cs[..|cs| - 1], init);
      if cs[|cs| - 1].1 > m.1 then cs[|cs| - 1] else m
  }

  /** The key the source's tally-and-reduce selects: the default when no key
      is cast, otherwise one of the cast keys. */
  function Winner<K(==,!new)>(ks: seq<K>, default: K): (w: K)
    ensures |ks| == 0 ==> w == default
    ensures |ks| > 0 ==> w in ks
  {
    BestOfCount(ks, default);
    Best(Count(ks), (default, 0)).0
  }

  /** With some key cast, every entry's count beats the start pair's 0, so
      the reduce ends on an entry, whose key was cast. */
  lemma BestOfCount<K(!new)>(ks: seq<K>, default: K)
    ensures |ks| == 0 ==> Best(Count(ks), (default, 0)) == (default, 0)
    ensures |ks| > 0 ==> Best(Count(ks), (default, 0)).0 in ks
  {
    var cs := Count(ks);
    CountKeys(ks);
    CountEntries(ks);
    var i := BestSpec(cs, (default, 0));
    if |ks| > 0 {
      var m0 := KeyIndex(ks, cs, ks[0]);
      OccPositive(ks, ks[0]);
      assert cs[m0].1 > 0;
      assert i >= 0;
    }
  }

  /** Independent statement of the vote: `default` when nothing was cast;
      otherwise a key cast at least as often as any other, and among the
      keys cast equally often, the one that appears first in `ks`. */
  ghost predicate IsPlurality<K>(ks: seq<K>, default: K, w: K)
  {
    if |ks| == 0 then w == default
    else
      && w in ks
      && (forall j :: 0 <= j < |ks| ==> Occ(ks, ks[j]) <= Occ(ks, w))
      && (forall j :: 0 <= j < |ks| && ks[j] != w && Occ(ks, ks[j]) == Occ(ks, w) ==>
            FirstPos(ks, w) < FirstPos(ks, ks[j]))
  }

  /** One bump adds one to the bumped key and leaves every other key alone. */
  lemma BumpCountOf<K(!new)>(cs: Counts<K>, x: K, y: K)
    ensures CountOf(Bump(cs, x), y) == CountOf(cs, y) + if y == x then 1 else 0
  {
    var v := CountOf(cs, x) + 1;
    if y != x {
      PutOther(cs, x, v, y);
    } else {
      assert Get(Put(cs, x, v), x) == Some(v);
    }
  }

  /** The counter lists every key once, in order of first appearance. */
  lemma {:induction false} CountKeys<K(!new)>(ks: seq<K>)
    ensures Keys(Count(ks)) == Dedup(ks)
  {
    if |ks| > 0 {
      var init := ks[..|ks| - 1];
      var x := ks[|ks| - 1];
      var c := Count(init);
      CountKeys(init);
      DedupMembers(init, x);
      DedupLast(ks);
      KeysOfBump(c, x, Dedup(init));
      assert Count(ks) == Bump(c, x);
    }
  }

  /** Bumping a key appends it to the keys unless it is already there. */
  lemma KeysOfBump<K(!new)>(cs: Counts<K>, x: K, ks: seq<K>)
    requires Keys(cs) == ks
    ensures Keys(Bump(cs, x)) == if x in ks then ks else ks + [x]
  {
    PutKeys(cs, x, CountOf(cs, x) + 1);
  }

  /** The counter holds each key's number of occurrences. */
  lemma {:induction false} CountGet<K(!new)>(ks: seq<K>, y: K)
    ensures CountOf(Count(ks), y) == Occ(ks, y)
  {
    if |ks| > 0 {
      var init := ks[..|ks| - 1];
      CountGet(init, y);
      BumpCountOf(Count(init), ks[|ks| - 1], y);
      OccLast(ks, y);
    }
  }

  /** The number `Count` stores with each entry is that key's occurrence count. */
  lemma CountEntries<K(!new)>(ks: seq<K>)
    ensures forall i :: 0 <= i < |Count(ks)| ==>
              Count(ks)[i].0 in ks && Count(ks)[i].1 == Occ(ks, Count(ks)[i].0)
  {
    CountKeys(ks);
    var cs := Count(ks);
    forall i | 0 <= i < |cs|
      ensures cs[i].0 in ks && cs[i].1 == Occ(ks, cs[i].0)
    {
      assert Keys(cs)[i] == cs[i].0;
      GetEntry(cs, i);
      CountGet(ks, cs[i].0);
    }
  }

  function SumCounts<K>(cs: Counts<K>): int
  {
    if |cs| == 0 then 0 else cs[0].1 + SumCounts(cs[1..])
  }

  /** Writing `v` under `k` replaces the old count of `k` (0 if absent) by `v`. */
  lemma {:induction false} PutSum<K(!new)>(cs: Counts<K>, k: K, v: int)
    ensures SumCounts(Put(cs, k, v)) + CountOf(cs, k) == SumCounts(cs) + v
  {
    if |cs| > 0 && cs[0].0 != k {
      var t := Put(cs[1..], k, v);
      assert Put(cs, k, v) == [cs[0]] + t;
      assert ([cs[0]] + t)[1..] == t;
      PutSum(cs[1..], k, v);
    } else if |cs| > 0 {
      assert Put(cs, k, v)[1..] == cs[1..];
    }
  }

  /** The counts add up to the number of keys tallied. */
  lemma {:induction false} CountTotal<K(!new)>(ks: seq<K>)
    ensures SumCounts(Count(ks)) == |ks|
  {
    if |ks| > 0 {
      var init := ks[..|ks| - 1];
      var x := ks[|ks| - 1];
      CountTotal(init);
      PutSum(Count(init), x, CountOf(Count(init), x) + 1);
    }
  }

  /** What the reduce returns: `init` when no count beats it; otherwise the
      first entry holding the largest count. */
  lemma {:induction false} BestSpec<K>(cs: Counts<K>, init: (K, int)) returns (i: int)
    ensures -1 <= i < |cs|
    ensures i == -1 ==> Best(cs, init) == init
    ensures i >= 0 ==> Best(cs, init) == cs[i] && cs[i].1 > init.1
                       && forall j :: 0 <= j < i ==> cs[j].1 < cs[i].1
    ensures forall j :: 0 <= j < |cs| ==> cs[j].1 <= Best(cs, init).1
    ensures init.1 <= Best(cs, init).1
  {
    if |cs| == 0 {
      i := -1;
    } else {
      var init' := cs[..|cs| - 1];
      var i' := BestSpec(init', init);
      assert forall j :: 0 <= j < |cs| - 1 ==> cs[j] == init'[j];
      if cs[|cs| - 1].1 > Best(init', init).1 {
        i := |cs| - 1;
      } else {
        i := i';
      }
    }
  }

  /** The source's tally-and-reduce computes the plurality with
      first-appearance tie-break. */
  lemma WinnerIsPlurality<K(!new)>(ks: seq<K>, default: K)
    ensures IsPlurality(ks, default, Winner(ks, default))
  {
    var cs := Count(ks);
    CountKeys(ks);
    CountEntries(ks);
    EntriesInFirstOccurrenceOrder(ks, cs);
    var i := BestSpec(cs, (default, 0));
    if |ks| > 0 {
      var m0 := KeyIndex(ks, cs, ks[0]);
      OccPositive(ks, cs[m0].0);
      assert i >= 0;
      var w := cs[i].0;
      forall j | 0 <= j < |ks|
        ensures Occ(ks, ks[j]) <= Occ(ks, w)
        ensures ks[j] != w && Occ(ks, ks[j]) == Occ(ks, w) ==> FirstPos(ks, w) < FirstPos(ks, ks[j])
      {
        var m := KeyIndex(ks, cs, ks[j]);
        BestBeats(ks, cs, i, m);
      }
    }
  }

  /** Every cast key has an entry. */
  lemma KeyIndex<K>(ks: seq<K>, cs: Counts<K>, y: K) returns (m: nat)
    requires Keys(cs) == Dedup(ks) && y in ks
    ensures m < |cs| && cs[m].0 == y
  {
    DedupMembers(ks, y);
    m := FirstPos(Keys(cs), y);
  }

  /** The entries appear in order of their keys' first appearance. */
  lemma EntriesInFirstOccurrenceOrder<K>(ks: seq<K>, cs: Counts<K>)
    requires Keys(cs) == Dedup(ks)
    ensures forall m, n :: 0 <= m < n < |cs| ==> FirstPos(ks, cs[m].0) < FirstPos(ks, cs[n].0)
  {
    DedupFirstOccurrenceOrder(ks);
    forall m, n | 0 <= m < n < |cs|
      ensures FirstPos(ks, cs[m].0) < FirstPos(ks, cs[n].0)
    {
      assert Dedup(ks)[m] == cs[m].0 && Dedup(ks)[n] == cs[n].0;
    }
  }

  /** The entry the reduce picks beats or ties every other entry, and wins
      every tie by its key appearing first. */
  lemma BestBeats<K>(ks: seq<K>, cs: Counts<K>, i: nat, m: nat)
    requires i < |cs| && m < |cs|
    requires forall n :: 0 <= n < |cs| ==> cs[n].0 in ks
    requires cs[m].1 == Occ(ks, cs[m].0) && cs[i].1 == Occ(ks, cs[i].0)
    requires forall a, b :: 0 <= a < b < |cs| ==> FirstPos(ks, cs[a].0) < FirstPos(ks, cs[b].0)
    requires forall n :: 0 <= n < |cs| ==> cs[n].1 <= cs[i].1
    requires forall n :: 0 <= n < i ==> cs[n].1 < cs[i].1
    ensures Occ(ks, cs[m].0) <= Occ(ks, cs[i].0)
    ensures cs[m].0 != cs[i].0 && Occ(ks, cs[m].0) == Occ(ks, cs[i].0) ==>
              FirstPos(ks, cs[i].0) < FirstPos(ks, cs[m].0)
  {
    assert cs[m].1 <= cs[i].1;
    if cs[m].0 != cs[i].0 && cs[m].1 == cs[i].1 {
      assert i < m;
    }
  }

  /** At most one key satisfies the plurality statement. */
  lemma PluralityUnique<K>(ks: seq<K>, default: K, w1: K, w2: K)
    requires IsPlurality(ks, default, w1) && IsPlurality(ks, default, w2)
    ensures w1 == w2
  {
    if |ks| > 0 {
      var j1 := FirstPos(ks, w1);
      var j2 := FirstPos(ks, w2);
      assert Occ(ks, ks[j1]) <= Occ(ks, w2) && Occ(ks, ks[j2]) <= Occ(ks, w1);
      assert j1 <= j2 && j2 <= j1;
    }
  }

  /** So the selected key is exactly the plurality key. */
  lemma WinnerCharacterized<K(!new)>(ks: seq<K>, default: K, w: K)
    ensures Winner(ks, default) == w <==> IsPlurality(ks, default, w)
  {
    WinnerIsPlurality(ks, default);
    if IsPlurality(ks, default, w) {
      PluralityUnique(ks, default, w, Winner(ks, default));
    }
  }
}
