/**
 Any number of stores that neither record nor prune: whatever pulls they make, only a bounded number
 of them changes anything, so rounds of pulls end in a state where all stores hold everything.
 */
module Quiescence {
  import opened Prelude
  import opened StoreModel
  import Prune
  import opened SyncPull
  import opened Convergence
  import Replication
  import ReplicationRuns

  /** Store `m` of the net is known to the others under `keys[m]`. */
  type Net = seq<Store>

  /** Who pulls, and from whom. */
  type PullPair = (nat, nat)

  /** All stores are in order, know only ids of `all`, and each one's cursor for each other says what it has. */
  ghost predicate SoundNet(net: Net, keys: seq<Key>, all: set<EntryId>)
    requires |keys| == |net|
  {
    && (forall i, j :: 0 <= i < j < |keys| ==> keys[i] != keys[j])
    && (forall x :: 0 <= x < |net| ==> WellFormed(net[x]) && Ids(net[x].rows) <= all)
    && forall x, m :: 0 <= x < |net| && 0 <= m < |net| && x != m ==> Sound(net[x], keys[m], net[m])
  }

  predicate InNet(net: Net, p: PullPair) {
    p.0 < |net| && p.1 < |net| && p.0 != p.1
  }

  function Pull(net: Net, keys: seq<Key>, p: PullPair): Net
    requires |keys| == |net| && InNet(net, p)
  {
    net[p.0 := PullAll(net[p.0], keys[p.1], net[p.1])]
  }

  // ---------- Sums ----------

  function Sum(s: seq<int>): int {
    if s == [] then 0 else Sum(s[..|s| - 1]) + s[|s| - 1]
  }

  lemma {:induction false} SumUpdate(s: seq<int>, i: nat, v: int)
    requires i < |s|
    ensures Sum(s[i := v]) == Sum(s) - s[i] + v
  {
    var n := |s| - 1;
    if i < n {
      SumUpdate(s[..n], i, v);
      assert s[i := v][..n] == s[..n][i := v];
    } else {
      assert s[i := v][..n] == s[..n];
    }
  }

  lemma {:induction false} SumGrows(s: seq<int>, s': seq<int>, k: nat)
    requires |s'| == |s| && forall j :: 0 <= j < |s| ==> s'[j] <= s[j] + k
    ensures Sum(s') <= Sum(s) + |s| * k
  {
    if s != [] {
      var n := |s| - 1;
      SumGrows(s[..n], s'[..n], k);
      assert |s| * k == n * k + k;
    }
  }

  /** One term falls by `d` and every other rises by at most `k`. */
  lemma SumShifts(s: seq<int>, s': seq<int>, i: nat, d: int, k: nat)
    requires |s'| == |s| && i < |s| && s'[i] <= s[i] - d
    requires forall j :: 0 <= j < |s| && j != i ==> s'[j] <= s[j] + k
    ensures Sum(s') <= Sum(s) - d - k + |s| * k
  {
    var raised := s'[i := s[i] + k];
    SumGrows(s, raised, k);
    SumUpdate(s', i, s[i] + k);
  }

  lemma {:induction false} SumNotNegative(s: seq<int>)
    requires forall j :: 0 <= j < |s| ==> s[j] >= 0
    ensures Sum(s) >= 0
  {
    if s != [] {
      SumNotNegative(s[..|s| - 1]);
    }
  }

  // ---------- What is still to come ----------

  /** How many rows store `x` has still to pull from store `m`. */
  function TailLength(net: Net, keys: seq<Key>, x: nat, m: nat): nat
    requires |keys| == |net| && x < |net| && m < |net|
  {
    if x == m then 0 else |TailOf(net[x], keys[m], net[m])|
  }

  function Tails(net: Net, keys: seq<Key>, x: nat): (s: seq<int>)
    requires |keys| == |net| && x < |net|
    ensures |s| == |net|
    ensures forall m :: 0 <= m < |net| ==> s[m] == TailLength(net, keys, x, m)
  {
    seq(|net|, m requires 0 <= m < |net| => TailLength(net, keys, x, m))
  }

  /** What store `x` has to pull, and the room it has left to give others something to pull. */
  function Owed(net: Net, keys: seq<Key>, limit: nat, x: nat): int
    requires |keys| == |net| && x < |net|
  {
    Sum(Tails(net, keys, x)) + |net| * (limit - |net[x].rows|)
  }

  function Debts(net: Net, keys: seq<Key>, limit: nat): (s: seq<int>)
    requires |keys| == |net|
    ensures |s| == |net|
    ensures forall x :: 0 <= x < |net| ==> s[x] == Owed(net, keys, limit, x)
  {
    seq(|net|, x requires 0 <= x < |net| => Owed(net, keys, limit, x))
  }

  function TotalOwed(net: Net, keys: seq<Key>, limit: nat): int
    requires |keys| == |net|
  {
    Sum(Debts(net, keys, limit))
  }

  lemma LastIdIsNew(rows: seq<Row>)
    requires UniqueIds(rows) && rows != []
    ensures rows[|rows| - 1].entry.id !in Ids(rows[..|rows| - 1])
  {
    forall r | r in rows[..|rows| - 1]
      ensures r.entry.id != rows[|rows| - 1].entry.id
    {
      var i :| 0 <= i < |rows| - 1 && rows[i] == r;
    }
  }

  lemma {:induction false} IdsCount(rows: seq<Row>)
    requires UniqueIds(rows)
    ensures |Ids(rows)| == |rows|
  {
    if rows != [] {
      hide Ids;
      var n := |rows| - 1;
      IdsCount(rows[..n]);
      assert rows == rows[..n] + [rows[n]];
      IdsAppend(rows[..n], rows[n]);
      LastIdIsNew(rows);
    }
  }

  lemma RowsWithin(net: Net, keys: seq<Key>, all: set<EntryId>, x: nat)
    requires |keys| == |net| && SoundNet(net, keys, all) && x < |net|
    ensures |net[x].rows| <= |all|
  {
    hide Ids, Sorted, Sound;
    assert WellFormed(net[x]);
    IdsCount(net[x].rows);
    Prune.SubsetSize(Ids(net[x].rows), all);
  }

  lemma OwedNotNegative(net: Net, keys: seq<Key>, all: set<EntryId>)
    requires |keys| == |net| && SoundNet(net, keys, all)
    ensures TotalOwed(net, keys, |all|) >= 0
  {
    hide SoundNet, Sum, TailOf;
    var debts := Debts(net, keys, |all|);
    forall x | 0 <= x < |net|
      ensures debts[x] >= 0
    {
      SumNotNegative(Tails(net, keys, x));
      RowsWithin(net, keys, all, x);
      Room(|net|, |all| - |net[x].rows|);
    }
    SumNotNegative(debts);
  }

  lemma Room(n: nat, room: nat)
    ensures n * room >= 0
  {
  }

  // ---------- One pull ----------

  lemma {:induction false} AfterGrows(rows: seq<Row>, more: seq<Row>, cursor: int, device: Option<Device>)
    ensures |After(rows + more, cursor, device)| <= |After(rows, cursor, device)| + |more|
    decreases |more|
  {
    if more == [] {
      assert rows + more == rows;
    } else {
      var n := |more| - 1;
      AfterGrows(rows, more[..n], cursor, device);
      assert (rows + more)[..|rows + more| - 1] == rows + more[..n];
    }
  }

  /** What others can pull from a store grows by no more than the store does. */
  lemma TailGrows(a: Store, key: Key, b: Store, b': Store)
    requires InsertsOnly(b, b')
    ensures |b.rows| <= |b'.rows|
    ensures |TailOf(a, key, b')| <= |TailOf(a, key, b)| + |b'.rows| - |b.rows|
  {
    hide After;
    AfterGrows(b.rows, b'.rows[|b.rows|..], CursorIn(a.pullCursors, key), None);
    assert b.rows + b'.rows[|b.rows|..] == b'.rows;
  }

  lemma PullFacts(net: Net, keys: seq<Key>, all: set<EntryId>, p: PullPair)
    requires |keys| == |net| && SoundNet(net, keys, all) && InNet(net, p)
    ensures var l, m := p.0, p.1;
            var a' := PullAll(net[l], keys[m], net[m]);
            && WellFormed(a') && InsertsOnly(net[l], a') && Sound(a', keys[m], net[m])
            && Ids(a'.rows) == Ids(net[l].rows) + Ids(net[m].rows)
            && TailOf(a', keys[m], net[m]) == []
            && forall j :: 0 <= j < |keys| && j != m ==>
                 CursorIn(a'.pullCursors, keys[j]) == CursorIn(net[l].pullCursors, keys[j])
  {
    hide WellFormed, Sound, InsertsOnly, Ids, TailOf, PullAll, CursorIn;
    var l, m := p.0, p.1;
    PullUnites(net[l], keys[m], net[m]);
    forall j | 0 <= j < |keys| && j != m
      ensures CursorIn(PullAll(net[l], keys[m], net[m]).pullCursors, keys[j])
           == CursorIn(net[l].pullCursors, keys[j])
    {
      assert keys[j] != keys[m];
      PullKeepsOtherCursors(net[l], keys[m], net[m], keys[j]);
    }
  }

  lemma PullKeepsSound(net: Net, keys: seq<Key>, all: set<EntryId>, p: PullPair)
    requires |keys| == |net| && SoundNet(net, keys, all) && InNet(net, p)
    ensures SoundNet(Pull(net, keys, p), keys, all)
    ensures forall x :: 0 <= x < |net| ==> Ids(net[x].rows) <= Ids(Pull(net, keys, p)[x].rows)
  {
    hide WellFormed, Sound, InsertsOnly, Ids, TailOf, PullAll, CursorIn;
    PullFacts(net, keys, all, p);
    var l, m := p.0, p.1;
    var net' := Pull(net, keys, p);
    InsertsOnlySelf(net[m]);
    forall x, j | 0 <= x < |net| && 0 <= j < |net| && x != j
      ensures Sound(net'[x], keys[j], net'[j])
    {
      if x == l && j != m {
        InsertsOnlySelf(net[j]);
        SoundKept(net[l], net'[l], keys[j], net[j], net[j]);
      } else if j == l {
        SoundKept(net[x], net[x], keys[l], net[l], net'[l]);
      }
    }
  }

  lemma InsertsOnlySelf(a: Store)
    ensures InsertsOnly(a, a)
  {
  }

  /** The tails of the pulling store: the one it pulled is gone, the others are as they were. */
  lemma OwnDebt(net: Net, keys: seq<Key>, all: set<EntryId>, p: PullPair)
    requires |keys| == |net| && SoundNet(net, keys, all) && InNet(net, p)
    ensures var net' := Pull(net, keys, p);
            Sum(Tails(net', keys, p.0)) == Sum(Tails(net, keys, p.0)) - TailLength(net, keys, p.0, p.1)
  {
    hide SoundNet, PullAll, Sum, WellFormed, Ids, Sound, InsertsOnly, CursorIn, After;
    PullFacts(net, keys, all, p);
    var net' := Pull(net, keys, p);
    var before, after := Tails(net, keys, p.0), Tails(net', keys, p.0);
    assert after == before[p.1 := 0];
    SumUpdate(before, p.1, 0);
  }

  /** The tails of any other store: the one from the pulling store grew by what that store gained, if at all. */
  lemma OtherDebt(net: Net, keys: seq<Key>, all: set<EntryId>, p: PullPair, x: nat)
    requires |keys| == |net| && SoundNet(net, keys, all) && InNet(net, p) && x < |net| && x != p.0
    ensures var net' := Pull(net, keys, p);
            && |net[p.0].rows| <= |net'[p.0].rows|
            && Sum(Tails(net', keys, x)) <= Sum(Tails(net, keys, x)) + |net'[p.0].rows| - |net[p.0].rows|
  {
    hide SoundNet, PullAll, Sum, WellFormed, Ids, Sound, InsertsOnly, CursorIn, TailOf;
    PullFacts(net, keys, all, p);
    var net' := Pull(net, keys, p);
    var before, after := Tails(net, keys, x), Tails(net', keys, x);
    assert after == before[p.0 := after[p.0]];
    SumUpdate(before, p.0, after[p.0]);
    TailGrows(net[x], keys[p.0], net[p.0], net'[p.0]);
  }

  /** A pull pays off at least the tail it pulled. */
  lemma PullPays(net: Net, keys: seq<Key>, all: set<EntryId>, p: PullPair)
    requires |keys| == |net| && SoundNet(net, keys, all) && InNet(net, p)
    ensures TotalOwed(Pull(net, keys, p), keys, |all|)
         <= TotalOwed(net, keys, |all|) - TailLength(net, keys, p.0, p.1)
  {
    hide SoundNet, PullAll, Sum, TailLength, Ids, WellFormed, Sound, CursorIn, TailOf;
    var net' := Pull(net, keys, p);
    var l, n := p.0, |net|;
    var tail := TailLength(net, keys, p.0, p.1);
    OwnDebt(net, keys, all, p);
    PullFacts(net, keys, all, p);
    TailGrows(net[p.1], keys[l], net[l], net'[l]);
    var k: nat := |net'[l].rows| - |net[l].rows|;
    var debts, debts' := Debts(net, keys, |all|), Debts(net', keys, |all|);
    forall x | 0 <= x < n && x != l
      ensures debts'[x] <= debts[x] + k
    {
      OtherDebt(net, keys, all, p, x);
      assert net'[x] == net[x];
    }
    Spread(n, |all| - |net[l].rows|, k);
    assert debts'[l] == debts[l] - tail - n * k;
    SumShifts(debts, debts', l, tail + n * k, k);
  }

  lemma Spread(n: nat, room: int, k: int)
    ensures n * (room - k) == n * room - n * k
  {
  }

  // ---------- Any series of pulls ----------

  predicate Series(net: Net, script: seq<PullPair>) {
    forall i :: 0 <= i < |script| ==> InNet(net, script[i])
  }

  function Run(net: Net, keys: seq<Key>, script: seq<PullPair>): (net': Net)
    requires |keys| == |net| && Series(net, script)
    ensures |net'| == |net|
  {
    if script == [] then net else
      var n := |script| - 1;
      Pull(Run(net, keys, script[..n]), keys, script[n])
  }

  /** How many pulls of the series changed anything: an entry, a cursor or a counter. */
  function Changes(net: Net, keys: seq<Key>, script: seq<PullPair>): nat
    requires |keys| == |net| && Series(net, script)
  {
    if script == [] then 0 else
      var n := |script| - 1;
      var mid := Run(net, keys, script[..n]);
      Changes(net, keys, script[..n]) + (if Pull(mid, keys, script[n]) == mid then 0 else 1)
  }

  lemma PullUnchanged(net: Net, keys: seq<Key>, p: PullPair)
    requires |keys| == |net| && InNet(net, p) && TailLength(net, keys, p.0, p.1) == 0
    ensures Pull(net, keys, p) == net
  {
    hide TailOf, PullAll;
    NothingToPull(net[p.0], keys[p.1], net[p.1]);
  }

  /** Every change is paid for: however the stores pull from each other, they change at most so often. */
  lemma {:induction false} ChangesBounded(net: Net, keys: seq<Key>, all: set<EntryId>, script: seq<PullPair>)
    requires |keys| == |net| && SoundNet(net, keys, all) && Series(net, script)
    ensures SoundNet(Run(net, keys, script), keys, all)
    ensures forall x :: 0 <= x < |net| ==> Ids(net[x].rows) <= Ids(Run(net, keys, script)[x].rows)
    ensures Changes(net, keys, script) + TotalOwed(Run(net, keys, script), keys, |all|) <= TotalOwed(net, keys, |all|)
  {
    hide SoundNet, TotalOwed, Pull, Ids, TailLength;
    if script != [] {
      var n := |script| - 1;
      ChangesBounded(net, keys, all, script[..n]);
      var mid := Run(net, keys, script[..n]);
      PullKeepsSound(mid, keys, all, script[n]);
      PullPays(mid, keys, all, script[n]);
      if TailLength(mid, keys, script[n].0, script[n].1) == 0 {
        PullUnchanged(mid, keys, script[n]);
      }
    }
  }

  /** The bound itself, over every series of pulls. */
  lemma ChangesAtMost(net: Net, keys: seq<Key>, all: set<EntryId>, script: seq<PullPair>)
    requires |keys| == |net| && SoundNet(net, keys, all) && Series(net, script)
    ensures Changes(net, keys, script) <= TotalOwed(net, keys, |all|)
  {
    hide SoundNet, TotalOwed;
    ChangesBounded(net, keys, all, script);
    OwedNotNegative(Run(net, keys, script), keys, all);
  }

  // ---------- Rounds ----------

  /** Nothing is left to pull anywhere. */
  ghost predicate Quiet(net: Net, keys: seq<Key>)
    requires |keys| == |net|
  {
    forall x, m :: 0 <= x < |net| && 0 <= m < |net| && x != m ==> TailOf(net[x], keys[m], net[m]) == []
  }

  /** Every store pulls from every other at least once, in any order. */
  ghost predicate FullRound(net: Net, script: seq<PullPair>) {
    && Series(net, script)
    && forall x: nat, m: nat :: x < |net| && m < |net| && x != m ==> (x, m) in script
  }

  lemma {:induction false} IdleSeries(net: Net, keys: seq<Key>, script: seq<PullPair>)
    requires |keys| == |net| && Series(net, script) && Changes(net, keys, script) == 0
    ensures Run(net, keys, script) == net
    ensures forall p :: p in script ==> InNet(net, p) && Pull(net, keys, p) == net
  {
    hide Pull;
    if script != [] {
      var n := |script| - 1;
      IdleSeries(net, keys, script[..n]);
      assert script == script[..n] + [script[n]];
    }
  }

  /** A full round changes something unless the net is quiet already. */
  lemma RoundPays(net: Net, keys: seq<Key>, all: set<EntryId>, round: seq<PullPair>)
    requires |keys| == |net| && SoundNet(net, keys, all) && FullRound(net, round)
    ensures SoundNet(Run(net, keys, round), keys, all)
    ensures forall x :: 0 <= x < |net| ==> Ids(net[x].rows) <= Ids(Run(net, keys, round)[x].rows)
    ensures Quiet(net, keys) || TotalOwed(Run(net, keys, round), keys, |all|) < TotalOwed(net, keys, |all|)
    ensures Quiet(net, keys) ==> Run(net, keys, round) == net
  {
    hide SoundNet, TotalOwed, Pull, Ids, TailOf, Run, Changes;
    ChangesBounded(net, keys, all, round);
    if Changes(net, keys, round) == 0 {
      IdleSeries(net, keys, round);
      forall x: nat, m: nat | x < |net| && m < |net| && x != m
        ensures TailOf(net[x], keys[m], net[m]) == []
      {
        assert (x, m) in round;
        IdlePair(net, keys, all, (x, m));
      }
    }
    if Quiet(net, keys) {
      QuietSeries(net, keys, round);
    }
  }

  lemma IdlePair(net: Net, keys: seq<Key>, all: set<EntryId>, p: PullPair)
    requires |keys| == |net| && SoundNet(net, keys, all) && InNet(net, p) && Pull(net, keys, p) == net
    ensures TailOf(net[p.0], keys[p.1], net[p.1]) == []
  {
    hide SoundNet, PullAll, TailOf, WellFormed, Ids, Sound, InsertsOnly, CursorIn;
    PullFacts(net, keys, all, p);
    assert Pull(net, keys, p)[p.0] == net[p.0];
  }

  lemma {:induction false} QuietSeries(net: Net, keys: seq<Key>, script: seq<PullPair>)
    requires |keys| == |net| && Quiet(net, keys) && Series(net, script)
    ensures Run(net, keys, script) == net
  {
    hide TailOf, Pull;
    if script != [] {
      var n := |script| - 1;
      QuietSeries(net, keys, script[..n]);
      PullUnchanged(net, keys, script[n]);
    }
  }

  ghost predicate FullRounds(net: Net, rounds: seq<seq<PullPair>>) {
    forall i :: 0 <= i < |rounds| ==> FullRound(net, rounds[i])
  }

  ghost function RunRounds(net: Net, keys: seq<Key>, rounds: seq<seq<PullPair>>): (net': Net)
    requires |keys| == |net| && FullRounds(net, rounds)
    ensures |net'| == |net|
  {
    if rounds == [] then net else
      var n := |rounds| - 1;
      var mid := RunRounds(net, keys, rounds[..n]);
      assert FullRound(net, rounds[n]) && Series(mid, rounds[n]);
      Run(mid, keys, rounds[n])
  }

  lemma {:induction false} RoundsPay(net: Net, keys: seq<Key>, all: set<EntryId>, rounds: seq<seq<PullPair>>)
    requires |keys| == |net| && SoundNet(net, keys, all) && FullRounds(net, rounds)
    ensures var last := RunRounds(net, keys, rounds);
            && SoundNet(last, keys, all)
            && (forall x :: 0 <= x < |net| ==> Ids(net[x].rows) <= Ids(last[x].rows))
            && (Quiet(last, keys) || TotalOwed(last, keys, |all|) <= TotalOwed(net, keys, |all|) - |rounds|)
  {
    hide SoundNet, TotalOwed, Ids, Quiet, Run;
    if rounds != [] {
      var n := |rounds| - 1;
      RoundsPay(net, keys, all, rounds[..n]);
      var mid := RunRounds(net, keys, rounds[..n]);
      assert FullRound(net, rounds[n]);
      assert FullRound(mid, rounds[n]);
      RoundPays(mid, keys, all, rounds[n]);
    }
  }

  /** The ids anywhere in the net. */
  function NetIds(net: Net): set<EntryId> {
    AllIds(net, |net|)
  }

  lemma {:induction false} AllIdsWithin(net: Net, n: nat, all: set<EntryId>)
    requires n <= |net| && forall x :: 0 <= x < n ==> Ids(net[x].rows) <= all
    ensures AllIds(net, n) <= all
  {
    hide Ids;
    if n > 0 {
      AllIdsWithin(net, n - 1, all);
    }
  }

  /**
   More full rounds than the net owes, whatever the order of pulls in each: afterwards nothing is left
   to pull anywhere and every store holds exactly what all of them held together at the start.
   */
  lemma RoundsConverge(net: Net, keys: seq<Key>, rounds: seq<seq<PullPair>>, x: nat)
    requires |keys| == |net| && SoundNet(net, keys, NetIds(net)) && FullRounds(net, rounds)
    requires |rounds| > TotalOwed(net, keys, |NetIds(net)|) && x < |net|
    ensures var last := RunRounds(net, keys, rounds);
            Quiet(last, keys) && Ids(last[x].rows) == NetIds(net)
  {
    hide SoundNet, TotalOwed, Ids, RunRounds, TailOf, NetIds, FullRounds;
    var all := NetIds(net);
    var last := RunRounds(net, keys, rounds);
    RoundsPay(net, keys, all, rounds);
    OwedNotNegative(last, keys, all);
    forall m | 0 <= m < |net|
      ensures Ids(net[m].rows) <= Ids(last[x].rows)
    {
      if m != x {
        QuietPair(last, keys, all, x, m);
      }
    }
    NetIdsWithin(net, Ids(last[x].rows));
    WithinNet(last, keys, all, x);
  }

  lemma NetIdsWithin(net: Net, all: set<EntryId>)
    requires forall x :: 0 <= x < |net| ==> Ids(net[x].rows) <= all
    ensures NetIds(net) <= all
  {
    AllIdsWithin(net, |net|, all);
  }

  lemma WithinNet(net: Net, keys: seq<Key>, all: set<EntryId>, x: nat)
    requires |keys| == |net| && SoundNet(net, keys, all) && x < |net|
    ensures Ids(net[x].rows) <= all
  {
  }

  lemma QuietPair(net: Net, keys: seq<Key>, all: set<EntryId>, x: nat, m: nat)
    requires |keys| == |net| && SoundNet(net, keys, all) && Quiet(net, keys) && x < |net| && m < |net| && x != m
    ensures Ids(net[m].rows) <= Ids(net[x].rows)
  {
    hide Ids, TailOf, WellFormed, Sound;
    QuietCovers(net[x], keys[m], net[m]);
  }

  /** The hypotheses hold in every state that a run without pruning reaches, for any choice of its stores. */
  lemma ReachableNet(t: Replication.Topology, states: seq<Replication.State>, steps: seq<Replication.Step>, i: nat,
                     who: seq<Replication.StoreId>, keys: seq<Key>, net: Net)
    requires ReplicationRuns.IsRun(t, states, steps) && ReplicationRuns.NeverPrunes(steps) && i < |states|
    requires |who| == |keys| == |net|
    requires forall x, y :: 0 <= x < y < |who| ==> who[x] != who[y]
    requires forall x :: 0 <= x < |who| ==>
               who[x] in states[i].stores && net[x] == states[i].stores[who[x]] && t.owner(keys[x]) == who[x]
    ensures SoundNet(net, keys, NetIds(net))
  {
    hide ReplicationRuns.IsRun, ReplicationRuns.NeverPrunes, Ids, Sound, WellFormed;
    forall x, m | 0 <= x < |net| && 0 <= m < |net|
      ensures Sound(net[x], keys[m], net[m]) && WellFormed(net[x])
    {
      assert t.owner(keys[m]) == who[m];
      ReachableSound(t, states, steps, i, who[x], keys[m]);
    }
    forall x | 0 <= x < |net|
      ensures Ids(net[x].rows) <= NetIds(net)
    {
      AllIdsCovers(net, |net|, x);
    }
    forall a, b | 0 <= a < b < |keys|
      ensures keys[a] != keys[b]
    {
      assert t.owner(keys[a]) == who[a] && t.owner(keys[b]) == who[b];
    }
  }
}
