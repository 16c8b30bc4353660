/** The history list: `ORDER BY ts DESC, device_id ASC, entry_id ASC LIMIT ?`. */
module RecentList {
  import opened Prelude
  import opened StoreModel

  /** SQLite's BINARY collation on TEXT; for UTF-8 the byte order is the code point order. */
  predicate TextLess(s: string, t: string) {
    if t == [] then false
    else if s == [] then true
    else if s[0] != t[0] then s[0] < t[0]
    else TextLess(s[1..], t[1..])
  }

  predicate Before(a: Entry, b: Entry) {
    if a.ts != b.ts then a.ts > b.ts
    else if a.device != b.device then TextLess(a.device, b.device)
    else TextLess(a.id, b.id)
  }

  predicate Ordered(es: seq<Entry>) {
    forall i, j :: 0 <= i < j < |es| ==> Before(es[i], es[j])
  }

  function Place(e: Entry, es: seq<Entry>): seq<Entry> {
    if es == [] || Before(e, es[0]) then [e] + es else [es[0]] + Place(e, es[1..])
  }

  function InOrder(es: seq<Entry>): seq<Entry> {
    if es == [] then [] else Place(es[0], InOrder(es[1..]))
  }

  function ListRecent(st: Store, limit: U64): seq<Entry> {
    SqlLimit(InOrder(EntriesOf(st.rows)), limit)
  }

  lemma {:induction false} TextLessIrreflexive(s: string)
    ensures !TextLess(s, s)
  {
    if s != [] {
      TextLessIrreflexive(s[1..]);
    }
  }

  lemma {:induction false} TextLessTotal(s: string, t: string)
    requires s != t
    ensures TextLess(s, t) != TextLess(t, s)
  {
    if s != [] && t != [] && s[0] == t[0] {
      assert s == [s[0]] + s[1..] && t == [t[0]] + t[1..];
      TextLessTotal(s[1..], t[1..]);
    }
  }

  lemma {:induction false} TextLessTransitive(s: string, t: string, u: string)
    requires TextLess(s, t) && TextLess(t, u)
    ensures TextLess(s, u)
  {
    if s != [] && s[0] == t[0] && t[0] == u[0] {
      TextLessTransitive(s[1..], t[1..], u[1..]);
    }
  }

  /** The list order is a strict total order on entries with different ids. */
  lemma BeforeIsStrictTotal(a: Entry, b: Entry, c: Entry)
    ensures !Before(a, a)
    ensures a.id != b.id ==> Before(a, b) != Before(b, a)
    ensures Before(a, b) && Before(b, c) ==> Before(a, c)
  {
    TextLessIrreflexive(a.id);
    if a.device != b.device {
      TextLessTotal(a.device, b.device);
    } else if a.id != b.id {
      TextLessTotal(a.id, b.id);
    }
    if Before(a, b) && Before(b, c) && a.ts == b.ts && b.ts == c.ts {
      if a.device == b.device && b.device == c.device {
        TextLessTransitive(a.id, b.id, c.id);
      } else if a.device != b.device && b.device != c.device {
        TextLessTransitive(a.device, b.device, c.device);
        TextLessIrreflexive(a.device);
      }
    }
  }

  lemma {:induction false} PlaceOrdered(e: Entry, es: seq<Entry>)
    requires Ordered(es)
    requires forall x :: x in es ==> x.id != e.id
    ensures Ordered(Place(e, es))
    ensures multiset(Place(e, es)) == multiset(es) + multiset{e}
    ensures forall x :: x in Place(e, es) <==> x in es || x == e
  {
    if es == [] {
    } else if Before(e, es[0]) {
      forall j | 0 <= j < |es| ensures Before(e, es[j]) {
        BeforeIsStrictTotal(e, es[0], es[j]);
      }
    } else {
      assert es == [es[0]] + es[1..];
      PlaceOrdered(e, es[1..]);
      BeforeIsStrictTotal(e, es[0], es[0]);
      assert es[0] in es;
      var rest := Place(e, es[1..]);
      forall j | 0 <= j < |rest| ensures Before(es[0], rest[j]) {
        assert rest[j] in rest;
        if rest[j] in es[1..] {
          var k :| 0 <= k < |es[1..]| && es[1..][k] == rest[j];
          assert es[k + 1] == rest[j];
        }
      }
    }
  }

  /** Sorting neither loses, adds nor repeats an entry. */
  lemma {:induction false} InOrderExact(es: seq<Entry>)
    requires DistinctIds(es)
    ensures Ordered(InOrder(es))
    ensures multiset(InOrder(es)) == multiset(es)
    ensures forall x :: x in InOrder(es) <==> x in es
    ensures |InOrder(es)| == |es|
  {
    if es != [] {
      assert es == [es[0]] + es[1..];
      InOrderExact(es[1..]);
      PlaceOrdered(es[0], InOrder(es[1..]));
      assert |multiset(InOrder(es))| == |multiset(es)|;
    }
  }

  lemma {:induction false} OrderedUnique(a: seq<Entry>, b: seq<Entry>)
    requires Ordered(a) && Ordered(b)
    requires forall x :: x in a <==> x in b
    ensures a == b
  {
    assert a != [] ==> a[0] in b;
    assert b != [] ==> b[0] in a;
    if a != [] {
      var i :| 0 <= i < |b| && b[i] == a[0];
      var j :| 0 <= j < |a| && a[j] == b[0];
      BeforeIsStrictTotal(a[0], b[0], a[0]);
      assert a[0] == b[0];
      assert a == [a[0]] + a[1..] && b == [b[0]] + b[1..];
      forall x ensures x in a[1..] <==> x in b[1..] {
        OnlyHeadEqualsHead(a, x);
        OnlyHeadEqualsHead(b, x);
      }
      OrderedUnique(a[1..], b[1..]);
    }
  }

  lemma OnlyHeadEqualsHead(a: seq<Entry>, x: Entry)
    requires Ordered(a) && a != []
    ensures x in a[1..] <==> x in a && x != a[0]
  {
    assert a == [a[0]] + a[1..];
    BeforeIsStrictTotal(a[0], a[0], a[0]);
    if x in a[1..] {
      var k :| 0 <= k < |a[1..]| && a[1..][k] == x;
      assert a[k + 1] == x && Before(a[0], a[k + 1]);
    }
  }

  lemma StoreEntriesDistinct(st: Store)
    requires Valid(st)
    ensures DistinctIds(EntriesOf(st.rows))
    ensures |EntriesOf(st.rows)| <= I64_MAX
  {
    RowCountBound(st.rows, st.counter);
  }

  ghost predicate SameEntries(a: Store, b: Store) {
    forall e :: e in EntriesOf(a.rows) <==> e in EntriesOf(b.rows)
  }

  /** The list depends on the set of entries only, never on the order in which a store got them. */
  lemma ListRecentDependsOnSet(a: Store, b: Store, limit: U64)
    requires Valid(a) && Valid(b) && SameEntries(a, b)
    ensures ListRecent(a, limit) == ListRecent(b, limit)
  {
    StoreEntriesDistinct(a);
    StoreEntriesDistinct(b);
    InOrderExact(EntriesOf(a.rows));
    InOrderExact(EntriesOf(b.rows));
    OrderedUnique(InOrder(EntriesOf(a.rows)), InOrder(EntriesOf(b.rows)));
  }

  /** It is the first min(limit, row count) entries of the order: ordered, and ahead of every entry left out. */
  lemma ListRecentIsTop(st: Store, limit: U64)
    requires Valid(st)
    ensures var top := ListRecent(st, limit);
            && |top| == Min(limit, |st.rows|)
            && Ordered(top)
            && (forall e :: e in top ==> e in EntriesOf(st.rows))
            && (forall e, x :: e in EntriesOf(st.rows) && e !in top && x in top ==> Before(x, e))
  {
    StoreEntriesDistinct(st);
    var all := InOrder(EntriesOf(st.rows));
    InOrderExact(EntriesOf(st.rows));
    var top := ListRecent(st, limit);
    assert |st.rows| == |all|;
    assert top <= all;
    forall e, x | e in EntriesOf(st.rows) && e !in top && x in top
      ensures Before(x, e)
    {
      assert e in all;
      var i :| 0 <= i < |all| && all[i] == e;
      var j :| 0 <= j < |top| && top[j] == x;
      assert i >= |top| by {
        assert top == all[..|top|];
        assert all[i] !in all[..|top|];
      }
    }
  }
  // ---------- The order, spelled out ----------

  /** `s` and `t` agree up to place `n`, and there `s` ends or has the smaller character. */
  predicate SmallerAt(s: string, t: string, n: nat) {
    && n <= |s| && n < |t|
    && s[..n] == t[..n]
    && (n == |s| || s[n] < t[n])
  }

  lemma {:induction false} SmallerAtIsLess(s: string, t: string, n: nat)
    requires SmallerAt(s, t, n)
    ensures TextLess(s, t)
  {
    if s != [] && n > 0 {
      assert s[0] == s[..n][0] && t[0] == t[..n][0];
      assert s[1..][..n - 1] == s[..n][1..] && t[1..][..n - 1] == t[..n][1..];
      SmallerAtIsLess(s[1..], t[1..], n - 1);
    }
  }

  lemma {:induction false} LessIsSmallerAt(s: string, t: string) returns (n: nat)
    requires TextLess(s, t)
    ensures SmallerAt(s, t, n)
  {
    n := 0;
    if s != [] && s[0] == t[0] {
      var m := LessIsSmallerAt(s[1..], t[1..]);
      n := m + 1;
      assert s[..n] == [s[0]] + s[1..][..m] && t[..n] == [t[0]] + t[1..][..m];
    }
  }

  /** A proper prefix comes first; otherwise the first place where the two differ decides. */
  lemma TextLessExact(s: string, t: string)
    ensures TextLess(s, t) <==> exists n: nat :: SmallerAt(s, t, n)
  {
    if TextLess(s, t) {
      var n := LessIsSmallerAt(s, t);
    }
    if n: nat :| SmallerAt(s, t, n) {
      SmallerAtIsLess(s, t, n);
    }
  }

  /** Newest first; of equal time stamps the smaller device first; of equal devices the smaller id. */
  lemma ListRecentNewestFirst(st: Store, limit: U64, i: nat, j: nat)
    requires Valid(st) && i < j < |ListRecent(st, limit)|
    ensures var x, y := ListRecent(st, limit)[i], ListRecent(st, limit)[j];
            && x.ts >= y.ts
            && (x.ts == y.ts ==> x.device == y.device || TextLess(x.device, y.device))
            && (x.ts == y.ts && x.device == y.device ==> TextLess(x.id, y.id))
  {
    hide InOrder, Valid, EntriesOf;
    ListRecentIsTop(st, limit);
    assert Before(ListRecent(st, limit)[i], ListRecent(st, limit)[j]);
  }

  /** No entry left out is newer than one that is listed. */
  lemma ListRecentLeavesOlder(st: Store, limit: U64, x: Entry, e: Entry)
    requires Valid(st) && x in ListRecent(st, limit)
    requires e in EntriesOf(st.rows) && e !in ListRecent(st, limit)
    ensures e.ts <= x.ts
  {
    hide InOrder, Valid, EntriesOf;
    ListRecentIsTop(st, limit);
    assert Before(x, e);
  }
}
