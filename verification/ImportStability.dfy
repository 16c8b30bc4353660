/** Importing again: the same file, the file grown at its end, a part of it, or the file cut at its head. */
module ImportStability {
  import opened Prelude
  import opened Text
  import opened StoreModel
  import opened HistoryFormat
  import opened HistoryImport

  /** The hash is taken to be collision free. */
  ghost predicate Injective(hash: string -> EntryId) {
    forall a, b {:trigger hash(a), hash(b)} :: hash(a) == hash(b) ==> a == b
  }

  ghost predicate SoundIds(req: ImportRequest) {
    Injective(req.hash) && NUL !in req.user && NUL !in req.device
  }

  /** What an id is made of, besides user, device and shell. */
  predicate SameSource(r: HistoryRecord, q: HistoryRecord) {
    r.sourceIndex == q.sourceIndex && SameText(r, q)
  }

  /** A missing time stamp counts as 0. */
  predicate SameText(r: HistoryRecord, q: HistoryRecord) {
    IdTs(r) == IdTs(q) && Trim(r.cmd) == Trim(q.cmd)
  }

  lemma IdExact(req: ImportRequest, r: HistoryRecord, q: HistoryRecord)
    requires SoundIds(req)
    ensures ImportId(req, r) == ImportId(req, q) <==> SameSource(r, q)
  {
    hide ImportName, Trim;
    if ImportId(req, r) == ImportId(req, q) {
      NameInjective(req.user, req.device, req.shell, IdTs(r), r.sourceIndex, Trim(r.cmd),
                    req.user, req.device, req.shell, IdTs(q), q.sourceIndex, Trim(q.cmd));
    }
  }

  // ---------- One file ----------

  lemma {:induction false} TakenFrom(vs: seq<Verdict>, e: Entry)
    requires e in Taken(vs)
    ensures exists i :: 0 <= i < |vs| && vs[i] == Take(e)
  {
    var n := |vs| - 1;
    if e in Taken(vs[..n]) {
      TakenFrom(vs[..n], e);
      var i :| 0 <= i < n && vs[..n][i] == Take(e);
      assert vs[i] == Take(e);
    } else {
      assert vs[n] == Take(e);
    }
  }

  /** No two commands of one file ever get the same id, whichever of them are taken. */
  lemma {:induction false} OneFileDistinctIds(req: ImportRequest, now: int, total: nat, rs: seq<HistoryRecord>,
                                              vs: seq<Verdict>)
    requires SoundIds(req) && |vs| == |rs|
    requires forall i, j :: 0 <= i < j < |rs| ==> rs[i].sourceIndex < rs[j].sourceIndex
    requires forall i :: 0 <= i < |rs| ==> vs[i] == Judge(req, now, total, i, rs[i])
    ensures DistinctIds(Taken(vs))
  {
    hide ImportId, Trim, Skips, FilledTs;
    if vs != [] {
      var n := |vs| - 1;
      var before := Taken(vs[..n]);
      OneFileDistinctIds(req, now, total, rs[..n], vs[..n]);
      if vs[n].Take? {
        forall k | 0 <= k < |before|
          ensures before[k].id != vs[n].entry.id
        {
          TakenFrom(vs[..n], before[k]);
          var i :| 0 <= i < n && vs[..n][i] == Take(before[k]);
          assert vs[i] == Judge(req, now, total, i, rs[i]);
          IdExact(req, rs[i], rs[n]);
        }
      }
    }
  }

  lemma JudgedDistinct(req: ImportRequest, now: int)
    requires SoundIds(req)
    ensures DistinctIds(Taken(Judged(req, now)))
  {
    hide Judge, Taken;
    var all := Records(req.shell, req.content);
    IndicesCount(req.shell, Lines(req.content));
    var rs := Kept(all, req.limit);
    assert forall i :: 0 <= i < |rs| ==> rs[i] == all[|all| - |rs| + i];
    OneFileDistinctIds(req, now, |rs|, rs, Judged(req, now));
  }

  // ---------- A limit ----------

  /**
   Importing with a limit treats the last records exactly as the full import does: same entries,
   same ids, even the same made-up time stamps.
   */
  lemma LimitIsSuffix(req: ImportRequest, now: int)
    ensures var full := Judged(req.(limit := None), now);
            var part := Judged(req, now);
            && |part| == (if req.limit.Some? then Min(req.limit.value, |full|) else |full|)
            && part == full[|full| - |part|..]
            && Taken(full) == Taken(full[..|full| - |part|]) + Taken(part)
  {
    hide Records, Trim, Skips, ImportedEntry, Taken;
    var full := Judged(req.(limit := None), now);
    var part := Judged(req, now);
    var all := Records(req.shell, req.content);
    var skipped := |full| - |part|;
    forall i | 0 <= i < |part|
      ensures part[i] == full[skipped + i]
    {
      SameVerdict(req, now, |part|, i, |full|, skipped + i, all[skipped + i]);
    }
    assert part == full[skipped..];
    assert full == full[..skipped] + part;
    TakenAppend(full[..skipped], part);
  }

  /** Only the distance to the end of the file matters to a verdict. */
  lemma SameVerdict(req: ImportRequest, now: int, m: nat, i: nat, n: nat, j: nat, r: HistoryRecord)
    requires i < m && j < n && m - i == n - j
    ensures Judge(req, now, m, i, r) == Judge(req.(limit := None), now, n, j, r)
  {
  }

  // ---------- Importing twice ----------

  predicate SameIds(es: seq<Entry>, fs: seq<Entry>) {
    |es| == |fs| && forall i :: 0 <= i < |es| ==> es[i].id == fs[i].id
  }

  /** The clock never changes an id: judged at two times, the taken entries carry the same ids. */
  lemma {:induction false} ClockKeepsIds(vs: seq<Verdict>, ws: seq<Verdict>)
    requires |vs| == |ws|
    requires forall i :: 0 <= i < |vs| ==>
               vs[i].Take? == ws[i].Take? && (vs[i].Take? ==> vs[i].entry.id == ws[i].entry.id)
    ensures SameIds(Taken(vs), Taken(ws))
  {
    if vs != [] {
      var n := |vs| - 1;
      ClockKeepsIds(vs[..n], ws[..n]);
    }
  }

  lemma SameEntryIds(es: seq<Entry>, fs: seq<Entry>)
    requires SameIds(es, fs)
    ensures EntryIds(es) == EntryIds(fs)
  {
    forall id | id in EntryIds(es)
      ensures id in EntryIds(fs)
    {
      var i :| 0 <= i < |es| && es[i].id == id;
      assert fs[i] in fs;
    }
    forall id | id in EntryIds(fs)
      ensures id in EntryIds(es)
    {
      var i :| 0 <= i < |fs| && fs[i].id == id;
      assert es[i] in es;
    }
  }

  /** Two imports by the same user and device of one file and of that file grown, at two times. */
  ghost predicate GrownFile(req: ImportRequest, now: int, req': ImportRequest, now': int) {
    && req.limit.None? && req'.limit.None?
    && EndsLine(req.content) && req.content <= req'.content
    && req' == req.(content := req'.content, version := req'.version)
    && AllDated(Judged(req, now)) && AllDated(Judged(req', now'))
  }

  /** The grown file's import starts with the ids of the earlier import, in order. */
  lemma GrownKeepsIds(req: ImportRequest, now: int, req': ImportRequest, now': int)
    requires GrownFile(req, now, req', now')
    ensures var first, second := Taken(Judged(req, now)), Taken(Judged(req', now'));
            |first| <= |second| && SameIds(first, second[..|first|])
  {
    hide Records, Trim, FirstWord, Taken, ImportName, FilledTs;
    var vs, ws := Judged(req, now), Judged(req', now');
    var more := req'.content[|req.content|..];
    assert req'.content == req.content + more;
    RecordsGrow(req.shell, req.content, more);
    forall i | 0 <= i < |vs|
      ensures vs[i].Take? == ws[i].Take? && (vs[i].Take? ==> vs[i].entry.id == ws[i].entry.id)
    {
      var r := Records(req.shell, req.content)[i];
      assert Records(req'.shell, req'.content)[i] == r;
      assert vs[i] == Judge(req, now, |vs|, i, r) && ws[i] == Judge(req', now', |ws|, i, r);
      assert !vs[i].BadTimestamp? && !ws[i].BadTimestamp?;
    }
    ClockKeepsIds(vs, ws[..|vs|]);
    TakenAppend(ws[..|vs|], ws[|vs|..]);
    assert ws[..|vs|] + ws[|vs|..] == ws;
    var first := Taken(vs);
    assert Taken(ws)[..|first|] == Taken(ws[..|vs|]);
  }

  lemma FreshAfterKnown(known: set<EntryId>, es: seq<Entry>, fs: seq<Entry>, n: nat)
    requires EntryIds(es) <= known && n < |fs|
    ensures FreshAt(known, es + fs, |es| + n) <==> FreshAt(known, fs, n)
  {
    var all := es + fs;
    if FreshAt(known, all, |es| + n) {
      assert forall j :: 0 <= j < n ==> fs[j] == all[|es| + j];
    }
    if FreshAt(known, fs, n) {
      forall j | 0 <= j < |es| + n
        ensures all[j].id != fs[n].id
      {
        assert if j < |es| then all[j] == es[j] && es[j] in es && es[j].id in known else all[j] == fs[j - |es|];
      }
    }
  }

  lemma {:induction false} AcceptedAfterKnown(known: set<EntryId>, es: seq<Entry>, fs: seq<Entry>)
    requires EntryIds(es) <= known
    ensures Accepted(known, es + fs) == Accepted(known, fs)
    decreases |es| + |fs|
  {
    if fs != [] {
      var n := |fs| - 1;
      AcceptedAfterKnown(known, es, fs[..n]);
      assert (es + fs)[..|es| + n] == es + fs[..n];
      FreshAfterKnown(known, es, fs, n);
    } else if es != [] {
      var n := |es| - 1;
      assert es + fs == es && es[n] in es;
      EntryIdsAppend(es[..n], [es[n]]);
      assert es[..n] + [es[n]] == es;
      AcceptedAfterKnown(known, es[..n], []);
      assert es[..n] + [] == es[..n];
    }
  }

  /** Ids that do not occur in a list play no part in deduplicating it. */
  lemma {:induction false} AcceptedIgnores(known: set<EntryId>, extra: set<EntryId>, es: seq<Entry>)
    requires EntryIds(es) !! extra
    ensures Accepted(known + extra, es) == Accepted(known, es)
  {
    if es != [] {
      var n := |es| - 1;
      assert es == es[..n] + [es[n]] && es[n] in es;
      EntryIdsAppend(es[..n], [es[n]]);
      AcceptedIgnores(known, extra, es[..n]);
    }
  }

  lemma {:induction false} AllAccepted(known: set<EntryId>, es: seq<Entry>)
    requires EntryIds(es) !! known && DistinctIds(es)
    ensures Accepted(known, es) == es
  {
    if es != [] {
      var n := |es| - 1;
      assert es == es[..n] + [es[n]] && es[n] in es;
      EntryIdsAppend(es[..n], [es[n]]);
      AllAccepted(known, es[..n]);
      assert FreshAt(known, es, n);
    }
  }

  lemma DistinctSplit(es: seq<Entry>, k: nat)
    requires DistinctIds(es) && k <= |es|
    ensures EntryIds(es[k..]) !! EntryIds(es[..k])
    ensures DistinctIds(es[k..])
  {
    forall e, f | e in es[k..] && f in es[..k]
      ensures e.id != f.id
    {
      var i :| 0 <= i < |es[k..]| && es[k..][i] == e;
      var j :| 0 <= j < k && es[j] == f;
      assert es[k + i] == e;
    }
  }

  /**
   Importing a grown file after its earlier import: every entry of the earlier import is ignored,
   and the rest is treated as if it had been imported alone. When the store held none of these ids
   before, exactly the new entries are inserted; when nothing was added, nothing is.
   */
  lemma GrownFileReimports(req: ImportRequest, now: int, req': ImportRequest, now': int, before: Store)
    requires WellFormed(before) && SoundIds(req) && GrownFile(req, now, req', now')
    ensures var first, second := Taken(Judged(req, now)), Taken(Judged(req', now'));
            var between := Ingest(before, first);
            && |first| <= |second|
            && EntryIds(second[..|first|]) <= Ids(between.rows)
            && Accepted(Ids(between.rows), second) == Accepted(Ids(before.rows), second[|first|..])
            && (EntryIds(second[|first|..]) !! Ids(before.rows) ==>
                  Accepted(Ids(between.rows), second) == second[|first|..])
            && (req'.content == req.content ==> Ingest(between, second).rows == between.rows)
  {
    hide Judged, Taken, Ingest, Accepted, Ids, EntryIds, DistinctIds, WellFormed, AllDated;
    var first, second := Taken(Judged(req, now)), Taken(Judged(req', now'));
    var between := Ingest(before, first);
    GrownKeepsIds(req, now, req', now');
    SameEntryIds(first, second[..|first|]);
    IngestExact(before, first);
    JudgedDistinct(req', now');
    DistinctSplit(second, |first|);
    assert second == second[..|first|] + second[|first|..];
    AcceptedAfterKnown(Ids(between.rows), second[..|first|], second[|first|..]);
    AcceptedIgnores(Ids(before.rows), EntryIds(first), second[|first|..]);
    if EntryIds(second[|first|..]) !! Ids(before.rows) {
      AllAccepted(Ids(before.rows), second[|first|..]);
    }
    if req'.content == req.content {
      SameFileSameIds(req, now, req', now');
      IngestKnown(between, second);
    }
  }

  lemma SameFileSameIds(req: ImportRequest, now: int, req': ImportRequest, now': int)
    requires GrownFile(req, now, req', now') && req'.content == req.content
    ensures EntryIds(Taken(Judged(req, now))) == EntryIds(Taken(Judged(req', now')))
  {
    hide Judged, Taken, EntryIds;
    var first, second := Taken(Judged(req, now)), Taken(Judged(req', now'));
    GrownKeepsIds(req, now, req', now');
    GrownKeepsIds(req', now', req, now);
    assert second[..|first|] == second;
    SameEntryIds(first, second);
  }

  // ---------- A file cut at its head ----------

  /**
   When the shell drops the head of a file, `k` commands long, every later command moves down `k`
   places. It keeps an id that the full import already used exactly when it has the text and time
   stamp of the command `k` places before it; every other command is imported a second time under
   a new id. Text and stamp are those of the full file, except that the first command left loses
   its stamp if the cut fell between the two.
   */
  lemma HeadCutChangesIds(req: ImportRequest, head: string, rest: string, i: nat)
    requires SoundIds(req) && EndsLine(head)
    requires i < |Records(req.shell, rest)|
    ensures var full, cut := Records(req.shell, head + rest), Records(req.shell, rest);
            var k, pending := |Records(req.shell, head)|, Scan(req.shell, Lines(head)).nextTs;
            && |full| == k + |cut|
            && full[k + i].cmd == cut[i].cmd
            && full[k + i].ts == (if i == 0 && cut[0].ts.None? then pending else cut[i].ts)
            && ((exists j :: 0 <= j < |full| && ImportId(req, full[j]) == ImportId(req, cut[i]))
                <==> SameText(full[i], cut[i]))
            && (pending.None? || i > 0 ==> SameText(full[k + i], cut[i]))
            && (pending.None? || i > 0 ==>
                 ((exists j :: 0 <= j < |full| && ImportId(req, full[j]) == ImportId(req, cut[i]))
                  <==> SameText(full[i], full[k + i])))
  {
    hide Lines, Scan, ImportName, Trim;
    var full, cut := Records(req.shell, head + rest), Records(req.shell, rest);
    LinesAppend(head, rest);
    ScanShifts(req.shell, Lines(head), Lines(rest));
    IndicesCount(req.shell, Lines(rest));
    IndicesCount(req.shell, Lines(head + rest));
    forall j | 0 <= j < |full|
      ensures ImportId(req, full[j]) == ImportId(req, cut[i]) <==> j == i && SameText(full[i], cut[i])
    {
      IdExact(req, full[j], cut[i]);
    }
  }
}
