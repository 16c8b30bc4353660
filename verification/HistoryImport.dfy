/**
 Importing a shell history file: each command gets an id that depends only on the user, the device
 and the command's place in the file, so that importing again adds nothing twice.
 */
module HistoryImport {
  import opened Prelude
  import opened Text
  import opened StoreModel
  import opened HistoryFormat
  import opened LocalStores

  // ---------- Names ----------

  const NUL: char := '\0'

  function ShellName(shell: HistoryShell): string {
    match shell
    case Bash => "bash"
    case Zsh => "zsh"
  }

  /** The name that is hashed to an id: the parts separated by NUL. */
  function ImportName(user: string, device: string, shell: HistoryShell, ts: int, index: int, cmd: string): string {
    "rustory:import" + [NUL] + (user + [NUL] + (device + [NUL] + (ShellName(shell) + [NUL]
    + (PrintInt(ts) + [NUL] + (PrintInt(index) + [NUL] + cmd)))))
  }

  lemma Peel(a: string, x: string, b: string, y: string)
    requires NUL !in a && NUL !in b
    requires a + [NUL] + x == b + [NUL] + y
    ensures a == b && x == y
  {
    IndexOfAfter(a, NUL, x);
    IndexOfAfter(b, NUL, y);
    assert a == (a + [NUL] + x)[..|a|] && b == (b + [NUL] + y)[..|b|];
    assert x == (a + [NUL] + x)[|a| + 1..] && y == (b + [NUL] + y)[|b| + 1..];
  }

  /** A name determines every part of it when user and device hold no NUL; the command may hold anything. */
  lemma NameInjective(
    user: string, device: string, shell: HistoryShell, ts: int, index: int, cmd: string,
    user': string, device': string, shell': HistoryShell, ts': int, index': int, cmd': string)
    requires NUL !in user && NUL !in device && NUL !in user' && NUL !in device'
    requires ImportName(user, device, shell, ts, index, cmd) == ImportName(user', device', shell', ts', index', cmd')
    ensures user == user' && device == device' && shell == shell' && ts == ts' && index == index' && cmd == cmd'
  {
    hide PrintInt;
    PrintedCharacters(ts);
    PrintedCharacters(ts');
    PrintedCharacters(index);
    PrintedCharacters(index');
    var e, e' := PrintInt(index) + [NUL] + cmd, PrintInt(index') + [NUL] + cmd';
    var d, d' := PrintInt(ts) + [NUL] + e, PrintInt(ts') + [NUL] + e';
    var c, c' := ShellName(shell) + [NUL] + d, ShellName(shell') + [NUL] + d';
    var b, b' := device + [NUL] + c, device' + [NUL] + c';
    Peel("rustory:import", user + [NUL] + b, "rustory:import", user' + [NUL] + b');
    Peel(user, b, user', b');
    Peel(device, c, device', c');
    Peel(ShellName(shell), d, ShellName(shell'), d');
    Peel(PrintInt(ts), e, PrintInt(ts'), e');
    Peel(PrintInt(index), cmd, PrintInt(index'), cmd');
    PrintIntInjective(ts, ts');
    PrintIntInjective(index, index');
    assert |ShellName(Bash)| == 4 && |ShellName(Zsh)| == 3;
  }

  /** User and device as they stand in a name. */
  function Owner(user: string, device: string): string {
    user + [NUL] + device
  }

  /** With the other parts fixed, a name is as telling as its owner. */
  lemma OwnerInName(
    user: string, device: string, user': string, device': string,
    shell: HistoryShell, ts: int, index: int, cmd: string)
    ensures ImportName(user, device, shell, ts, index, cmd) == ImportName(user', device', shell, ts, index, cmd)
       <==> Owner(user, device) == Owner(user', device')
  {
    hide PrintInt;
    var head := "rustory:import" + [NUL];
    var tail := [NUL] + (ShellName(shell) + [NUL] + (PrintInt(ts) + [NUL] + (PrintInt(index) + [NUL] + cmd)));
    Framed(head, user, device, tail[1..]);
    Framed(head, user', device', tail[1..]);
    Cancel(head, Owner(user, device), Owner(user', device'), tail);
    assert tail == [NUL] + tail[1..];
  }

  lemma Framed(head: string, user: string, device: string, rest: string)
    ensures head + (user + [NUL] + (device + [NUL] + rest)) == head + Owner(user, device) + ([NUL] + rest)
  {
  }

  lemma Cancel(head: string, x: string, y: string, tail: string)
    ensures head + x + tail == head + y + tail <==> x == y
  {
    var s, s' := head + x + tail, head + y + tail;
    if s == s' {
      assert |x| == |y|;
      assert s[|head|..|head| + |x|] == x && s'[|head|..|head| + |y|] == y;
    }
  }

  /** A clean user and device are the only ones that make their owner. */
  lemma OwnerUnmistakable(user: string, device: string, user': string, device': string)
    requires NUL !in user && NUL !in device && Owner(user', device') == Owner(user, device)
    ensures user' == user && device' == device
  {
    var s := Owner(user, device);
    assert s[|user'|] == Owner(user', device')[|user'|] == NUL;
    forall i | 0 <= i < |s| && i != |user|
      ensures s[i] != NUL
    {
      assert s[i] == if i < |user| then user[i] else device[i - |user| - 1];
    }
    assert user == s[..|user|] && device == s[|user| + 1..];
    assert user' == Owner(user', device')[..|user'|] && device' == Owner(user', device')[|user'| + 1..];
  }

  /** One with a NUL can be cut at that NUL instead. */
  lemma OwnerMistakable(user: string, device: string) returns (user': string, device': string)
    requires NUL in user || NUL in device
    ensures Owner(user', device') == Owner(user, device) && user' != user
  {
    if NUL in user {
      var i :| 0 <= i < |user| && user[i] == NUL;
      user', device' := user[..i], user[i + 1..] + [NUL] + device;
      assert user == user[..i] + [NUL] + user[i + 1..];
    } else {
      var i :| 0 <= i < |device| && device[i] == NUL;
      user', device' := user + [NUL] + device[..i], device[i + 1..];
      assert device == device[..i] + [NUL] + device[i + 1..];
    }
  }

  /** No other user and device make this name out of the same command record. */
  ghost predicate Unmistakable(user: string, device: string, shell: HistoryShell, ts: int, index: int, cmd: string) {
    forall u, d :: ImportName(u, d, shell, ts, index, cmd) == ImportName(user, device, shell, ts, index, cmd) ==>
                     u == user && d == device
  }

  /** For every command record, a user and device are unmistakable exactly when neither holds a NUL. */
  lemma UnmistakableIff(user: string, device: string, shell: HistoryShell, ts: int, index: int, cmd: string)
    ensures Unmistakable(user, device, shell, ts, index, cmd) <==> NUL !in user && NUL !in device
  {
    hide ImportName, Owner;
    if NUL !in user && NUL !in device {
      forall u, d | ImportName(u, d, shell, ts, index, cmd) == ImportName(user, device, shell, ts, index, cmd)
        ensures u == user && d == device
      {
        OwnerInName(u, d, user, device, shell, ts, index, cmd);
        OwnerUnmistakable(user, device, u, d);
      }
    } else {
      var u, d := OwnerMistakable(user, device);
      OwnerInName(u, d, user, device, shell, ts, index, cmd);
    }
  }

  /** An instance: two users who share every name. */
  lemma NameClash(shell: HistoryShell, ts: int, index: int, cmd: string)
    ensures ImportName("a\0b", "c", shell, ts, index, cmd) == ImportName("a", "b\0c", shell, ts, index, cmd)
  {
    assert Owner("a\0b", "c") == Owner("a", "b\0c");
    OwnerInName("a\0b", "c", "a", "b\0c", shell, ts, index, cmd);
  }

  // ---------- Whole names ----------

  /** What follows user and device in a name. */
  function RecordText(shell: HistoryShell, ts: int, index: int, cmd: string): string {
    ShellName(shell) + [NUL] + (PrintInt(ts) + [NUL] + (PrintInt(index) + [NUL] + cmd))
  }

  /** A name without its constant head. */
  function OwnedText(user: string, device: string, record: string): string {
    user + [NUL] + (device + [NUL] + record)
  }

  lemma NameIsOwnedText(
    user: string, device: string, record: string, user': string, device': string, record': string)
    ensures "rustory:import" + [NUL] + OwnedText(user, device, record)
         == "rustory:import" + [NUL] + OwnedText(user', device', record')
       <==> OwnedText(user, device, record) == OwnedText(user', device', record')
  {
    hide OwnedText;
    var head := "rustory:import";
    if head + [NUL] + OwnedText(user, device, record) == head + [NUL] + OwnedText(user', device', record') {
      Peel(head, OwnedText(user, device, record), head, OwnedText(user', device', record'));
    }
  }

  /** The only user and device that can make this name, out of whatever command record. */
  ghost predicate Sole(user: string, device: string, shell: HistoryShell, ts: I64, index: U64, cmd: string) {
    forall u, d, sh, t: I64, i: U64, c ::
      ImportName(u, d, sh, t, i, c) == ImportName(user, device, shell, ts, index, cmd) ==> u == user && d == device
  }

  /** From `m` on, the start or just behind a NUL, the command reads like a whole command record. */
  ghost predicate RecordAt(cmd: string, m: nat) {
    && m <= |cmd|
    && (m == 0 || cmd[m - 1] == NUL)
    && exists sh, t: I64, i: U64, x :: cmd[m..] == RecordText(sh, t, i, x)
  }

  ghost predicate Masks(cmd: string) {
    exists m: nat :: RecordAt(cmd, m)
  }

  /** Where a text that begins with a clean piece can be cut at a NUL: behind the piece, or further on. */
  lemma CutAt(piece: string, rest: string, before: string, after: string)
    requires NUL !in piece && piece + [NUL] + rest == before + [NUL] + after
    ensures |piece| <= |before|
    ensures |before| == |piece| ==> before == piece && after == rest
    ensures |before| > |piece| ==> rest == before[|piece| + 1..] + [NUL] + after
  {
    var s := piece + [NUL] + rest;
    assert s[|before|] == (before + [NUL] + after)[|before|] == NUL;
    assert forall j :: 0 <= j < |piece| ==> s[j] == piece[j];
    if |before| == |piece| {
      assert before == (before + [NUL] + after)[..|before|] && piece == s[..|piece|];
      assert after == (before + [NUL] + after)[|before| + 1..] && rest == s[|piece| + 1..];
    } else {
      assert rest == s[|piece| + 1..];
      assert (before + [NUL] + after)[|piece| + 1..] == before[|piece| + 1..] + [NUL] + after;
    }
  }

  /** A printed number and a NUL never begin a record. */
  lemma NumberIsNoRecord(n: int, rest: string, shell: HistoryShell, ts: int, index: int, cmd: string)
    ensures PrintInt(n) + [NUL] + rest != RecordText(shell, ts, index, cmd)
  {
    hide PrintInt;
    PrintedCharacters(n);
    assert (PrintInt(n) + [NUL] + rest)[0] == PrintInt(n)[0];
    assert RecordText(shell, ts, index, cmd)[0] == ShellName(shell)[0];
  }

  /** A record found behind a NUL inside another record lies in that one's command. */
  lemma RecordInside(shell: HistoryShell, ts: int, index: int, cmd: string, before: string,
                     sh: HistoryShell, t: I64, i: U64, c: string)
    requires RecordText(shell, ts, index, cmd) == before + [NUL] + RecordText(sh, t, i, c)
    ensures Masks(cmd)
  {
    hide PrintInt, RecordText;
    var inner := RecordText(sh, t, i, c);
    var indexText := PrintInt(index) + [NUL] + cmd;
    var tsText := PrintInt(ts) + [NUL] + indexText;
    assert RecordText(shell, ts, index, cmd) == ShellName(shell) + [NUL] + tsText by {
      RecordParts(shell, ts, index, cmd);
    }
    PrintedCharacters(ts);
    PrintedCharacters(index);
    CutAt(ShellName(shell), tsText, before, inner);
    NumberIsNoRecord(ts, indexText, sh, t, i, c);
    var b1 := before[|ShellName(shell)| + 1..];
    CutAt(PrintInt(ts), indexText, b1, inner);
    NumberIsNoRecord(index, cmd, sh, t, i, c);
    var b2 := b1[|PrintInt(ts)| + 1..];
    CutAt(PrintInt(index), cmd, b2, inner);
    if |b2| == |PrintInt(index)| {
      assert cmd[0..] == inner;
      assert RecordAt(cmd, 0);
    } else {
      var b3 := b2[|PrintInt(index)| + 1..];
      assert cmd[|b3| + 1..] == inner;
      assert RecordAt(cmd, |b3| + 1);
    }
  }

  lemma RecordParts(shell: HistoryShell, ts: int, index: int, cmd: string)
    ensures RecordText(shell, ts, index, cmd)
         == ShellName(shell) + [NUL] + (PrintInt(ts) + [NUL] + (PrintInt(index) + [NUL] + cmd))
  {
  }

  /** A clean user and device can only be mistaken through a record inside the command. */
  lemma MistakenThroughCommand(user: string, device: string, shell: HistoryShell, ts: int, index: int, cmd: string,
                               u: string, d: string, sh: HistoryShell, t: I64, i: U64, c: string)
    requires NUL !in user && NUL !in device
    requires OwnedText(u, d, RecordText(sh, t, i, c)) == OwnedText(user, device, RecordText(shell, ts, index, cmd))
    ensures (u == user && d == device) || Masks(cmd)
  {
    hide RecordText, Masks;
    var outer, inner := RecordText(shell, ts, index, cmd), RecordText(sh, t, i, c);
    var before := Owner(u, d);
    assert OwnedText(u, d, inner) == before + [NUL] + inner;
    CutAt(user, device + [NUL] + outer, before, inner);
    if |before| > |user| {
      var b1 := before[|user| + 1..];
      CutAt(device, outer, b1, inner);
      if |b1| == |device| {
        assert before == Owner(user, device) by {
          assert OwnedText(user, device, outer)[..|before|] == Owner(user, device);
        }
        OwnerUnmistakable(user, device, u, d);
      } else {
        RecordInside(shell, ts, index, cmd, b1[|device| + 1..], sh, t, i, c);
      }
    } else {
      CutAt(u, d, user, device);
    }
  }

  /** Everything in a record before the command. */
  function Front(shell: HistoryShell, ts: int, index: int): string {
    ShellName(shell) + [NUL] + PrintInt(ts) + [NUL] + PrintInt(index)
  }

  lemma FrontOfRecord(shell: HistoryShell, ts: int, index: int, cmd: string)
    ensures RecordText(shell, ts, index, cmd) == Front(shell, ts, index) + ([NUL] + cmd)
  {
    hide PrintInt;
  }

  /** The command cut at `m`, with the NUL before it. */
  function Skipped(cmd: string, m: nat): string
    requires m <= |cmd|
  {
    if m == 0 then [] else [NUL] + cmd[..m - 1]
  }

  lemma CommandCut(cmd: string, m: nat)
    requires m <= |cmd| && (m == 0 || cmd[m - 1] == NUL)
    ensures [NUL] + cmd == Skipped(cmd, m) + ([NUL] + cmd[m..])
  {
    assert cmd == cmd[..m] + cmd[m..];
    assert m > 0 ==> cmd[..m] == cmd[..m - 1] + [NUL];
  }

  lemma JoinDevice(device: string, front: string, more: string, rest: string)
    ensures device + [NUL] + (front + (more + rest)) == device + [NUL] + front + more + rest
  {
  }

  /** A record inside the command can be read as the record of the name, and all before it as the device. */
  lemma MaskedName(user: string, device: string, shell: HistoryShell, ts: int, index: int, cmd: string, m: nat,
                   sh: HistoryShell, t: I64, i: U64, x: string) returns (d: string)
    requires m <= |cmd| && (m == 0 || cmd[m - 1] == NUL) && cmd[m..] == RecordText(sh, t, i, x)
    ensures d != device
    ensures OwnedText(user, d, RecordText(sh, t, i, x)) == OwnedText(user, device, RecordText(shell, ts, index, cmd))
  {
    hide RecordText, Front, Skipped;
    var inner := RecordText(sh, t, i, x);
    var front, more := Front(shell, ts, index), Skipped(cmd, m);
    d := device + [NUL] + front + more;
    assert |d| > |device|;
    FrontOfRecord(shell, ts, index, cmd);
    CommandCut(cmd, m);
    JoinDevice(device, front, more, [NUL] + inner);
    JoinText(d, inner);
  }

  lemma JoinText(d: string, inner: string)
    ensures d + [NUL] + inner == d + ([NUL] + inner)
  {
  }

  /**
   When a name tells its user and device for certain: exactly when neither of them holds a NUL and
   the command does not, at its start or behind a NUL of its own, read like a command record.
   */
  lemma SoleIff(user: string, device: string, shell: HistoryShell, ts: I64, index: U64, cmd: string)
    ensures Sole(user, device, shell, ts, index, cmd) <==> NUL !in user && NUL !in device && !Masks(cmd)
  {
    hide RecordText, OwnedText, PrintInt;
    if NUL !in user && NUL !in device && !Masks(cmd) {
      forall u, d, sh, t: I64, i: U64, c
        | ImportName(u, d, sh, t, i, c) == ImportName(user, device, shell, ts, index, cmd)
        ensures u == user && d == device
      {
        NameParts(u, d, sh, t, i, c);
        NameParts(user, device, shell, ts, index, cmd);
        NameIsOwnedText(u, d, RecordText(sh, t, i, c), user, device, RecordText(shell, ts, index, cmd));
        MistakenThroughCommand(user, device, shell, ts, index, cmd, u, d, sh, t, i, c);
      }
    } else if Masks(cmd) {
      var m: nat :| RecordAt(cmd, m);
      var sh, t: I64, i: U64, x :| cmd[m..] == RecordText(sh, t, i, x);
      var d := MaskedName(user, device, shell, ts, index, cmd, m, sh, t, i, x);
      NameParts(user, d, sh, t, i, x);
      NameParts(user, device, shell, ts, index, cmd);
      assert ImportName(user, d, sh, t, i, x) == ImportName(user, device, shell, ts, index, cmd);
    } else {
      UnmistakableIff(user, device, shell, ts, index, cmd);
      var u, d :| ImportName(u, d, shell, ts, index, cmd) == ImportName(user, device, shell, ts, index, cmd)
               && !(u == user && d == device);
    }
  }

  lemma NameParts(user: string, device: string, shell: HistoryShell, ts: int, index: int, cmd: string)
    ensures ImportName(user, device, shell, ts, index, cmd)
         == "rustory:import" + [NUL] + OwnedText(user, device, RecordText(shell, ts, index, cmd))
  {
    hide PrintInt;
  }

  /** A command without NUL, as shells write them, masks nothing. */
  lemma MasksHoldNul(cmd: string)
    requires Masks(cmd)
    ensures NUL in cmd
  {
    hide PrintInt;
    var m: nat :| RecordAt(cmd, m);
    var sh, t: I64, i: U64, x :| cmd[m..] == RecordText(sh, t, i, x);
    assert NUL == cmd[m..][|ShellName(sh)|] == cmd[m + |ShellName(sh)|];
  }

  /** An instance: a clean user and device, and a command that lets them be mistaken. */
  lemma MaskedClash()
    ensures ImportName("a", "b", Bash, 1, 2, "bash\0" + PrintInt(3) + [NUL] + PrintInt(4) + [NUL] + "y")
         == ImportName("a", "b\0bash\0" + PrintInt(1) + [NUL] + PrintInt(2), Bash, 3, 4, "y")
  {
    hide PrintInt;
  }

  // ---------- One record ----------

  /**
   What an import is given. `ignore` is the configured pattern, constantly false when there is
   none; `hash` is UUIDv5 under the URL namespace.
   */
  datatype ImportRequest = ImportRequest(
    shell: HistoryShell, content: string, limit: Option<U64>, user: string, device: string, hostname: string,
    ignore: string -> bool, hash: string -> EntryId, version: string)

  /** The dates a time stamp can stand for: years -9999 to 9999. */
  const MIN_DATE := -377_705_116_800
  const MAX_DATE := 253_402_300_799

  datatype Verdict = Skip | BadTimestamp(ts: int) | Take(entry: Entry)

  function FirstWord(s: string): string {
    if s == [] || IsSpace(s[0]) then [] else [s[0]] + FirstWord(s[1..])
  }

  predicate Skips(req: ImportRequest, cmd: string) {
    cmd == [] || FirstWord(cmd) == "rr" || req.ignore(cmd)
  }

  /** A missing time stamp is made up so that file order is kept and the last record is stamped `now`. */
  function FilledTs(total: nat, index: nat, original: Option<I64>, now: int): int {
    match original
    case Some(ts) => ts
    case None => now - Max(total - 1 - index, 0)
  }

  function IdTs(r: HistoryRecord): I64 {
    match r.ts
    case Some(ts) => ts
    case None => 0
  }

  function ImportId(req: ImportRequest, r: HistoryRecord): EntryId {
    req.hash(ImportName(req.user, req.device, req.shell, IdTs(r), r.sourceIndex, Trim(r.cmd)))
  }

  function ImportedEntry(req: ImportRequest, ts: int, r: HistoryRecord): Entry {
    Entry(ImportId(req, r), req.device, req.user, ts, Trim(r.cmd), "unknown", 0, r.durationMs,
          ShellName(req.shell), req.hostname, req.version)
  }

  function Judge(req: ImportRequest, now: int, total: nat, index: nat, r: HistoryRecord): Verdict {
    if Skips(req, Trim(r.cmd)) then Skip else
      var ts := FilledTs(total, index, r.ts, now);
      if MIN_DATE <= ts <= MAX_DATE then Take(ImportedEntry(req, ts, r)) else BadTimestamp(ts)
  }

  // ---------- A whole import ----------

  /** The last `limit` records. */
  function Kept(rs: seq<HistoryRecord>, limit: Option<U64>): seq<HistoryRecord> {
    if limit.Some? && |rs| > limit.value then rs[|rs| - limit.value..] else rs
  }

  function Verdicts(req: ImportRequest, now: int, rs: seq<HistoryRecord>): (vs: seq<Verdict>)
    ensures |vs| == |rs|
    ensures forall i :: 0 <= i < |rs| ==> vs[i] == Judge(req, now, |rs|, i, rs[i])
  {
    seq(|rs|, i requires 0 <= i < |rs| => Judge(req, now, |rs|, i, rs[i]))
  }

  function Judged(req: ImportRequest, now: int): seq<Verdict> {
    Verdicts(req, now, Kept(Records(req.shell, req.content), req.limit))
  }

  predicate AllDated(vs: seq<Verdict>) {
    forall i :: 0 <= i < |vs| ==> !vs[i].BadTimestamp?
  }

  function Taken(vs: seq<Verdict>): seq<Entry> {
    if vs == [] then [] else
      var n := |vs| - 1;
      Taken(vs[..n]) + (if vs[n].Take? then [vs[n].entry] else [])
  }

  datatype ImportStats = ImportStats(received: nat, inserted: nat, ignored: nat, skipped: nat)

  datatype ImportError = InvalidTimestamp(ts: int) | Database(error: DbError)

  const BATCH := 2000

  /** The entries of the batches that are full. */
  function FullBatches(es: seq<Entry>): seq<Entry> {
    es[..|es| - |es| % 2000]
  }

  /** The import stopped at the first record whose time stamp is no date; only full batches before it are stored. */
  predicate StoppedAt(before: Store, after: Store, vs: seq<Verdict>, ts: int) {
    exists i :: 0 <= i < |vs| && vs[i] == BadTimestamp(ts) && AllDated(vs[..i])
                && after == Ingest(before, FullBatches(Taken(vs[..i])))
  }

  /** The database gave up on some batch; every batch before it is stored. */
  predicate StoppedAfter(before: Store, after: Store, es: seq<Entry>) {
    exists k :: 0 <= k <= |es| && k % 2000 == 0 && after == Ingest(before, es[..k])
  }

  /** Totals of a finished import: every record is counted once as skipped, inserted or ignored. */
  predicate Totals(known: set<EntryId>, vs: seq<Verdict>, stats: ImportStats) {
    && stats.received == |vs|
    && stats.inserted == |Accepted(known, Taken(vs))|
    && stats.skipped == |vs| - |Taken(vs)|
    && stats.received == stats.skipped + stats.inserted + stats.ignored
  }

  lemma TakenStep(vs: seq<Verdict>, i: nat)
    requires i < |vs|
    ensures Taken(vs[..i + 1]) == Taken(vs[..i]) + (if vs[i].Take? then [vs[i].entry] else [])
  {
    assert vs[..i + 1][..i] == vs[..i];
  }

  lemma {:induction false} TakenAppend(vs: seq<Verdict>, ws: seq<Verdict>)
    ensures Taken(vs + ws) == Taken(vs) + Taken(ws)
    decreases |ws|
  {
    if ws == [] {
      assert vs + ws == vs;
    } else {
      var n := |ws| - 1;
      TakenAppend(vs, ws[..n]);
      assert (vs + ws)[..|vs + ws| - 1] == vs + ws[..n];
    }
  }

  lemma {:induction false} TakenCount(vs: seq<Verdict>)
    ensures |Taken(vs)| <= |vs|
  {
    if vs != [] {
      TakenCount(vs[..|vs| - 1]);
    }
  }

  /** What has been read: stored in full batches up to the buffer, which holds the rest. */
  predicate Buffered(before: Store, now_: Store, taken: seq<Entry>, buf: seq<Entry>) {
    && |buf| <= |taken|
    && (|taken| - |buf|) % BATCH == 0
    && buf == taken[|taken| - |buf|..]
    && now_ == Ingest(before, taken[..|taken| - |buf|])
  }

  lemma Buffering(before: Store, now_: Store, taken: seq<Entry>, buf: seq<Entry>, e: Entry)
    requires Buffered(before, now_, taken, buf)
    ensures Buffered(before, now_, taken + [e], buf + [e])
  {
    assert (taken + [e])[..|taken| - |buf|] == taken[..|taken| - |buf|];
  }

  /** Storing the buffered entries brings the store up to date with everything taken. */
  lemma Flushing(before: Store, now_: Store, taken: seq<Entry>, buf: seq<Entry>)
    requires Buffered(before, now_, taken, buf)
    ensures Ingest(now_, buf) == Ingest(before, taken)
  {
    hide Ingest;
    var stored := taken[..|taken| - |buf|];
    assert stored + buf == taken;
    IngestAppend(before, stored, buf);
  }

  lemma AcceptedIsNewRows(st: Store, es: seq<Entry>)
    requires WellFormed(st)
    ensures |Ingest(st, es).rows| == |st.rows| + |Accepted(Ids(st.rows), es)|
  {
    hide Ingest, Accepted, WellFormed, Ids;
    IngestExact(st, es);
  }

  /** What holds between two records: how much is stored, what waits in the buffer, and the totals. */
  predicate Reading(before: Store, now_: Store, vs: seq<Verdict>, i: nat, buf: seq<Entry>, stats: ImportStats)
    requires i <= |vs|
  {
    && AllDated(vs[..i])
    && Buffered(before, now_, Taken(vs[..i]), buf)
    && stats.received == i
    && stats.skipped == i - |Taken(vs[..i])|
    && stats.inserted == |now_.rows| - |before.rows|
    && stats.inserted + stats.ignored == |Taken(vs[..i])| - |buf|
  }

  lemma ReadingStarts(before: Store, vs: seq<Verdict>)
    ensures Reading(before, before, vs, 0, [], ImportStats(0, 0, 0, 0))
  {
  }

  lemma SkipStep(before: Store, now_: Store, vs: seq<Verdict>, i: nat, buf: seq<Entry>, stats: ImportStats)
    requires i < |vs| && vs[i].Skip?
    requires Reading(before, now_, vs, i, buf, stats)
    ensures Reading(before, now_, vs, i + 1, buf,
                    stats.(received := stats.received + 1, skipped := stats.skipped + 1))
  {
    hide Buffered;
    TakenStep(vs, i);
    assert Taken(vs[..i + 1]) == Taken(vs[..i]);
  }

  lemma TakeStep(before: Store, now_: Store, vs: seq<Verdict>, i: nat, buf: seq<Entry>, stats: ImportStats)
    requires i < |vs| && vs[i].Take?
    requires Reading(before, now_, vs, i, buf, stats)
    ensures Reading(before, now_, vs, i + 1, buf + [vs[i].entry], stats.(received := stats.received + 1))
  {
    hide Buffered;
    TakenStep(vs, i);
    Buffering(before, now_, Taken(vs[..i]), buf, vs[i].entry);
  }

  function Counted(stats: ImportStats, s: InsertStats): ImportStats {
    stats.(inserted := stats.inserted + s.inserted, ignored := stats.ignored + s.ignored)
  }

  lemma FlushStep(
    before: Store, now_: Store, after: Store, vs: seq<Verdict>, i: nat, buf: seq<Entry>, stats: ImportStats,
    s: InsertStats)
    requires i <= |vs| && Reading(before, now_, vs, i, buf, stats)
    requires after == Ingest(now_, buf) && s.inserted == |after.rows| - |now_.rows| && s.inserted + s.ignored == |buf|
    ensures |buf| == BATCH ==> Reading(before, after, vs, i, [], Counted(stats, s))
    ensures i == |vs| && WellFormed(before) ==> Finished(before, after, vs, Counted(stats, s))
  {
    hide Taken, Ingest, Accepted, WellFormed, Ids;
    var taken := Taken(vs[..i]);
    Flushing(before, now_, taken, buf);
    assert taken[..|taken|] == taken;
    if i == |vs| && WellFormed(before) {
      assert vs[..i] == vs;
      AcceptedIsNewRows(before, Taken(vs));
    }
  }

  /** A finished import: all records had dates, all entries are stored, and the totals add up. */
  predicate Finished(before: Store, after: Store, vs: seq<Verdict>, stats: ImportStats) {
    && AllDated(vs)
    && after == Ingest(before, Taken(vs))
    && Totals(Ids(before.rows), vs, stats)
  }

  lemma TakenPrefix(vs: seq<Verdict>, i: nat)
    requires i <= |vs|
    ensures Taken(vs[..i]) <= Taken(vs)
  {
    hide Taken;
    TakenAppend(vs[..i], vs[i..]);
    assert vs[..i] + vs[i..] == vs;
  }

  lemma StopsAtBatch(before: Store, now_: Store, vs: seq<Verdict>, i: nat, buf: seq<Entry>, stats: ImportStats)
    requires i <= |vs| && Reading(before, now_, vs, i, buf, stats)
    ensures StoppedAfter(before, now_, Taken(vs))
  {
    hide Taken, Ingest;
    TakenPrefix(vs, i);
    var k := |Taken(vs[..i])| - |buf|;
    assert Taken(vs)[..k] == Taken(vs[..i])[..k];
  }

  lemma StopsAtRecord(before: Store, now_: Store, vs: seq<Verdict>, i: nat, buf: seq<Entry>, stats: ImportStats)
    requires i < |vs| && vs[i].BadTimestamp? && |buf| < BATCH
    requires Reading(before, now_, vs, i, buf, stats)
    ensures StoppedAt(before, now_, vs, vs[i].ts)
  {
    hide Taken, Ingest;
    RemainderOf(|Taken(vs[..i])|, |buf|);
    assert vs[i] == BadTimestamp(vs[i].ts);
  }

  lemma RemainderOf(n: nat, b: nat)
    requires b < BATCH && b <= n && (n - b) % BATCH == 0
    ensures n % BATCH == b
  {
  }

  lemma BatchFits(before: Store, now_: Store, vs: seq<Verdict>, i: nat, buf: seq<Entry>, stats: ImportStats)
    requires i <= |vs| && Reading(before, now_, vs, i, buf, stats)
    requires Fits(before, Taken(vs))
    ensures Fits(now_, buf)
  {
    hide Taken, Ingest;
    var taken := Taken(vs[..i]);
    Flushing(before, now_, taken, buf);
    TakenPrefix(vs, i);
    assert Taken(vs)[..|taken|] == taken;
    IngestCounterGrows(before, Taken(vs), |taken|);
  }

  lemma NothingLeft(before: Store, now_: Store, vs: seq<Verdict>, stats: ImportStats)
    requires WellFormed(before) && Reading(before, now_, vs, |vs|, [], stats)
    ensures Finished(before, now_, vs, stats)
  {
    FlushStep(before, now_, now_, vs, |vs|, [], stats, InsertStats(0, 0));
  }

  lemma NotAllDated(vs: seq<Verdict>, i: nat)
    requires i < |vs| && vs[i].BadTimestamp?
    ensures !AllDated(vs)
  {
  }

  method ImportIntoStore(store: LocalStore, req: ImportRequest, now: int) returns (r: Result<ImportStats, ImportError>)
    requires Valid(store.View())
    modifies store`rows, store`counter
    ensures Valid(store.View())
    ensures r.Ok? ==> Finished(old(store.View()), store.View(), Judged(req, now), r.value)
    ensures r.Err? && r.error.InvalidTimestamp? ==>
              StoppedAt(old(store.View()), store.View(), Judged(req, now), r.error.ts)
    ensures r.Err? && r.error.Database? ==> StoppedAfter(old(store.View()), store.View(), Taken(Judged(req, now)))
    ensures store.reliable && AllDated(Judged(req, now)) && Fits(old(store.View()), Taken(Judged(req, now))) ==> r.Ok?
  {
    hide Taken, Ingest, Accepted, Trim, FirstWord, Reading, Finished, Totals, StoppedAt, StoppedAfter, AllDated, Skips,
      Records, Fits;
    ghost var before := store.View();
    ghost var vs := Judged(req, now);
    var records := ParseHistory(req.shell, req.content);
    if req.limit.Some? && |records| > req.limit.value {
      records := records[|records| - req.limit.value..];
    }
    assert vs == Verdicts(req, now, records);
    var stats := ImportStats(0, 0, 0, 0);
    var buf: seq<Entry> := [];
    ReadingStarts(before, vs);
    var i := 0;
    while i < |records|
      invariant 0 <= i <= |records| && |buf| < BATCH
      invariant Valid(store.View())
      invariant Reading(before, store.View(), vs, i, buf, stats)
    {
      ghost var stats0, buf0 := stats, buf;
      var rec := records[i];
      assert vs[i] == Judge(req, now, |records|, i, rec);
      stats := stats.(received := stats.received + 1);
      var cmd := Trim(rec.cmd);
      if Skips(req, cmd) {
        SkipStep(before, store.View(), vs, i, buf0, stats0);
        stats := stats.(skipped := stats.skipped + 1);
        i := i + 1;
        continue;
      }
      var ts := FilledTs(|records|, i, rec.ts, now);
      if !(MIN_DATE <= ts <= MAX_DATE) {
        StopsAtRecord(before, store.View(), vs, i, buf0, stats0);
        NotAllDated(vs, i);
        return Err(InvalidTimestamp(ts));
      }
      TakeStep(before, store.View(), vs, i, buf0, stats0);
      buf := buf + [ImportedEntry(req, ts, rec)];
      i := i + 1;
      if |buf| >= BATCH {
        ghost var st := store.View();
        if Fits(before, Taken(vs)) {
          BatchFits(before, st, vs, i, buf, stats);
        }
        var s := store.InsertEntriesWithStats(buf);
        if s.Err? {
          StopsAtBatch(before, st, vs, i, buf, stats);
          return Err(Database(s.error));
        }
        FlushStep(before, st, store.View(), vs, i, buf, stats, s.value);
        stats := Counted(stats, s.value);
        buf := [];
      }
    }
    assert vs[..i] == vs;
    if buf == [] {
      NothingLeft(before, store.View(), vs, stats);
    } else {
      ghost var st := store.View();
      if Fits(before, Taken(vs)) {
        BatchFits(before, st, vs, i, buf, stats);
      }
      var s := store.InsertEntriesWithStats(buf);
      if s.Err? {
        StopsAtBatch(before, st, vs, i, buf, stats);
        return Err(Database(s.error));
      }
      FlushStep(before, st, store.View(), vs, i, buf, stats, s.value);
      stats := Counted(stats, s.value);
    }
    r := Ok(stats);
  }
  // ---------- What becomes of each record ----------

  /** The name, part by part. */
  lemma NameFormat(user: string, device: string, shell: HistoryShell, ts: int, index: int, cmd: string)
    ensures ImportName(user, device, shell, ts, index, cmd)
         == "rustory:import\0" + user + "\0" + device + "\0" + (if shell.Bash? then "bash" else "zsh") + "\0"
          + PrintInt(ts) + "\0" + PrintInt(index) + "\0" + cmd
  {
    hide PrintInt;
  }

  /** The first word is what stands before the first white space. */
  lemma {:induction false} FirstWordExact(s: string, w: string)
    requires forall i :: 0 <= i < |w| ==> !IsSpace(w[i])
    ensures FirstWord(s) == w <==> |w| <= |s| && s[..|w|] == w && (|w| == |s| || IsSpace(s[|w|]))
  {
    hide IsSpace;
    if s != [] && !IsSpace(s[0]) && w != [] {
      FirstWordExact(s[1..], w[1..]);
      assert w == [w[0]] + w[1..];
      if |w| <= |s| {
        assert s[..|w|] == [s[0]] + s[1..][..|w| - 1];
      }
    } else if s != [] && w != [] {
      assert !IsSpace(w[0]);
    }
  }

  /** The records an import passes over: blank ones, calls of rr itself, and those the pattern matches. */
  lemma SkippedExact(req: ImportRequest, now: int, total: nat, index: nat, r: HistoryRecord)
    ensures var cmd := Trim(r.cmd);
            Judge(req, now, total, index, r).Skip? <==>
              || cmd == ""
              || cmd == "rr"
              || (|cmd| > 2 && cmd[..2] == "rr" && IsSpace(cmd[2]))
              || req.ignore(cmd)
  {
    hide Trim, IsSpace, FilledTs, ImportedEntry, FirstWord;
    LettersAreNoSpace();
    FirstWordExact(Trim(r.cmd), "rr");
  }

  lemma LettersAreNoSpace()
    ensures !IsSpace('r')
  {
  }

  /** The records judged are the last `limit` of the file, or all of it. */
  lemma JudgedRecords(req: ImportRequest, now: int, i: nat)
    requires i < |Judged(req, now)|
    ensures var all, vs := Records(req.shell, req.content), Judged(req, now);
            && |vs| == (if req.limit.Some? && req.limit.value < |all| then req.limit.value else |all|)
            && vs[i] == Judge(req, now, |vs|, i, all[|all| - |vs| + i])
  {
    hide Records, Judge;
  }

  /** The time stamp a record is imported with: its own, or one second earlier for each record after it. */
  lemma StampOf(total: nat, index: nat, original: Option<I64>, now: int)
    requires index < total
    ensures original.Some? ==> FilledTs(total, index, original, now) == original.value
    ensures original.None? ==> FilledTs(total, index, original, now) == now - (total - 1 - index)
  {
  }

  /** What a taken record is stored as, field by field. */
  lemma TakenEntry(req: ImportRequest, now: int, i: nat)
    requires i < |Judged(req, now)| && Judged(req, now)[i].Take?
    ensures var all, vs := Records(req.shell, req.content), Judged(req, now);
            && |vs| <= |all|
            && var r, e := all[|all| - |vs| + i], vs[i].entry;
            var shell := if req.shell.Bash? then "bash" else "zsh";
            && e.id == req.hash("rustory:import\0" + req.user + "\0" + req.device + "\0" + shell + "\0"
                                + PrintInt(if r.ts.Some? then r.ts.value else 0) + "\0"
                                + PrintInt(r.sourceIndex) + "\0" + Trim(r.cmd))
            && e.ts == (if r.ts.Some? then r.ts.value else now - (|vs| - 1 - i))
            && -377_705_116_800 <= e.ts <= 253_402_300_799
            && e.device == req.device && e.user == req.user && e.cmd == Trim(r.cmd) && e.cwd == "unknown"
            && e.exitCode == 0 && e.durationMs == r.durationMs && e.shell == shell
            && e.hostname == req.hostname && e.version == req.version
  {
    hide Records, Trim, PrintInt, Skips, FilledTs, ImportName, Judged;
    var all, vs := Records(req.shell, req.content), Judged(req, now);
    JudgedRecords(req, now, i);
    var r := all[|all| - |vs| + i];
    StampOf(|vs|, i, r.ts, now);
    NameFormat(req.user, req.device, req.shell, IdTs(r), r.sourceIndex, Trim(r.cmd));
  }

  /** The import stops at a record that is not skipped and whose time stamp is no date. */
  lemma BadDateExact(req: ImportRequest, now: int, i: nat)
    requires i < |Judged(req, now)|
    ensures var all, vs := Records(req.shell, req.content), Judged(req, now);
            && |vs| <= |all|
            && var r := all[|all| - |vs| + i];
            var ts := if r.ts.Some? then r.ts.value else now - (|vs| - 1 - i);
            vs[i].BadTimestamp? <==> !Skips(req, Trim(r.cmd)) && !(-377_705_116_800 <= ts <= 253_402_300_799)
  {
    hide Records, Trim, Skips, FilledTs, ImportedEntry, Judged;
    var all, vs := Records(req.shell, req.content), Judged(req, now);
    JudgedRecords(req, now, i);
    StampOf(|vs|, i, all[|all| - |vs| + i].ts, now);
  }

  /** The record of the file that verdict `i` is about. */
  function RecordOf(req: ImportRequest, now: int, i: nat): HistoryRecord
    requires i < |Judged(req, now)|
  {
    JudgedRecords(req, now, i);
    var all := Records(req.shell, req.content);
    all[|all| - |Judged(req, now)| + i]
  }

  /** Commands without time stamps keep their order in the file, and the last one is stamped now. */
  lemma UndatedKeepOrder(req: ImportRequest, now: int, i: nat, j: nat)
    requires i < j < |Judged(req, now)|
    requires RecordOf(req, now, i).ts.None? && RecordOf(req, now, j).ts.None?
    requires Judged(req, now)[i].Take? && Judged(req, now)[j].Take?
    ensures Judged(req, now)[i].entry.ts < Judged(req, now)[j].entry.ts <= now
    ensures j == |Judged(req, now)| - 1 ==> Judged(req, now)[j].entry.ts == now
  {
    hide Records, Trim, PrintInt, Judged;
    TakenEntry(req, now, i);
    TakenEntry(req, now, j);
  }

  /** The entries stored are the taken ones, in file order. */
  lemma {:induction false} TakenPlaces(vs: seq<Verdict>, i: nat)
    requires i < |vs| && vs[i].Take?
    ensures |Taken(vs[..i])| < |Taken(vs)| && Taken(vs)[|Taken(vs[..i])|] == vs[i].entry
  {
    TakenStep(vs, i);
    TakenPrefix(vs, i + 1);
  }
}
