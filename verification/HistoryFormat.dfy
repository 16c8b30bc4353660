/** The two shell history formats: what the parsers read, and that they invert what the shells write. */
module HistoryFormat {
  import opened Prelude
  import opened Text

  datatype HistoryShell = Bash | Zsh

  /** `sourceIndex` counts the command records of the file from 0. */
  datatype HistoryRecord = HistoryRecord(sourceIndex: nat, ts: Option<I64>, durationMs: I64, cmd: string)

  // ---------- One line ----------

  /** A bash time stamp line, `#<epoch>`. */
  function Stamp(line: string): Option<I64> {
    if line != [] && line[0] == '#' then ParseI64(line[1..]) else None
  }

  function SaturatingSeconds(seconds: I64): I64 {
    Max(I64_MIN, Min(I64_MAX, seconds * 1000))
  }

  /**
   Time stamp, duration and command of one zsh line; a line that is not `: <epoch>:<duration>;command`
   is all command.
   */
  function ZshFields(line: string): (Option<I64>, I64, string) {
    if !(": " <= line) then (None, 0, line) else
      var rest := line[2..];
      var semi := IndexOf(rest, ';');
      if semi == |rest| then (None, 0, line) else
        var meta := rest[..semi];
        var colon := IndexOf(meta, ':');
        if colon == |meta| then (None, 0, line) else
          var dur := ParseI64(meta[colon + 1..]);
          (ParseI64(meta[..colon]), if dur.Some? then SaturatingSeconds(dur.value) else 0, rest[semi + 1..])
  }

  // ---------- Whole files ----------

  /** What a parser carries from line to line. Only bash uses `nextTs`. */
  datatype Scanner = Scanner(out: seq<HistoryRecord>, nextTs: Option<I64>)

  function ReadLine(shell: HistoryShell, sc: Scanner, raw: string): Scanner {
    var line := TrimEnd(raw);
    if line == [] then sc else
      match shell
      case Bash =>
        if Stamp(line).Some? then sc.(nextTs := Stamp(line)) else
          Scanner(sc.out + [HistoryRecord(|sc.out|, sc.nextTs, 0, line)], None)
      case Zsh =>
        var (ts, durationMs, cmd) := ZshFields(line);
        sc.(out := sc.out + [HistoryRecord(|sc.out|, ts, durationMs, cmd)])
  }

  function Scan(shell: HistoryShell, lines: seq<string>): Scanner {
    if lines == [] then Scanner([], None) else ReadLine(shell, Scan(shell, lines[..|lines| - 1]), lines[|lines| - 1])
  }

  function Records(shell: HistoryShell, content: string): seq<HistoryRecord> {
    Scan(shell, Lines(content)).out
  }

  lemma ScanLast(shell: HistoryShell, lines: seq<string>, raw: string)
    ensures Scan(shell, lines + [raw]) == ReadLine(shell, Scan(shell, lines), raw)
  {
    assert (lines + [raw])[..|lines|] == lines;
  }

  method ParseZshHistory(content: string) returns (out: seq<HistoryRecord>)
    ensures out == Records(Zsh, content)
  {
    hide TrimEnd, ZshFields;
    out := [];
    var cmdIndex := 0;
    var lines := Lines(content);
    var i := 0;
    while i < |lines|
      invariant 0 <= i <= |lines|
      invariant Scan(Zsh, lines[..i]) == Scanner(out, None)
      invariant cmdIndex == |out|
    {
      ScanLast(Zsh, lines[..i], lines[i]);
      assert lines[..i] + [lines[i]] == lines[..i + 1];
      var line := TrimEnd(lines[i]);
      i := i + 1;
      if line == [] {
        continue;
      }
      var (ts, durationMs, cmd) := ZshFields(line);
      out := out + [HistoryRecord(cmdIndex, ts, durationMs, cmd)];
      cmdIndex := cmdIndex + 1;
    }
    assert lines[..i] == lines;
  }

  method ParseBashHistory(content: string) returns (out: seq<HistoryRecord>)
    ensures out == Records(Bash, content)
  {
    hide TrimEnd, ParseI64;
    out := [];
    var nextTs: Option<I64> := None;
    var cmdIndex := 0;
    var lines := Lines(content);
    var i := 0;
    while i < |lines|
      invariant 0 <= i <= |lines|
      invariant Scan(Bash, lines[..i]) == Scanner(out, nextTs)
      invariant cmdIndex == |out|
    {
      ScanLast(Bash, lines[..i], lines[i]);
      assert lines[..i] + [lines[i]] == lines[..i + 1];
      var line := TrimEnd(lines[i]);
      i := i + 1;
      if line == [] {
        continue;
      }
      if line[0] == '#' {
        var ts := ParseI64(line[1..]);
        if ts.Some? {
          nextTs := ts;
          continue;
        }
      }
      out := out + [HistoryRecord(cmdIndex, nextTs, 0, line)];
      nextTs := None;
      cmdIndex := cmdIndex + 1;
    }
    assert lines[..i] == lines;
  }

  method ParseHistory(shell: HistoryShell, content: string) returns (out: seq<HistoryRecord>)
    ensures out == Records(shell, content)
  {
    match shell
    case Bash => out := ParseBashHistory(content);
    case Zsh => out := ParseZshHistory(content);
  }

  // ---------- Indices and growth ----------

  /** Records are numbered 0, 1, 2, ... in file order. */
  lemma {:induction false} IndicesCount(shell: HistoryShell, lines: seq<string>)
    ensures forall i :: 0 <= i < |Scan(shell, lines).out| ==> Scan(shell, lines).out[i].sourceIndex == i
  {
    hide TrimEnd, ZshFields, Stamp;
    if lines != [] {
      var n := |lines| - 1;
      IndicesCount(shell, lines[..n]);
      var before, after := Scan(shell, lines[..n]).out, Scan(shell, lines).out;
      assert after == before || (after == before + [after[|before|]] && after[|before|].sourceIndex == |before|);
      assert forall i :: 0 <= i < |before| ==> after[i] == before[i];
    }
  }

  lemma {:induction false} ScanGrows(shell: HistoryShell, a: seq<string>, b: seq<string>)
    ensures Scan(shell, a).out <= Scan(shell, a + b).out
    decreases |b|
  {
    hide TrimEnd, ZshFields, Stamp;
    if b == [] {
      assert a + b == a;
    } else {
      var n := |b| - 1;
      ScanGrows(shell, a, b[..n]);
      assert a + b == a + b[..n] + [b[n]];
      ScanLast(shell, a + b[..n], b[n]);
    }
  }

  /** A history file that only grows by whole lines keeps every record it had, in place. */
  lemma RecordsGrow(shell: HistoryShell, old_: string, more: string)
    requires EndsLine(old_)
    ensures Records(shell, old_) <= Records(shell, old_ + more)
  {
    LinesAppend(old_, more);
    ScanGrows(shell, Lines(old_), Lines(more));
  }

  /** A file whose last line lacks its newline yields the same records as with it. */
  lemma UnterminatedLine(shell: HistoryShell, content: string)
    requires !EndsLine(content)
    ensures Records(shell, content) == Records(shell, content + ['\n'])
  {
    LinesClosed(content);
  }

  /**
   The time stamp of record `i` of `rest` when `rest` follows what left `pending` behind: only the
   first record can take it, and only if it has none of its own.
   */
  function Restamped(pending: Option<I64>, rest: seq<HistoryRecord>, i: nat): Option<I64>
    requires i < |rest|
  {
    if i == 0 && rest[0].ts.None? then pending else rest[i].ts
  }

  /** `full` is what `head` had read and then `rest`, whose records moved down by the number of those in `head`. */
  predicate Shifted(head: Scanner, full: Scanner, rest: Scanner) {
    var k := |head.out|;
    && |full.out| == k + |rest.out|
    && head.out <= full.out
    && full.nextTs == (if rest.out == [] && rest.nextTs.None? then head.nextTs else rest.nextTs)
    && forall i :: 0 <= i < |rest.out| ==>
         full.out[k + i] == rest.out[i].(sourceIndex := k + rest.out[i].sourceIndex,
                                         ts := Restamped(head.nextTs, rest.out, i))
  }

  lemma {:induction false} ZshLeavesNoStamp(lines: seq<string>)
    ensures Scan(Zsh, lines).nextTs.None?
  {
    hide TrimEnd, ZshFields;
    if lines != [] {
      ZshLeavesNoStamp(lines[..|lines| - 1]);
    }
  }

  /** Reading one more line keeps the two scanners in step. */
  lemma ShiftedStep(shell: HistoryShell, head: Scanner, full: Scanner, rest: Scanner, raw: string)
    requires Shifted(head, full, rest) && (shell.Zsh? ==> head.nextTs.None? && rest.nextTs.None?)
    ensures Shifted(head, ReadLine(shell, full, raw), ReadLine(shell, rest, raw))
  {
    hide TrimEnd, ZshFields, Stamp;
    var full', rest' := ReadLine(shell, full, raw), ReadLine(shell, rest, raw);
    assert forall i :: 0 <= i < |rest.out| ==> rest'.out[i] == rest.out[i];
    assert forall i :: 0 <= i < |full.out| ==> full'.out[i] == full.out[i];
  }

  /** What lines read after `head` become, compared with reading them alone. */
  lemma {:induction false} ScanShifts(shell: HistoryShell, head: seq<string>, lines: seq<string>)
    ensures Shifted(Scan(shell, head), Scan(shell, head + lines), Scan(shell, lines))
    decreases |lines|
  {
    hide ReadLine, Shifted;
    if lines == [] {
      assert head + lines == head;
      ShiftedByNothing(Scan(shell, head));
    } else {
      var n := |lines| - 1;
      ScanShifts(shell, head, lines[..n]);
      assert head + lines == head + lines[..n] + [lines[n]];
      ScanLast(shell, head + lines[..n], lines[n]);
      if shell.Zsh? {
        ZshLeavesNoStamp(head);
        ZshLeavesNoStamp(lines[..n]);
      }
      ShiftedStep(shell, Scan(shell, head), Scan(shell, head + lines[..n]), Scan(shell, lines[..n]), lines[n]);
    }
  }

  lemma ShiftedByNothing(head: Scanner)
    ensures Shifted(head, head, Scanner([], None))
  {
  }

  // ---------- Bash time stamps ----------

  /** A line is a time stamp exactly if it is `#` and an integer; any other `#` line is a command. */
  lemma StampExact(line: string)
    ensures Stamp(line).Some? <==> exists rest :: line == "#" + rest && ParseI64(rest).Some?
    ensures forall rest :: line == "#" + rest ==> Stamp(line) == ParseI64(rest)
    ensures TrimEnd(line) == line && line != [] && Stamp(line).None? ==> BashKind(line) == Command(line)
  {
    hide ParseI64, TrimEnd;
    if line != [] && line[0] == '#' {
      assert line == "#" + line[1..];
    }
    forall rest | line == "#" + rest
      ensures Stamp(line) == ParseI64(rest)
    {
      assert line[1..] == rest;
    }
  }

  datatype BashLine = Blank | TimeStamp(ts: I64) | Command(cmd: string)

  function BashKind(raw: string): BashLine {
    var line := TrimEnd(raw);
    if line == [] then Blank
    else if Stamp(line).Some? then TimeStamp(Stamp(line).value)
    else Command(line)
  }

  /** Looking back from line `i` past blank lines: the time stamp found there, if it is one. */
  function StampBefore(lines: seq<string>, i: nat): Option<I64>
    requires i <= |lines|
  {
    if i == 0 then None else
      match BashKind(lines[i - 1])
      case Blank => StampBefore(lines, i - 1)
      case TimeStamp(ts) => Some(ts)
      case Command(_) => None
  }

  function CommandsBefore(lines: seq<string>, i: nat): nat
    requires i <= |lines|
  {
    if i == 0 then 0 else CommandsBefore(lines, i - 1) + (if BashKind(lines[i - 1]).Command? then 1 else 0)
  }

  lemma {:induction false} ScannedSoFar(lines: seq<string>, i: nat)
    requires i <= |lines|
    ensures |Scan(Bash, lines[..i]).out| == CommandsBefore(lines, i)
    ensures Scan(Bash, lines[..i]).nextTs == StampBefore(lines, i)
  {
    hide TrimEnd, Stamp;
    if i > 0 {
      ScannedSoFar(lines, i - 1);
      assert lines[..i] == lines[..i - 1] + [lines[i - 1]];
      ScanLast(Bash, lines[..i - 1], lines[i - 1]);
    }
  }

  lemma ReadCommand(sc: Scanner, raw: string)
    requires BashKind(raw).Command?
    ensures ReadLine(Bash, sc, raw)
         == Scanner(sc.out + [HistoryRecord(|sc.out|, sc.nextTs, 0, TrimEnd(raw))], None)
  {
  }

  /**
   Which record each command line becomes. Its time stamp is the one directly before it, blank
   lines aside: of several in a row the last wins, and none reaches past the next command.
   */
  lemma BashExact(lines: seq<string>, i: nat)
    requires i < |lines| && BashKind(lines[i]).Command?
    ensures var out := Scan(Bash, lines).out;
            && |out| == CommandsBefore(lines, |lines|)
            && CommandsBefore(lines, i) < |out|
            && out[CommandsBefore(lines, i)]
               == HistoryRecord(CommandsBefore(lines, i), StampBefore(lines, i), 0, TrimEnd(lines[i]))
  {
    hide Scan, ReadLine, TrimEnd, Stamp, BashKind, StampBefore, CommandsBefore;
    var sc := Scan(Bash, lines[..i]);
    ScannedSoFar(lines, i);
    ScannedSoFar(lines, |lines|);
    assert lines[..|lines|] == lines;
    ScanLast(Bash, lines[..i], lines[i]);
    ReadCommand(sc, lines[i]);
    assert lines[..i] + [lines[i]] + lines[i + 1..] == lines;
    ScanGrows(Bash, lines[..i] + [lines[i]], lines[i + 1..]);
    var r := HistoryRecord(|sc.out|, sc.nextTs, 0, TrimEnd(lines[i]));
    assert (sc.out + [r])[|sc.out|] == r;
  }

  // ---------- Writing and reading back ----------

  lemma TrimmedEnd(s: string)
    requires s != [] && !IsSpace(s[|s| - 1])
    ensures TrimEnd(s) == s
  {
  }

  lemma {:induction false} TrimEndExact(s: string)
    ensures TrimEnd(s) <= s
    ensures TrimEnd(TrimEnd(s)) == TrimEnd(s)
    decreases |s|
  {
    if s != [] && IsSpace(s[|s| - 1]) {
      TrimEndExact(s[..|s| - 1]);
    }
  }

  function BashText(r: HistoryRecord): string {
    (if r.ts.Some? then ['#'] + PrintInt(r.ts.value) + ['\n'] else []) + r.cmd + ['\n']
  }

  function WriteBash(rs: seq<HistoryRecord>): string {
    if rs == [] then [] else WriteBash(rs[..|rs| - 1]) + BashText(rs[|rs| - 1])
  }

  /** A command bash can write on one line and that does not read as a time stamp. */
  predicate BashCommand(cmd: string) {
    cmd != [] && '\n' !in cmd && TrimEnd(cmd) == cmd && Stamp(cmd).None?
  }

  predicate BashRecords(rs: seq<HistoryRecord>) {
    forall i :: 0 <= i < |rs| ==> rs[i].sourceIndex == i && rs[i].durationMs == 0 && BashCommand(rs[i].cmd)
  }

  lemma StampText(ts: I64)
    ensures var line := ['#'] + PrintInt(ts);
            '\n' !in line && TrimEnd(line) == line && Stamp(line) == Some(ts)
  {
    hide ParseI64, PrintInt, TrimEnd;
    var line := ['#'] + PrintInt(ts);
    PrintedCharacters(ts);
    assert line[1..] == PrintInt(ts);
    ParsePrinted(ts);
    assert forall i :: 0 < i < |line| ==> line[i] == PrintInt(ts)[i - 1];
    TrimmedEnd(line);
  }

  lemma OneLine(line: string)
    requires '\n' !in line
    ensures Lines(line + ['\n']) == [line]
  {
    LinesCons(line, []);
    assert line + ['\n'] + [] == line + ['\n'];
  }

  lemma BashTextLines(r: HistoryRecord)
    requires BashCommand(r.cmd)
    ensures Lines(BashText(r)) == (if r.ts.Some? then [['#'] + PrintInt(r.ts.value)] else []) + [r.cmd]
    ensures EndsLine(BashText(r))
  {
    hide PrintInt, TrimEnd, Stamp, Lines;
    OneLine(r.cmd);
    if r.ts.Some? {
      StampText(r.ts.value);
      LinesCons(['#'] + PrintInt(r.ts.value), r.cmd + ['\n']);
      assert BashText(r) == ['#'] + PrintInt(r.ts.value) + ['\n'] + (r.cmd + ['\n']);
    } else {
      assert BashText(r) == r.cmd + ['\n'];
    }
  }

  lemma WriteBashEndsLine(rs: seq<HistoryRecord>)
    ensures EndsLine(WriteBash(rs))
  {
  }

  lemma ReadBashText(done: seq<HistoryRecord>, lines: seq<string>, r: HistoryRecord)
    requires Scan(Bash, lines) == Scanner(done, None)
    requires BashCommand(r.cmd) && r.sourceIndex == |done| && r.durationMs == 0
    ensures Scan(Bash, lines + Lines(BashText(r))) == Scanner(done + [r], None)
  {
    hide TrimEnd, Stamp, Lines, PrintInt;
    BashTextLines(r);
    if r.ts.Some? {
      var stamp := ['#'] + PrintInt(r.ts.value);
      StampText(r.ts.value);
      assert lines + Lines(BashText(r)) == lines + [stamp] + [r.cmd];
      ScanLast(Bash, lines, stamp);
      ScanLast(Bash, lines + [stamp], r.cmd);
    } else {
      assert lines + Lines(BashText(r)) == lines + [r.cmd];
      ScanLast(Bash, lines, r.cmd);
    }
  }

  lemma NothingWritten()
    ensures Scan(Bash, Lines(WriteBash([]))) == Scanner([], None)
  {
  }

  lemma WriteBashLast(rs: seq<HistoryRecord>)
    requires rs != []
    ensures Lines(WriteBash(rs)) == Lines(WriteBash(rs[..|rs| - 1])) + Lines(BashText(rs[|rs| - 1]))
  {
    hide Lines, BashText;
    WriteBashEndsLine(rs[..|rs| - 1]);
    LinesAppend(WriteBash(rs[..|rs| - 1]), BashText(rs[|rs| - 1]));
  }

  lemma {:induction false} BashReadsBack(rs: seq<HistoryRecord>)
    requires BashRecords(rs)
    ensures Scan(Bash, Lines(WriteBash(rs))) == Scanner(rs, None)
  {
    hide TrimEnd, Stamp, Lines, BashText, BashCommand, ReadLine, Scan, WriteBash;
    if rs == [] {
      NothingWritten();
    } else {
      var n := |rs| - 1;
      BashReadsBack(rs[..n]);
      WriteBashLast(rs);
      ReadBashText(rs[..n], Lines(WriteBash(rs[..n])), rs[n]);
      assert rs == rs[..n] + [rs[n]];
    }
  }

  lemma {:induction false} LinesHoldNoNewline(s: string)
    ensures forall line :: line in Lines(s) ==> '\n' !in line
    decreases |s|
  {
    if s != [] {
      var i := IndexOf(s, '\n');
      if i < |s| {
        LinesHoldNoNewline(s[i + 1..]);
      }
    }
  }

  /** Whatever bash's history file holds, the parser only yields records that bash could have written. */
  lemma {:induction false} ScannedBashRecords(lines: seq<string>)
    requires forall line :: line in lines ==> '\n' !in line
    ensures BashRecords(Scan(Bash, lines).out)
  {
    hide TrimEnd, Stamp, BashCommand;
    if lines != [] {
      var n := |lines| - 1;
      var before := Scan(Bash, lines[..n]).out;
      ScannedBashRecords(lines[..n]);
      TrimEndExact(lines[n]);
      assert lines[n] in lines;
      var line := TrimEnd(lines[n]);
      if line != [] && Stamp(line).None? {
        CleanLine(lines[n], line);
        assert BashRecords(before + [HistoryRecord(|before|, Scan(Bash, lines[..n]).nextTs, 0, line)]);
      }
    }
  }

  lemma CleanLine(raw: string, line: string)
    requires '\n' !in raw && line <= raw && TrimEnd(line) == line && line != [] && Stamp(line).None?
    ensures BashCommand(line)
  {
    assert forall c :: c in line ==> c in raw;
  }

  /** Writing records for bash and parsing them gives the same records exactly when bash could have written them. */
  lemma BashRoundTrip(rs: seq<HistoryRecord>)
    ensures Records(Bash, WriteBash(rs)) == rs <==> BashRecords(rs)
  {
    hide Scan, WriteBash, Lines;
    LinesHoldNoNewline(WriteBash(rs));
    ScannedBashRecords(Lines(WriteBash(rs)));
    if BashRecords(rs) {
      BashReadsBack(rs);
    }
  }

  /** So parsing any bash history, writing it out and parsing it again loses nothing. */
  lemma BashNormalises(content: string)
    ensures Records(Bash, WriteBash(Records(Bash, content))) == Records(Bash, content)
  {
    LinesHoldNoNewline(content);
    ScannedBashRecords(Lines(content));
    BashRoundTrip(Records(Bash, content));
  }

  /** The whole seconds zsh writes for a duration; the largest duration stands for every one past the range. */
  function WrittenSeconds(durationMs: I64): I64 {
    if durationMs == I64_MAX then durationMs / 1000 + 1 else durationMs / 1000
  }

  function ZshLine(r: HistoryRecord): string {
    if r.ts.None? then r.cmd else
      ": " + PrintInt(r.ts.value) + [':'] + PrintInt(WrittenSeconds(r.durationMs)) + [';'] + r.cmd
  }

  function WriteZsh(rs: seq<HistoryRecord>): string {
    if rs == [] then [] else WriteZsh(rs[..|rs| - 1]) + (ZshLine(rs[|rs| - 1]) + ['\n'])
  }

  function ZshLines(rs: seq<HistoryRecord>): (lines: seq<string>)
    ensures |lines| == |rs|
    ensures forall i :: 0 <= i < |rs| ==> lines[i] == ZshLine(rs[i])
  {
    seq(|rs|, i requires 0 <= i < |rs| => ZshLine(rs[i]))
  }

  /** A duration that some number of seconds stands for, saturated or not. */
  predicate Writable(durationMs: I64) {
    SaturatingSeconds(WrittenSeconds(durationMs)) == durationMs
  }

  lemma WritableExact(durationMs: I64)
    ensures Writable(durationMs) <==> exists seconds: I64 :: SaturatingSeconds(seconds) == durationMs
    ensures Writable(durationMs) <==> durationMs % 1000 == 0 || durationMs == I64_MIN || durationMs == I64_MAX
  {
    if Writable(durationMs) {
      assert SaturatingSeconds(WrittenSeconds(durationMs)) == durationMs;
    }
    if seconds: I64 :| SaturatingSeconds(seconds) == durationMs {
      assert seconds * 1000 == durationMs || durationMs == I64_MIN || durationMs == I64_MAX;
    }
  }

  /**
   A record zsh can write on one line: extended format with a duration in seconds and any command,
   even an empty one; or a plain command that does not look like the extended format.
   */
  predicate ZshRecord(r: HistoryRecord) {
    && '\n' !in r.cmd
    && TrimEnd(r.cmd) == r.cmd
    && (r.ts.Some? ==> Writable(r.durationMs))
    && (r.ts.None? ==> r.durationMs == 0 && r.cmd != [] && ZshFields(r.cmd) == (None, 0, r.cmd))
  }

  predicate ZshRecords(rs: seq<HistoryRecord>) {
    forall i :: 0 <= i < |rs| ==> rs[i].sourceIndex == i && ZshRecord(rs[i])
  }

  lemma PrintedHasNo(n: int, c: char)
    requires !IsDigit(c) && c != '-'
    ensures c !in PrintInt(n)
  {
    PrintedCharacters(n);
  }

  /** The extended format is read field by field, whatever colons and semicolons the command holds. */
  lemma ExtendedFields(ts: I64, seconds: I64, cmd: string)
    ensures ZshFields(": " + PrintInt(ts) + [':'] + PrintInt(seconds) + [';'] + cmd)
         == (Some(ts), SaturatingSeconds(seconds), cmd)
  {
    hide PrintInt, ParseI64, IndexOf;
    var stamp, dur := PrintInt(ts), PrintInt(seconds);
    var line := ": " + stamp + [':'] + dur + [';'] + cmd;
    var meta := stamp + [':'] + dur;
    assert line[2..] == meta + [';'] + cmd;
    PrintedHasNo(ts, ';');
    PrintedHasNo(seconds, ';');
    IndexOfAfter(meta, ';', cmd);
    assert line[2..][..|meta|] == meta && line[2..][|meta| + 1..] == cmd;
    PrintedHasNo(ts, ':');
    IndexOfAfter(stamp, ':', dur);
    assert meta[..|stamp|] == stamp && meta[|stamp| + 1..] == dur;
    ParsePrinted(ts);
    ParsePrinted(seconds);
  }

  lemma ZshLineReads(r: HistoryRecord)
    requires ZshRecord(r)
    ensures ZshFields(ZshLine(r)) == (r.ts, r.durationMs, r.cmd)
    ensures ZshLine(r) != []
  {
    hide PrintInt, ParseI64, IndexOf, ZshFields, TrimEnd;
    if r.ts.Some? {
      ExtendedFields(r.ts.value, WrittenSeconds(r.durationMs), r.cmd);
    }
  }

  lemma ZshLineHoldsNoNewline(r: HistoryRecord)
    requires '\n' !in r.cmd
    ensures '\n' !in ZshLine(r)
  {
    hide PrintInt;
    if r.ts.Some? {
      PrintedHasNo(r.ts.value, '\n');
      PrintedHasNo(WrittenSeconds(r.durationMs), '\n');
    }
  }

  lemma TrimmedLast(s: string)
    requires s != [] && TrimEnd(s) == s
    ensures !IsSpace(s[|s| - 1])
  {
    TrimEndExact(s[..|s| - 1]);
  }

  lemma ZshLineTrimmed(r: HistoryRecord)
    requires TrimEnd(r.cmd) == r.cmd
    ensures TrimEnd(ZshLine(r)) == ZshLine(r)
  {
    hide PrintInt, ZshFields;
    var line := ZshLine(r);
    if r.ts.Some? && r.cmd != [] {
      TrimmedLast(r.cmd);
      assert line[|line| - 1] == r.cmd[|r.cmd| - 1];
    }
  }

  /** The written text, line by line. */
  lemma {:induction false} WrittenZshLines(rs: seq<HistoryRecord>)
    requires forall i :: 0 <= i < |rs| ==> '\n' !in rs[i].cmd
    ensures Lines(WriteZsh(rs)) == ZshLines(rs)
    ensures EndsLine(WriteZsh(rs))
  {
    hide ZshLine;
    if rs != [] {
      hide Lines;
      var n := |rs| - 1;
      var line := ZshLine(rs[n]);
      WrittenZshLines(rs[..n]);
      ZshLineHoldsNoNewline(rs[n]);
      LinesAppend(WriteZsh(rs[..n]), line + ['\n']);
      OneLine(line);
      assert ZshLines(rs) == ZshLines(rs[..n]) + [line];
    }
  }

  /** The record a line makes when it makes one. */
  function ZshRead(index: nat, raw: string): HistoryRecord {
    var (ts, durationMs, cmd) := ZshFields(TrimEnd(raw));
    HistoryRecord(index, ts, durationMs, cmd)
  }

  lemma ReadZshLine(sc: Scanner, raw: string)
    ensures ReadLine(Zsh, sc, raw)
         == if TrimEnd(raw) == [] then sc else sc.(out := sc.out + [ZshRead(|sc.out|, raw)])
  {
  }

  /** Lines make at most one record each; if all make one, line `i` makes record `i`. */
  lemma {:induction false} ZshScanExact(lines: seq<string>)
    ensures |Scan(Zsh, lines).out| <= |lines|
    ensures |Scan(Zsh, lines).out| == |lines| <==> forall i :: 0 <= i < |lines| ==> TrimEnd(lines[i]) != []
    ensures |Scan(Zsh, lines).out| == |lines| ==>
              forall i :: 0 <= i < |lines| ==> Scan(Zsh, lines).out[i] == ZshRead(i, lines[i])
  {
    hide TrimEnd, ZshRead, ReadLine;
    if lines != [] {
      var n := |lines| - 1;
      ZshScanExact(lines[..n]);
      ReadZshLine(Scan(Zsh, lines[..n]), lines[n]);
      assert forall i :: 0 <= i < n ==> lines[..n][i] == lines[i];
    }
  }

  lemma SuffixOfTrimmed(line: string, k: nat)
    requires k <= |line| && TrimEnd(line) == line
    ensures TrimEnd(line[k..]) == line[k..]
  {
    if k < |line| {
      TrimmedLast(line);
    }
  }

  /** What the zsh parser ever yields for a command and a duration. */
  predicate ZshYield(r: HistoryRecord) {
    '\n' !in r.cmd && TrimEnd(r.cmd) == r.cmd && Writable(r.durationMs)
  }

  lemma FieldsYield(line: string)
    requires '\n' !in line && TrimEnd(line) == line
    ensures var (ts, durationMs, cmd) := ZshFields(line);
            '\n' !in cmd && TrimEnd(cmd) == cmd && Writable(durationMs)
    ensures ZshFields(line).2 == line ==> ZshFields(line) == (None, 0, line)
  {
    hide TrimEnd, ParseI64;
    var (ts, durationMs, cmd) := ZshFields(line);
    var k := |line| - |cmd|;
    assert k >= 0 && cmd == line[k..];
    SuffixOfTrimmed(line, k);
    assert forall c :: c in cmd ==> c in line;
    WritableExact(durationMs);
    WritableExact(0);
  }

  lemma ReadYield(index: nat, raw: string)
    requires '\n' !in raw
    ensures ZshYield(ZshRead(index, raw))
  {
    hide ZshFields;
    TrimEndExact(raw);
    var line := TrimEnd(raw);
    assert forall c :: c in line ==> c in raw;
    FieldsYield(line);
  }

  lemma {:induction false} ScannedZshYields(lines: seq<string>)
    requires forall line :: line in lines ==> '\n' !in line
    ensures forall i :: 0 <= i < |Scan(Zsh, lines).out| ==> ZshYield(Scan(Zsh, lines).out[i])
  {
    hide TrimEnd, ZshRead, ZshYield, ReadLine;
    if lines != [] {
      var n := |lines| - 1;
      ScannedZshYields(lines[..n]);
      ReadZshLine(Scan(Zsh, lines[..n]), lines[n]);
      assert lines[n] in lines;
      ReadYield(|Scan(Zsh, lines[..n]).out|, lines[n]);
    }
  }

  /** A line that is read as its own record came from a well-formed one. */
  lemma ReadBackWellFormed(r: HistoryRecord, index: nat)
    requires ZshYield(r) && TrimEnd(ZshLine(r)) != [] && ZshRead(index, ZshLine(r)) == r
    ensures ZshRecord(r)
  {
    hide ZshFields, PrintInt;
    if r.ts.None? {
      FieldsYield(r.cmd);
    }
  }

  lemma ReadBackExact(r: HistoryRecord, index: nat)
    requires ZshRecord(r) && r.sourceIndex == index
    ensures TrimEnd(ZshLine(r)) != [] && ZshRead(index, ZshLine(r)) == r
  {
    hide ZshFields, ZshLine, TrimEnd;
    ZshLineReads(r);
    ZshLineTrimmed(r);
  }

  lemma ZshReadsBack(rs: seq<HistoryRecord>)
    requires ZshRecords(rs)
    ensures Records(Zsh, WriteZsh(rs)) == rs
  {
    hide TrimEnd, ZshLine, ZshFields, ZshRead, Scan, Lines, WriteZsh;
    WrittenZshLines(rs);
    var lines := ZshLines(rs);
    forall i | 0 <= i < |rs|
      ensures TrimEnd(lines[i]) != [] && ZshRead(i, lines[i]) == rs[i]
    {
      ReadBackExact(rs[i], i);
    }
    ZshScanExact(lines);
  }

  lemma ZshOnlyIfWellFormed(rs: seq<HistoryRecord>)
    requires Records(Zsh, WriteZsh(rs)) == rs
    ensures ZshRecords(rs)
  {
    hide TrimEnd, ZshLine, ZshFields, ZshRead, ZshRecord, Scan, Lines, WriteZsh;
    LinesHoldNoNewline(WriteZsh(rs));
    ScannedZshYields(Lines(WriteZsh(rs)));
    IndicesCount(Zsh, Lines(WriteZsh(rs)));
    WrittenZshLines(rs);
    ZshScanExact(ZshLines(rs));
    forall i | 0 <= i < |rs|
      ensures rs[i].sourceIndex == i && ZshRecord(rs[i])
    {
      assert TrimEnd(ZshLines(rs)[i]) != [] && ZshRead(i, ZshLines(rs)[i]) == rs[i];
      ReadBackWellFormed(rs[i], i);
    }
  }

  /** Writing records for zsh and parsing them gives the same records exactly when zsh could have written them. */
  lemma ZshRoundTrip(rs: seq<HistoryRecord>)
    ensures Records(Zsh, WriteZsh(rs)) == rs <==> ZshRecords(rs)
  {
    hide Records, ZshRecords;
    if ZshRecords(rs) {
      ZshReadsBack(rs);
    }
    if Records(Zsh, WriteZsh(rs)) == rs {
      ZshOnlyIfWellFormed(rs);
    }
  }
  // ---------- Any zsh line ----------

  /** `line` is `: `, a part without `:` and `;`, a colon, a part without `;`, a semicolon, and the rest. */
  predicate IsExtended(line: string, stamp: string, duration: string, cmd: string) {
    && line == ": " + stamp + [':'] + duration + [';'] + cmd
    && ':' !in stamp && ';' !in stamp && ';' !in duration
  }

  function DurationOf(text: string): I64 {
    match ParseI64(text)
    case Some(seconds) =>
      if seconds * 1000 > I64_MAX then I64_MAX
      else if seconds * 1000 < I64_MIN then I64_MIN
      else seconds * 1000
    case None => 0
  }

  /**
   Every zsh line, well formed or not. In the extended format the command is what follows the first
   semicolon, even if time stamp or duration cannot be read; these then count as missing and as 0.
   Any other line is a command as a whole.
   */
  lemma ZshFieldsExact(line: string, stamp: string, duration: string, cmd: string)
    requires IsExtended(line, stamp, duration, cmd)
    ensures ZshFields(line) == (ParseI64(stamp), DurationOf(duration), cmd)
  {
    hide ParseI64, IndexOf;
    var meta := stamp + [':'] + duration;
    assert line[2..] == meta + [';'] + cmd;
    IndexOfAfter(meta, ';', cmd);
    assert line[2..][..|meta|] == meta && line[2..][|meta| + 1..] == cmd;
    IndexOfAfter(stamp, ':', duration);
    assert meta[..|stamp|] == stamp && meta[|stamp| + 1..] == duration;
  }

  /** A line is read whole, or it can be taken apart as the extended format. */
  lemma ZshFieldsSplit(line: string) returns (stamp: string, duration: string, cmd: string)
    ensures ZshFields(line) == (None, 0, line) || IsExtended(line, stamp, duration, cmd)
  {
    hide ParseI64, IndexOf, SaturatingSeconds;
    stamp, duration, cmd := "", "", "";
    if ": " <= line {
      var rest := line[2..];
      var semi := IndexOf(rest, ';');
      if semi < |rest| {
        var meta := rest[..semi];
        var colon := IndexOf(meta, ':');
        if colon < |meta| {
          stamp, duration, cmd := meta[..colon], meta[colon + 1..], rest[semi + 1..];
          SplitAt(meta, ':', colon);
          SplitAt(rest, ';', semi);
          assert line == ": " + rest;
          assert line == ": " + stamp + [':'] + duration + [';'] + cmd;
          assert forall c :: c in stamp || c in duration ==> c in meta;
        }
      }
    }
  }

  lemma SplitAt(s: string, c: char, i: nat)
    requires i < |s| && i == IndexOf(s, c)
    ensures s == s[..i] + [c] + s[i + 1..] && c !in s[..i]
  {
  }

  lemma ZshFieldsPlain(line: string)
    requires forall stamp, duration, cmd :: !IsExtended(line, stamp, duration, cmd)
    ensures ZshFields(line) == (None, 0, line)
  {
    hide ZshFields, IsExtended;
    var stamp, duration, cmd := ZshFieldsSplit(line);
  }

  function LinesBefore(lines: seq<string>, i: nat): nat
    requires i <= |lines|
  {
    if i == 0 then 0 else LinesBefore(lines, i - 1) + (if TrimEnd(lines[i - 1]) != [] then 1 else 0)
  }

  lemma {:induction false} ZshScannedSoFar(lines: seq<string>, i: nat)
    requires i <= |lines|
    ensures |Scan(Zsh, lines[..i]).out| == LinesBefore(lines, i)
  {
    hide TrimEnd, ZshRead, ReadLine;
    if i > 0 {
      ZshScannedSoFar(lines, i - 1);
      assert lines[..i] == lines[..i - 1] + [lines[i - 1]];
      ScanLast(Zsh, lines[..i - 1], lines[i - 1]);
      ReadZshLine(Scan(Zsh, lines[..i - 1]), lines[i - 1]);
    }
  }

  /** Which record each zsh line becomes: blank lines none, every other line the next one, with its own fields. */
  lemma ZshExact(lines: seq<string>, i: nat)
    requires i < |lines| && TrimEnd(lines[i]) != []
    ensures var out, k := Scan(Zsh, lines).out, LinesBefore(lines, i);
            && |out| == LinesBefore(lines, |lines|)
            && k < |out|
            && out[k].sourceIndex == k
            && (out[k].ts, out[k].durationMs, out[k].cmd) == ZshFields(TrimEnd(lines[i]))
  {
    hide Scan, ReadLine, TrimEnd, ZshFields, LinesBefore;
    var sc := Scan(Zsh, lines[..i]);
    ZshScannedSoFar(lines, i);
    ZshScannedSoFar(lines, |lines|);
    assert lines[..|lines|] == lines;
    ScanLast(Zsh, lines[..i], lines[i]);
    ReadZshLine(sc, lines[i]);
    assert lines[..i] + [lines[i]] + lines[i + 1..] == lines;
    ScanGrows(Zsh, lines[..i] + [lines[i]], lines[i + 1..]);
    var r := ZshRead(|sc.out|, lines[i]);
    assert (sc.out + [r])[|sc.out|] == r;
  }
}
