/** Strings as the importer and the tracker read them: white space, lines and decimal integers. */
module Text {
  import opened Prelude

  /** Unicode White_Space. */
  predicate IsSpace(c: char) {
    var n := c as int;
    || 0x09 <= n <= 0x0D || n == 0x20 || n == 0x85 || n == 0xA0 || n == 0x1680
    || 0x2000 <= n <= 0x200A || n == 0x2028 || n == 0x2029 || n == 0x202F || n == 0x205F || n == 0x3000
  }

  function TrimEnd(s: string): string {
    if s != [] && IsSpace(s[|s| - 1]) then TrimEnd(s[..|s| - 1]) else s
  }

  function TrimStart(s: string): string {
    if s != [] && IsSpace(s[0]) then TrimStart(s[1..]) else s
  }

  function Trim(s: string): string {
    TrimEnd(TrimStart(s))
  }

  // ---------- Decimal integers ----------

  predicate IsDigit(c: char) {
    '0' <= c <= '9'
  }

  function DigitValue(c: char): nat
    requires IsDigit(c)
  {
    c as int - '0' as int
  }

  predicate AllDigits(s: string) {
    forall i :: 0 <= i < |s| ==> IsDigit(s[i])
  }

  function Value(s: string): nat
    requires AllDigits(s)
  {
    if s == [] then 0 else 10 * Value(s[..|s| - 1]) + DigitValue(s[|s| - 1])
  }

  /** `str::parse::<i64>`: an optional sign, at least one digit, and the value in range. */
  function ParseI64(s: string): Option<I64> {
    var negative := s != [] && s[0] == '-';
    var digits := if s != [] && (s[0] == '-' || s[0] == '+') then s[1..] else s;
    if digits == [] || !AllDigits(digits) then None else
      var m: int := Value(digits);
      var v := if negative then -m else m;
      if I64_MIN <= v <= I64_MAX then Some(v) else None
  }

  function PrintNat(n: nat): (s: string)
    ensures |s| >= 1 && AllDigits(s)
  {
    var last := ('0' as int + n % 10) as char;
    if n < 10 then [last] else PrintNat(n / 10) + [last]
  }

  function PrintInt(n: int): string {
    if n < 0 then ['-'] + PrintNat(-n) else PrintNat(n)
  }

  lemma {:induction false} PrintNatValue(n: nat)
    ensures Value(PrintNat(n)) == n
  {
    var s := PrintNat(n);
    if n >= 10 {
      PrintNatValue(n / 10);
      assert s[..|s| - 1] == PrintNat(n / 10);
    } else {
      assert s[..|s| - 1] == [];
    }
  }

  /** Reading back what was printed gives the number. */
  lemma ParsePrinted(n: I64)
    ensures ParseI64(PrintInt(n)) == Some(n)
  {
    if n < 0 {
      var m: int := n;
      PrintNatValue(-m);
      assert PrintInt(n)[1..] == PrintNat(-m);
    } else {
      PrintNatValue(n);
      assert IsDigit(PrintInt(n)[0]);
    }
  }

  /** The characters of a printed number. */
  lemma PrintedCharacters(n: int)
    ensures PrintInt(n) != []
    ensures forall i :: 0 <= i < |PrintInt(n)| ==> IsDigit(PrintInt(n)[i]) || PrintInt(n)[i] == '-'
  {
  }

  lemma PrintedHead(n: int)
    ensures n < 0 ==> PrintInt(n)[0] == '-'
    ensures n >= 0 ==> IsDigit(PrintInt(n)[0])
  {
  }

  lemma PrintIntInjective(m: int, n: int)
    requires PrintInt(m) == PrintInt(n)
    ensures m == n
  {
    PrintedHead(m);
    PrintedHead(n);
    if m < 0 && n < 0 {
      assert PrintInt(m)[1..] == PrintNat(-m) && PrintInt(n)[1..] == PrintNat(-n);
      PrintNatValue(-m);
      PrintNatValue(-n);
    } else if m >= 0 && n >= 0 {
      PrintNatValue(m);
      PrintNatValue(n);
    }
  }

  /** `s` is an optional sign and at least one digit, and stands for `v`. */
  predicate Spells(s: string, sign: string, digits: string, v: int) {
    && s == sign + digits && digits != [] && AllDigits(digits)
    && (sign == "" || sign == "+" || sign == "-")
    && v == (if sign == "-" then 0 - Value(digits) else Value(digits))
  }

  /** What spells a number in range reads as that number, whatever zeros lead. */
  lemma SpelledReads(s: string, sign: string, digits: string, v: I64)
    requires Spells(s, sign, digits, v)
    ensures ParseI64(s) == Some(v)
  {
    hide Value;
    if sign == "" {
      assert s == digits && IsDigit(s[0]);
    } else {
      assert s[0] == sign[0] && s[1..] == digits;
    }
  }

  /** And nothing else reads as a number: no blank, no stray character, no number out of range. */
  lemma ReadIsSpelled(s: string) returns (sign: string, digits: string)
    ensures ParseI64(s).Some? ==> Spells(s, sign, digits, ParseI64(s).value)
  {
    hide Value;
    sign, digits := "", s;
    if s != [] && (s[0] == '-' || s[0] == '+') {
      sign, digits := [s[0]], s[1..];
      assert s == sign + digits;
    } else {
      assert s == "" + s;
    }
  }

  /** The value of digits, digit by digit from the left. */
  lemma {:induction false} ValueOfMore(s: string, t: string)
    requires AllDigits(s) && AllDigits(t) && AllDigits(s + t)
    ensures Value(s + t) == Value(s) * Power10(|t|) + Value(t)
    decreases |t|
  {
    if t == [] {
      assert s + t == s;
    } else {
      var n := |t| - 1;
      assert (s + t)[..|s + t| - 1] == s + t[..n];
      ValueOfMore(s, t[..n]);
      Shift10(Value(s), Power10(n), Value(t[..n]), DigitValue(t[n]));
    }
  }

  function Power10(n: nat): nat {
    if n == 0 then 1 else 10 * Power10(n - 1)
  }

  lemma Shift10(v: nat, p: nat, w: nat, d: nat)
    ensures 10 * (v * p + w) + d == v * (10 * p) + (10 * w + d)
  {
  }

  /** Printing leaves out signs and zeros that need not be there. */
  lemma {:induction false} PrintedCanonical(n: nat)
    ensures n < 10 ==> |PrintNat(n)| == 1
    ensures n > 0 ==> PrintNat(n)[0] != '0'
  {
    if n >= 10 {
      PrintedCanonical(n / 10);
      assert PrintNat(n)[0] == PrintNat(n / 10)[0];
    }
  }

  // ---------- White space ----------

  /** The 25 white space characters of Unicode. */
  lemma IsSpaceExact(c: char)
    ensures IsSpace(c) <==>
              c as int in {9, 10, 11, 12, 13, 32, 133, 160, 5760,
                           8192, 8193, 8194, 8195, 8196, 8197, 8198, 8199, 8200, 8201, 8202,
                           8232, 8233, 8239, 8287, 12288}
  {
  }

  predicate AllSpace(s: string) {
    forall i :: 0 <= i < |s| ==> IsSpace(s[i])
  }

  /** Only white space is cut off the end, and all of it. */
  lemma {:induction false} TrimEndSplit(s: string)
    ensures |TrimEnd(s)| <= |s| && s == TrimEnd(s) + s[|TrimEnd(s)|..]
    ensures AllSpace(s[|TrimEnd(s)|..])
    ensures TrimEnd(s) != [] ==> !IsSpace(TrimEnd(s)[|TrimEnd(s)| - 1])
    decreases |s|
  {
    hide IsSpace;
    if s != [] && IsSpace(s[|s| - 1]) {
      var n := |s| - 1;
      var t := s[..n];
      TrimEndSplit(t);
      var k := |TrimEnd(t)|;
      assert s == t + [s[n]];
      assert TrimEnd(s) == TrimEnd(t) && s[k..] == t[k..] + [s[n]];
    } else {
      assert s[|s|..] == [];
    }
  }

  lemma {:induction false} TrimStartSplit(s: string) returns (before: string)
    ensures s == before + TrimStart(s) && AllSpace(before)
    ensures TrimStart(s) != [] ==> !IsSpace(TrimStart(s)[0])
    decreases |s|
  {
    hide IsSpace;
    before := [];
    if s != [] && IsSpace(s[0]) {
      var rest := TrimStartSplit(s[1..]);
      before := [s[0]] + rest;
      assert s == [s[0]] + s[1..];
    }
  }

  /** Only white space is cut off, on both sides, and no white space is left at either end. */
  lemma TrimExact(s: string) returns (before: string, after: string)
    ensures s == before + Trim(s) + after && AllSpace(before) && AllSpace(after)
    ensures Trim(s) != [] ==> !IsSpace(Trim(s)[0]) && !IsSpace(Trim(s)[|Trim(s)| - 1])
  {
    hide IsSpace, TrimEnd, TrimStart;
    before := TrimStartSplit(s);
    var t := TrimStart(s);
    TrimEndSplit(t);
    after := t[|TrimEnd(t)|..];
    assert TrimEnd(t) != [] ==> TrimEnd(t)[0] == t[0];
  }

  // ---------- Searching ----------

  function IndexOf(s: string, c: char): (i: nat)
    ensures i <= |s|
    ensures i < |s| ==> s[i] == c
    ensures forall j :: 0 <= j < i ==> s[j] != c
  {
    if s == [] || s[0] == c then 0 else 1 + IndexOf(s[1..], c)
  }

  /** Where the first `c` is, in a string that begins with a piece free of `c` and then `c`. */
  lemma IndexOfAfter(piece: string, c: char, rest: string)
    requires c !in piece
    ensures IndexOf(piece + [c] + rest, c) == |piece|
  {
    var s := piece + [c] + rest;
    assert s[|piece|] == c;
    assert forall j :: 0 <= j < |piece| ==> s[j] == piece[j] && s[j] in piece;
  }

  // ---------- Lines ----------

  /** `str::lines`, up to trailing carriage returns: split after each newline; a final newline ends the last line. */
  function Lines(s: string): seq<string>
    decreases |s|
  {
    if s == [] then [] else
      var i := IndexOf(s, '\n');
      if i == |s| then [s] else [s[..i]] + Lines(s[i + 1..])
  }

  lemma LinesCons(line: string, rest: string)
    requires '\n' !in line
    ensures Lines(line + ['\n'] + rest) == [line] + Lines(rest)
  {
    IndexOfAfter(line, '\n', rest);
    var s := line + ['\n'] + rest;
    assert s[..|line|] == line && s[|line| + 1..] == rest;
  }

  predicate EndsLine(s: string) {
    s == [] || s[|s| - 1] == '\n'
  }

  /** The first line of a text that ends with a newline, and what follows it. */
  lemma FirstLine(a: string) returns (line: string, rest: string)
    requires a != [] && EndsLine(a)
    ensures a == line + ['\n'] + rest && '\n' !in line && EndsLine(rest)
    ensures |rest| < |a|
  {
    var i := IndexOf(a, '\n');
    assert a[|a| - 1] == '\n' && i < |a|;
    line, rest := a[..i], a[i + 1..];
    assert rest != [] ==> rest[|rest| - 1] == a[|a| - 1];
  }

  lemma Reassociate<T>(x: seq<T>, y: seq<T>, z: seq<T>)
    ensures (x + y) + z == x + (y + z)
  {
  }

  /** Text appended after a complete line adds lines and changes none. */
  lemma {:induction false} LinesAppend(a: string, b: string)
    requires EndsLine(a)
    ensures Lines(a + b) == Lines(a) + Lines(b)
    decreases |a|
  {
    if a == [] {
      assert a + b == b;
    } else {
      hide *;
      var line, rest := FirstLine(a);
      LinesAppend(rest, b);
      LinesCons(line, rest);
      LinesCons(line, rest + b);
      Reassociate(line + ['\n'], rest, b);
      Reassociate([line], Lines(rest), Lines(b));
    }
  }
  /** A text without any newline is one line. */
  lemma LoneLine(s: string)
    requires s != [] && '\n' !in s
    ensures Lines(s) == [s]
  {
    assert IndexOf(s, '\n') == |s|;
  }

  function JoinLines(lines: seq<string>): string {
    if lines == [] then [] else lines[0] + ['\n'] + JoinLines(lines[1..])
  }

  lemma JoinCons(line: string, lines: seq<string>)
    ensures JoinLines([line] + lines) == line + ['\n'] + JoinLines(lines)
  {
    assert ([line] + lines)[1..] == lines;
  }

  lemma EndOfRest(line: string, rest: string)
    ensures EndsLine(line + ['\n'] + rest) == EndsLine(rest)
  {
    if rest != [] {
      assert (line + ['\n'] + rest)[|line + ['\n'] + rest| - 1] == rest[|rest| - 1];
    }
  }

  /** A text with a newline is its first line and the rest. */
  lemma LineSplit(s: string) returns (line: string, rest: string)
    requires '\n' in s
    ensures s == line + ['\n'] + rest && '\n' !in line && |rest| < |s|
  {
    var i := IndexOf(s, '\n');
    line, rest := s[..i], s[i + 1..];
  }

  /** The lines joined again are the text, up to the newline that may be missing at its end. */
  lemma {:induction false} LinesJoin(s: string)
    ensures JoinLines(Lines(s)) == if EndsLine(s) then s else s + ['\n']
    decreases |s|
  {
    if '\n' in s {
      hide *;
      var line, rest := LineSplit(s);
      LinesJoin(rest);
      LinesCons(line, rest);
      JoinCons(line, Lines(rest));
      EndOfRest(line, rest);
      Reassociate(line + ['\n'], rest, ['\n']);
    } else if s != [] {
      LoneLine(s);
      JoinCons(s, []);
      assert [s] + [] == [s] && s + ['\n'] + JoinLines([]) == s + ['\n'];
    }
  }

  /** A last line without newline counts like one with it. */
  lemma {:induction false} LinesClosed(s: string)
    requires !EndsLine(s)
    ensures Lines(s + ['\n']) == Lines(s)
    decreases |s|
  {
    if '\n' in s {
      hide *;
      var line, rest := LineSplit(s);
      EndOfRest(line, rest);
      LinesClosed(rest);
      LinesCons(line, rest);
      LinesCons(line, rest + ['\n']);
      Reassociate(line + ['\n'], rest, ['\n']);
    } else {
      LoneLine(s);
      LinesCons(s, []);
      assert s + ['\n'] + [] == s + ['\n'];
    }
  }
}
