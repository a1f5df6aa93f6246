/** The few string operations every reader in the repository leans on: `trim`, `lines`, decimal numbers. */
module Text {
  import opened Widths
  import opened Wrappers

  /** Unicode White_Space, which is what `str::trim` strips. */
  predicate IsSpace(c: char) {
    '\t' <= c <= '\r' || c == ' ' || c == '\U{85}' || c == '\U{A0}' || c == '\U{1680}'
    || '\U{2000}' <= c <= '\U{200A}' || c == '\U{2028}' || c == '\U{2029}' || c == '\U{202F}'
    || c == '\U{205F}' || c == '\U{3000}'
  }

  function TrimStart(s: string): string {
    if s != "" && IsSpace(s[0]) then TrimStart(s[1..]) else s
  }

  function TrimEnd(s: string): string {
    if s != "" && IsSpace(s[|s| - 1]) then TrimEnd(s[..|s| - 1]) else s
  }

  function Trim(s: string): string {
    TrimEnd(TrimStart(s))
  }

  predicate IsBlank(s: string) {
    Trim(s) == ""
  }

  ghost predicate Trimmed(s: string) {
    s != "" ==> !IsSpace(s[0]) && !IsSpace(s[|s| - 1])
  }

  lemma {:induction false} TrimStartSpec(s: string)
    ensures TrimStart(s) != "" ==> !IsSpace(TrimStart(s)[0])
  {
    if s != "" && IsSpace(s[0]) {
      TrimStartSpec(s[1..]);
    }
  }

  lemma {:induction false} TrimEndSpec(s: string)
    ensures TrimEnd(s) <= s
    ensures TrimEnd(s) != "" ==> !IsSpace(TrimEnd(s)[|TrimEnd(s)| - 1])
  {
    if s != "" && IsSpace(s[|s| - 1]) {
      TrimEndSpec(s[..|s| - 1]);
    }
  }

  /** Trimming leaves no space at either end, and a string with none is left alone, so trimming twice is
      trimming once. */
  lemma {:induction false} TrimIdempotent(s: string)
    ensures Trimmed(Trim(s))
    ensures Trimmed(s) ==> Trim(s) == s
    ensures Trim(Trim(s)) == Trim(s)
  {
    TrimStartSpec(s);
    TrimEndSpec(TrimStart(s));
  }

  lemma {:induction false} BlankPrefix(pad: string, s: string)
    requires TrimStart(pad) == ""
    ensures TrimStart(pad + s) == TrimStart(s)
  {
    if pad == "" {
      assert pad + s == s;
    } else {
      assert (pad + s)[1..] == pad[1..] + s;
      BlankPrefix(pad[1..], s);
    }
  }

  lemma {:induction false} BlankSuffix(s: string, pad: string)
    requires TrimEnd(pad) == ""
    ensures TrimEnd(s + pad) == TrimEnd(s)
  {
    if pad == "" {
      assert s + pad == s;
    } else {
      var shorter := pad[..|pad| - 1];
      assert (s + pad)[..|s + pad| - 1] == s + shorter;
      BlankSuffix(s, shorter);
    }
  }

  lemma {:induction false} AllSpaces(pad: string)
    ensures TrimStart(pad) == "" <==> forall i :: 0 <= i < |pad| ==> IsSpace(pad[i])
    ensures TrimEnd(pad) == "" <==> forall i :: 0 <= i < |pad| ==> IsSpace(pad[i])
    decreases |pad|
  {
    if pad != "" {
      AllSpaces(pad[1..]);
      AllSpaces(pad[..|pad| - 1]);
    }
  }

  lemma {:induction false} BlankIsAllSpaces(pad: string)
    ensures IsBlank(pad) <==> TrimStart(pad) == ""
    ensures IsBlank(pad) <==> TrimEnd(pad) == ""
  {
    AllSpaces(pad);
    AllSpaces(TrimStart(pad));
    TrimStartSpec(pad);
  }

  /** Blank padding on either side of a trimmed word disappears. */
  lemma {:induction false} PaddingIsTrimmed(before: string, s: string, after: string)
    requires IsBlank(before) && IsBlank(after) && Trimmed(s) && s != ""
    ensures Trim(before + s + after) == s
  {
    BlankIsAllSpaces(before);
    BlankIsAllSpaces(after);
    assert before + s + after == before + (s + after);
    BlankPrefix(before, s + after);
    BlankSuffix(s, after);
  }

  // ---------- lines ----------

  ghost function NonBlank(lines: seq<string>): seq<string> {
    if lines == [] then [] else (if IsBlank(lines[0]) then [] else [lines[0]]) + NonBlank(lines[1..])
  }

  /** The index of the first line feed, or the length when there is none. */
  function FirstNewline(text: string): (i: nat)
    ensures i <= |text|
    ensures forall k :: 0 <= k < i ==> text[k] != '\n'
    ensures i < |text| ==> text[i] == '\n'
  {
    if text == "" || text[0] == '\n' then 0 else 1 + FirstNewline(text[1..])
  }

  function DropCarriageReturn(line: string): string {
    if line != "" && line[|line| - 1] == '\r' then line[..|line| - 1] else line
  }

  /** `str::lines`: split at line feeds, drop the feed and a carriage return before it, and yield nothing after a
      final feed. */
  function Lines(text: string): seq<string>
    decreases |text|
  {
    if text == "" then []
    else
      var i := FirstNewline(text);
      if i == |text| then [text] else [DropCarriageReturn(text[..i])] + Lines(text[i + 1..])
  }

  /** Writes one line per entry, each ended by a line feed. */
  function WriteLines(lines: seq<string>): string {
    if lines == [] then "" else lines[0] + "\n" + WriteLines(lines[1..])
  }

  ghost predicate IsLine(line: string) {
    '\n' !in line && (line != "" ==> line[|line| - 1] != '\r')
  }

  lemma {:induction false} FirstNewlineUnique(text: string, i: nat)
    requires i < |text| && text[i] == '\n' && forall k :: 0 <= k < i ==> text[k] != '\n'
    ensures FirstNewline(text) == i
  {
  }

  lemma {:induction false} FirstLine(line: string, rest: string)
    requires IsLine(line)
    ensures Lines(line + "\n" + rest) == [line] + Lines(rest)
  {
    var text := line + "\n" + rest;
    assert forall k :: 0 <= k < |line| ==> text[k] == line[k];
    FirstNewlineUnique(text, |line|);
    assert text[..|line|] == line && text[|line| + 1..] == rest;
  }

  /** Reading back what was written line by line gives the same lines. */
  lemma {:induction false} LinesRoundTrip(lines: seq<string>)
    requires forall line :: line in lines ==> IsLine(line)
    ensures Lines(WriteLines(lines)) == lines
  {
    if lines != [] {
      FirstLine(lines[0], WriteLines(lines[1..]));
      LinesRoundTrip(lines[1..]);
    }
  }

  /** Writes each line with the ending it is given, a line feed or that after a carriage return. */
  function WriteEnded(lines: seq<string>, crlf: seq<bool>): string
    requires |lines| == |crlf|
  {
    if lines == [] then "" else lines[0] + (if crlf[0] then "\r\n" else "\n") + WriteEnded(lines[1..], crlf[1..])
  }

  lemma {:induction false} FirstEndedLine(line: string, crlf: bool, rest: string)
    requires IsLine(line)
    ensures Lines(line + (if crlf then "\r\n" else "\n") + rest) == [line] + Lines(rest)
  {
    if crlf {
      var text := line + "\r\n" + rest;
      var i := |line| + 1;
      assert text[i] == '\n' && forall k :: 0 <= k < i ==> text[k] != '\n';
      FirstNewlineUnique(text, i);
      assert text[..i] == line + "\r" && text[i + 1..] == rest;
      assert DropCarriageReturn(line + "\r") == line;
    } else {
      FirstLine(line, rest);
    }
  }

  /** Whichever way each line is ended, and with the last one not ended at all, the same lines are read. */
  lemma {:induction false} EndingsDoNotMatter(lines: seq<string>, crlf: seq<bool>, last: string)
    requires |lines| == |crlf| && forall line :: line in lines ==> IsLine(line)
    requires '\n' !in last
    ensures Lines(WriteEnded(lines, crlf) + last) == lines + if last == "" then [] else [last]
  {
    if lines == [] {
      assert WriteEnded(lines, crlf) + last == last;
      assert FirstNewline(last) == |last|;
    } else {
      var later := WriteEnded(lines[1..], crlf[1..]);
      var first := lines[0] + (if crlf[0] then "\r\n" else "\n");
      assert (first + later) + last == first + (later + last);
      FirstEndedLine(lines[0], crlf[0], later + last);
      EndingsDoNotMatter(lines[1..], crlf[1..], last);
      assert lines == [lines[0]] + lines[1..];
    }
  }

  // ---------- decimal numbers ----------

  function Digit(n: nat): char
    requires n < 10
  {
    ['0', '1', '2', '3', '4', '5', '6', '7', '8', '9'][n]
  }

  predicate IsDigit(c: char) {
    '0' <= c <= '9'
  }

  function DigitValue(c: char): (n: nat)
    requires IsDigit(c)
    ensures n < 10
  {
    c as int - '0' as int
  }

  /** `to_string` of an unsigned integer. */
  function Decimal(n: nat): string {
    if n < 10 then [Digit(n)] else Decimal(n / 10) + [Digit(n % 10)]
  }

  predicate AllDigits(s: string) {
    forall i :: 0 <= i < |s| ==> IsDigit(s[i])
  }

  function NumberOf(s: string): nat
    requires AllDigits(s)
  {
    if s == "" then 0 else NumberOf(s[..|s| - 1]) * 10 + DigitValue(s[|s| - 1])
  }

  /** `str::parse::<u64>`: one optional plus sign, then at least one digit, then nothing, within range. */
  function ParseU64(s: string): Option<U64> {
    var digits := if s != "" && s[0] == '+' then s[1..] else s;
    if digits == "" || !AllDigits(digits) then None
    else if NumberOf(digits) > U64_MAX then None
    else Some(NumberOf(digits))
  }

  lemma {:induction false} DecimalReadsBack(n: nat)
    ensures AllDigits(Decimal(n)) && Decimal(n) != "" && NumberOf(Decimal(n)) == n
  {
    if n < 10 {
      assert [Digit(n)][..0] == "";
    } else {
      DecimalReadsBack(n / 10);
      var s := Decimal(n);
      assert s[..|s| - 1] == Decimal(n / 10);
    }
  }

  /** Every `u64` survives being written and parsed. */
  lemma {:induction false} ParseU64RoundTrip(n: U64)
    ensures ParseU64(Decimal(n)) == Some(n)
  {
    DecimalReadsBack(n);
    assert IsDigit(Decimal(n)[0]);
  }

  /** A text is a `u64` exactly when it is digits, at least one, after at most one plus sign, that spell a number in
      range; and then it is that number. */
  lemma {:induction false} ParseU64Iff(s: string, n: U64)
    ensures ParseU64(s) == Some(n)
            <==> exists digits :: (s == digits || s == "+" + digits) && Spells(digits, n)
  {
    if digits :| (s == digits || s == "+" + digits) && Spells(digits, n) {
      assert IsDigit(digits[0]);
      if s == "+" + digits {
        assert s[1..] == digits;
      }
    }
    if ParseU64(s) == Some(n) {
      var digits := if s[0] == '+' then s[1..] else s;
      assert s == digits || s == "+" + digits;
      assert Spells(digits, n);
    }
  }

  ghost predicate Spells(digits: string, n: nat) {
    digits != "" && AllDigits(digits) && NumberOf(digits) == n
  }
}
