/** The string operations the policy parser is built from: trimming, splitting into lines, and decimals. */
module PolicyText {

  // ----- Trimming -----

  /** What `String.prototype.trim` removes: white space and line terminators. */
  predicate IsSpace(c: char) {
    var n := c as int;
    || 9 <= n <= 13 || n == 32 || n == 0xA0 || n == 0x1680 || 0x2000 <= n <= 0x200A
    || n == 0x2028 || n == 0x2029 || n == 0x202F || n == 0x205F || n == 0x3000 || n == 0xFEFF
  }

  predicate AllSpace(s: string) {
    forall c :: c in s ==> IsSpace(c)
  }

  function TrimStart(s: string): string {
    if s != "" && IsSpace(s[0]) then TrimStart(s[1..]) else s
  }

  function TrimEnd(s: string): string {
    if s != "" && IsSpace(s[|s|-1]) then TrimEnd(s[..|s|-1]) else s
  }

  function Trim(s: string): string {
    TrimEnd(TrimStart(s))
  }

  /** Non-empty, with nothing to trim. */
  predicate Trimmed(s: string) {
    s != "" && !IsSpace(s[0]) && !IsSpace(s[|s|-1])
  }

  lemma TrimTrimmed(s: string)
    requires Trimmed(s)
    ensures Trim(s) == s
  {
  }

  lemma {:induction false} TrimStartIndented(indent: string, s: string)
    requires AllSpace(indent)
    ensures TrimStart(indent + s) == TrimStart(s)
  {
    if indent == "" {
      assert indent + s == s;
    } else {
      assert (indent + s)[1..] == indent[1..] + s;
      TrimStartIndented(indent[1..], s);
    }
  }

  lemma {:induction false} TrimEndPadded(s: string, padding: string)
    requires AllSpace(padding)
    ensures TrimEnd(s + padding) == TrimEnd(s)
  {
    if padding == "" {
      assert s + padding == s;
    } else {
      var n := |padding| - 1;
      assert (s + padding)[..|s| + n] == s + padding[..n];
      assert padding[n] in padding;
      TrimEndPadded(s, padding[..n]);
    }
  }

  lemma {:induction false} TrimStartOfPadded(s: string, padding: string)
    requires AllSpace(padding)
    ensures TrimEnd(TrimStart(s + padding)) == TrimEnd(TrimStart(s))
  {
    if s == "" {
      assert s + padding == padding + "";
      TrimStartIndented(padding, "");
    } else if IsSpace(s[0]) {
      assert (s + padding)[1..] == s[1..] + padding;
      TrimStartOfPadded(s[1..], padding);
    } else {
      TrimEndPadded(s, padding);
    }
  }

  /** Indentation and trailing white space do not matter. */
  lemma TrimIgnoresPadding(indent: string, s: string, padding: string)
    requires AllSpace(indent) && AllSpace(padding)
    ensures Trim(indent + s + padding) == Trim(s)
  {
    assert indent + s + padding == indent + (s + padding);
    TrimStartIndented(indent, s + padding);
    TrimStartOfPadded(s, padding);
  }

  /** Trimming at the start drops the leading white space and no more. */
  lemma {:induction false} TrimStartDrops(s: string) returns (k: nat)
    ensures k <= |s| && TrimStart(s) == s[k..] && AllSpace(s[..k]) && (k < |s| ==> !IsSpace(s[k]))
  {
    if s != "" && IsSpace(s[0]) {
      var j := TrimStartDrops(s[1..]);
      k := j + 1;
      assert s[..k] == [s[0]] + s[1..][..j];
    } else {
      k := 0;
    }
  }

  lemma SpacesBefore(s: string, k: nat)
    requires k <= |s| && AllSpace(s[..k])
    ensures forall j :: 0 <= j < k ==> IsSpace(s[j])
  {
    assert forall j :: 0 <= j < k ==> s[j] in s[..k];
  }

  lemma {:induction false} TrimEndKeepsFirst(s: string)
    requires s != "" && !IsSpace(s[0])
    ensures TrimEnd(s) != "" && TrimEnd(s)[0] == s[0]
  {
    if IsSpace(s[|s|-1]) {
      TrimEndKeepsFirst(s[..|s|-1]);
    }
  }

  // ----- Lines -----

  predicate OneLine(s: string) {
    '\n' !in s
  }

  /** `split('\n')`. */
  function Split(s: string): (lines: seq<string>)
    ensures lines != []
  {
    if s == "" then [""]
    else
      var rest := Split(s[1..]);
      if s[0] == '\n' then [""] + rest else [[s[0]] + rest[0]] + rest[1..]
  }

  function JoinLines(lines: seq<string>): string {
    if lines == [] then ""
    else if |lines| == 1 then lines[0]
    else lines[0] + "\n" + JoinLines(lines[1..])
  }

  lemma {:induction false} SplitLine(line: string)
    requires OneLine(line)
    ensures Split(line) == [line]
  {
    if line != "" {
      SplitLine(line[1..]);
      assert line == [line[0]] + line[1..];
    }
  }

  lemma {:induction false} SplitAtFeed(a: string, b: string)
    ensures Split(a + "\n" + b) == Split(a) + Split(b)
  {
    var text := a + "\n" + b;
    if a == "" {
      assert text[1..] == b;
    } else {
      assert text[1..] == a[1..] + "\n" + b;
      SplitAtFeed(a[1..], b);
    }
  }

  lemma {:induction false} SplitUndoesJoin(lines: seq<string>)
    requires lines != [] && forall l :: l in lines ==> OneLine(l)
    ensures Split(JoinLines(lines)) == lines
  {
    assert lines[0] in lines;
    SplitLine(lines[0]);
    if |lines| > 1 {
      SplitAtFeed(lines[0], JoinLines(lines[1..]));
      SplitUndoesJoin(lines[1..]);
    }
  }

  // ----- Decimals -----

  predicate IsDigit(c: char) {
    '0' <= c <= '9'
  }

  predicate AllDigits(s: string) {
    s != "" && forall i :: 0 <= i < |s| ==> IsDigit(s[i])
  }

  function ParseDecimal(s: string): nat
    requires forall i :: 0 <= i < |s| ==> IsDigit(s[i])
  {
    if s == "" then 0
    else
      assert IsDigit(s[|s|-1]);
      10 * ParseDecimal(s[..|s|-1]) + (s[|s|-1] as int - '0' as int)
  }

  function Decimal(n: nat): string {
    var last := [('0' as int + n % 10) as char];
    if n < 10 then last else Decimal(n / 10) + last
  }

  lemma {:induction false} DecimalRoundTrip(n: nat)
    ensures AllDigits(Decimal(n)) && ParseDecimal(Decimal(n)) == n
  {
    if n >= 10 {
      DecimalRoundTrip(n / 10);
      assert Decimal(n)[..|Decimal(n)|-1] == Decimal(n / 10);
    }
  }

  /** Leading zeros do not count. */
  lemma {:induction false} LeadingZero(s: string)
    requires AllDigits(s)
    ensures AllDigits("0" + s) && ParseDecimal("0" + s) == ParseDecimal(s)
  {
    var t := "0" + s;
    assert forall i :: 0 < i < |t| ==> t[i] == s[i-1];
    if |s| == 1 {
      assert t[..1] == "0" && s[..0] == "" && "0"[..0] == "";
      assert ParseDecimal("0") == 0;
    } else {
      assert t[..|t|-1] == "0" + s[..|s|-1];
      LeadingZero(s[..|s|-1]);
    }
  }

  lemma DigitsAreTrimmed(s: string)
    requires AllDigits(s)
    ensures Trimmed(s) && OneLine(s)
  {
  }

  // ----- Searching -----

  /** Index of the first occurrence, or the length. */
  function IndexOf(s: string, c: char): (i: nat)
    ensures i <= |s|
    ensures i < |s| ==> s[i] == c
    ensures c !in s[..i]
  {
    if s == "" || s[0] == c then 0
    else
      var i := IndexOf(s[1..], c) + 1;
      assert s[..i] == [s[0]] + s[1..][..i-1];
      i
  }

  lemma {:induction false} NoOccurrence(s: string, c: char)
    requires c !in s
    ensures IndexOf(s, c) == |s|
  {
    if s != "" {
      NoOccurrence(s[1..], c);
    }
  }

  lemma IndexOfIsFirst(a: string, c: char, b: string)
    requires c !in a
    ensures IndexOf(a + [c] + b, c) == |a|
  {
    var s := a + [c] + b;
    var i := IndexOf(s, c);
    assert forall k :: 0 <= k < |a| ==> s[k] == a[k] && s[k] != c;
    assert forall k :: 0 <= k < i ==> s[k] in s[..i];
    assert s[|a|] == c;
  }
}
