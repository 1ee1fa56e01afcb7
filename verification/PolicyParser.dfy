/** The policy parser (plugins/policy-engine/src/hierarchy/resolver.ts): line-oriented `key: value`
    text with lists, and the canonical form it undoes. */
module PolicyParser {
  import opened Common
  import opened PolicyText

  datatype Value = Flag(b: bool) | Limit(n: nat) | Text(s: string) | List(items: seq<string>)

  type Policy = map<string, Value>

  // ----- Parsing -----

  /** The parser between two lines: what is settled, and the list it may be collecting. */
  datatype State = State(result: Policy, key: Option<string>, items: Option<seq<string>>)

  /** A list is open; an empty key does not open one. */
  predicate Open(st: State) {
    st.key.Some? && st.key.value != "" && st.items.Some?
  }

  function Scalar(value: string): Value {
    if value == "true" then Flag(true)
    else if value == "false" then Flag(false)
    else if AllDigits(value) then Limit(ParseDecimal(value))
    else Text(value)
  }

  predicate IsNoise(line: string) {
    var t := Trim(line);
    t == "" || t[0] == '#'
  }

  predicate IsItem(t: string) {
    |t| >= 2 && t[..2] == "- "
  }

  /** The result once the open list, if any, is settled. */
  function Finish(st: State): Policy {
    if Open(st) then st.result[st.key.value := List(st.items.value)] else st.result
  }

  function Flush(st: State): State {
    if Open(st) then st.(result := Finish(st), items := None) else st
  }

  /** A trimmed line that is neither noise nor an item. */
  function Field(st: State, t: string): State {
    var colon := IndexOf(t, ':');
    if colon == |t| then st
    else
      var key, value := Trim(t[..colon]), Trim(t[colon + 1..]);
      if value == "" then st.(key := Some(key), items := Some([]))
      else st.(key := None, result := st.result[key := Scalar(value)])
  }

  function Step(st: State, line: string): State {
    var t := Trim(line);
    if IsNoise(line) then st
    else if IsItem(t) then
      if Open(st) then st.(items := Some(st.items.value + [Trim(t[2..])])) else st
    else Field(Flush(st), t)
  }

  function Steps(st: State, lines: seq<string>): State {
    if lines == [] then st else Step(Steps(st, lines[..|lines|-1]), lines[|lines|-1])
  }

  const START := State(map[], None, None)

  function ParseLines(lines: seq<string>): Policy {
    Finish(Steps(START, lines))
  }

  function Parse(content: string): Policy {
    ParseLines(Split(content))
  }

  method ParsePolicyContent(content: string) returns (result: Policy)
    ensures result == Parse(content)
  {
    result := map[];
    var lines := Split(content);
    var currentKey: Option<string>, currentArray: Option<seq<string>> := None, None;
    for i := 0 to |lines|
      invariant State(result, currentKey, currentArray) == Steps(START, lines[..i])
    {
      assert lines[..i+1][..i] == lines[..i];
      var trimmed := Trim(lines[i]);
      if trimmed == "" || trimmed[0] == '#' {
        continue;
      }
      var open := currentKey.Some? && currentKey.value != "" && currentArray.Some?;
      if |trimmed| >= 2 && trimmed[..2] == "- " {
        if open {
          currentArray := Some(currentArray.value + [Trim(trimmed[2..])]);
        }
        continue;
      }
      if open {
        result := result[currentKey.value := List(currentArray.value)];
        currentArray := None;
      }
      var colonIdx := IndexOf(trimmed, ':');
      if colonIdx == |trimmed| {
        continue;
      }
      var key := Trim(trimmed[..colonIdx]);
      var value := Trim(trimmed[colonIdx + 1..]);
      if value == "" {
        currentKey, currentArray := Some(key), Some([]);
        continue;
      }
      currentKey := None;
      result := result[key := Scalar(value)];
    }
    assert lines[..|lines|] == lines;
    if currentKey.Some? && currentKey.value != "" && currentArray.Some? {
      result := result[currentKey.value := List(currentArray.value)];
    }
  }

  lemma {:induction false} StepsConcat(st: State, a: seq<string>, b: seq<string>)
    ensures Steps(st, a + b) == Steps(Steps(st, a), b)
  {
    if b == [] {
      assert a + b == a;
    } else {
      var n := |b| - 1;
      assert (a + b)[..|a| + n] == a + b[..n];
      StepsConcat(st, a, b[..n]);
    }
  }

  // ----- What each line means -----

  /** Noise is a blank line, or one whose first character other than white space is a hash. */
  lemma NoiseIff(line: string)
    ensures IsNoise(line) <==> AllSpace(line) || exists i :: 0 <= i < |line| && line[i] == '#' && AllSpace(line[..i])
  {
    var k := TrimStartDrops(line);
    SpacesBefore(line, k);
    if k == |line| {
      assert line[..k] == line;
      assert forall i :: 0 <= i < |line| ==> line[i] != '#';
    } else {
      TrimEndKeepsFirst(line[k..]);
      assert line[k] in line;
      forall i | 0 <= i < |line| && line[i] == '#' && AllSpace(line[..i]) ensures i == k {
        SpacesBefore(line, i);
      }
    }
  }

  /** A trimmed line with a colon is split at the first one. With a value it settles the key, whatever was read
      before; without, it opens a list under the key, unless the key is empty. Either way it settles the list
      that was open. */
  lemma FieldReads(st: State, key: string, value: string)
    requires ':' !in key && Trimmed(key + ":" + value) && !IsNoise(key + ":" + value) && !IsItem(key + ":" + value)
    ensures var next := Step(st, key + ":" + value);
            if Trim(value) != "" then
              !Open(next) && Finish(next) == Finish(st)[Trim(key) := Scalar(Trim(value))]
            else if Trim(key) != "" then
              Open(next) && next.items == Some([]) && Finish(next) == Finish(st)[Trim(key) := List([])]
            else
              !Open(next) && Finish(next) == Finish(st)
  {
    var line := key + ":" + value;
    TrimTrimmed(line);
    assert line == key + [':'] + value;
    IndexOfIsFirst(key, ':', value);
    assert line[..|key|] == key && line[|key| + 1..] == value;
  }

  /** A trimmed line without a colon, if it is not an item, only closes the list that was open. */
  lemma ColonlessReads(st: State, line: string)
    requires Trimmed(line) && ':' !in line && !IsNoise(line) && !IsItem(line)
    ensures !Open(Step(st, line)) && Finish(Step(st, line)) == Finish(st)
  {
    TrimTrimmed(line);
    NoOccurrence(line, ':');
  }

  /** An item is added to the list that is open, and ignored if none is. */
  lemma ItemReads(st: State, line: string)
    requires Trimmed(line) && !IsNoise(line) && |line| >= 2 && line[0] == '-' && line[1] == ' '
    ensures Step(st, line) == if Open(st) then st.(items := Some(st.items.value + [Trim(line[2..])])) else st
  {
    TrimTrimmed(line);
    assert line[..2] == "- ";
  }

  /** How a value is read: `true` and `false` as flags, digits as a number, leading zeros aside, and anything
      else as text. */
  lemma ScalarReadsAs(value: string)
    ensures Scalar("true") == Flag(true) && Scalar("false") == Flag(false)
    ensures AllDigits(value) ==> Scalar(value).Limit? && Scalar("0" + value) == Scalar(value)
    ensures value != "true" && value != "false" && !AllDigits(value) ==> Scalar(value) == Text(value)
  {
    if AllDigits(value) {
      LeadingZero(value);
      assert !IsDigit("true"[0]) && !IsDigit("false"[0]);
      assert ("0" + value)[0] == '0';
    }
  }

  // ----- Layout does not matter -----

  /** The trimmed lines that are not noise, in order. */
  function Significant(lines: seq<string>): seq<string> {
    if lines == [] then []
    else
      var n := |lines| - 1;
      Significant(lines[..n]) + if IsNoise(lines[n]) then [] else [Trim(lines[n])]
  }

  /** Applying a line that is already trimmed and significant. */
  function Apply(st: State, t: string): State {
    if IsItem(t) then
      if Open(st) then st.(items := Some(st.items.value + [Trim(t[2..])])) else st
    else Field(Flush(st), t)
  }

  function ApplyAll(st: State, ts: seq<string>): State {
    if ts == [] then st else Apply(ApplyAll(st, ts[..|ts|-1]), ts[|ts|-1])
  }

  lemma {:induction false} StepsSeeSignificantOnly(st: State, lines: seq<string>)
    ensures Steps(st, lines) == ApplyAll(st, Significant(lines))
  {
    if lines != [] {
      var n := |lines| - 1;
      StepsSeeSignificantOnly(st, lines[..n]);
      var before := Significant(lines[..n]);
      if IsNoise(lines[n]) {
        assert Significant(lines) == before;
      } else {
        assert Significant(lines)[..|before|] == before;
      }
    }
  }

  /** Two texts with the same significant lines mean the same policy. */
  lemma LayoutDoesNotMatter(a: string, b: string)
    requires Significant(Split(a)) == Significant(Split(b))
    ensures Parse(a) == Parse(b)
  {
    StepsSeeSignificantOnly(START, Split(a));
    StepsSeeSignificantOnly(START, Split(b));
  }

  lemma SignificantSnoc(lines: seq<string>, line: string)
    ensures Significant(lines + [line]) == Significant(lines) + Significant([line])
  {
    assert (lines + [line])[..|lines|] == lines;
    assert [line][..0] == [];
  }

  lemma {:induction false} SignificantConcat(a: seq<string>, b: seq<string>)
    ensures Significant(a + b) == Significant(a) + Significant(b)
  {
    if b == [] {
      assert a + b == a;
    } else {
      var front, last := b[..|b|-1], b[|b|-1];
      calc {
        Significant(a + b);
        { assert a + b == (a + front) + [last]; }
        Significant((a + front) + [last]);
        { SignificantSnoc(a + front, last); }
        Significant(a + front) + Significant([last]);
        { SignificantConcat(a, front); }
        Significant(a) + (Significant(front) + Significant([last]));
        { SignificantSnoc(front, last); assert b == front + [last]; }
        Significant(a) + Significant(b);
      }
    }
  }

  lemma NoiseIsInsignificant(noise: string)
    requires OneLine(noise) && IsNoise(noise)
    ensures Significant(Split(noise)) == []
  {
    SplitLine(noise);
  }

  /** The significant lines of a text made of two. */
  lemma SignificantOfTwo(a: string, b: string)
    ensures Significant(Split(a + "\n" + b)) == Significant(Split(a)) + Significant(Split(b))
  {
    SplitAtFeed(a, b);
    SignificantConcat(Split(a), Split(b));
  }

  /** Inserting a blank line or a comment between any two lines changes nothing ... */
  lemma NoiseInserted(above: string, noise: string, below: string)
    requires OneLine(noise) && IsNoise(noise)
    ensures Parse(above + "\n" + (noise + "\n" + below)) == Parse(above + "\n" + below)
  {
    assert Significant(Split(noise + "\n" + below)) == Significant(Split(below)) by {
      NoiseIsInsignificant(noise);
      SignificantOfTwo(noise, below);
    }
    SameBelow(above, noise + "\n" + below, below);
  }

  lemma SameBelow(above: string, a: string, b: string)
    requires Significant(Split(a)) == Significant(Split(b))
    ensures Parse(above + "\n" + a) == Parse(above + "\n" + b)
  {
    SignificantOfTwo(above, a);
    SignificantOfTwo(above, b);
    LayoutDoesNotMatter(above + "\n" + a, above + "\n" + b);
  }

  /** ... and neither does one before the first line or after the last. */
  lemma NoiseAround(text: string, noise: string)
    requires OneLine(noise) && IsNoise(noise)
    ensures Parse(noise + "\n" + text) == Parse(text) == Parse(text + "\n" + noise)
  {
    NoiseIsInsignificant(noise);
    SignificantOfTwo(noise, text);
    SignificantOfTwo(text, noise);
    LayoutDoesNotMatter(noise + "\n" + text, text);
    LayoutDoesNotMatter(text + "\n" + noise, text);
  }

  lemma PaddingIsInsignificant(indent: string, line: string, padding: string)
    requires OneLine(line) && OneLine(indent) && OneLine(padding) && AllSpace(indent) && AllSpace(padding)
    ensures Significant(Split(indent + line + padding)) == Significant(Split(line))
  {
    var padded := indent + line + padding;
    TrimIgnoresPadding(indent, line, padding);
    SplitLine(line);
    SplitLine(padded);
    assert [line][..0] == [] && [padded][..0] == [];
  }

  lemma SameAbove(a: string, b: string, below: string)
    requires Significant(Split(a)) == Significant(Split(b))
    ensures Parse(a + "\n" + below) == Parse(b + "\n" + below)
  {
    SignificantOfTwo(a, below);
    SignificantOfTwo(b, below);
    LayoutDoesNotMatter(a + "\n" + below, b + "\n" + below);
  }

  /** Changing the indentation of a line, or the white space after it, changes nothing: of the only line, of
      the first or the last, and of one in between. */
  lemma LineReindented(above: string, indent: string, line: string, padding: string, below: string)
    requires OneLine(line) && OneLine(indent) && OneLine(padding) && AllSpace(indent) && AllSpace(padding)
    ensures Parse(indent + line + padding) == Parse(line)
    ensures Parse(indent + line + padding + "\n" + below) == Parse(line + "\n" + below)
    ensures Parse(above + "\n" + (indent + line + padding)) == Parse(above + "\n" + line)
    ensures Parse(above + "\n" + (indent + line + padding + "\n" + below)) == Parse(above + "\n" + (line + "\n" + below))
  {
    var padded := indent + line + padding;
    PaddingIsInsignificant(indent, line, padding);
    LayoutDoesNotMatter(padded, line);
    SameAbove(padded, line, below);
    SameBelow(above, padded, line);
    SignificantOfTwo(line, below);
    SignificantOfTwo(padded, below);
    SameBelow(above, padded + "\n" + below, line + "\n" + below);
  }

  // ----- Printing -----

  /** A key that a line can begin with. */
  predicate GoodKey(k: string) {
    Trimmed(k) && OneLine(k) && ':' !in k && k[0] != '#' && !IsItem(k)
  }

  predicate GoodItem(s: string) {
    Trimmed(s) && OneLine(s)
  }

  /** A value whose text is not read as one of another kind. */
  predicate GoodValue(v: Value) {
    match v
    case Flag(_) => true
    case Limit(_) => true
    case Text(s) => GoodItem(s) && s != "true" && s != "false" && !AllDigits(s)
    case List(items) => forall item :: item in items ==> GoodItem(item)
  }

  datatype Entry = Entry(key: string, value: Value)

  predicate Good(e: Entry) {
    GoodKey(e.key) && GoodValue(e.value)
  }

  function ScalarText(v: Value): string
    requires !v.List?
  {
    match v
    case Flag(b) => if b then "true" else "false"
    case Limit(n) => Decimal(n)
    case Text(s) => s
  }

  function ItemLines(items: seq<string>): seq<string> {
    if items == [] then [] else ItemLines(items[..|items|-1]) + ["- " + items[|items|-1]]
  }

  function EntryLines(e: Entry): seq<string> {
    if e.value.List? then [e.key + ":"] + ItemLines(e.value.items)
    else [e.key + ": " + ScalarText(e.value)]
  }

  function PrintLines(entries: seq<Entry>): seq<string> {
    if entries == [] then [] else PrintLines(entries[..|entries|-1]) + EntryLines(entries[|entries|-1])
  }

  function Print(entries: seq<Entry>): string {
    JoinLines(PrintLines(entries))
  }

  /** The policy a list of entries stands for; a later entry wins. */
  function Meaning(entries: seq<Entry>): Policy {
    if entries == [] then map[]
    else
      var last := entries[|entries|-1];
      Meaning(entries[..|entries|-1])[last.key := last.value]
  }

  // ----- Parsing undoes printing -----

  lemma ScalarTextReads(v: Value)
    requires !v.List? && GoodValue(v)
    ensures Trimmed(ScalarText(v)) && OneLine(ScalarText(v)) && Scalar(ScalarText(v)) == v
  {
    if v.Limit? {
      DecimalRoundTrip(v.n);
      DigitsAreTrimmed(Decimal(v.n));
      assert !IsDigit("true"[0]) && !IsDigit("false"[0]);
      assert IsDigit(Decimal(v.n)[0]);
    } else if v.Flag? {
      assert Trimmed("true") && Trimmed("false");
    }
  }

  /** A printed field line is read as its key and the text after the colon. */
  lemma FieldLine(st: State, key: string, text: string)
    requires GoodKey(key) && (text == "" || (text[0] == ' ' && Trimmed(text[1..])))
    ensures !IsNoise(key + ":" + text)
    ensures Step(st, key + ":" + text)
         == if text == "" then Flush(st).(key := Some(key), items := Some([]))
            else var s := Flush(st); s.(key := None, result := s.result[key := Scalar(text[1..])])
  {
    var line := key + ":" + text;
    assert line[0] == key[0];
    assert Trimmed(line) by {
      if text != "" {
        assert line[|line|-1] == text[1..][|text|-2];
      }
    }
    TrimTrimmed(line);
    TrimTrimmed(key);
    assert !IsItem(line) by {
      if |key| == 1 {
        assert line[1] == ':';
      } else {
        assert line[..2] == key[..2];
      }
    }
    assert line == key + [':'] + text;
    IndexOfIsFirst(key, ':', text);
    assert line[..|key|] == key && line[|key| + 1..] == text;
    if text != "" {
      assert text == " " + text[1..] + "";
      TrimIgnoresPadding(" ", text[1..], "");
      TrimTrimmed(text[1..]);
    }
  }

  lemma ItemLine(st: State, item: string)
    requires GoodItem(item) && Open(st)
    ensures Step(st, "- " + item) == st.(items := Some(st.items.value + [item]))
  {
    var line := "- " + item;
    assert line[|line|-1] == item[|item|-1];
    TrimTrimmed(line);
    assert line[2..] == item;
    TrimTrimmed(item);
  }

  lemma StepsSnoc(st: State, lines: seq<string>, line: string)
    ensures Steps(st, lines + [line]) == Step(Steps(st, lines), line)
  {
    assert (lines + [line])[..|lines|] == lines;
  }

  lemma {:induction false} ItemsRead(st: State, items: seq<string>)
    requires Open(st) && forall item :: item in items ==> GoodItem(item)
    ensures Steps(st, ItemLines(items)) == st.(items := Some(st.items.value + items))
  {
    if items == [] {
      assert st.items.value + items == st.items.value;
    } else {
      var n := |items| - 1;
      assert items[n] in items;
      ItemsRead(st, items[..n]);
      ItemLine(Steps(st, ItemLines(items[..n])), items[n]);
      StepsSnoc(st, ItemLines(items[..n]), "- " + items[n]);
      assert st.items.value + items[..n] + [items[n]] == st.items.value + items;
    }
  }

  lemma ListReads(st: State, key: string, items: seq<string>)
    requires GoodKey(key) && GoodValue(List(items))
    ensures Finish(Steps(st, [key + ":"] + ItemLines(items))) == Finish(st)[key := List(items)]
  {
    assert key + ":" == key + ":" + "";
    FieldLine(st, key, "");
    var begun := Step(st, key + ":");
    StepsSnoc(st, [], key + ":");
    assert [] + [key + ":"] == [key + ":"];
    StepsConcat(st, [key + ":"], ItemLines(items));
    ItemsRead(begun, items);
    assert [] + items == items;
  }

  lemma OneStep(st: State, line: string)
    ensures Steps(st, [line]) == Step(st, line)
  {
    StepsSnoc(st, [], line);
    assert [] + [line] == [line];
  }

  lemma SpaceBelongsToText(key: string, text: string)
    ensures key + ": " + text == key + ":" + (" " + text) && (" " + text)[1..] == text
  {
  }

  lemma ScalarReads(st: State, key: string, v: Value)
    requires GoodKey(key) && GoodValue(v) && !v.List?
    ensures Finish(Steps(st, [key + ": " + ScalarText(v)])) == Finish(st)[key := v]
  {
    var text := ScalarText(v);
    ScalarTextReads(v);
    SpaceBelongsToText(key, text);
    FieldLine(st, key, " " + text);
    OneStep(st, key + ":" + (" " + text));
  }

  /** Reading an entry's lines adds the entry, whatever was read before. */
  lemma EntryReads(st: State, e: Entry)
    requires Good(e)
    ensures Finish(Steps(st, EntryLines(e))) == Finish(st)[e.key := e.value]
  {
    if e.value.List? {
      ListReads(st, e.key, e.value.items);
    } else {
      ScalarReads(st, e.key, e.value);
    }
  }

  lemma {:induction false} PrintedLinesRead(entries: seq<Entry>)
    requires forall e :: e in entries ==> Good(e)
    ensures ParseLines(PrintLines(entries)) == Meaning(entries)
  {
    if entries != [] {
      var n := |entries| - 1;
      assert entries[n] in entries;
      PrintedLinesRead(entries[..n]);
      StepsConcat(START, PrintLines(entries[..n]), EntryLines(entries[n]));
      EntryReads(Steps(START, PrintLines(entries[..n])), entries[n]);
    }
  }

  lemma {:induction false} ItemLinesAreLines(items: seq<string>)
    requires forall item :: item in items ==> GoodItem(item)
    ensures forall l :: l in ItemLines(items) ==> OneLine(l)
  {
    if items != [] {
      assert items[|items|-1] in items;
      ItemLinesAreLines(items[..|items|-1]);
    }
  }

  lemma {:induction false} PrintedLinesAreLines(entries: seq<Entry>)
    requires forall e :: e in entries ==> Good(e)
    ensures forall l :: l in PrintLines(entries) ==> OneLine(l)
    ensures entries != [] ==> PrintLines(entries) != []
  {
    if entries != [] {
      var e := entries[|entries|-1];
      assert e in entries;
      PrintedLinesAreLines(entries[..|entries|-1]);
      if e.value.List? {
        ItemLinesAreLines(e.value.items);
      } else {
        ScalarTextReads(e.value);
      }
    }
  }

  /** Parsing undoes printing. */
  lemma PrintRoundTrip(entries: seq<Entry>)
    requires forall e :: e in entries ==> Good(e)
    ensures Parse(Print(entries)) == Meaning(entries)
  {
    PrintedLinesRead(entries);
    if entries == [] {
      assert Parse("") == ParseLines([""]) == ParseLines([]) by {
        StepsSnoc(START, [], "");
        assert [] + [""] == [""];
      }
    } else {
      PrintedLinesAreLines(entries);
      SplitUndoesJoin(PrintLines(entries));
    }
  }

  /** The entries of a policy, its keys in the given order. */
  function EntriesOf(p: Policy, order: seq<string>): seq<Entry>
    requires forall k :: k in order ==> k in p
  {
    seq(|order|, i requires 0 <= i < |order| => Entry(order[i], p[order[i]]))
  }

  lemma {:induction false} MeaningOfEntries(p: Policy, order: seq<string>)
    requires forall k :: k in order ==> k in p
    ensures Meaning(EntriesOf(p, order)) == map k | k in order :: p[k]
  {
    if order != [] {
      var n := |order| - 1;
      MeaningOfEntries(p, order[..n]);
      assert EntriesOf(p, order)[..n] == EntriesOf(p, order[..n]);
      assert order == order[..n] + [order[n]];
    }
  }

  /** Every policy of good keys and values, printed in any order of its keys, is read back unchanged. */
  lemma PolicyRoundTrip(p: Policy, order: seq<string>)
    requires forall k :: k in order <==> k in p
    requires forall k :: k in p ==> GoodKey(k) && GoodValue(p[k])
    ensures Parse(Print(EntriesOf(p, order))) == p
  {
    forall e | e in EntriesOf(p, order) ensures Good(e) {
      var i :| 0 <= i < |order| && e == Entry(order[i], p[order[i]]);
      assert order[i] in order;
    }
    PrintRoundTrip(EntriesOf(p, order));
    MeaningOfEntries(p, order);
  }
}
