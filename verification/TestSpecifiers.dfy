/** Test specifiers: the lines of a test file and the parsing of each item (config_parser.py). */
module TestSpecifiers {
  import opened Wrappers
  import opened Strings

  /** A class, and the names of its cases if any were given. */
  datatype Specifier = Specifier(testClass: string, testCases: Option<seq<string>>)

  datatype Result<T> = Ok(value: T) | SyntaxError

  // ---------- the line loop of parse_test_file ----------

  predicate Continues(item: string) {
    EndsWith(item, ':') || EndsWith(item, ',')
  }

  function AddLine(tf: seq<string>, raw: string): seq<string> {
    var line := Strip(raw);
    if line == [] then tf
    else if tf != [] && Continues(tf[|tf| - 1]) then tf[..|tf| - 1] + [tf[|tf| - 1] + line]
    else tf + [line]
  }

  function AddLines(tf: seq<string>, lines: seq<string>): seq<string>
    decreases lines
  {
    if lines == [] then tf else AddLines(AddLine(tf, lines[0]), lines[1..])
  }

  function Concat(parts: seq<string>): string {
    if parts == [] then [] else parts[0] + Concat(parts[1..])
  }

  function Stripped(lines: seq<string>): seq<string> {
    if lines == [] then [] else [Strip(lines[0])] + Stripped(lines[1..])
  }

  /** The lines that have text, without their padding. */
  function Texts(lines: seq<string>): seq<string> {
    if lines == [] then []
    else if Strip(lines[0]) == [] then Texts(lines[1..])
    else [Strip(lines[0])] + Texts(lines[1..])
  }

  /** Items read from the front: a text that ends in a colon or comma takes in the item that begins behind it. */
  function Items(texts: seq<string>): seq<string> {
    if texts == [] then []
    else
      var text, rest := texts[0], Items(texts[1..]);
      if rest != [] && text != [] && (text[|text| - 1] == ':' || text[|text| - 1] == ',')
      then [text + rest[0]] + rest[1..]
      else [text] + rest
  }

  /** The items concatenate to the stripped lines, and only the last may still want a continuation. */
  method ParseTestFile(lines: seq<string>) returns (tf: seq<string>)
    ensures tf == AddLines([], lines)
    ensures tf == Items(Texts(lines))
    ensures Concat(tf) == Concat(Stripped(lines))
    ensures forall i :: 0 <= i < |tf| ==> tf[i] != [] && (i < |tf| - 1 ==> !Continues(tf[i]))
  {
    tf := [];
    for i := 0 to |lines|
      invariant AddLines(tf, lines[i..]) == AddLines([], lines)
    {
      assert lines[i..][1..] == lines[i + 1..];
      var line := Strip(lines[i]);
      if line == [] {
        continue;
      }
      if |tf| > 0 && (EndsWith(tf[|tf| - 1], ':') || EndsWith(tf[|tf| - 1], ',')) {
        tf := tf[..|tf| - 1] + [tf[|tf| - 1] + line];
      } else {
        tf := tf + [line];
      }
    }
    MergedLines([], lines);
    AddLinesAreItems([], lines);
  }

  /** tf with more items behind it, the first of which continues the last of tf if that wants it. */
  function Continued(tf: seq<string>, more: seq<string>): seq<string> {
    if tf != [] && more != [] && Continues(tf[|tf| - 1])
    then tf[..|tf| - 1] + [tf[|tf| - 1] + more[0]] + more[1..]
    else tf + more
  }

  /** Adding line after line at the end gives the items that reading from the front gives. */
  lemma {:induction false} AddLinesAreItems(tf: seq<string>, lines: seq<string>)
    ensures AddLines(tf, lines) == Continued(tf, Items(Texts(lines)))
    decreases lines
  {
    if lines == [] {
      assert tf + [] == tf;
    } else {
      AddLinesAreItems(AddLine(tf, lines[0]), lines[1..]);
      if Strip(lines[0]) != [] {
        FirstText(tf, Strip(lines[0]), Texts(lines[1..]));
        assert Texts(lines)[1..] == Texts(lines[1..]);
      }
    }
  }

  lemma ContinuedSnoc(init: seq<string>, last: string, more: seq<string>)
    ensures Continued(init + [last], more) ==
            if more != [] && Continues(last) then init + [last + more[0]] + more[1..] else init + [last] + more
  {
    assert (init + [last])[..|init|] == init;
  }

  lemma ItemsFirst(text: string, more: seq<string>)
    requires text != []
    ensures Items([text] + more) == Continued([] + [text], Items(more))
  {
    assert ([text] + more)[1..] == more;
    ContinuedSnoc([], text, Items(more));
  }

  lemma FirstText(tf: seq<string>, text: string, more: seq<string>)
    requires text != []
    ensures Continued(Continued(tf, [text]), Items(more)) == Continued(tf, Items([text] + more))
  {
    ItemsFirst(text, more);
    ContinuedSnoc([], text, Items(more));
    if tf != [] && Continues(tf[|tf| - 1]) {
      FirstTextContinues(tf[..|tf| - 1], tf[|tf| - 1], text, Items(more));
      assert tf == tf[..|tf| - 1] + [tf[|tf| - 1]];
    } else {
      ContinuedSnoc(tf, text, Items(more));
      ContinuedOf(tf, text, Items(more));
    }
  }

  lemma ContinuedOf(tf: seq<string>, text: string, items: seq<string>)
    requires tf == [] || !Continues(tf[|tf| - 1])
    ensures Continued(tf, [text]) == tf + [text]
    ensures Continued(tf, [] + [text] + items) == tf + [text] + items
    ensures items != [] ==>
              Continued(tf, [] + [text + items[0]] + items[1..]) == tf + [text + items[0]] + items[1..]
  {
    assert tf + ([] + [text] + items) == tf + [text] + items;
    if items != [] {
      assert tf + ([] + [text + items[0]] + items[1..]) == tf + [text + items[0]] + items[1..];
    }
  }

  lemma FirstTextContinues(init: seq<string>, last: string, text: string, items: seq<string>)
    requires text != [] && Continues(last)
    ensures Continued(init + [last], [text]) == init + [last + text]
    ensures var first := if items != [] && Continues(text) then [text + items[0]] + items[1..] else [text] + items;
            Continued(init + [last + text], items) == Continued(init + [last], first)
  {
    ContinuedSnoc(init, last, [text]);
    ContinuesAlike(last, text);
    ContinuedSnoc(init, last + text, items);
    if items != [] && Continues(text) {
      var first := [text + items[0]] + items[1..];
      ContinuedSnoc(init, last, first);
      assert first[0] == text + items[0] && first[1..] == items[1..];
      assert (last + text) + items[0] == last + (text + items[0]);
    } else {
      var first := [text] + items;
      ContinuedSnoc(init, last, first);
      assert first[0] == text && first[1..] == items;
    }
  }

  lemma ContinuesAlike(last: string, text: string)
    requires text != []
    ensures Continues(last + text) <==> Continues(text)
  {
    assert (last + text)[|last + text| - 1] == text[|text| - 1];
  }

  /** The lines of a file as they arrive. */
  function WithNewlines(lines: seq<string>): seq<string> {
    if lines == [] then [] else [lines[0] + ['\n']] + WithNewlines(lines[1..])
  }

  lemma StripOfLine(line: string)
    requires Trimmed(line)
    ensures Strip(line) == line && Strip(line + ['\n']) == line
  {
    StripOfTrimmed(line);
    SpaceCodes('\n');
    StripOfPadded([], line, ['\n']);
    assert [] + line + ['\n'] == line + ['\n'];
  }

  lemma {:induction false} TextsOfTrimmed(lines: seq<string>)
    requires forall i :: 0 <= i < |lines| ==> Trimmed(lines[i]) && lines[i] != []
    ensures Texts(lines) == lines && Texts(WithNewlines(lines)) == lines
  {
    if lines == [] {
    } else {
      var rest := lines[1..];
      StripOfLine(lines[0]);
      TextsOfTrimmed(rest);
      assert WithNewlines(lines)[1..] == WithNewlines(rest);
      assert lines == [lines[0]] + rest;
    }
  }

  /** A file of trimmed lines, each with its newline, has the items of the lines themselves. */
  lemma NewlinesAreHarmless(lines: seq<string>)
    requires forall i :: 0 <= i < |lines| ==> Trimmed(lines[i]) && lines[i] != []
    ensures AddLines([], WithNewlines(lines)) == AddLines([], lines) == Items(lines)
  {
    TextsOfTrimmed(lines);
    AddLinesAreItems([], lines);
    AddLinesAreItems([], WithNewlines(lines));
    assert [] + Items(lines) == Items(lines);
  }

  /** For one: a line that ends in a delimiter and a newline is continued by the next line, any other is not. */
  lemma TwoLines(one: string, two: string)
    requires Trimmed(one) && Trimmed(two) && one != [] && two != []
    ensures AddLines([], [one + ['\n'], two + ['\n']]) ==
            if one[|one| - 1] == ':' || one[|one| - 1] == ',' then [one + two] else [one, two]
  {
    NewlinesAreHarmless([one, two]);
    TwoNewlines(one, two);
    TwoItems(one, two);
  }

  lemma TwoNewlines(one: string, two: string)
    ensures WithNewlines([one, two]) == [one + ['\n'], two + ['\n']]
  {
    assert [one, two][1..] == [two] && [two][1..] == [];
    assert WithNewlines([two]) == [two + ['\n']];
  }

  lemma TwoItems(one: string, two: string)
    requires one != []
    ensures Items([one, two]) ==
            if one[|one| - 1] == ':' || one[|one| - 1] == ',' then [one + two] else [one, two]
  {
    assert [one, two][1..] == [two] && [two][1..] == [];
    assert Items([two]) == [two];
  }

  predicate Merged(tf: seq<string>) {
    forall i :: 0 <= i < |tf| ==> tf[i] != [] && (i < |tf| - 1 ==> !Continues(tf[i]))
  }

  lemma {:induction false} ConcatSnoc(parts: seq<string>, s: string)
    ensures Concat(parts + [s]) == Concat(parts) + s
  {
    if parts == [] {
      assert parts + [s] == [s] && [s][1..] == [];
    } else {
      assert (parts + [s])[1..] == parts[1..] + [s];
      ConcatSnoc(parts[1..], s);
      assert parts[0] + (Concat(parts[1..]) + s) == Concat(parts) + s;
    }
  }

  lemma AddLineKeepsText(tf: seq<string>, raw: string)
    ensures Concat(AddLine(tf, raw)) == Concat(tf) + Strip(raw)
  {
    var line := Strip(raw);
    ConcatSnoc(tf, line);
    if tf != [] {
      var init, last := tf[..|tf| - 1], tf[|tf| - 1];
      assert tf == init + [last];
      ConcatSnoc(init, last);
      ConcatSnoc(init, last + line);
      assert Concat(init) + (last + line) == (Concat(init) + last) + line;
    }
  }

  lemma AddLineKeepsMerged(tf: seq<string>, raw: string)
    requires Merged(tf)
    ensures Merged(AddLine(tf, raw))
  {
  }

  lemma {:induction false} MergedLines(tf: seq<string>, lines: seq<string>)
    requires Merged(tf)
    ensures Merged(AddLines(tf, lines))
    ensures Concat(AddLines(tf, lines)) == Concat(tf) + Concat(Stripped(lines))
    decreases lines
  {
    if lines == [] {
      assert Concat(tf) + [] == Concat(tf);
    } else {
      var next, rest := AddLine(tf, lines[0]), Concat(Stripped(lines[1..]));
      AddLineKeepsText(tf, lines[0]);
      AddLineKeepsMerged(tf, lines[0]);
      MergedLines(next, lines[1..]);
      ConcatAssociates(Concat(tf), Strip(lines[0]), rest);
    }
  }

  lemma ConcatAssociates(a: string, b: string, c: string)
    ensures (a + b) + c == a + (b + c)
  {
  }

  // ---------- one specifier ----------

  function StripAll(parts: seq<string>): seq<string> {
    if parts == [] then [] else [Strip(parts[0])] + StripAll(parts[1..])
  }

  function CleanNames(text: string): seq<string> {
    StripAll(Split(text, ','))
  }

  function ParseOne(item: string): Result<Specifier> {
    var tokens := Split(item, ':');
    if |tokens| > 2 then SyntaxError
    else if |tokens| == 1 then Ok(Specifier(tokens[0], None))
    else Ok(Specifier(tokens[0], Some(CleanNames(tokens[1]))))
  }

  function ParseList(items: seq<string>): Result<seq<Specifier>> {
    if items == [] then Ok([])
    else
      match ParseOne(items[0])
      case SyntaxError => SyntaxError
      case Ok(first) =>
        match ParseList(items[1..])
        case SyntaxError => SyntaxError
        case Ok(rest) => Ok([first] + rest)
  }

  /** One result for each item, or the error of the first item that has one. */
  method ParseTestList(testList: seq<string>) returns (result: Result<seq<Specifier>>)
    ensures result == ParseList(testList)
    ensures result.SyntaxError? <==> exists i :: 0 <= i < |testList| && Occurrences(testList[i], ':') > 1
    ensures result.Ok? ==> |result.value| == |testList|
                           && forall i :: 0 <= i < |testList| ==> ParseOne(testList[i]) == Ok(result.value[i])
  {
    ParseListItems(testList);
    var parsed: seq<Specifier> := [];
    assert testList[0..] == testList;
    assert ParseList(testList).Ok? ==> parsed + ParseList(testList).value == ParseList(testList).value;
    for i := 0 to |testList|
      invariant ParseList(testList) == Behind(parsed, ParseList(testList[i..]))
    {
      assert testList[i..][1..] == testList[i + 1..];
      var one := ParseOne(testList[i]);
      if one.SyntaxError? {
        return SyntaxError;
      }
      if ParseList(testList[i + 1..]).Ok? {
        BehindOne(parsed, one.value, ParseList(testList[i + 1..]));
      }
      parsed := parsed + [one.value];
    }
    assert testList[|testList|..] == [] && parsed + [] == parsed;
    result := Ok(parsed);
  }

  function Behind(parsed: seq<Specifier>, rest: Result<seq<Specifier>>): Result<seq<Specifier>> {
    match rest
    case SyntaxError => SyntaxError
    case Ok(more) => Ok(parsed + more)
  }

  lemma BehindOne(parsed: seq<Specifier>, one: Specifier, rest: Result<seq<Specifier>>)
    requires rest.Ok?
    ensures Behind(parsed, Ok([one] + rest.value)) == Behind(parsed + [one], rest)
  {
    assert parsed + ([one] + rest.value) == parsed + [one] + rest.value;
  }

  lemma {:induction false} ParseListItems(items: seq<string>)
    ensures ParseList(items).SyntaxError? <==> exists i :: 0 <= i < |items| && Occurrences(items[i], ':') > 1
    ensures ParseList(items).Ok? ==>
              && |ParseList(items).value| == |items|
              && forall i :: 0 <= i < |items| ==> ParseOne(items[i]) == Ok(ParseList(items).value[i])
  {
    if items == [] {
    } else {
      PiecesOfSplit(items[0], ':');
      ParseListItems(items[1..]);
      assert forall i :: 1 <= i < |items| ==> items[i] == items[1..][i - 1];
    }
  }

  /** Without a colon the item is a class, and no names are given: not even an empty list. */
  lemma ClassAlone(item: string)
    ensures ParseOne(item) == Ok(Specifier(item, None)) <==> ':' !in item
    ensures ParseOne(item).Ok? && ParseOne(item).value.testCases == None <==> ':' !in item
    ensures ParseOne(item).SyntaxError? <==> Occurrences(item, ':') > 1
  {
    PiecesOfSplit(item, ':');
    if ':' !in item {
      SplitWithout(item, ':');
    }
  }

  // ---------- printing a specifier and parsing it ----------

  function Print(testClass: string, names: seq<string>): string {
    testClass + [':'] + Join(names, ',')
  }

  lemma {:induction false} StripAllIsIdentity(parts: seq<string>)
    ensures |StripAll(parts)| == |parts|
    ensures StripAll(parts) == parts <==> forall i :: 0 <= i < |parts| ==> Strip(parts[i]) == parts[i]
  {
    if parts == [] {
    } else {
      StripAllIsIdentity(parts[1..]);
      assert parts == [parts[0]] + parts[1..];
    }
  }

  function Total(parts: seq<string>, c: char): nat {
    if parts == [] then 0 else Occurrences(parts[0], c) + Total(parts[1..], c)
  }

  lemma {:induction false} OccurrencesInJoin(parts: seq<string>, sep: char, c: char)
    ensures Occurrences(Join(parts, sep), c) ==
            Total(parts, c) + if c == sep && parts != [] then |parts| - 1 else 0
  {
    if |parts| > 1 {
      OccurrencesInJoin(parts[1..], sep, c);
      OccurrencesInConcat(parts[0] + [sep], Join(parts[1..], sep), c);
      OccurrencesInConcat(parts[0], [sep], c);
      assert [sep][1..] == [];
    } else if |parts| == 1 {
      assert parts[1..] == [];
    }
  }

  lemma {:induction false} TotalIsZero(parts: seq<string>, c: char)
    ensures Total(parts, c) == 0 <==> forall i :: 0 <= i < |parts| ==> c !in parts[i]
  {
    if parts == [] {
    } else {
      PiecesOfSplit(parts[0], c);
      TotalIsZero(parts[1..], c);
    }
  }

  /** A class and the names of its cases come back exactly when they are free of delimiters and padding. */
  lemma {:induction false} PrintedSpecifierParses(testClass: string, names: seq<string>)
    ensures ParseOne(Print(testClass, names)) == Ok(Specifier(testClass, Some(names))) <==>
            && ':' !in testClass && names != []
            && forall i :: 0 <= i < |names| ==> ':' !in names[i] && ',' !in names[i] && Trimmed(names[i])
  {
    forall i | 0 <= i < |names|
      ensures Strip(names[i]) == names[i] <==> Trimmed(names[i])
    {
      SameIffTrimmed(names[i]);
    }
    var joined := Join(names, ',');
    var item := Print(testClass, names);
    OccurrencesInConcat(testClass + [':'], joined, ':');
    OccurrencesInConcat(testClass, [':'], ':');
    assert [':'][1..] == [];
    PiecesOfSplit(item, ':');
    PiecesOfSplit(testClass, ':');
    OccurrencesInJoin(names, ',', ':');
    TotalIsZero(names, ':');
    if ':' !in testClass && Total(names, ':') == 0 {
      PiecesOfSplit(joined, ':');
      SplitPrefix(testClass, ':', joined);
      SplitWithout(joined, ':');
      NamesParse(names);
    }
  }

  lemma {:induction false} NamesParse(names: seq<string>)
    ensures CleanNames(Join(names, ',')) == names <==>
            names != [] && forall i :: 0 <= i < |names| ==> ',' !in names[i] && Strip(names[i]) == names[i]
  {
    var joined := Join(names, ',');
    OccurrencesInJoin(names, ',', ',');
    TotalIsZero(names, ',');
    PiecesOfSplit(joined, ',');
    StripAllIsIdentity(Split(joined, ','));
    if names != [] && Total(names, ',') == 0 {
      SplitOfJoin(names, ',');
    }
  }

  /** Padding around the names goes; the class is taken as it is. */
  lemma PaddedNamesParse(testClass: string, names: seq<string>, padded: seq<string>)
    requires ':' !in testClass && names != [] && |padded| == |names|
    requires forall i :: 0 <= i < |names| ==> Trimmed(names[i]) && ':' !in names[i] && ',' !in names[i]
    requires forall i :: 0 <= i < |names| ==> IsPadded(padded[i], names[i])
    ensures ParseOne(Print(testClass, padded)) == Ok(Specifier(testClass, Some(names)))
  {
    forall i | 0 <= i < |names|
      ensures Strip(padded[i]) == names[i] && ':' !in padded[i] && ',' !in padded[i]
    {
      PaddedName(padded[i], names[i]);
    }
    var joined := Join(padded, ',');
    TotalIsZero(padded, ':');
    OccurrencesInJoin(padded, ',', ':');
    PiecesOfSplit(joined, ':');
    SplitPrefix(testClass, ':', joined);
    SplitWithout(joined, ':');
    SplitOfJoin(padded, ',');
    StripAllAre(padded, names);
  }

  lemma PaddedName(padded: string, name: string)
    requires IsPadded(padded, name) && Trimmed(name) && ':' !in name && ',' !in name
    ensures Strip(padded) == name && ':' !in padded && ',' !in padded
  {
    var a, b :| AllSpace(a) && AllSpace(b) && padded == a + name + b;
    StripOfPadded(a, name, b);
  }

  ghost predicate IsPadded(padded: string, name: string) {
    exists a, b :: AllSpace(a) && AllSpace(b) && padded == a + name + b
  }

  lemma {:induction false} StripAllAre(padded: seq<string>, names: seq<string>)
    requires |padded| == |names| && forall i :: 0 <= i < |names| ==> Strip(padded[i]) == names[i]
    ensures StripAll(padded) == names
  {
    if names == [] {
    } else {
      StripAllAre(padded[1..], names[1..]);
      assert names == [names[0]] + names[1..];
    }
  }
}
