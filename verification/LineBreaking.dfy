/** Breaking test specifiers over several lines, and what that does to the parsed test list. */
module LineBreaking {
  import opened Strings
  import opened TestSpecifiers

  // ---------- whitespace behind a delimiter ----------

  lemma StripAllGlue(p: seq<string>, q: seq<string>, gap: string)
    requires p != [] && q != [] && p[|p| - 1] == [] && AllSpace(gap)
    ensures StripAll(Glue(p, [gap + q[0]] + q[1..])) == StripAll(Glue(p, q))
  {
    var init, rest := p[..|p| - 1], q[1..];
    assert p[|p| - 1] + q[0] == q[0] && p[|p| - 1] + (gap + q[0]) == gap + q[0];
    LStripPadding(gap, q[0]);
    StripAllConcat(init, [q[0]] + rest);
    StripAllConcat(init, [gap + q[0]] + rest);
    assert Glue(p, q) == init + ([q[0]] + rest);
    assert Glue(p, [gap + q[0]] + rest) == init + ([gap + q[0]] + rest);
    assert ([q[0]] + rest)[1..] == rest && ([gap + q[0]] + rest)[1..] == rest;
  }

  lemma {:induction false} StripAllConcat(a: seq<string>, b: seq<string>)
    ensures StripAll(a + b) == StripAll(a) + StripAll(b)
  {
    if a == [] {
      assert a + b == b;
    } else {
      assert (a + b)[1..] == a[1..] + b;
      StripAllConcat(a[1..], b);
    }
  }

  /** A gap without the separator only lengthens the first piece. */
  lemma SplitOfGap(gap: string, text: string, sep: char)
    requires sep !in gap
    ensures var q := Split(text, sep); Split(gap + text, sep) == [gap + q[0]] + q[1..]
  {
    SplitWithout(gap, sep);
    SplitOfConcat(gap, text, sep);
  }

  lemma GapHasNoDelimiter(gap: string)
    requires AllSpace(gap)
    ensures ':' !in gap && ',' !in gap
  {
  }

  /** Names are stripped, so a gap behind a comma or at the start leaves them as they are. */
  lemma GapBetweenNames(names: string, gap: string, text: string)
    requires names == [] || EndsWith(names, ',')
    requires AllSpace(gap)
    ensures CleanNames(names + (gap + text)) == CleanNames(names + text)
  {
    GapHasNoDelimiter(gap);
    LastPieceAfterSeparator(names, ',');
    SplitOfConcat(names, text, ',');
    SplitOfConcat(names, gap + text, ',');
    SplitOfGap(gap, text, ',');
    StripAllGlue(Split(names, ','), Split(text, ','), gap);
  }

  /** Two readings of one item: broken behind a delimiter, or with the gap still in it. */
  ghost predicate IsBreak(before: string, gap: string, after: string) {
    Continues(before) && AllSpace(gap) && after != []
  }

  /** The pieces between colons, with and without the gap. */
  lemma {:induction false} TokensAroundGap(before: string, gap: string, after: string)
    requires AllSpace(gap)
    ensures var p, q := Split(before, ':'), Split(after, ':');
            && Split(before + after, ':') == Glue(p, q)
            && Split(before + (gap + after), ':') == Glue(p, [gap + q[0]] + q[1..])
            && |Glue(p, q)| == |Glue(p, [gap + q[0]] + q[1..])| == |p| + |q| - 1
  {
    GapHasNoDelimiter(gap);
    SplitOfConcat(before, after, ':');
    SplitOfConcat(before, gap + after, ':');
    SplitOfGap(gap, after, ':');
  }

  /** The text behind the colon ends where the text before the gap ends. */
  lemma LastPieceOfBroken(before: string)
    requires Continues(before)
    ensures var p := Split(before, ':');
            p[|p| - 1] == [] || EndsWith(p[|p| - 1], ',')
  {
    if EndsWith(before, ':') {
      LastPieceAfterSeparator(before, ':');
    } else {
      var init := before[..|before| - 1];
      assert before == init + [','];
      assert [','][1..] == [];
      SplitWithout([','], ':');
      SplitOfConcat(init, [','], ':');
    }
  }

  /**
    Taking the gap out leaves the parse unchanged exactly when there is no gap, or the class was
    already complete before it, or the item is malformed either way. In a class name the gap counts.
   */
  lemma BreakParsesAlike(before: string, gap: string, after: string)
    requires IsBreak(before, gap, after)
    ensures ParseOne(before + after) == ParseOne(before + (gap + after)) <==>
            gap == [] || ':' in before || Occurrences(after, ':') > 1
  {
    var p, q := Split(before, ':'), Split(after, ':');
    PiecesOfSplit(before, ':');
    PiecesOfSplit(after, ':');
    TokensAroundGap(before, gap, after);
    if gap == [] {
      assert gap + after == after;
    } else if |p| == 1 {
      ClassWithGap(before, gap, after);
    } else if |p| == 2 && |q| == 1 {
      NamesWithGap(before, gap, after);
    }
  }

  lemma {:induction false} ClassWithGap(before: string, gap: string, after: string)
    requires AllSpace(gap) && gap != [] && |Split(before, ':')| == 1
    ensures ParseOne(before + after) == ParseOne(before + (gap + after)) <==> |Split(after, ':')| > 2
  {
    var p, q := Split(before, ':'), Split(after, ':');
    TokensAroundGap(before, gap, after);
    assert Glue(p, q)[0] == p[0] + q[0];
    assert Glue(p, [gap + q[0]] + q[1..])[0] == p[0] + (gap + q[0]);
    assert |p[0] + q[0]| < |p[0] + (gap + q[0])|;
  }

  lemma NamesWithGap(before: string, gap: string, after: string)
    requires Continues(before) && AllSpace(gap) && |Split(before, ':')| == 2 && |Split(after, ':')| == 1
    ensures ParseOne(before + after) == ParseOne(before + (gap + after))
  {
    var p, q := Split(before, ':'), Split(after, ':');
    TokensAroundGap(before, gap, after);
    LastPieceOfBroken(before);
    GapBetweenNames(p[1], gap, q[0]);
    assert Glue(p, q) == [p[0], p[1] + q[0]];
    assert Glue(p, [gap + q[0]] + q[1..]) == [p[0], p[1] + (gap + q[0])];
  }

  // ---------- whole files ----------

  /** Two lists of items that differ only by the gap in one of them. */
  ghost predicate Differ(broken: seq<string>, whole: seq<string>, before: string, gap: string, after: string, at: nat) {
    && |broken| == |whole| && at < |broken|
    && (forall i :: 0 <= i < |broken| && i != at ==> broken[i] == whole[i])
    && broken[at] == before + after && whole[at] == before + (gap + after)
  }

  lemma AddLineKeepsDifference(broken: seq<string>, whole: seq<string>, before: string, gap: string, after: string,
                               at: nat, raw: string) returns (more: string)
    requires IsBreak(before, gap, after) && Differ(broken, whole, before, gap, after, at)
    ensures after <= more && Differ(AddLine(broken, raw), AddLine(whole, raw), before, gap, more, at)
  {
    var line, last := Strip(raw), |broken| - 1;
    SameEnd(before, gap, after);
    assert Continues(broken[last]) <==> Continues(whole[last]);
    if line == [] {
      more := after;
    } else if !Continues(broken[last]) {
      more := after;
      assert AddLine(broken, raw) == broken + [line] && AddLine(whole, raw) == whole + [line];
    } else if at == last {
      more := after + line;
      assert (before + after) + line == before + more;
      assert (before + (gap + after)) + line == before + (gap + more);
    } else {
      more := after;
    }
  }

  lemma SameEnd(before: string, gap: string, after: string)
    requires after != []
    ensures Continues(before + after) <==> Continues(before + (gap + after))
  {
    assert (before + after)[|before + after| - 1] == after[|after| - 1];
    assert (before + (gap + after))[|before + (gap + after)| - 1] == after[|after| - 1];
  }

  lemma {:induction false} AddLinesKeepDifference(broken: seq<string>, whole: seq<string>, before: string, gap: string,
                                                  after: string, at: nat, lines: seq<string>) returns (more: string)
    requires IsBreak(before, gap, after) && Differ(broken, whole, before, gap, after, at)
    ensures after <= more && Differ(AddLines(broken, lines), AddLines(whole, lines), before, gap, more, at)
    decreases lines
  {
    if lines == [] {
      more := after;
    } else {
      var next := AddLineKeepsDifference(broken, whole, before, gap, after, at, lines[0]);
      var broken', whole' := AddLine(broken, lines[0]), AddLine(whole, lines[0]);
      more := AddLinesKeepDifference(broken', whole', before, gap, next, at, lines[1..]);
    }
  }

  lemma {:induction false} AddLinesConcat(tf: seq<string>, a: seq<string>, b: seq<string>)
    ensures AddLines(tf, a + b) == AddLines(AddLines(tf, a), b)
    decreases a
  {
    if a == [] {
      assert a + b == b;
    } else {
      assert (a + b)[1..] == a[1..] + b;
      AddLinesConcat(AddLine(tf, a[0]), a[1..], b);
    }
  }

  lemma {:induction false} BlankLinesAddNothing(tf: seq<string>, blanks: seq<string>)
    requires forall i :: 0 <= i < |blanks| ==> Strip(blanks[i]) == []
    ensures AddLines(tf, blanks) == tf
    decreases blanks
  {
    if blanks == [] {
    } else {
      BlankLinesAddNothing(tf, blanks[1..]);
    }
  }

  /** The item that a line would be added to. */
  function Pending(tf: seq<string>): string {
    if tf != [] && Continues(tf[|tf| - 1]) then tf[|tf| - 1] else []
  }

  /** Lists that differ in one item, well-formed in both or in neither, parse alike when it does or another is bad. */
  lemma {:induction false} ParseListsAlike(a: seq<string>, b: seq<string>, at: nat)
    requires |a| == |b| && at < |a| && forall i :: 0 <= i < |a| && i != at ==> a[i] == b[i]
    requires ParseOne(a[at]).Ok? <==> ParseOne(b[at]).Ok?
    ensures ParseList(a) == ParseList(b) <==> ParseOne(a[at]) == ParseOne(b[at]) || ParseList(b).SyntaxError?
  {
    if at == 0 {
      assert a[1..] == b[1..];
      ParseListHead(a);
      ParseListHead(b);
    } else {
      assert a[0] == b[0];
      ParseListsAlike(a[1..], b[1..], at - 1);
      ParseListHead(a);
      ParseListHead(b);
    }
  }

  lemma ParseListHead(items: seq<string>)
    requires items != []
    ensures var first, rest := ParseOne(items[0]), ParseList(items[1..]);
            && (ParseList(items).Ok? <==> first.Ok? && rest.Ok?)
            && (ParseList(items).Ok? ==> ParseList(items).value[..1] == [first.value]
                                         && ParseList(items).value[1..] == rest.value)
  {
  }

  lemma DifferenceParsesAlike(broken: seq<string>, whole: seq<string>, before: string, gap: string, after: string,
                              at: nat)
    requires IsBreak(before, gap, after) && Differ(broken, whole, before, gap, after, at)
    ensures ParseList(broken) == ParseList(whole) <==>
            gap == [] || ':' in before || ParseList(whole).SyntaxError?
  {
    BreakParsesAlike(before, gap, after);
    TokensAroundGap(before, gap, after);
    PiecesOfSplit(before, ':');
    PiecesOfSplit(after, ':');
    ParseListsAlike(broken, whole, at);
    if Occurrences(after, ':') > 1 {
      ParseListItems(whole);
      assert ParseOne(whole[at]).SyntaxError?;
    }
  }

  /** Items that differ by a gap, with whatever lines follow. */
  lemma RestOfFileParsesAlike(broken: seq<string>, whole: seq<string>, before: string, gap: string, after: string,
                              at: nat, lines: seq<string>)
    requires IsBreak(before, gap, after) && Differ(broken, whole, before, gap, after, at)
    ensures ParseList(AddLines(broken, lines)) == ParseList(AddLines(whole, lines)) <==>
            gap == [] || ':' in before || ParseList(AddLines(whole, lines)).SyntaxError?
  {
    var more := AddLinesKeepDifference(broken, whole, before, gap, after, at, lines);
    DifferenceParsesAlike(AddLines(broken, lines), AddLines(whole, lines), before, gap, more, at);
  }

  /**
    Two lines of a file, with any padding and any blank lines between them, against one line with
    a gap in place of the break: the parsed test list is the same exactly when the gap is empty, the
    class name was complete at the break, or some item has more than one colon.
   */
  lemma BreakingLinesIsHarmless(before: seq<string>, head: string, gap: string, tail: string, after: seq<string>,
                                one: string, blanks: seq<string>, two: string, whole: string)
    requires Trimmed(head) && Continues(head) && Trimmed(tail) && tail != [] && AllSpace(gap)
    requires Strip(one) == head && Strip(two) == tail
    requires forall i :: 0 <= i < |blanks| ==> Strip(blanks[i]) == []
    requires Strip(whole) == head + (gap + tail)
    ensures var items := AddLines([], before + [whole] + after);
            ParseList(AddLines([], before + [one] + blanks + [two] + after)) == ParseList(items) <==>
            || gap == []
            || ':' in Pending(AddLines([], before)) + head
            || exists i :: 0 <= i < |items| && Occurrences(items[i], ':') > 1
  {
    var tf := AddLines([], before);
    var broken, unbroken := AddLine(AddLine(tf, one), two), AddLine(tf, whole);
    BrokenItems(tf, one, blanks, two, before, after);
    WholeItems(tf, whole, before, after);
    ParseListItems(AddLines(unbroken, after));
    var at := if tf != [] && Continues(tf[|tf| - 1]) then |tf| - 1 else |tf|;
    TwoLinesAgainstOne(tf, head, gap, tail, one, two, whole, at);
    RestOfFileParsesAlike(broken, unbroken, Pending(tf) + head, gap, tail, at, after);
  }

  lemma {:induction false} BrokenItems(tf: seq<string>, one: string, blanks: seq<string>, two: string,
                                       before: seq<string>, after: seq<string>)
    requires tf == AddLines([], before)
    requires forall i :: 0 <= i < |blanks| ==> Strip(blanks[i]) == []
    ensures AddLines([], before + [one] + blanks + [two] + after) == AddLines(AddLine(AddLine(tf, one), two), after)
  {
    AddLinesConcat([], before + [one] + blanks + [two], after);
    AddLinesConcat([], before + [one] + blanks, [two]);
    AddLinesConcat([], before + [one], blanks);
    AddLinesConcat([], before, [one]);
    assert [one][1..] == [] && [two][1..] == [];
    BlankLinesAddNothing(AddLine(tf, one), blanks);
  }

  lemma WholeItems(tf: seq<string>, whole: string, before: seq<string>, after: seq<string>)
    requires tf == AddLines([], before)
    ensures AddLines([], before + [whole] + after) == AddLines(AddLine(tf, whole), after)
  {
    AddLinesConcat([], before + [whole], after);
    AddLinesConcat([], before, [whole]);
    assert [whole][1..] == [];
  }

  lemma {:induction false} TwoLinesAgainstOne(tf: seq<string>, head: string, gap: string, tail: string,
                                              one: string, two: string, whole: string, at: nat)
    requires Continues(head) && tail != [] && AllSpace(gap)
    requires Strip(one) == head && Strip(two) == tail && Strip(whole) == head + (gap + tail)
    requires at == if tf != [] && Continues(tf[|tf| - 1]) then |tf| - 1 else |tf|
    ensures IsBreak(Pending(tf) + head, gap, tail)
    ensures Differ(AddLine(AddLine(tf, one), two), AddLine(tf, whole), Pending(tf) + head, gap, tail, at)
  {
    var p := Pending(tf) + head;
    var first := AddLine(tf, one);
    assert tf[..|tf|] == tf && (Pending(tf) == [] ==> p == head);
    assert first == tf[..at] + [p];
    assert AddLine(first, two) == tf[..at] + [p + tail];
    assert Pending(tf) + (head + (gap + tail)) == p + (gap + tail);
    assert AddLine(tf, whole) == tf[..at] + [p + (gap + tail)];
  }

  lemma BrokenClassName()
    ensures AddLines([], ["A, B"]) == ["A, B"] && AddLines([], ["A,", "B"]) == ["A," + "B"]
  {
    StripOfTrimmed("A, B");
    StripOfTrimmed("A,");
    StripOfTrimmed("B");
    assert ["A, B"][1..] == [] && ["A,", "B"][1..] == ["B"] && ["B"][1..] == [];
    assert AddLine([], "A, B") == ["A, B"];
    assert AddLine([], "A,") == ["A,"] && AddLine(["A,"], "B") == ["A," + "B"];
  }

  lemma ListOfOne(item: string)
    requires ':' !in item
    ensures ParseOne(item).Ok? && ParseList([item]) == Ok([ParseOne(item).value])
  {
    PiecesOfSplit(item, ':');
    assert |Split(item, ':')| == 1 && [item][1..] == [];
    assert [ParseOne(item).value] + [] == [ParseOne(item).value];
  }

  /** Where the class name is not complete the gap is part of it. */
  lemma BreakInClassNameMatters()
    ensures ParseList(AddLines([], ["A, B"])) != ParseList(AddLines([], ["A,", "B"]))
  {
    BrokenClassName();
    ListOfOne("A, B");
    ListOfOne("A," + "B");
    assert AllSpace(" ") && "A," + (" " + "B") == "A, B";
    PiecesOfSplit("B", ':');
    BreakParsesAlike("A,", " ", "B");
  }
}
