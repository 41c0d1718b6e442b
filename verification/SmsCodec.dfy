/**
  Percent-escaping of SMS text (RFC 3986, section 2.1) in _anritsu_utils.py.

  The encoder works character by character. The decoder makes one global replacement pass
  per table entry, guarded by a test on the text it was given. The lemmas hold for every
  escape table of the right shape; the literal tables are instances.
 */
module SmsCodec {
  import opened Strings

  type Table = map<char, string>

  /** One entry of the decoder's table, and one pass of the decoder. */
  datatype Entry = Entry(escape: string, c: char)

  const ESCAPED_PERCENT := "%25"

  /** The characters of escapes other than '%' stand for themselves. */
  predicate IsEscape(table: Table, e: string) {
    && (|e| == 3 || |e| == 6)
    && e[0] == '%' && e[1] !in table && e[2] !in table
    && (|e| == 6 ==> e[3] == '%' && e[4] !in table && e[5] !in table)
  }

  /**
    Escapes can be told apart by their first three characters, and the second half of a long
    one (a UTF-8 continuation byte) starts no escape.
   */
  ghost predicate IsEscapeTable(table: Table) {
    && '%' in table && table['%'] == ESCAPED_PERCENT
    && (forall c :: c in table ==> IsEscape(table, table[c]))
    && (forall c, d :: c in table && d in table && table[c][..3] == table[d][..3] ==> c == d)
    && (forall c, d :: c in table && d in table && |table[c]| == 6 ==> table[c][3..] != table[d][..3])
  }

  /** entries lists exactly the inverse of table, in some order. */
  ghost predicate Inverts(entries: seq<Entry>, table: Table) {
    && (forall i :: 0 <= i < |entries| ==> entries[i].c in table && entries[i].escape == table[entries[i].c])
    && (forall c :: c in table ==> Entry(table[c], c) in entries)
  }

  // ---------- the code ----------

  function Display(table: Table, c: char, plain: set<char>): string {
    if c in table && c !in plain then table[c] else [c]
  }

  /** text with every table character outside plain escaped. */
  function Mixed(table: Table, text: string, plain: set<char>): string {
    if text == [] then [] else Display(table, text[0], plain) + Mixed(table, text[1..], plain)
  }

  /** The passes of the decoder on coded; received is the text it was given. */
  function Passes(entries: seq<Entry>, received: string, coded: string): string
    requires forall i :: 0 <= i < |entries| ==> entries[i].escape != []
  {
    if entries == [] then
      coded
    else
      var e := entries[0];
      Passes(entries[1..], received, if Contains(received, e.escape) then Replace(coded, e.escape, [e.c]) else coded)
  }

  method Encode(table: Table, text: string) returns (codedStr: string)
    ensures codedStr == Mixed(table, text, {})
  {
    codedStr := "";
    for i := 0 to |text|
      invariant codedStr + Mixed(table, text[i..], {}) == Mixed(table, text, {})
    {
      MixedFirst(table, text, i, codedStr);
      if text[i] in table {
        codedStr := codedStr + table[text[i]];
      } else {
        codedStr := codedStr + [text[i]];
      }
    }
  }

  lemma MixedFirst(table: Table, text: string, i: nat, before: string)
    requires i < |text|
    ensures before + Mixed(table, text[i..], {}) ==
            before + Display(table, text[i], {}) + Mixed(table, text[i + 1..], {})
  {
    assert text[i..][1..] == text[i + 1..];
  }

  method Decode(entries: seq<Entry>, text: string) returns (codedStr: string)
    requires forall i :: 0 <= i < |entries| ==> entries[i].escape != []
    ensures codedStr == Passes(entries, text, text)
  {
    codedStr := text;
    for i := 0 to |entries|
      invariant Passes(entries[i..], text, codedStr) == Passes(entries, text, text)
    {
      if Contains(text, entries[i].escape) {
        codedStr := Replace(codedStr, entries[i].escape, [entries[i].c]);
      }
      assert entries[i..][1..] == entries[i + 1..];
    }
  }

  /** In an encoded text every character of the table but '%' has been escaped. */
  lemma {:induction false} EncodedTextIsPlain(table: Table, text: string, c: char)
    requires IsEscapeTable(table) && c in Mixed(table, text, {})
    ensures c == '%' || c !in table
  {
    if text == [] {
    } else {
      var first, rest := Display(table, text[0], {}), Mixed(table, text[1..], {});
      if c in rest {
        EncodedTextIsPlain(table, text[1..], c);
      } else if text[0] in table {
        assert IsEscape(table, table[text[0]]);
      }
    }
  }

  // ---------- one pass ----------

  /** What a pass for c does to the underlying text: nothing while '%' is still escaped. */
  function LiteralPass(text: string, e: Entry, plain: set<char>): string
    requires e.escape != []
  {
    if '%' in plain then Replace(text, e.escape, [e.c]) else text
  }

  lemma {:induction false} MixedConcat(table: Table, s: string, t: string, plain: set<char>)
    ensures Mixed(table, s + t, plain) == Mixed(table, s, plain) + Mixed(table, t, plain)
  {
    if s == [] {
      assert s + t == t;
    } else {
      assert (s + t)[1..] == s[1..] + t;
      MixedConcat(table, s[1..], t, plain);
    }
  }

  /** Characters that are shown as they are. */
  lemma {:induction false} MixedOfPlain(table: Table, s: string, plain: set<char>)
    requires forall i :: 0 <= i < |s| ==> s[i] !in table || s[i] in plain
    ensures Mixed(table, s, plain) == s
  {
    if s == [] {
    } else {
      MixedOfPlain(table, s[1..], plain);
    }
  }

  predicate StartsWith(s: string, p: char) {
    s != [] && s[0] == p
  }

  predicate StartsWithPair(s: string, p: char, q: char) {
    |s| >= 2 && s[0] == p && s[1] == q
  }

  /** A character outside the table shows up in front only if it is in front. */
  lemma PlainInFront(table: Table, text: string, plain: set<char>, p: char)
    requires IsEscapeTable(table) && p !in table
    ensures StartsWith(Mixed(table, text, plain), p) <==> StartsWith(text, p)
    ensures StartsWith(text, p) ==> Mixed(table, text, plain) == [p] + Mixed(table, text[1..], plain)
  {
    if text != [] {
      assert Display(table, text[0], plain)[0] == Mixed(table, text, plain)[0];
    }
  }

  lemma PlainPairInFront(table: Table, text: string, plain: set<char>, p: char, q: char)
    requires IsEscapeTable(table) && p !in table && q !in table
    ensures StartsWithPair(Mixed(table, text, plain), p, q) <==> StartsWithPair(text, p, q)
    ensures StartsWithPair(text, p, q) ==> Mixed(table, text, plain) == [p, q] + Mixed(table, text[2..], plain)
  {
    PlainInFront(table, text, plain, p);
    if StartsWith(text, p) {
      PlainInFront(table, text[1..], plain, q);
      assert Mixed(table, text, plain)[1..] == Mixed(table, text[1..], plain);
      if StartsWith(text[1..], q) {
        assert text[1..][1..] == text[2..];
        assert [p] + ([q] + Mixed(table, text[2..], plain)) == [p, q] + Mixed(table, text[2..], plain);
      }
    }
  }

  /**
    A '%' that is shown as itself, followed by plain characters, forms the escape of c in the
    mixed text only if the underlying text spells that escape out.
   */
  lemma LiteralShortEscape(table: Table, rest: string, plain: set<char>, c: char)
    requires IsEscapeTable(table) && c in table && '%' in plain && |table[c]| == 3
    ensures HasPrefix(['%'] + Mixed(table, rest, plain), table[c]) <==> HasPrefix(['%'] + rest, table[c])
  {
    var e := table[c];
    PlainPairInFront(table, rest, plain, e[1], e[2]);
    HasPrefixOfThree(['%'] + Mixed(table, rest, plain), e);
    HasPrefixOfThree(['%'] + rest, e);
  }

  lemma HasPrefixOfThree(s: string, e: string)
    requires |e| == 3
    ensures HasPrefix(s, e) <==> |s| >= 3 && s[0] == e[0] && s[1] == e[1] && s[2] == e[2]
  {
    if |s| >= 3 {
      assert s[..3] == [s[0], s[1], s[2]] && e == [e[0], e[1], e[2]];
    }
  }

  lemma HasPrefixInHalves(s: string, e: string)
    requires |e| == 6
    ensures HasPrefix(s, e) <==> HasPrefix(s, e[..3]) && HasPrefix(s[3..], e[3..])
  {
    if |s| >= 6 {
      assert s[..6] == s[..3] + s[3..][..3] && e == e[..3] + e[3..];
    }
  }

  /** The second half of a long escape, likewise. */
  lemma LiteralContinuation(table: Table, text: string, plain: set<char>, c: char)
    requires IsEscapeTable(table) && c in table && '%' in plain && |table[c]| == 6
    ensures HasPrefix(Mixed(table, text, plain), table[c][3..]) <==> HasPrefix(text, table[c][3..])
  {
    var e := table[c][3..];
    var m := Mixed(table, text, plain);
    HasPrefixOfThree(m, e);
    HasPrefixOfThree(text, e);
    if text != [] {
      if text[0] == '%' {
        PlainPairInFront(table, text[1..], plain, e[1], e[2]);
        assert m[1..] == Mixed(table, text[1..], plain);
      } else if text[0] in table && text[0] !in plain {
        HasPrefixOfThree(m, table[text[0]][..3]);
        assert m[..3] == table[text[0]][..3];
      } else {
        assert m[0] == text[0];
      }
    }
  }

  lemma LiteralEscape(table: Table, rest: string, plain: set<char>, c: char)
    requires IsEscapeTable(table) && c in table && '%' in plain
    ensures HasPrefix(['%'] + Mixed(table, rest, plain), table[c]) <==> HasPrefix(['%'] + rest, table[c])
  {
    if |table[c]| == 3 {
      LiteralShortEscape(table, rest, plain, c);
    } else {
      LiteralLongEscape(table, rest, plain, c);
    }
  }

  lemma LiteralLongEscape(table: Table, rest: string, plain: set<char>, c: char)
    requires IsEscapeTable(table) && c in table && '%' in plain && |table[c]| == 6
    ensures HasPrefix(['%'] + Mixed(table, rest, plain), table[c]) <==> HasPrefix(['%'] + rest, table[c])
  {
    var e, m := table[c], Mixed(table, rest, plain);
    HasPrefixInHalves(['%'] + m, e);
    HasPrefixInHalves(['%'] + rest, e);
    HasPrefixOfThree(['%'] + m, e[..3]);
    HasPrefixOfThree(['%'] + rest, e[..3]);
    PlainPairInFront(table, rest, plain, e[1], e[2]);
    if StartsWithPair(rest, e[1], e[2]) {
      LiteralContinuation(table, rest[2..], plain, c);
      assert (['%'] + m)[3..] == m[2..] == Mixed(table, rest[2..], plain);
      assert (['%'] + rest)[3..] == rest[2..];
    }
  }

  /** A pass for c steps over the escape of another character. */
  lemma SkipHalf(table: Table, half: string, rest: string, c: char)
    requires IsEscapeTable(table) && c in table
    requires |half| == 3 && half[1] != '%' && half[2] != '%' && half != table[c][..3]
    ensures Replace(half + rest, table[c], [c]) == half + Replace(rest, table[c], [c])
  {
    var e := table[c];
    var s2, s1 := [half[2]] + rest, [half[1]] + ([half[2]] + rest);
    assert half + rest == [half[0]] + s1;
    assert (half + rest)[..3] == half;
    ReplaceSkip(half[0], s1, e, [c]);
    NotAnEscape(s1, e);
    ReplaceSkip(half[1], s2, e, [c]);
    NotAnEscape(s2, e);
    ReplaceSkip(half[2], rest, e, [c]);
    var r := Replace(rest, e, [c]);
    assert [half[0]] + ([half[1]] + ([half[2]] + r)) == half + r;
  }

  lemma NotAnEscape(s: string, e: string)
    requires s != [] && e != [] && s[0] != e[0]
    ensures !HasPrefix(s, e)
  {
    if |e| <= |s| {
      assert s[..|e|][0] == s[0];
    }
  }

  lemma SkipEscape(table: Table, d: char, rest: string, c: char)
    requires IsEscapeTable(table) && c in table && d in table && c != d
    ensures Replace(table[d] + rest, table[c], [c]) == table[d] + Replace(rest, table[c], [c])
  {
    var w := table[d];
    if |w| == 3 {
      SkipHalf(table, w, rest, c);
    } else {
      SkipHalf(table, w[3..], rest, c);
      SkipHalf(table, w[..3], w[3..] + rest, c);
      InHalves(w, rest);
      InHalves(w, Replace(rest, table[c], [c]));
    }
  }

  lemma InHalves(w: string, rest: string)
    requires |w| == 6
    ensures w + rest == w[..3] + (w[3..] + rest)
  {
  }

  /** Replacing the escape of c in the mixed text is replacing it in the underlying text. */
  lemma {:induction false} PassOnMixed(table: Table, text: string, plain: set<char>, c: char)
    requires IsEscapeTable(table) && c in table
    ensures Replace(Mixed(table, text, plain), table[c], [c]) ==
            Mixed(table, LiteralPass(text, Entry(table[c], c), plain), plain + {c})
    decreases |text|
  {
    if text == [] {
      return;
    }
    var e, x, m := table[c], text[0], Mixed(table, text[1..], plain);
    if x == c && c !in plain {
      PassOnMixed(table, text[1..], plain, c);
      ReplaceMatch(e, m, [c]);
      NotSpelledOut(table, text, plain, c);
    } else if x in table && x !in plain {
      PassOnMixed(table, text[1..], plain, c);
      SkipEscape(table, x, m, c);
      NotSpelledOut(table, text, plain, c);
    } else if '%' in plain && HasPrefix(text, e) {
      PassOnMixed(table, text[|e|..], plain, c);
      PassOnLiteral(table, text, plain, c);
    } else {
      PassOnMixed(table, text[1..], plain, c);
      PassOverRaw(table, text, plain, c);
    }
  }

  /** A text that starts with a character still escaped does not spell out an escape to replace. */
  lemma NotSpelledOut(table: Table, text: string, plain: set<char>, c: char)
    requires IsEscapeTable(table) && c in table && text != []
    requires text[0] in table && text[0] !in plain
    ensures LiteralPass(text, Entry(table[c], c), plain) ==
            [text[0]] + LiteralPass(text[1..], Entry(table[c], c), plain)
  {
    if text[0] != '%' {
      NotAnEscape(text, table[c]);
    }
    assert text == [text[0]] + text[1..];
  }

  lemma {:induction false} PassOverRaw(table: Table, text: string, plain: set<char>, c: char)
    requires IsEscapeTable(table) && c in table && text != []
    requires text[0] !in table || text[0] in plain
    requires !('%' in plain && HasPrefix(text, table[c]))
    ensures Replace(Mixed(table, text, plain), table[c], [c]) ==
            [text[0]] + Replace(Mixed(table, text[1..], plain), table[c], [c])
    ensures LiteralPass(text, Entry(table[c], c), plain) ==
            [text[0]] + LiteralPass(text[1..], Entry(table[c], c), plain)
  {
    var m := Mixed(table, text[1..], plain);
    assert text == [text[0]] + text[1..];
    assert Mixed(table, text, plain) == [text[0]] + m;
    if text[0] == '%' {
      LiteralEscape(table, text[1..], plain, c);
    } else {
      NotAnEscape([text[0]] + m, table[c]);
    }
    ReplaceSkip(text[0], m, table[c], [c]);
  }

  lemma EscapeIsShownPlain(table: Table, c: char, plain: set<char>)
    requires IsEscapeTable(table) && c in table && '%' in plain
    ensures Mixed(table, table[c], plain) == table[c]
  {
    MixedOfPlain(table, table[c], plain);
  }

  lemma {:induction false} PassOnLiteral(table: Table, text: string, plain: set<char>, c: char)
    requires IsEscapeTable(table) && c in table && '%' in plain && HasPrefix(text, table[c])
    requires var rest := text[|table[c]|..];
             Replace(Mixed(table, rest, plain), table[c], [c]) ==
             Mixed(table, Replace(rest, table[c], [c]), plain + {c})
    ensures Replace(Mixed(table, text, plain), table[c], [c]) ==
            Mixed(table, Replace(text, table[c], [c]), plain + {c})
  {
    var e := table[c];
    var rest := text[|e|..];
    EscapeIsShownPlain(table, c, plain);
    assert text == e + rest;
    MixedConcat(table, e, rest, plain);
    ReplaceMatch(e, Mixed(table, rest, plain), [c]);
    ReplaceMatch(e, rest, [c]);
  }

  // ---------- the guard ----------

  lemma {:induction false} MixedShrinks(table: Table, text: string, plain: set<char>, c: char)
    requires IsEscapeTable(table) && c in table
    ensures |Mixed(table, text, plain + {c})| <= |Mixed(table, text, plain)|
    ensures |Mixed(table, text, plain + {c})| < |Mixed(table, text, plain)| <==> c in text && c !in plain
  {
    if text == [] {
    } else {
      MixedShrinks(table, text[1..], plain, c);
      assert c in text <==> c == text[0] || c in text[1..];
    }
  }

  /** The test on the received text finds an escape exactly when its character was escaped. */
  lemma GuardMeansEscaped(table: Table, text: string, plain: set<char>, c: char)
    requires IsEscapeTable(table) && c in table && '%' !in plain
    ensures Contains(Mixed(table, text, plain), table[c]) <==> c in text && c !in plain
  {
    ReplaceShortens(Mixed(table, text, plain), table[c], [c]);
    PassOnMixed(table, text, plain, c);
    MixedShrinks(table, text, plain, c);
  }

  // ---------- all passes ----------

  /**
    The decoder seen from the underlying text u: once '%' has been decoded, a pass for an
    escaped character also rewrites the places where the text itself spells out that escape.
   */
  function LiteralPasses(entries: seq<Entry>, text: string, kept: set<char>, plain: set<char>, u: string): string
    requires forall i :: 0 <= i < |entries| ==> entries[i].escape != []
  {
    if entries == [] then
      u
    else
      var e := entries[0];
      var u' := if e.c in text && e.c !in kept then LiteralPass(u, e, plain) else u;
      LiteralPasses(entries[1..], text, kept, plain + {e.c}, u')
  }

  lemma {:induction false} MixedWithoutCharacter(table: Table, u: string, plain: set<char>, c: char)
    requires c !in u || c in plain
    ensures Mixed(table, u, plain + {c}) == Mixed(table, u, plain)
  {
    if u == [] {
    } else {
      MixedWithoutCharacter(table, u[1..], plain, c);
    }
  }

  lemma LiteralPassKeepsCharacters(u: string, e: Entry, plain: set<char>, text: string)
    requires e.escape != [] && e.c in text && forall x :: x in u ==> x in text
    ensures forall x :: x in LiteralPass(u, e, plain) ==> x in text
  {
    forall x | x in LiteralPass(u, e, plain)
      ensures x in text
    {
      if '%' in plain {
        ReplaceKeepsCharacters(u, e.escape, [e.c], x);
      }
    }
  }

  lemma {:induction false} PassesOnMixed(table: Table, entries: seq<Entry>, text: string, kept: set<char>,
                                         plain: set<char>, u: string)
    requires IsEscapeTable(table) && '%' !in kept && kept <= plain
    requires forall i :: 0 <= i < |entries| ==> entries[i].c in table && entries[i].escape == table[entries[i].c]
    requires forall x :: x in u ==> x in text
    ensures Passes(entries, Mixed(table, text, kept), Mixed(table, u, plain)) ==
            Mixed(table, LiteralPasses(entries, text, kept, plain, u), plain + (set e | e in entries :: e.c))
    decreases entries
  {
    if entries == [] {
      assert plain + (set e | e in entries :: e.c) == plain;
      return;
    }
    var e := entries[0];
    GuardMeansEscaped(table, text, kept, e.c);
    var u' := u;
    if e.c in text && e.c !in kept {
      PassOnMixed(table, u, plain, e.c);
      u' := LiteralPass(u, e, plain);
      LiteralPassKeepsCharacters(u, e, plain, text);
    } else {
      MixedWithoutCharacter(table, u, plain, e.c);
    }
    PassesOnMixed(table, entries[1..], text, kept, plain + {e.c}, u');
    assert plain + {e.c} + (set d | d in entries[1..] :: d.c) == plain + (set d | d in entries :: d.c);
  }

  /** What decoding an encoded text gives, for every text and every order of the passes. */
  lemma DecodeOfEncode(table: Table, entries: seq<Entry>, text: string, kept: set<char>)
    requires IsEscapeTable(table) && Inverts(entries, table) && '%' !in kept
    ensures var coded := Mixed(table, text, kept);
            Passes(entries, coded, coded) == LiteralPasses(entries, text, kept, kept, text)
  {
    PassesOnMixed(table, entries, text, kept, kept, text);
    var u := LiteralPasses(entries, text, kept, kept, text);
    var plain := kept + (set e | e in entries :: e.c);
    forall c | c in table
      ensures c in plain
    {
      assert Entry(table[c], c) in entries;
    }
    MixedOfPlain(table, u, plain);
  }

  /**
    The texts that do not come back: some character that the encoder escapes occurs in the
    text, the text also spells out the escape of that character, and the pass for that escape
    comes after the one for '%'.
   */
  ghost predicate Garbled(entries: seq<Entry>, text: string, kept: set<char>) {
    exists i, j :: 0 <= i < j < |entries| && entries[i].c == '%' && Collides(entries[j], text, kept)
  }

  predicate Collides(e: Entry, text: string, kept: set<char>) {
    e.c in text && e.c !in kept && Contains(text, e.escape)
  }

  lemma {:induction false} LiteralPassesShrink(entries: seq<Entry>, text: string, kept: set<char>,
                                               plain: set<char>, u: string)
    requires forall i :: 0 <= i < |entries| ==> |entries[i].escape| > 1
    ensures |LiteralPasses(entries, text, kept, plain, u)| <= |u|
  {
    if entries == [] {
    } else {
      var e := entries[0];
      ReplaceShortens(u, e.escape, [e.c]);
      LiteralPassesShrink(entries[1..], text, kept, plain + {e.c},
                          if e.c in text && e.c !in kept then LiteralPass(u, e, plain) else u);
    }
  }

  lemma {:induction false} LiteralPassesAfterPercent(entries: seq<Entry>, text: string, kept: set<char>,
                                                     plain: set<char>)
    requires forall i :: 0 <= i < |entries| ==> |entries[i].escape| > 1
    requires '%' in plain
    ensures LiteralPasses(entries, text, kept, plain, text) == text <==>
            forall j :: 0 <= j < |entries| ==> !Collides(entries[j], text, kept)
  {
    if entries == [] {
    } else {
      var e := entries[0];
      if Collides(e, text, kept) {
        ReplaceShortens(text, e.escape, [e.c]);
        LiteralPassesShrink(entries[1..], text, kept, plain + {e.c}, Replace(text, e.escape, [e.c]));
      } else {
        if !Contains(text, e.escape) {
          ReplaceWithoutMatch(text, e.escape, [e.c]);
        }
        LiteralPassesAfterPercent(entries[1..], text, kept, plain + {e.c});
        assert forall j :: 1 <= j < |entries| ==> entries[j] == entries[1..][j - 1];
      }
    }
  }

  lemma {:induction false} LiteralPassesBeforePercent(entries: seq<Entry>, text: string, kept: set<char>,
                                                      plain: set<char>)
    requires forall i :: 0 <= i < |entries| ==> |entries[i].escape| > 1
    requires '%' !in plain
    ensures LiteralPasses(entries, text, kept, plain, text) == text <==> !Garbled(entries, text, kept)
  {
    if entries == [] {
    } else {
      var e, rest := entries[0], entries[1..];
      assert forall j :: 1 <= j < |entries| ==> entries[j] == rest[j - 1];
      if e.c == '%' {
        LiteralPassesAfterPercent(rest, text, kept, plain + {e.c});
        if j :| 0 <= j < |rest| && Collides(rest[j], text, kept) {
          assert entries[0].c == '%' && Collides(entries[j + 1], text, kept);
        }
      } else {
        LiteralPassesBeforePercent(rest, text, kept, plain + {e.c});
        if Garbled(rest, text, kept) {
          var i, j :| 0 <= i < j < |rest| && rest[i].c == '%' && Collides(rest[j], text, kept);
          assert entries[i + 1].c == '%' && Collides(entries[j + 1], text, kept);
        }
      }
    }
  }

  /** Decoding undoes encoding exactly on the texts that are not garbled. */
  lemma RoundTrip(table: Table, entries: seq<Entry>, text: string, kept: set<char>)
    requires IsEscapeTable(table) && Inverts(entries, table) && '%' !in kept
    ensures var coded := Mixed(table, text, kept);
            Passes(entries, coded, coded) == text <==> !Garbled(entries, text, kept)
  {
    DecodeOfEncode(table, entries, text, kept);
    LiteralPassesBeforePercent(entries, text, kept, kept);
  }

  /** In particular on every text without '%', in whatever order the passes are made. */
  lemma RoundTripWithoutPercent(table: Table, entries: seq<Entry>, text: string, kept: set<char>)
    requires IsEscapeTable(table) && Inverts(entries, table) && '%' !in kept
    requires '%' !in text
    ensures var coded := Mixed(table, text, kept);
            Passes(entries, coded, coded) == text
  {
    RoundTrip(table, entries, text, kept);
    if Garbled(entries, text, kept) {
      var i, j :| 0 <= i < j < |entries| && entries[i].c == '%' && Collides(entries[j], text, kept);
      assert '%' in entries[j].escape;
      ContainsImpliesCharacters(text, entries[j].escape, '%');
    }
  }
}
