/** The string operations of Python's library that the modelled code relies on. */
module Strings {

  predicate HasPrefix(s: string, prefix: string) {
    |prefix| <= |s| && s[..|prefix|] == prefix
  }

  /** sub in s */
  predicate Contains(s: string, sub: string) {
    HasPrefix(s, sub) || (s != [] && Contains(s[1..], sub))
  }

  /** s.replace(old, new): leftmost matches first, without overlap. */
  function Replace(s: string, old_: string, new_: string): string
    requires old_ != []
  {
    if s == [] then
      []
    else if HasPrefix(s, old_) then
      new_ + Replace(s[|old_|..], old_, new_)
    else
      [s[0]] + Replace(s[1..], old_, new_)
  }

  lemma ReplaceMatch(old_: string, rest: string, new_: string)
    requires old_ != []
    ensures Replace(old_ + rest, old_, new_) == new_ + Replace(rest, old_, new_)
  {
    assert (old_ + rest)[..|old_|] == old_ && (old_ + rest)[|old_|..] == rest;
  }

  lemma ReplaceSkip(x: char, rest: string, old_: string, new_: string)
    requires old_ != [] && !HasPrefix([x] + rest, old_)
    ensures Replace([x] + rest, old_, new_) == [x] + Replace(rest, old_, new_)
  {
    assert ([x] + rest)[1..] == rest;
  }

  /** Replacing by something shorter shortens the text exactly when there is a match. */
  lemma {:induction false} ReplaceShortens(s: string, old_: string, new_: string)
    requires |new_| < |old_|
    ensures |Replace(s, old_, new_)| <= |s|
    ensures Contains(s, old_) <==> |Replace(s, old_, new_)| < |s|
  {
    if s == [] {
    } else {
      if HasPrefix(s, old_) {
        ReplaceShortens(s[|old_|..], old_, new_);
      } else {
        ReplaceShortens(s[1..], old_, new_);
      }
    }
  }

  lemma {:induction false} ReplaceWithoutMatch(s: string, old_: string, new_: string)
    requires old_ != [] && !Contains(s, old_)
    ensures Replace(s, old_, new_) == s
  {
    if s == [] {
    } else {
      ReplaceWithoutMatch(s[1..], old_, new_);
    }
  }

  lemma {:induction false} ReplaceKeepsCharacters(s: string, old_: string, new_: string, c: char)
    requires old_ != [] && c in Replace(s, old_, new_)
    ensures c in s || c in new_
  {
    if HasPrefix(s, old_) {
      if c !in new_ {
        ReplaceKeepsCharacters(s[|old_|..], old_, new_, c);
      }
    } else if c != s[0] {
      ReplaceKeepsCharacters(s[1..], old_, new_, c);
    }
  }

  lemma {:induction false} ContainsImpliesCharacters(s: string, sub: string, c: char)
    requires Contains(s, sub) && c in sub
    ensures c in s
  {
    if HasPrefix(s, sub) {
      assert forall i :: 0 <= i < |sub| ==> s[i] == s[..|sub|][i];
    } else {
      ContainsImpliesCharacters(s[1..], sub, c);
    }
  }

  // ---------- split and join ----------

  /** s.split(sep) */
  function Split(s: string, sep: char): (parts: seq<string>)
    ensures parts != []
  {
    if s == [] then
      [[]]
    else
      var rest := Split(s[1..], sep);
      if s[0] == sep then [[]] + rest else [[s[0]] + rest[0]] + rest[1..]
  }

  /** sep.join(parts) */
  function Join(parts: seq<string>, sep: char): string {
    if parts == [] then []
    else if |parts| == 1 then parts[0]
    else parts[0] + [sep] + Join(parts[1..], sep)
  }

  lemma {:induction false} SplitWithout(s: string, sep: char)
    requires sep !in s
    ensures Split(s, sep) == [s]
  {
    if s == [] {
    } else {
      SplitWithout(s[1..], sep);
      assert s == [s[0]] + s[1..];
    }
  }

  lemma {:induction false} SplitPrefix(p: string, sep: char, rest: string)
    requires sep !in p
    ensures Split(p + [sep] + rest, sep) == [p] + Split(rest, sep)
  {
    if p == [] {
      assert p + [sep] + rest == [sep] + rest;
    } else {
      assert (p + [sep] + rest)[1..] == p[1..] + [sep] + rest;
      SplitPrefix(p[1..], sep, rest);
      assert p == [p[0]] + p[1..];
    }
  }

  /** Splitting undoes joining for parts without the separator. */
  lemma {:induction false} SplitOfJoin(parts: seq<string>, sep: char)
    requires parts != [] && forall i :: 0 <= i < |parts| ==> sep !in parts[i]
    ensures Split(Join(parts, sep), sep) == parts
  {
    if |parts| == 1 {
      SplitWithout(parts[0], sep);
    } else {
      SplitOfJoin(parts[1..], sep);
      SplitPrefix(parts[0], sep, Join(parts[1..], sep));
    }
  }

  lemma {:induction false} JoinOfSplit(s: string, sep: char)
    ensures Join(Split(s, sep), sep) == s
    ensures forall i :: 0 <= i < |Split(s, sep)| ==> sep !in Split(s, sep)[i]
  {
    if s == [] {
    } else {
      JoinOfSplit(s[1..], sep);
      var rest := Split(s[1..], sep);
      if s[0] == sep {
        assert ([[]] + rest)[1..] == rest;
      } else {
        assert ([[s[0]] + rest[0]] + rest[1..])[1..] == rest[1..];
      }
    }
  }

  // ---------- whitespace ----------

  /** The ASCII characters for which isspace holds. */
  predicate IsSpace(c: char) {
    c in {' ', '\t', '\n', '\U{000B}', '\U{000C}', '\r', '\U{001C}', '\U{001D}', '\U{001E}', '\U{001F}'}
  }

  function LStrip(s: string): string {
    if s != [] && IsSpace(s[0]) then LStrip(s[1..]) else s
  }

  function RStrip(s: string): string {
    if s != [] && IsSpace(s[|s| - 1]) then RStrip(s[..|s| - 1]) else s
  }

  /** s.strip() */
  function Strip(s: string): string {
    RStrip(LStrip(s))
  }

  predicate EndsWith(s: string, c: char) {
    s != [] && s[|s| - 1] == c
  }

  predicate AllSpace(s: string) {
    forall i :: 0 <= i < |s| ==> IsSpace(s[i])
  }

  /** The pieces of a concatenation: the last of the one and the first of the other grow together. */
  function Glue(p: seq<string>, q: seq<string>): seq<string>
    requires p != [] && q != []
  {
    p[..|p| - 1] + [p[|p| - 1] + q[0]] + q[1..]
  }

  lemma GlueBehindPiece(x: string, p: seq<string>, q: seq<string>)
    requires p != [] && q != []
    ensures Glue([x] + p, q) == [x] + Glue(p, q)
  {
  }

  lemma GlueBehindCharacter(c: char, p: seq<string>, q: seq<string>)
    requires p != [] && q != []
    ensures Glue([[c] + p[0]] + p[1..], q) == [[c] + Glue(p, q)[0]] + Glue(p, q)[1..]
  {
    var p' := [[c] + p[0]] + p[1..];
    if |p| == 1 {
      assert p'[0] + q[0] == [c] + (p[0] + q[0]);
      assert p'[..0] == [] && p[..0] == [];
    } else {
      assert p'[..|p| - 1] == [[c] + p[0]] + p[1..|p| - 1];
      assert Glue(p, q)[0] == p[0];
      assert Glue(p, q)[1..] == p[1..|p| - 1] + [p[|p| - 1] + q[0]] + q[1..];
    }
  }

  lemma {:induction false} SplitOfConcat(a: string, b: string, sep: char)
    ensures Split(a + b, sep) == Glue(Split(a, sep), Split(b, sep))
  {
    if a == [] {
      var q := Split(b, sep);
      assert a + b == b && a + q[0] == q[0];
      assert Glue([a], q) == [q[0]] + q[1..] == q;
    } else {
      assert (a + b)[1..] == a[1..] + b;
      SplitOfConcat(a[1..], b, sep);
      SplitHead(a, sep);
      SplitHead(a + b, sep);
      GlueBehindPiece([], Split(a[1..], sep), Split(b, sep));
      GlueBehindCharacter(a[0], Split(a[1..], sep), Split(b, sep));
    }
  }

  /** How the first character changes the pieces. */
  lemma SplitHead(s: string, sep: char)
    requires s != []
    ensures var rest := Split(s[1..], sep);
            && (s[0] == sep ==> Split(s, sep) == [[]] + rest)
            && (s[0] != sep ==> Split(s, sep) == [[s[0]] + rest[0]] + rest[1..])
  {
  }

  /** The number of pieces is one more than the number of separators. */
  function Occurrences(s: string, c: char): nat {
    if s == [] then 0 else (if s[0] == c then 1 else 0) + Occurrences(s[1..], c)
  }

  lemma {:induction false} PiecesOfSplit(s: string, sep: char)
    ensures |Split(s, sep)| == 1 + Occurrences(s, sep)
    ensures Occurrences(s, sep) > 0 <==> sep in s
  {
    if s == [] {
    } else {
      PiecesOfSplit(s[1..], sep);
      assert sep in s <==> s[0] == sep || sep in s[1..];
    }
  }

  lemma {:induction false} OccurrencesInConcat(a: string, b: string, c: char)
    ensures Occurrences(a + b, c) == Occurrences(a, c) + Occurrences(b, c)
  {
    if a == [] {
      assert a + b == b;
    } else {
      assert (a + b)[1..] == a[1..] + b;
      OccurrencesInConcat(a[1..], b, c);
    }
  }

  /** Nothing stands behind a final separator. */
  lemma LastPieceAfterSeparator(s: string, sep: char)
    requires s == [] || EndsWith(s, sep)
    ensures var p := Split(s, sep); p[|p| - 1] == []
  {
    if s != [] {
      assert s == s[..|s| - 1] + [sep];
      assert [sep][1..] == [];
      SplitOfConcat(s[..|s| - 1], [sep], sep);
    }
  }

  lemma {:induction false} LStripPadding(padding: string, s: string)
    requires AllSpace(padding)
    ensures LStrip(padding + s) == LStrip(s)
  {
    if padding == [] {
      assert padding + s == s;
    } else {
      assert (padding + s)[1..] == padding[1..] + s;
      LStripPadding(padding[1..], s);
    }
  }

  /** Nothing to strip at either end. */
  predicate Trimmed(s: string) {
    s != [] ==> !IsSpace(s[0]) && !IsSpace(s[|s| - 1])
  }

  /** The characters that strip removes, by their codes: tab to carriage return, the four separators, blank. */
  lemma SpaceCodes(c: char)
    ensures IsSpace(c) <==> 9 <= c as int <= 13 || 28 <= c as int <= 32
    ensures IsSpace(c) ==> c != ':' && c != ',' && !('0' <= c <= '9') && !('A' <= c <= 'Z') && !('a' <= c <= 'z')
  {
  }

  lemma {:induction false} RStripPadding(s: string, padding: string)
    requires AllSpace(padding)
    ensures RStrip(s + padding) == RStrip(s)
  {
    if padding == [] {
      assert s + padding == s;
    } else {
      var init := padding[..|padding| - 1];
      assert (s + padding)[..|s + padding| - 1] == s + init;
      RStripPadding(s, init);
    }
  }

  /** Padding on both sides goes, and nothing else. */
  lemma StripOfPadded(a: string, t: string, b: string)
    requires AllSpace(a) && AllSpace(b) && Trimmed(t)
    ensures Strip(a + t + b) == t
  {
    assert a + t + b == a + (t + b);
    LStripPadding(a, t + b);
    if t == [] {
      assert t + b == b + [];
      LStripPadding(b, []);
    } else {
      RStripPadding(t, b);
    }
  }

  lemma {:induction false} LStripIsSuffix(s: string) returns (a: string)
    ensures AllSpace(a) && s == a + LStrip(s)
    ensures LStrip(s) != [] ==> !IsSpace(LStrip(s)[0])
  {
    if s == [] || !IsSpace(s[0]) {
      a := [];
    } else {
      var rest := LStripIsSuffix(s[1..]);
      a := [s[0]] + rest;
    }
  }

  lemma {:induction false} RStripIsPrefix(s: string) returns (b: string)
    ensures AllSpace(b) && s == RStrip(s) + b
    ensures RStrip(s) != [] ==> !IsSpace(RStrip(s)[|RStrip(s)| - 1]) && RStrip(s)[0] == s[0]
  {
    if s == [] || !IsSpace(s[|s| - 1]) {
      b := [];
    } else {
      var rest := RStripIsPrefix(s[..|s| - 1]);
      b := rest + [s[|s| - 1]];
      assert s == RStrip(s) + b;
    }
  }

  /** Every text is padding around what strip leaves of it. */
  lemma StripIsMiddle(s: string) returns (a: string, b: string)
    ensures AllSpace(a) && AllSpace(b) && Trimmed(Strip(s)) && s == a + Strip(s) + b
  {
    a := LStripIsSuffix(s);
    b := RStripIsPrefix(LStrip(s));
  }

  lemma StripOfTrimmed(s: string)
    requires Trimmed(s)
    ensures Strip(s) == s
  {
  }

  lemma SameIffTrimmed(s: string)
    ensures Strip(s) == s <==> Trimmed(s)
  {
    var a, b := StripIsMiddle(s);
  }
}
