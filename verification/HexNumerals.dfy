/** Which texts int(s, 16) reads, what they mean, and that the case of letters does not matter. */
module HexNumerals {
  import opened Wrappers
  import opened Strings
  import opened MacAddress

  const LOWER_DIGITS := "0123456789abcdef"
  const UPPER_DIGITS := "0123456789ABCDEF"

  // ---------- digits ----------

  predicate IsHex(c: char) {
    c in LOWER_DIGITS || c in UPPER_DIGITS
  }

  /** The value of a digit is its place in either list. */
  lemma DigitIsItsPlace(d: nat)
    requires d < 16
    ensures HexValue(LOWER_DIGITS[d]) == Some(d) && HexValue(UPPER_DIGITS[d]) == Some(d)
  {
  }

  lemma HexValueIff(c: char)
    ensures HexValue(c).Some? <==> IsHex(c)
    ensures HexValue(c).Some? ==>
              HexValue(c).value < 16 && c in [LOWER_DIGITS[HexValue(c).value], UPPER_DIGITS[HexValue(c).value]]
  {
    if HexValue(c).Some? {
      var d := HexValue(c).value;
      assert c == LOWER_DIGITS[d] || c == UPPER_DIGITS[d];
    }
  }

  /** Digits with single underscores between them: none in front, none at the end, no two together. */
  predicate IsNumeral(s: string) {
    && s != [] && s[0] != '_' && s[|s| - 1] != '_'
    && (forall i :: 0 <= i < |s| ==> IsHex(s[i]) || s[i] == '_')
    && (forall i :: 0 <= i < |s| - 1 ==> !(s[i] == '_' && s[i + 1] == '_'))
  }

  /** The number that the digits stand for, the last one counting once and each other sixteen times the next. */
  function PlaceValue(s: string): nat {
    if s == [] then 0
    else
      var before := PlaceValue(s[..|s| - 1]);
      match HexValue(s[|s| - 1])
      case Some(d) => 16 * before + d
      case None => before
  }

  /** The same from the front. */
  function Accumulated(value: nat, s: string): nat
    decreases |s|
  {
    if s == [] then value
    else
      match HexValue(s[0])
      case Some(d) => Accumulated(16 * value + d, s[1..])
      case None => Accumulated(value, s[1..])
  }

  lemma {:induction false} AccumulatedSnoc(value: nat, s: string, c: char)
    ensures Accumulated(value, s + [c]) ==
            match HexValue(c) case Some(d) => 16 * Accumulated(value, s) + d case None => Accumulated(value, s)
    decreases |s|
  {
    if s == [] {
      assert (s + [c])[1..] == [];
    } else {
      assert (s + [c])[1..] == s[1..] + [c];
      AccumulatedSnoc(match HexValue(s[0]) case Some(d) => 16 * value + d case None => value, s[1..], c);
    }
  }

  lemma {:induction false} PlaceValueIsAccumulated(s: string)
    ensures PlaceValue(s) == Accumulated(0, s)
  {
    if s == [] {
    } else {
      var init, last := s[..|s| - 1], s[|s| - 1];
      assert s == init + [last];
      PlaceValueIsAccumulated(init);
      AccumulatedSnoc(0, init, last);
    }
  }

  /** What may stand behind a digit, or at the start of the digits. */
  predicate MayFollow(s: string, afterDigit: bool) {
    if s == [] then afterDigit
    else
      && (s[0] == '_' ==> afterDigit) && s[|s| - 1] != '_'
      && (forall i :: 0 <= i < |s| ==> IsHex(s[i]) || s[i] == '_')
      && (forall i :: 0 <= i < |s| - 1 ==> !(s[i] == '_' && s[i + 1] == '_'))
  }

  lemma MayFollowFirst(s: string, afterDigit: bool)
    requires s != []
    ensures IsHex(s[0]) ==> (MayFollow(s, afterDigit) <==> MayFollow(s[1..], true))
    ensures s[0] == '_' ==> (MayFollow(s, afterDigit) <==> afterDigit && MayFollow(s[1..], false))
    ensures !IsHex(s[0]) && s[0] != '_' ==> !MayFollow(s, afterDigit)
  {
    var rest := s[1..];
    if rest != [] {
      assert rest[0] == s[1] && rest[|rest| - 1] == s[|s| - 1];
      assert forall i :: 0 <= i < |rest| ==> rest[i] == s[i + 1];
      assert forall i :: 1 <= i < |s| ==> s[i] == rest[i - 1];
    }
  }

  lemma {:induction false} DigitsIff(s: string, value: nat, afterDigit: bool)
    ensures Digits(s, value, afterDigit) == if MayFollow(s, afterDigit) then Some(Accumulated(value, s)) else None
    decreases |s|
  {
    if s == [] {
    } else {
      HexValueIff(s[0]);
      MayFollowFirst(s, afterDigit);
      match HexValue(s[0])
      case Some(d) => DigitsIff(s[1..], 16 * value + d, true);
      case None =>
        if s[0] == '_' && afterDigit {
          DigitsIff(s[1..], value, false);
        }
    }
  }

  lemma DigitsOfNumeral(s: string)
    ensures Digits(s, 0, false) == if IsNumeral(s) then Some(PlaceValue(s)) else None
  {
    DigitsIff(s, 0, false);
    PlaceValueIsAccumulated(s);
  }

  // ---------- blanks, sign and prefix ----------

  predicate AllBlank(s: string) {
    forall i :: 0 <= i < |s| ==> IsBlank(s[i])
  }

  /** The blanks are tab, newline, vertical tab, form feed, carriage return and space. */
  lemma BlankCodes(c: char)
    ensures IsBlank(c) <==> 9 <= c as int <= 13 || c as int == 32
    ensures IsBlank(c) ==> !IsHex(c) && c != '_' && c != 'x' && c != 'X' && c != '+' && c != '-'
  {
  }

  lemma {:induction false} TrimOfPadded(a: string, t: string, b: string)
    requires AllBlank(a) && AllBlank(b) && t != [] && !IsBlank(t[0]) && !IsBlank(t[|t| - 1])
    ensures Trim(a + t + b) == t
    decreases |a| + |b|
  {
    if a != [] {
      assert (a + t + b)[1..] == a[1..] + t + b;
      TrimOfPadded(a[1..], t, b);
    } else if b != [] {
      assert (a + t + b)[0] == t[0];
      assert (a + t + b)[..|a + t + b| - 1] == a + t + b[..|b| - 1];
      TrimOfPadded(a, t, b[..|b| - 1]);
    } else {
      assert a + t + b == t;
    }
  }

  lemma {:induction false} TrimIsMiddle(s: string) returns (a: string, b: string)
    ensures AllBlank(a) && AllBlank(b) && s == a + Trim(s) + b
    decreases |s|
  {
    if s != [] && IsBlank(s[0]) {
      var rest;
      rest, b := TrimIsMiddle(s[1..]);
      a := [s[0]] + rest;
      assert s == [s[0]] + (rest + Trim(s) + b);
    } else if s != [] && IsBlank(s[|s| - 1]) {
      var rest;
      a, rest := TrimIsMiddle(s[..|s| - 1]);
      b := rest + [s[|s| - 1]];
      assert s == (a + Trim(s) + rest) + [s[|s| - 1]];
    } else {
      a, b := [], [];
    }
  }

  predicate IsPrefix(p: string) {
    p in {"", "0x", "0X", "0x_", "0X_"}
  }

  predicate IsSign(sign: string) {
    sign in {"", "+", "-"}
  }

  lemma UnsignedOfDigits(body: string)
    requires IsNumeral(body)
    ensures Unsigned(body) == Some(PlaceValue(body))
  {
    DigitsOfNumeral(body);
    if |body| >= 2 {
      assert body[1] != 'x' && body[1] != 'X';
    }
  }

  lemma UnsignedOfPrefixed(prefix: string, body: string)
    requires prefix in {"0x", "0X", "0x_", "0X_"} && IsNumeral(body)
    ensures Unsigned(prefix + body) == Some(PlaceValue(body))
  {
    DigitsOfNumeral(body);
    var s := prefix + body;
    assert s[0] == prefix[0] && s[1] == prefix[1] && s[|prefix|..] == body;
    assert s[2] == if |prefix| == 2 then body[0] else '_';
  }

  lemma UnsignedOfWritten(prefix: string, body: string)
    requires IsPrefix(prefix) && IsNumeral(body)
    ensures Unsigned(prefix + body) == Some(PlaceValue(body))
  {
    if prefix == "" {
      assert prefix + body == body;
      UnsignedOfDigits(body);
    } else {
      UnsignedOfPrefixed(prefix, body);
    }
  }

  lemma UnsignedForm(s: string) returns (prefix: string, body: string)
    requires Unsigned(s).Some?
    ensures IsPrefix(prefix) && IsNumeral(body) && s == prefix + body
  {
    if |s| >= 2 && s[0] == '0' && (s[1] == 'x' || s[1] == 'X') {
      var n := if |s| >= 3 && s[2] == '_' then 3 else 2;
      prefix, body := s[..n], s[n..];
      assert prefix == if n == 2 then [s[0], s[1]] else [s[0], s[1], s[2]];
    } else {
      prefix, body := [], s;
    }
    DigitsOfNumeral(body);
  }

  function Signed(sign: string, n: nat): int {
    var v: int := n;
    if sign == "-" then -v else v
  }

  lemma Regrouped(a: string, sign: string, prefix: string, body: string, b: string)
    ensures a + sign + prefix + body + b == a + (sign + (prefix + body)) + b
  {
    assert sign + (prefix + body) == sign + prefix + body;
    assert a + (sign + prefix + body) == a + sign + prefix + body;
  }

  lemma SignedText(sign: string, unsigned: string, s: string)
    requires IsSign(sign) && Trim(s) == sign + unsigned && Unsigned(unsigned).Some?
    requires sign == "" ==> unsigned != [] && unsigned[0] != '-' && unsigned[0] != '+'
    ensures ParseInt(s) == Some(Signed(sign, Unsigned(unsigned).value))
  {
    if sign == "" {
      assert sign + unsigned == unsigned;
    } else {
      assert (sign + unsigned)[1..] == unsigned && (sign + unsigned)[0] == sign[0];
    }
  }

  /** Blanks, a sign or none, a prefix or none, digits, blanks: such a text is read, and this is its value. */
  lemma ParseOfWritten(a: string, sign: string, prefix: string, body: string, b: string)
    requires AllBlank(a) && AllBlank(b) && IsSign(sign) && IsPrefix(prefix) && IsNumeral(body)
    ensures ParseInt(a + sign + prefix + body + b) == Some(Signed(sign, PlaceValue(body)))
  {
    Regrouped(a, sign, prefix, body, b);
    UnsignedOfWritten(prefix, body);
    EndsOfWritten(sign, prefix, body);
    ParseOfTrimmed(a, sign, prefix + body, b);
  }

  lemma ParseOfTrimmed(a: string, sign: string, unsigned: string, b: string)
    requires AllBlank(a) && AllBlank(b) && IsSign(sign) && Unsigned(unsigned).Some?
    requires var t := sign + unsigned; t != [] && !IsBlank(t[0]) && !IsBlank(t[|t| - 1])
    requires sign == "" ==> unsigned != [] && unsigned[0] != '-' && unsigned[0] != '+'
    ensures ParseInt(a + (sign + unsigned) + b) == Some(Signed(sign, Unsigned(unsigned).value))
  {
    TrimOfPadded(a, sign + unsigned, b);
    SignedText(sign, unsigned, a + (sign + unsigned) + b);
  }

  lemma EndsOfWritten(sign: string, prefix: string, body: string)
    requires IsSign(sign) && IsPrefix(prefix) && IsNumeral(body)
    ensures var t := sign + (prefix + body);
            && !IsBlank(t[0]) && !IsBlank(t[|t| - 1])
            && (sign == "" ==> t == prefix + body && t[0] != '-' && t[0] != '+')
  {
    var t := sign + (prefix + body);
    assert t[|t| - 1] == body[|body| - 1];
    BlankCodes(t[|t| - 1]);
    BlankCodes(t[0]);
    if sign == "" {
      assert t[0] == if prefix == "" then body[0] else prefix[0];
    }
  }

  lemma SignedForm(t: string) returns (sign: string, unsigned: string)
    ensures IsSign(sign) && t == sign + unsigned
    ensures forall s :: Trim(s) == t && ParseInt(s).Some? ==> Unsigned(unsigned).Some?
  {
    if t != [] && (t[0] == '-' || t[0] == '+') {
      sign, unsigned := [t[0]], t[1..];
    } else {
      sign, unsigned := [], t;
    }
  }

  /** And every text that is read is of this form. */
  lemma WrittenForm(s: string) returns (a: string, sign: string, prefix: string, body: string, b: string)
    requires ParseInt(s).Some?
    ensures AllBlank(a) && AllBlank(b) && IsSign(sign) && IsPrefix(prefix) && IsNumeral(body)
    ensures s == a + sign + prefix + body + b
  {
    var unsigned;
    a, b := TrimIsMiddle(s);
    sign, unsigned := SignedForm(Trim(s));
    prefix, body := UnsignedForm(unsigned);
    Regrouped(a, sign, prefix, body, b);
  }

  // ---------- upper and lower case ----------

  /** c and d are the same, or one of them is the capital of the other, a letter from a to f. */
  predicate SameLetter(c: char, d: char) {
    || c == d
    || ('a' <= c <= 'f' && d as int - 'A' as int == c as int - 'a' as int)
    || ('a' <= d <= 'f' && c as int - 'A' as int == d as int - 'a' as int)
  }

  predicate SameButForCase(s: string, t: string) {
    |s| == |t| && forall i :: 0 <= i < |s| ==> SameLetter(s[i], t[i])
  }

  lemma SameLetterReadsAlike(c: char, d: char)
    requires SameLetter(c, d)
    ensures HexValue(c) == HexValue(d) && (IsBlank(c) <==> IsBlank(d))
    ensures (c == '_' <==> d == '_') && (c == '0' <==> d == '0') && (c == 'x' <==> d == 'x') && (c == 'X' <==> d == 'X')
    ensures (c == '-' <==> d == '-') && (c == '+' <==> d == '+') && (c == ':' <==> d == ':')
  {
  }

  lemma {:induction false} DigitsAlike(s: string, t: string, value: nat, afterDigit: bool)
    requires SameButForCase(s, t)
    ensures Digits(s, value, afterDigit) == Digits(t, value, afterDigit)
    decreases |s|
  {
    if s == [] {
    } else {
      SameLetterReadsAlike(s[0], t[0]);
      match HexValue(s[0])
      case Some(d) => DigitsAlike(s[1..], t[1..], 16 * value + d, true);
      case None => DigitsAlike(s[1..], t[1..], value, false);
    }
  }

  lemma UnsignedAlike(s: string, t: string)
    requires SameButForCase(s, t)
    ensures Unsigned(s) == Unsigned(t)
  {
    DigitsAlike(s, t, 0, false);
    if |s| >= 2 {
      SameLetterReadsAlike(s[0], t[0]);
      SameLetterReadsAlike(s[1], t[1]);
      DigitsAlike(s[2..], t[2..], 0, false);
    }
    if |s| >= 3 {
      SameLetterReadsAlike(s[2], t[2]);
      DigitsAlike(s[3..], t[3..], 0, false);
    }
  }

  lemma {:induction false} TrimAlike(s: string, t: string)
    requires SameButForCase(s, t)
    ensures SameButForCase(Trim(s), Trim(t))
    decreases |s|
  {
    if s == [] {
    } else {
      SameLetterReadsAlike(s[0], t[0]);
      SameLetterReadsAlike(s[|s| - 1], t[|t| - 1]);
      if IsBlank(s[0]) {
        TrimAlike(s[1..], t[1..]);
      } else if IsBlank(s[|s| - 1]) {
        TrimAlike(s[..|s| - 1], t[..|t| - 1]);
      }
    }
  }

  lemma ParseAlike(s: string, t: string)
    requires SameButForCase(s, t)
    ensures ParseInt(s) == ParseInt(t)
  {
    TrimAlike(s, t);
    var u, v := Trim(s), Trim(t);
    UnsignedAlike(u, v);
    if u != [] {
      SameLetterReadsAlike(u[0], v[0]);
      UnsignedAlike(u[1..], v[1..]);
    }
  }

  lemma {:induction false} SplitAlike(s: string, t: string)
    requires SameButForCase(s, t)
    ensures |Split(s, ':')| == |Split(t, ':')|
    ensures forall i :: 0 <= i < |Split(s, ':')| ==> SameButForCase(Split(s, ':')[i], Split(t, ':')[i])
  {
    if s == [] {
    } else {
      SameLetterReadsAlike(s[0], t[0]);
      SplitAlike(s[1..], t[1..]);
      SplitHead(s, ':');
      SplitHead(t, ':');
    }
  }

  lemma {:induction false} ParseAllAlike(octets: seq<string>, others: seq<string>)
    requires |octets| == |others| && forall i :: 0 <= i < |octets| ==> SameButForCase(octets[i], others[i])
    ensures ParseAll(octets) == ParseAll(others)
  {
    if octets == [] {
    } else {
      ParseAlike(octets[0], others[0]);
      ParseAllAlike(octets[1..], others[1..]);
    }
  }

  /** Addresses that differ only in the case of letters are parsed alike. */
  lemma CaseDoesNotMatter(s: string, t: string)
    requires SameButForCase(s, t)
    ensures StrToList(s) == StrToList(t)
  {
    SplitAlike(s, t);
    ParseAllAlike(Split(s, ':'), Split(t, ':'));
  }

  /** What was printed can be read back in capitals, or in any mixture. */
  lemma AnyCaseOfPrintoutParses(ns: seq<int>, t: string)
    requires ns != [] && (forall i :: 0 <= i < |ns| ==> ns[i] >= 0) && SameButForCase(Join(Octets(ns), ':'), t)
    ensures StrToList(t) == Some(ns)
  {
    CaseDoesNotMatter(Join(Octets(ns), ':'), t);
    ParseUndoesPrint(ns);
  }

  lemma {:induction false} ParseAllOf(octets: seq<string>, ns: seq<int>)
    requires |octets| == |ns| && forall i :: 0 <= i < |octets| ==> ParseInt(octets[i]) == Some(ns[i])
    ensures ParseAll(octets) == Some(ns)
  {
    if octets == [] {
    } else {
      ParseAllOf(octets[1..], ns[1..]);
      assert ns == [ns[0]] + ns[1..];
    }
  }

  lemma TwoCapitals()
    ensures ParseInt("FF") == Some(255)
  {
    ParseOfWritten("", "", "", "FF", "");
    assert "" + "" + "" + "FF" + "" == "FF";
    assert "FF"[..1] == "F" && "F"[..0] == "";
    assert PlaceValue("F") == 15;
  }

  /** For one, the octets of the broadcast address in capitals. */
  lemma BroadcastAddress()
    ensures StrToList(Join(["FF", "FF", "FF", "FF", "FF", "FF"], ':')) == Some([255, 255, 255, 255, 255, 255])
  {
    TwoCapitals();
    var octets := ["FF", "FF", "FF", "FF", "FF", "FF"];
    ParseAllOf(octets, [255, 255, 255, 255, 255, 255]);
    SplitOfJoin(octets, ':');
  }
}
