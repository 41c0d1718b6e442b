/** Printing and parsing MAC addresses (acts/utils.py). */
module MacAddress {
  import opened Wrappers
  import opened Strings

  // ---------- hex(n) and int(s, 16) ----------

  function Digit(n: nat): char
    requires n < 16
  {
    if n < 10 then ('0' as int + n) as char else ('a' as int + n - 10) as char
  }

  predicate IsDigit(c: char) {
    '0' <= c <= '9' || 'a' <= c <= 'f'
  }

  function Hex(n: nat): string {
    if n < 16 then [Digit(n)] else Hex(n / 16) + [Digit(n % 16)]
  }

  /** hex(n)[2:], which for a negative number cuts the minus and the zero off '-0x...'. */
  function HexTail(n: int): string {
    if n >= 0 then Hex(n) else ['x'] + Hex(-n)
  }

  function HexValue(c: char): Option<nat> {
    if '0' <= c <= '9' then Some(c as int - '0' as int)
    else if 'a' <= c <= 'f' then Some(c as int - 'a' as int + 10)
    else if 'A' <= c <= 'F' then Some(c as int - 'A' as int + 10)
    else None
  }

  /** Digits with single underscores between them. */
  function Digits(s: string, value: nat, afterDigit: bool): Option<nat> {
    if s == [] then
      if afterDigit then Some(value) else None
    else
      match HexValue(s[0])
      case Some(d) => Digits(s[1..], 16 * value + d, true)
      case None => if s[0] == '_' && afterDigit then Digits(s[1..], value, false) else None
  }

  /** With the prefix 0x, which may be followed by an underscore, or without. */
  function Unsigned(s: string): Option<nat> {
    if |s| >= 2 && s[0] == '0' && (s[1] == 'x' || s[1] == 'X') then
      Digits(if |s| >= 3 && s[2] == '_' then s[3..] else s[2..], 0, false)
    else
      Digits(s, 0, false)
  }

  /** The whitespace that int skips around a number in ASCII; strip would take four separators more. */
  predicate IsBlank(c: char) {
    c in {' ', '\t', '\n', '\U{000B}', '\U{000C}', '\r'}
  }

  function Trim(s: string): string {
    if s != [] && IsBlank(s[0]) then Trim(s[1..])
    else if s != [] && IsBlank(s[|s| - 1]) then Trim(s[..|s| - 1])
    else s
  }

  /** int(s, 16); None is the ValueError. */
  function ParseInt(s: string): Option<int> {
    var t := Trim(s);
    if t != [] && (t[0] == '-' || t[0] == '+') then
      match Unsigned(t[1..])
      case Some(n) => var v: int := n; Some(if t[0] == '-' then -v else v)
      case None => None
    else
      match Unsigned(t)
      case Some(n) => Some(n)
      case None => None
  }

  // ---------- the two functions ----------

  function ParseAll(octets: seq<string>): Option<seq<int>> {
    if octets == [] then Some([])
    else
      match ParseInt(octets[0])
      case None => None
      case Some(n) =>
        match ParseAll(octets[1..])
        case None => None
        case Some(rest) => Some([n] + rest)
  }

  function StrToList(macAddr: string): Option<seq<int>> {
    ParseAll(Split(macAddr, ':'))
  }

  function Octet(n: int): string {
    if n < 16 then ['0'] + HexTail(n) else HexTail(n)
  }

  function Octets(macAddrList: seq<int>): seq<string> {
    if macAddrList == [] then [] else [Octet(macAddrList[0])] + Octets(macAddrList[1..])
  }

  /** Parses back to the absolute values of a non-empty list. */
  method ListToStr(macAddrList: seq<int>) returns (macAddr: string)
    ensures macAddr == Join(Octets(macAddrList), ':')
    ensures StrToList(macAddr) == if macAddrList == [] then None else Some(Absolutes(macAddrList))
  {
    var hexList := HexList(macAddrList);
    macAddr := Join(hexList, ':');
    ParseOfPrint(macAddrList);
  }

  method HexList(macAddrList: seq<int>) returns (hexList: seq<string>)
    ensures hexList == Octets(macAddrList)
  {
    hexList := [];
    for i := 0 to |macAddrList|
      invariant hexList == Octets(macAddrList[..i])
    {
      var hexOctet := HexOctet(macAddrList[i]);
      OctetsSnoc(macAddrList[..i], macAddrList[i]);
      assert macAddrList[..i + 1] == macAddrList[..i] + [macAddrList[i]];
      hexList := hexList + [hexOctet];
    }
    assert macAddrList[..|macAddrList|] == macAddrList;
  }

  lemma {:induction false} OctetsSnoc(ns: seq<int>, n: int)
    ensures Octets(ns + [n]) == Octets(ns) + [Octet(n)]
  {
    if ns == [] {
      assert ns + [n] == [n];
    } else {
      assert (ns + [n])[1..] == ns[1..] + [n];
      OctetsSnoc(ns[1..], n);
    }
  }

  /** The body of the loop. */
  method HexOctet(n: int) returns (hexOctet: string)
    ensures hexOctet == Octet(n)
  {
    hexOctet := HexTail(n);
    if n < 16 {
      hexOctet := ['0'] + hexOctet;
    }
  }

  function Absolute(n: int): nat {
    if n < 0 then -n else n
  }

  function Absolutes(ns: seq<int>): seq<int> {
    if ns == [] then [] else [Absolute(ns[0])] + Absolutes(ns[1..])
  }

  /** The information separators are not skipped. */
  lemma SeparatorIsNoBlank()
    ensures ParseInt(" 5\n") == Some(5) && ParseInt(['\U{001C}', '5']) == None
  {
    assert " 5\n"[1..] == "5\n" && "5\n"[..1] == "5" && "5"[1..] == "";
  }

  // ---------- printing, then parsing ----------

  predicate LowerHex(s: string) {
    forall i :: 0 <= i < |s| ==> IsDigit(s[i])
  }

  lemma DigitOf(n: nat)
    requires n < 16
    ensures HexValue(Digit(n)) == Some(n)
  {
  }

  lemma DigitIsPlain(c: char)
    requires IsDigit(c)
    ensures HexValue(c).Some? && HexValue(c).value < 16 && Digit(HexValue(c).value) == c
    ensures c != 'x' && c != 'X' && c != '_' && c != '-' && c != '+' && c != ':' && !IsBlank(c)
  {
  }

  lemma {:induction false} HexIsLower(n: nat)
    ensures LowerHex(Hex(n)) && |Hex(n)| > 0
  {
    if n < 16 {
    } else {
      HexIsLower(n / 16);
    }
  }

  lemma {:induction false} DigitsSnoc(s: string, c: char, value: nat, afterDigit: bool)
    requires LowerHex(s) && IsDigit(c)
    ensures HexValue(c).Some?
    ensures s != [] ==> Digits(s, value, afterDigit).Some?
    ensures Digits(s + [c], value, afterDigit) ==
            Some(16 * (if s == [] then value else Digits(s, value, afterDigit).value) + HexValue(c).value)
    decreases |s|
  {
    DigitIsPlain(c);
    if s == [] {
      assert (s + [c])[1..] == [];
    } else {
      DigitIsPlain(s[0]);
      assert (s + [c])[1..] == s[1..] + [c];
      DigitsSnoc(s[1..], c, 16 * value + HexValue(s[0]).value, true);
    }
  }

  lemma {:induction false} DigitsOfHex(n: nat)
    ensures Digits(Hex(n), 0, false) == Some(n)
  {
    if n < 16 {
      DigitOf(n);
      assert [Digit(n)][1..] == [];
    } else {
      DigitsOfHex(n / 16);
      HexIsLower(n / 16);
      DigitOf(n % 16);
      DigitsSnoc(Hex(n / 16), Digit(n % 16), 0, false);
    }
  }

  lemma TrimOfHex(s: string)
    requires s != [] && IsDigit(s[0]) && IsDigit(s[|s| - 1])
    ensures Trim(s) == s
  {
    DigitIsPlain(s[0]);
    DigitIsPlain(s[|s| - 1]);
  }

  lemma UnsignedOfLower(s: string)
    requires LowerHex(s) && s != []
    ensures ParseInt(s) == match Digits(s, 0, false) case Some(n) => Some(n) case None => None
  {
    TrimOfHex(s);
    DigitIsPlain(s[0]);
    if |s| >= 2 {
      DigitIsPlain(s[1]);
    }
  }

  lemma LowerHasNoColon(h: string)
    requires LowerHex(h)
    ensures ':' !in h
  {
    forall c | c in h
      ensures c != ':'
    {
      DigitIsPlain(c);
    }
  }

  lemma ParseOfNegative(h: string)
    requires LowerHex(h) && h != []
    ensures ParseInt(['0', 'x'] + h) == match Digits(h, 0, false) case Some(n) => Some(n) case None => None
  {
    var s := ['0', 'x'] + h;
    TrimOfHex(s);
    assert s[2..] == h;
    DigitIsPlain(h[0]);
    assert s[2] == h[0];
  }

  lemma ParseWithZero(h: string)
    requires LowerHex(h) && h != []
    ensures ParseInt(['0'] + h) == match Digits(h, 0, false) case Some(n) => Some(n) case None => None
  {
    var s := ['0'] + h;
    UnsignedOfLower(s);
    assert s[1..] == h;
    DigitIsPlain(h[0]);
  }

  lemma OctetHasNoColon(n: int)
    ensures ':' !in Octet(n)
  {
    HexIsLower(Absolute(n));
    LowerHasNoColon(Hex(Absolute(n)));
  }

  lemma OctetShape(n: int)
    ensures Octet(n) == (if n < 0 then ['0', 'x'] else if n < 16 then ['0'] else []) + Hex(Absolute(n))
  {
    assert ['0'] + (['x'] + Hex(Absolute(n))) == ['0', 'x'] + Hex(Absolute(n));
    assert [] + Hex(Absolute(n)) == Hex(Absolute(n));
  }

  lemma ParseOfPrefixed(prefix: string, h: string, m: nat)
    requires prefix in {['0', 'x'], ['0'], []}
    requires LowerHex(h) && h != [] && Digits(h, 0, false) == Some(m)
    ensures ParseInt(prefix + h) == Some(m)
  {
    if prefix == ['0', 'x'] {
      ParseOfNegative(h);
    } else if prefix == ['0'] {
      ParseWithZero(h);
    } else {
      assert prefix + h == h;
      UnsignedOfLower(h);
    }
  }

  /** Every octet is read back as its absolute value. */
  lemma ParseOfOctet(n: int)
    ensures ParseInt(Octet(n)) == Some(Absolute(n))
  {
    HexIsLower(Absolute(n));
    DigitsOfHex(Absolute(n));
    OctetShape(n);
    ParseOfPrefixed(if n < 0 then ['0', 'x'] else if n < 16 then ['0'] else [], Hex(Absolute(n)), Absolute(n));
  }

  lemma {:induction false} ParseOfOctets(ns: seq<int>)
    ensures ParseAll(Octets(ns)) == Some(Absolutes(ns))
    ensures |Octets(ns)| == |ns| && forall i :: 0 <= i < |ns| ==> ':' !in Octets(ns)[i]
  {
    if ns == [] {
    } else {
      ParseOfOctet(ns[0]);
      OctetHasNoColon(ns[0]);
      ParseOfOctets(ns[1..]);
    }
  }

  lemma {:induction false} ParseOfPrint(ns: seq<int>)
    ensures StrToList(Join(Octets(ns), ':')) == if ns == [] then None else Some(Absolutes(ns))
  {
    if ns == [] {
      assert Split([], ':') == [[]];
      assert Trim([]) == [];
    } else {
      ParseOfOctets(ns);
      SplitOfJoin(Octets(ns), ':');
    }
  }

  lemma {:induction false} AbsolutesAreSame(ns: seq<int>)
    ensures Absolutes(ns) == ns <==> forall i :: 0 <= i < |ns| ==> ns[i] >= 0
  {
    if ns == [] {
    } else {
      AbsolutesAreSame(ns[1..]);
      assert ns == [ns[0]] + ns[1..];
    }
  }

  /**
    Parsing undoes printing exactly for the non-empty lists of naturals, of any length and
    size. The octet -1 is printed as 0x1, which is read as 1; the empty list as a string that
    is not read at all.
   */
  lemma {:induction false} ParseUndoesPrint(ns: seq<int>)
    ensures StrToList(Join(Octets(ns), ':')) == Some(ns) <==> ns != [] && forall i :: 0 <= i < |ns| ==> ns[i] >= 0
  {
    ParseOfPrint(ns);
    AbsolutesAreSame(ns);
  }

  // ---------- parsing, then printing ----------

  /** At least two lower-case digits, with no zero in front of more than two. */
  predicate Canonical(octet: string) {
    LowerHex(octet) && |octet| >= 2 && (|octet| > 2 ==> octet[0] != '0')
  }

  lemma {:induction false} HexShape(n: nat)
    ensures n >= 16 ==> |Hex(n)| >= 2
    ensures n > 0 ==> Hex(n)[0] != '0'
  {
    HexIsLower(n);
    if n < 16 {
    } else {
      HexIsLower(n / 16);
      HexShape(n / 16);
    }
  }

  /** Lower-case digits without leading zeros are the way their value is printed. */
  lemma {:induction false} HexOfDigits(s: string)
    requires LowerHex(s) && s != [] && (|s| > 1 ==> s[0] != '0')
    ensures Digits(s, 0, false).Some? && Hex(Digits(s, 0, false).value) == s
    decreases |s|
  {
    var init, last := s[..|s| - 1], s[|s| - 1];
    assert s == init + [last];
    DigitIsPlain(last);
    DigitsSnoc(init, last, 0, false);
    if init == [] {
    } else {
      HexOfDigits(init);
      HexOfMore(Digits(init, 0, false).value, HexValue(last).value);
      assert Hex(0) == ['0'];
    }
  }

  lemma HexOfMore(n: nat, d: nat)
    requires n > 0 && d < 16
    ensures Hex(16 * n + d) == Hex(n) + [Digit(d)]
  {
  }

  lemma PrintOfCanonical(octet: string)
    requires Canonical(octet)
    ensures ParseInt(octet).Some? && ParseInt(octet).value >= 0 && Octet(ParseInt(octet).value) == octet
  {
    UnsignedOfLower(octet);
    if octet[0] != '0' {
      HexOfDigits(octet);
      var n := Digits(octet, 0, false).value;
      assert n < 16 ==> |Hex(n)| == 1;
    } else {
      var h := octet[1..];
      assert octet == ['0'] + h;
      HexOfDigits(h);
      DigitIsPlain(h[0]);
      assert Digits(octet, 0, false) == Digits(h, 0, true) == Digits(h, 0, false);
    }
  }

  lemma PrintIsCanonical(n: nat)
    ensures Canonical(Octet(n))
  {
    HexIsLower(n);
    HexShape(n);
    if n < 16 {
      assert Octet(n) == ['0', Digit(n)];
    }
  }

  lemma OctetReprints(octet: string)
    ensures ParseInt(octet).Some? && Octet(ParseInt(octet).value) == octet <==> Canonical(octet)
  {
    if Canonical(octet) {
      PrintOfCanonical(octet);
    } else if ParseInt(octet).Some? {
      var n := ParseInt(octet).value;
      ParseOfOctet(n);
      if n >= 0 {
        PrintIsCanonical(n);
      }
    }
  }

  lemma {:induction false} OctetsReprint(octets: seq<string>)
    ensures ParseAll(octets).Some? && Octets(ParseAll(octets).value) == octets
            <==> forall i :: 0 <= i < |octets| ==> Canonical(octets[i])
  {
    if octets == [] {
    } else {
      OctetReprints(octets[0]);
      OctetsReprint(octets[1..]);
      if ParseAll(octets).Some? {
        var n, rest := ParseInt(octets[0]).value, ParseAll(octets[1..]).value;
        assert ([n] + rest)[1..] == rest;
        assert octets == [octets[0]] + octets[1..];
      }
    }
  }

  /** Printing undoes parsing exactly for the strings whose octets are all in canonical form. */
  lemma {:induction false} PrintUndoesParse(macAddr: string)
    ensures StrToList(macAddr).Some? && Join(Octets(StrToList(macAddr).value), ':') == macAddr
            <==> forall i :: 0 <= i < |Split(macAddr, ':')| ==> Canonical(Split(macAddr, ':')[i])
  {
    var octets := Split(macAddr, ':');
    OctetsReprint(octets);
    JoinOfSplit(macAddr, ':');
    if ParseAll(octets).Some? && Join(Octets(ParseAll(octets).value), ':') == macAddr {
      var ns := ParseAll(octets).value;
      ParseOfOctets(ns);
      ParsedLength(octets);
      SplitOfJoin(Octets(ns), ':');
    }
  }

  lemma {:induction false} ParsedLength(octets: seq<string>)
    requires ParseAll(octets).Some?
    ensures |ParseAll(octets).value| == |octets|
  {
    if octets == [] {
    } else {
      ParsedLength(octets[1..]);
    }
  }
}
