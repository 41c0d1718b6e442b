/** The literal tables of _anritsu_utils.py, and the codec run on them. */
module AnritsuTables {
  import opened Strings
  import opened SmsCodec

  const CDMA_ENCODE: Table := map[
    ' ' := "%20", '!' := "%21", '\"' := "%22", '#' := "%23", '$' := "%24",
    '/' := "%2F", '%' := "%25", '&' := "%26", '\'' := "%27", '(' := "%28",
    ')' := "%29", '*' := "%2A", '+' := "%2B", ',' := "%2C", ':' := "%3A",
    ';' := "%3B", '<' := "%3C", '=' := "%3D", '>' := "%3E", '?' := "%3F",
    '@' := "%40", '[' := "%5B", ']' := "%5D", '_' := "%5F"]

  const E_ACUTE: char := '\U{00E9}'

  const GSM_ENCODE: Table := CDMA_ENCODE[E_ACUTE := "%C3%A9"]

  // The decoder's table, row by row as it is written, which is the order in which it is visited.
  const DECODE_1 := [Entry("%20", ' '), Entry("%21", '!'), Entry("%22", '\"'), Entry("%23", '#'), Entry("%24", '$')]
  const DECODE_2 := [Entry("%2F", '/'), Entry("%25", '%'), Entry("%26", '&'), Entry("%27", '\''), Entry("%28", '(')]
  const DECODE_3 := [Entry("%29", ')'), Entry("%2A", '*'), Entry("%2B", '+'), Entry("%2C", ','), Entry("%3A", ':')]
  const DECODE_4 := [Entry("%3B", ';'), Entry("%3C", '<'), Entry("%3D", '='), Entry("%3E", '>'), Entry("%3F", '?')]
  const DECODE_5 := [Entry("%40", '@'), Entry("%5B", '['), Entry("%5D", ']'), Entry("%5F", '_')]

  const GSM_DECODE: seq<Entry> :=
    DECODE_1 + DECODE_2 + DECODE_3 + DECODE_4 + DECODE_5 + [Entry("%C3%A9", E_ACUTE)]

  /** The place of the '%' entry; the passes after it can garble a text. */
  const PERCENT_PASS := 6

  // ---------- the literal tables have the shape the codec needs ----------

  function HexDigit(c: char): int {
    if '0' <= c <= '9' then c as int - '0' as int
    else if 'A' <= c <= 'F' then c as int - 'A' as int + 10
    else -1
  }

  function Octet(escape: string): int
    requires |escape| >= 3
  {
    16 * HexDigit(escape[1]) + HexDigit(escape[2])
  }

  /** Each escape of one octet is the code of its character, as RFC 3986 section 2.1 asks. */
  lemma CdmaEscapesAreOctets(c: char)
    requires c in CDMA_ENCODE
    ensures var e := CDMA_ENCODE[c];
            && |e| == 3 && e[0] == '%' && Octet(e) == c as int
            && HexDigit(e[1]) >= 0 && HexDigit(e[2]) >= 0 && c as int < 128
  {
  }

  lemma HexDigitsAreNotEscaped(c: char)
    requires HexDigit(c) >= 0
    ensures c !in GSM_ENCODE
  {
  }

  lemma {:induction false} GsmEscapeShape(c: char)
    requires c in GSM_ENCODE
    ensures IsEscape(GSM_ENCODE, GSM_ENCODE[c])
    ensures Octet(GSM_ENCODE[c]) == if c == E_ACUTE then 195 else c as int
    ensures c == E_ACUTE || (c in CDMA_ENCODE && |GSM_ENCODE[c]| == 3 && c as int < 128)
  {
    if c == E_ACUTE {
      HexDigitsAreNotEscaped('C');
      HexDigitsAreNotEscaped('3');
      HexDigitsAreNotEscaped('A');
      HexDigitsAreNotEscaped('9');
    } else {
      CdmaEscapesAreOctets(c);
      HexDigitsAreNotEscaped(GSM_ENCODE[c][1]);
      HexDigitsAreNotEscaped(GSM_ENCODE[c][2]);
    }
  }

  lemma {:induction false} GsmIsEscapeTable()
    ensures IsEscapeTable(GSM_ENCODE)
  {
    forall c | c in GSM_ENCODE
      ensures IsEscape(GSM_ENCODE, GSM_ENCODE[c])
    {
      GsmEscapeShape(c);
    }
    forall c, d | c in GSM_ENCODE && d in GSM_ENCODE && GSM_ENCODE[c][..3] == GSM_ENCODE[d][..3]
      ensures c == d
    {
      GsmEscapeShape(c);
      GsmEscapeShape(d);
      assert Octet(GSM_ENCODE[c][..3]) == Octet(GSM_ENCODE[c]);
      assert Octet(GSM_ENCODE[d][..3]) == Octet(GSM_ENCODE[d]);
    }
    forall c, d | c in GSM_ENCODE && d in GSM_ENCODE && |GSM_ENCODE[c]| == 6
      ensures GSM_ENCODE[c][3..] != GSM_ENCODE[d][..3]
    {
      GsmEscapeShape(c);
      GsmEscapeShape(d);
      assert Octet(GSM_ENCODE[c][3..]) == 169;
      assert Octet(GSM_ENCODE[d][..3]) == Octet(GSM_ENCODE[d]);
    }
  }

  lemma {:induction false} GsmDecodeInvertsEncode()
    ensures Inverts(GSM_DECODE, GSM_ENCODE)
  {
    forall i | 0 <= i < |GSM_DECODE|
      ensures GSM_DECODE[i].c in GSM_ENCODE && GSM_DECODE[i].escape == GSM_ENCODE[GSM_DECODE[i].c]
    {
      DecodeEntry(i);
    }
    forall c | c in GSM_ENCODE
      ensures Entry(GSM_ENCODE[c], c) in GSM_DECODE
    {
      EncodeEntry(c);
    }
  }

  lemma DecodeEntry(i: nat)
    requires i < |GSM_DECODE|
    ensures GSM_DECODE[i].c in GSM_ENCODE && GSM_DECODE[i].escape == GSM_ENCODE[GSM_DECODE[i].c]
  {
    var e := GSM_DECODE[i];
    if i == 24 {
      assert e == Entry("%C3%A9", E_ACUTE);
    } else {
      RowOf(i);
      if e in DECODE_1 {
        Row1(e);
      } else if e in DECODE_2 {
        Row2(e);
      } else if e in DECODE_3 {
        Row3(e);
      } else if e in DECODE_4 {
        Row4(e);
      } else {
        Row5(e);
      }
      CdmaEscapesAreOctets(e.c);
      OctetDetermines(e.escape, CDMA_ENCODE[e.c]);
    }
  }

  lemma RowOf(i: nat)
    requires i < 24
    ensures var e := GSM_DECODE[i];
            e in DECODE_1 || e in DECODE_2 || e in DECODE_3 || e in DECODE_4 || e in DECODE_5
  {
  }

  /** The escape of an entry is its character's code, in two hexadecimal digits. */
  predicate IsOctetEntry(e: Entry) {
    && e.c in CDMA_ENCODE && |e.escape| == 3 && e.escape[0] == '%' && Octet(e.escape) == e.c as int
    && 0 <= HexDigit(e.escape[1]) && 0 <= HexDigit(e.escape[2])
  }

  lemma Row1(e: Entry)
    requires e in DECODE_1
    ensures IsOctetEntry(e)
  {
  }

  lemma Row2(e: Entry)
    requires e in DECODE_2
    ensures IsOctetEntry(e)
  {
  }

  lemma Row3(e: Entry)
    requires e in DECODE_3
    ensures IsOctetEntry(e)
  {
  }

  lemma Row4(e: Entry)
    requires e in DECODE_4
    ensures IsOctetEntry(e)
  {
  }

  lemma Row5(e: Entry)
    requires e in DECODE_5
    ensures IsOctetEntry(e)
  {
  }

  lemma OctetDetermines(v: string, w: string)
    requires |v| == |w| == 3 && v[0] == w[0] && Octet(v) == Octet(w)
    requires 0 <= HexDigit(v[1]) && 0 <= HexDigit(v[2]) && 0 <= HexDigit(w[1]) && 0 <= HexDigit(w[2])
    ensures v == w
  {
  }

  lemma EncodeEntry(c: char)
    requires c in GSM_ENCODE
    ensures Entry(GSM_ENCODE[c], c) in GSM_DECODE
  {
  }

  lemma {:induction false} CdmaIsGsmWithoutAcute(text: string)
    ensures Mixed(CDMA_ENCODE, text, {}) == Mixed(GSM_ENCODE, text, {E_ACUTE})
  {
    if text == [] {
    } else {
      CdmaIsGsmWithoutAcute(text[1..]);
      if text[0] in CDMA_ENCODE {
        CdmaEscapesAreOctets(text[0]);
      }
    }
  }

  // ---------- the three functions ----------

  method GsmEncode(text: string) returns (codedStr: string)
    ensures codedStr == Mixed(GSM_ENCODE, text, {})
  {
    codedStr := Encode(GSM_ENCODE, text);
  }

  method CdmaEncode(text: string) returns (codedStr: string)
    ensures codedStr == Mixed(CDMA_ENCODE, text, {})
  {
    codedStr := Encode(CDMA_ENCODE, text);
  }

  /** Also the inverse of both encoders on every text without '%'. */
  method GsmDecode(text: string) returns (codedStr: string)
    ensures codedStr == Decoded(text)
    ensures forall sent: string :: '%' !in sent && text == Mixed(GSM_ENCODE, sent, {}) ==> codedStr == sent
    ensures forall sent: string :: '%' !in sent && text == Mixed(CDMA_ENCODE, sent, {}) ==> codedStr == sent
  {
    GsmDecodeInvertsEncode();
    GsmIsEscapeTable();
    codedStr := Decode(GSM_DECODE, text);
    forall sent: string | '%' !in sent
      ensures text == Mixed(GSM_ENCODE, sent, {}) ==> codedStr == sent
      ensures text == Mixed(CDMA_ENCODE, sent, {}) ==> codedStr == sent
    {
      RoundTripWithoutPercent(GSM_ENCODE, GSM_DECODE, sent, {});
      RoundTripWithoutPercent(GSM_ENCODE, GSM_DECODE, sent, {E_ACUTE});
      CdmaIsGsmWithoutAcute(sent);
    }
  }

  function Decoded(text: string): string {
    DecodableEntries();
    Passes(GSM_DECODE, text, text)
  }

  lemma DecodableEntries()
    ensures forall i :: 0 <= i < |GSM_DECODE| ==> GSM_DECODE[i].escape != []
  {
    forall i | 0 <= i < |GSM_DECODE|
      ensures GSM_DECODE[i].escape != []
    {
      GsmDecodeInvertsEncode();
      GsmIsEscapeTable();
    }
  }

  // ---------- the exact domain of the round trip ----------

  /** No character with a pass after the one for '%' occurs in text together with its spelled-out escape. */
  ghost predicate Survives(text: string, kept: set<char>) {
    forall j :: PERCENT_PASS < j < |GSM_DECODE| ==> !Collides(GSM_DECODE[j], text, kept)
  }

  lemma GarbledMeansNotSurviving(text: string, kept: set<char>)
    ensures Garbled(GSM_DECODE, text, kept) <==> !Survives(text, kept)
  {
    forall i | 0 <= i < |GSM_DECODE| && GSM_DECODE[i].c == '%'
      ensures i == PERCENT_PASS
    {
    }
    if j :| PERCENT_PASS < j < |GSM_DECODE| && Collides(GSM_DECODE[j], text, kept) {
      assert GSM_DECODE[PERCENT_PASS].c == '%';
    }
  }

  lemma GsmRoundTrip(text: string)
    ensures Decoded(Mixed(GSM_ENCODE, text, {})) == text <==> Survives(text, {})
  {
    GsmDecodeInvertsEncode();
    GsmIsEscapeTable();
    RoundTrip(GSM_ENCODE, GSM_DECODE, text, {});
    GarbledMeansNotSurviving(text, {});
  }

  /** Text sent through the CDMA encoder comes back under the same condition, except that 'é' is never at risk. */
  lemma CdmaRoundTrip(text: string)
    ensures Decoded(Mixed(CDMA_ENCODE, text, {})) == text <==> Survives(text, {E_ACUTE})
  {
    GsmDecodeInvertsEncode();
    GsmIsEscapeTable();
    CdmaIsGsmWithoutAcute(text);
    RoundTrip(GSM_ENCODE, GSM_DECODE, text, {E_ACUTE});
    GarbledMeansNotSurviving(text, {E_ACUTE});
  }

  /** A text with '%' that does not come back: both halves decode to the same character. */
  lemma {:induction false} AmpersandIsGarbled()
    ensures Mixed(GSM_ENCODE, "&%26", {}) == "%26%2526"
    ensures Decoded("%26%2526") != "&%26"
  {
    assert Contains("&%26", "%26") by {
      assert "&%26"[1..] == "%26";
    }
    assert GSM_DECODE[7] == Entry("%26", '&');
    assert Collides(GSM_DECODE[7], "&%26", {});
    MixedAmpersand();
    GsmRoundTrip("&%26");
  }

  lemma MixedAmpersand()
    ensures Mixed(GSM_ENCODE, "&%26", {}) == "%26%2526"
  {
    HexDigitsAreNotEscaped('2');
    HexDigitsAreNotEscaped('6');
    assert "&%26"[1..] == "%26" && "%26"[1..] == "26" && "26"[1..] == "6";
    assert Mixed(GSM_ENCODE, "6", {}) == "6";
    assert Mixed(GSM_ENCODE, "26", {}) == "26";
    assert Mixed(GSM_ENCODE, "%26", {}) == "%2526";
  }
}
