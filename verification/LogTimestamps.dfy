/** Comparing logline timestamps as text (acts/logger.py). */
module LogTimestamps {
  import opened Wrappers
  import opened Strings

  /** Year, month, day, hour, minute, second and millisecond, as text. None is the ValueError. */
  function Parse(t: string): Option<seq<string>> {
    var halves := Split(t, ' ');
    if |halves| != 2 then None else
    var date, time := Split(halves[0], '-'), Split(halves[1], ':');
    if |date| != 3 || |time| != 3 then None else
    var s := Split(time[2], '.');
    if |s| != 2 then None else
    Some([date[0], date[1], date[2], time[0], time[1], s[0], s[1]])
  }

  /** u1 < u2 on strings. */
  predicate Less(u1: string, u2: string) {
    u2 != [] && (u1 == [] || u1[0] < u2[0] || (u1[0] == u2[0] && Less(u1[1..], u2[1..])))
  }

  function CompareFields(dt1: seq<string>, dt2: seq<string>): int
    decreases dt1
  {
    if dt1 == [] || dt2 == [] then 0
    else if Less(dt1[0], dt2[0]) then -1
    else if Less(dt2[0], dt1[0]) then 1
    else CompareFields(dt1[1..], dt2[1..])
  }

  function Compare(t1: string, t2: string): Option<int> {
    var dt1, dt2 := Parse(t1), Parse(t2);
    if dt1 == None || dt2 == None then None else Some(CompareFields(dt1.value, dt2.value))
  }

  /** The range test of android_device.py. */
  function IsInRange(target: string, begin: string, end: string): Option<bool> {
    var low := Compare(begin, target);
    var high := Compare(end, target);
    if low == None || high == None then None else Some(low.value <= 0 && high.value >= 0)
  }

  // ---------- a total order on all timestamps that parse ----------

  /** The texts are the same up to some place, and there the first is at its end or has the smaller character. */
  lemma {:induction false} LessIff(a: string, b: string)
    ensures Less(a, b) <==>
            exists k :: 0 <= k <= |a| && k < |b| && a[..k] == b[..k] && (k == |a| || a[k] < b[k])
  {
    if a == [] {
      if b != [] {
        assert a[..0] == b[..0];
      }
    } else if b == [] {
    } else if a[0] != b[0] {
      assert a[..0] == b[..0];
      assert forall k :: 0 < k <= |a| && k < |b| ==> a[..k][0] != b[..k][0];
    } else {
      LessIff(a[1..], b[1..]);
      if k :| 0 <= k <= |a[1..]| && k < |b[1..]| && a[1..][..k] == b[1..][..k]
              && (k == |a[1..]| || a[1..][k] < b[1..][k]) {
        assert a[..k + 1] == [a[0]] + a[1..][..k] && b[..k + 1] == [b[0]] + b[1..][..k];
      }
      if k :| 0 < k <= |a| && k < |b| && a[..k] == b[..k] && (k == |a| || a[k] < b[k]) {
        assert a[1..][..k - 1] == a[..k][1..] && b[1..][..k - 1] == b[..k][1..];
      }
    }
  }

  lemma {:induction false} LessIsTotal(a: string, b: string)
    ensures !(Less(a, b) && Less(b, a))
    ensures Less(a, b) || Less(b, a) || a == b
    ensures a == b ==> !Less(a, b)
  {
    if a == [] || b == [] {
    } else {
      LessIsTotal(a[1..], b[1..]);
      assert a == [a[0]] + a[1..] && b == [b[0]] + b[1..];
    }
  }

  lemma {:induction false} LessIsTransitive(a: string, b: string, c: string)
    requires Less(a, b) && Less(b, c)
    ensures Less(a, c)
  {
    if a == [] || !(a[0] == b[0] == c[0]) {
    } else {
      LessIsTransitive(a[1..], b[1..], c[1..]);
    }
  }

  lemma {:induction false} CompareFieldsIsTotal(a: seq<string>, b: seq<string>)
    requires |a| == |b|
    ensures CompareFields(b, a) == -CompareFields(a, b)
    ensures CompareFields(a, b) == 0 <==> a == b
  {
    if a == [] {
    } else {
      LessIsTotal(a[0], b[0]);
      CompareFieldsIsTotal(a[1..], b[1..]);
      assert a == [a[0]] + a[1..] && b == [b[0]] + b[1..];
    }
  }

  lemma {:induction false} CompareFieldsIsTransitive(a: seq<string>, b: seq<string>, c: seq<string>)
    requires |a| == |b| == |c|
    requires CompareFields(a, b) <= 0 && CompareFields(b, c) <= 0
    ensures CompareFields(a, c) <= 0
  {
    if a == [] {
    } else {
      LessIsTotal(a[0], b[0]);
      LessIsTotal(b[0], c[0]);
      LessIsTotal(a[0], c[0]);
      if Less(a[0], b[0]) && Less(b[0], c[0]) {
        LessIsTransitive(a[0], b[0], c[0]);
      } else if a[0] == b[0] == c[0] {
        CompareFieldsIsTransitive(a[1..], b[1..], c[1..]);
      }
    }
  }

  /** Different timestamps have different fields. */
  lemma ParseIsInjective(t1: string, t2: string)
    requires Parse(t1).Some? && Parse(t1) == Parse(t2)
    ensures t1 == t2
  {
    Reassemble(t1);
    Reassemble(t2);
  }

  function Assemble(f: seq<string>): string
    requires |f| == 7
  {
    Join([Join([f[0], f[1], f[2]], '-'), Join([f[3], f[4], Join([f[5], f[6]], '.')], ':')], ' ')
  }

  lemma Reassemble(t: string)
    requires Parse(t).Some?
    ensures t == Assemble(Parse(t).value)
  {
    var halves := Split(t, ' ');
    var date, time := Split(halves[0], '-'), Split(halves[1], ':');
    var s := Split(time[2], '.');
    JoinOfSplit(t, ' ');
    JoinOfSplit(halves[0], '-');
    JoinOfSplit(halves[1], ':');
    JoinOfSplit(time[2], '.');
    assert s == [s[0], s[1]] && date == [date[0], date[1], date[2]] && time == [time[0], time[1], time[2]];
    assert halves == [halves[0], halves[1]];
  }

  lemma ComparatorIsATotalOrder(t1: string, t2: string, t3: string)
    requires Parse(t1).Some? && Parse(t2).Some? && Parse(t3).Some?
    ensures Compare(t1, t2).Some? && Compare(t2, t1) == Some(-Compare(t1, t2).value)
    ensures Compare(t1, t2) == Some(0) <==> t1 == t2
    ensures Compare(t1, t2).value <= 0 && Compare(t2, t3).value <= 0 ==> Compare(t1, t3).value <= 0
  {
    CompareFieldsIsTotal(Parse(t1).value, Parse(t2).value);
    if Parse(t1) == Parse(t2) {
      ParseIsInjective(t1, t2);
    }
    if CompareFields(Parse(t1).value, Parse(t2).value) <= 0 && CompareFields(Parse(t2).value, Parse(t3).value) <= 0 {
      CompareFieldsIsTransitive(Parse(t1).value, Parse(t2).value, Parse(t3).value);
    }
  }

  // ---------- on digits of equal width it is the order of the numbers ----------

  predicate IsNumeral(s: string) {
    forall i :: 0 <= i < |s| ==> '0' <= s[i] <= '9'
  }

  function Number(s: string): nat
    requires IsNumeral(s)
  {
    if s == [] then 0
    else
      var d: nat := s[0] as int - '0' as int;
      d * Pow10(|s| - 1) + Number(s[1..])
  }

  function Pow10(n: nat): nat {
    if n == 0 then 1 else 10 * Pow10(n - 1)
  }

  predicate AreNumerals(dt: seq<string>) {
    forall i :: 0 <= i < |dt| ==> IsNumeral(dt[i])
  }

  function Numbers(dt: seq<string>): seq<nat>
    requires AreNumerals(dt)
  {
    if dt == [] then [] else [Number(dt[0])] + Numbers(dt[1..])
  }

  predicate SameWidths(a: seq<string>, b: seq<string>) {
    |a| == |b| && forall i :: 0 <= i < |a| ==> |a[i]| == |b[i]|
  }

  /** Comparison of tuples of numbers, the first difference deciding. */
  function CompareNumbers(a: seq<nat>, b: seq<nat>): int
    decreases a
  {
    if a == [] || b == [] then 0
    else if a[0] < b[0] then -1
    else if a[0] > b[0] then 1
    else CompareNumbers(a[1..], b[1..])
  }

  lemma {:induction false} NumberIsBounded(s: string)
    requires IsNumeral(s)
    ensures Number(s) < Pow10(|s|)
  {
    if s == [] {
    } else {
      NumberIsBounded(s[1..]);
      LeadingDigit(s[0] as int - '0' as int, Pow10(|s| - 1), Number(s[1..]));
    }
  }

  lemma LeadingDigit(d: int, p: nat, rest: nat)
    requires 0 <= d <= 9 && rest < p
    ensures d * p + rest < 10 * p
  {
    assert d * p <= 9 * p;
  }

  lemma DigitDecides(d: int, e: int, p: nat, r: nat, q: nat)
    requires d < e && r < p && q < p
    ensures d * p + r < e * p + q
  {
    assert (d + 1) * p <= e * p;
  }

  lemma {:induction false} LessIsNumeric(a: string, b: string)
    requires IsNumeral(a) && IsNumeral(b) && |a| == |b|
    ensures Less(a, b) <==> Number(a) < Number(b)
  {
    if a == [] {
    } else {
      LessIsNumeric(a[1..], b[1..]);
      NumberIsBounded(a[1..]);
      NumberIsBounded(b[1..]);
      var d, e, p := a[0] as int - '0' as int, b[0] as int - '0' as int, Pow10(|a| - 1);
      if d < e {
        DigitDecides(d, e, p, Number(a[1..]), Number(b[1..]));
      } else if e < d {
        DigitDecides(e, d, p, Number(b[1..]), Number(a[1..]));
      }
    }
  }

  lemma {:induction false} CompareFieldsIsNumeric(a: seq<string>, b: seq<string>)
    requires AreNumerals(a) && AreNumerals(b) && SameWidths(a, b)
    ensures CompareFields(a, b) == CompareNumbers(Numbers(a), Numbers(b))
    decreases a
  {
    if a == [] {
    } else {
      LessIsNumeric(a[0], b[0]);
      LessIsNumeric(b[0], a[0]);
      CompareFieldsIsNumeric(a[1..], b[1..]);
    }
  }

  /** Timestamps whose fields are digits, each as wide as in the other. */
  predicate Comparable(t1: string, t2: string) {
    && Parse(t1).Some? && Parse(t2).Some?
    && AreNumerals(Parse(t1).value) && AreNumerals(Parse(t2).value)
    && SameWidths(Parse(t1).value, Parse(t2).value)
  }

  /** A negative, zero or positive answer means an earlier, equal or later point of the calendar tuple. */
  lemma ComparatorIsNumeric(t1: string, t2: string)
    requires Comparable(t1, t2)
    ensures Compare(t1, t2) == Some(CompareNumbers(Numbers(Parse(t1).value), Numbers(Parse(t2).value)))
  {
    CompareFieldsIsNumeric(Parse(t1).value, Parse(t2).value);
  }

  /** The range test is membership in the closed interval of points. */
  lemma RangeIsClosedInterval(target: string, begin: string, end: string)
    requires Comparable(begin, target) && Comparable(end, target)
    ensures var b, x, e := Numbers(Parse(begin).value), Numbers(Parse(target).value), Numbers(Parse(end).value);
            IsInRange(target, begin, end) == Some(CompareNumbers(b, x) <= 0 && CompareNumbers(x, e) <= 0)
  {
    ComparatorIsNumeric(begin, target);
    ComparatorIsNumeric(end, target);
    CompareNumbersFlips(Numbers(Parse(end).value), Numbers(Parse(target).value));
  }

  lemma {:induction false} CompareNumbersFlips(a: seq<nat>, b: seq<nat>)
    ensures CompareNumbers(b, a) == -CompareNumbers(a, b)
    decreases a
  {
    if a == [] || b == [] {
    } else {
      CompareNumbersFlips(a[1..], b[1..]);
    }
  }

  // ---------- on all digits, exactly when it is the order of the numbers ----------

  /** The digits without leading zeros. */
  function Significant(s: string): string {
    if s != [] && s[0] == '0' then Significant(s[1..]) else s
  }

  function AllSignificant(dt: seq<string>): seq<string> {
    if dt == [] then [] else [Significant(dt[0])] + AllSignificant(dt[1..])
  }

  /** Of two numerals the one with fewer significant digits is smaller; the text decides between equally many. */
  predicate NumberLess(a: string, b: string) {
    var sa, sb := Significant(a), Significant(b);
    |sa| < |sb| || (|sa| == |sb| && Less(sa, sb))
  }

  /** The first place where two sequences of equal length differ, or their length. */
  function FirstDifference(a: seq<string>, b: seq<string>): (k: nat)
    requires |a| == |b|
    ensures k <= |a|
  {
    if a == [] || a[0] != b[0] then 0 else 1 + FirstDifference(a[1..], b[1..])
  }

  lemma {:induction false} SignificantKeepsNumber(s: string)
    requires IsNumeral(s)
    ensures IsNumeral(Significant(s)) && Number(Significant(s)) == Number(s) && |Significant(s)| <= |s|
    ensures Significant(s) != [] ==> Number(s) >= Pow10(|Significant(s)| - 1)
  {
    if s == [] {
    } else if s[0] == '0' {
      SignificantKeepsNumber(s[1..]);
    } else {
      NoLeadingZero(s);
    }
  }

  lemma NoLeadingZero(s: string)
    requires IsNumeral(s) && s != [] && s[0] != '0'
    ensures Number(s) >= Pow10(|s| - 1)
  {
    AtLeastOnce(s[0] as int - '0' as int, Pow10(|s| - 1), Number(s[1..]));
  }

  lemma AtLeastOnce(d: int, p: nat, rest: nat)
    requires d >= 1
    ensures d * p + rest >= p
  {
    assert (d - 1) * p >= 0;
  }

  lemma {:induction false} Pow10Grows(m: nat, n: nat)
    requires m <= n
    ensures Pow10(m) <= Pow10(n)
  {
    if m == n {
    } else {
      Pow10Grows(m, n - 1);
    }
  }

  lemma FewerDigitsAreLess(a: string, b: string)
    requires IsNumeral(a) && IsNumeral(b) && |Significant(a)| < |Significant(b)|
    ensures Number(a) < Number(b)
  {
    SignificantKeepsNumber(a);
    SignificantKeepsNumber(b);
    NumberIsBounded(Significant(a));
    Pow10Grows(|Significant(a)|, |Significant(b)| - 1);
  }

  lemma NumberLessIsNumeric(a: string, b: string)
    requires IsNumeral(a) && IsNumeral(b)
    ensures NumberLess(a, b) <==> Number(a) < Number(b)
    ensures Significant(a) == Significant(b) <==> Number(a) == Number(b)
  {
    SignificantKeepsNumber(a);
    SignificantKeepsNumber(b);
    var sa, sb := Significant(a), Significant(b);
    if |sa| < |sb| {
      FewerDigitsAreLess(a, b);
    } else if |sb| < |sa| {
      FewerDigitsAreLess(b, a);
    } else {
      LessIsNumeric(sa, sb);
      LessIsNumeric(sb, sa);
      LessIsTotal(sa, sb);
    }
  }

  /** The comparator goes by the first fields that differ as text. */
  lemma {:induction false} TextDecides(a: seq<string>, b: seq<string>)
    requires |a| == |b|
    ensures var k := FirstDifference(a, b);
            && CompareFields(a, b) == (if k == |a| then 0 else if Less(a[k], b[k]) then -1 else 1)
            && (k == |a| <==> a == b)
  {
    if a == [] {
    } else {
      LessIsTotal(a[0], b[0]);
      TextDecides(a[1..], b[1..]);
      assert a == [a[0]] + a[1..] && b == [b[0]] + b[1..];
    }
  }

  /** The numbers go by the first fields that differ in their significant digits. */
  lemma {:induction false} DigitsDecide(a: seq<string>, b: seq<string>)
    requires |a| == |b| && AreNumerals(a) && AreNumerals(b)
    ensures |AllSignificant(a)| == |a| && |AllSignificant(b)| == |a|
    ensures var m := FirstDifference(AllSignificant(a), AllSignificant(b));
            CompareNumbers(Numbers(a), Numbers(b)) ==
            if m == |a| then 0 else if NumberLess(a[m], b[m]) then -1 else 1
  {
    if a == [] {
    } else {
      NumberLessIsNumeric(a[0], b[0]);
      DigitsDecide(a[1..], b[1..]);
      assert AllSignificant(a)[1..] == AllSignificant(a[1..]) && AllSignificant(b)[1..] == AllSignificant(b[1..]);
    }
  }

  /**
    Whether text and numbers agree on two tuples of digits can be told from two fields: the first
    in which they differ as text, and the first in which they differ in their significant digits.
   */
  predicate TextAgrees(a: seq<string>, b: seq<string>)
    requires |a| == |b| == |AllSignificant(a)| == |AllSignificant(b)|
  {
    var k, m := FirstDifference(a, b), FirstDifference(AllSignificant(a), AllSignificant(b));
    k == |a| || (m < |a| && (Less(a[k], b[k]) <==> NumberLess(a[m], b[m])))
  }

  lemma FieldsAgreeIff(a: seq<string>, b: seq<string>)
    requires |a| == |b| && AreNumerals(a) && AreNumerals(b)
    ensures |AllSignificant(a)| == |a| && |AllSignificant(b)| == |b|
    ensures CompareFields(a, b) == CompareNumbers(Numbers(a), Numbers(b)) <==> TextAgrees(a, b)
  {
    TextDecides(a, b);
    DigitsDecide(a, b);
    CompareFieldsIsNumeric(a, a);
  }

  /** On any timestamps of digits, of whatever widths, the comparator has the order of the numbers exactly then. */
  lemma ComparatorIsNumericIff(t1: string, t2: string)
    requires Parse(t1).Some? && Parse(t2).Some?
    requires AreNumerals(Parse(t1).value) && AreNumerals(Parse(t2).value)
    ensures |AllSignificant(Parse(t1).value)| == 7 && |AllSignificant(Parse(t2).value)| == 7
    ensures Compare(t1, t2) == Some(CompareNumbers(Numbers(Parse(t1).value), Numbers(Parse(t2).value))) <==>
            TextAgrees(Parse(t1).value, Parse(t2).value)
  {
    FieldsAgreeIff(Parse(t1).value, Parse(t2).value);
  }

  /** Digits without a leading zero, or a zero. */
  predicate Unpadded(s: string) {
    IsNumeral(s) && s != [] && (s[0] == '0' ==> |s| == 1)
  }

  lemma UnpaddedNumberLess(a: string, b: string)
    requires Unpadded(a) && Unpadded(b) && a != b
    ensures Significant(a) != Significant(b)
    ensures NumberLess(a, b) <==> if |a| == |b| then Less(a, b) else |a| < |b|
  {
    SignificantOfUnpadded(a);
    SignificantOfUnpadded(b);
    if |a| == |b| {
      LessIsNumeric(a, b);
      NumberLessIsNumeric(a, b);
    }
  }

  lemma SignificantOfUnpadded(s: string)
    requires Unpadded(s)
    ensures Significant(s) == if s == "0" then [] else s
  {
  }

  lemma {:induction false} UnpaddedDifferAlike(a: seq<string>, b: seq<string>)
    requires |a| == |b| && forall i :: 0 <= i < |a| ==> Unpadded(a[i]) && Unpadded(b[i])
    ensures |AllSignificant(a)| == |a| && |AllSignificant(b)| == |b|
    ensures FirstDifference(AllSignificant(a), AllSignificant(b)) == FirstDifference(a, b)
    ensures FirstDifference(a, b) < |a| ==> a[FirstDifference(a, b)] != b[FirstDifference(a, b)]
  {
    if a == [] {
    } else {
      if a[0] != b[0] {
        UnpaddedNumberLess(a[0], b[0]);
      }
      UnpaddedDifferAlike(a[1..], b[1..]);
      assert AllSignificant(a)[1..] == AllSignificant(a[1..]) && AllSignificant(b)[1..] == AllSignificant(b[1..]);
    }
  }

  /** Fields without padding: the first that differ must be equally wide, or the narrower one first as text. */
  lemma UnpaddedFieldsAgreeIff(a: seq<string>, b: seq<string>)
    requires |a| == |b| && forall i :: 0 <= i < |a| ==> Unpadded(a[i]) && Unpadded(b[i])
    ensures AreNumerals(a) && AreNumerals(b)
    ensures var k := FirstDifference(a, b);
            CompareFields(a, b) == CompareNumbers(Numbers(a), Numbers(b)) <==>
            k == |a| || |a[k]| == |b[k]| || (|a[k]| < |b[k]| <==> Less(a[k], b[k]))
  {
    FieldsAgreeIff(a, b);
    UnpaddedDifferAlike(a, b);
    var k := FirstDifference(a, b);
    if k < |a| {
      UnpaddedNumberLess(a[k], b[k]);
    }
  }

  // ---------- a timestamp that is misplaced ----------

  /** Any seven fields without separators are those of a timestamp. */
  lemma ParseOfAssemble(f: seq<string>)
    requires |f| == 7 && AreNumerals(f)
    ensures Parse(Assemble(f)) == Some(f)
  {
    var seconds := Join([f[5], f[6]], '.');
    var date, time := Join([f[0], f[1], f[2]], '-'), Join([f[3], f[4], seconds], ':');
    assert Assemble(f) == Join([date, time], ' ');
    JoinFree([f[5], f[6]], '.', ':');
    JoinFree([f[5], f[6]], '.', ' ');
    JoinFree([f[0], f[1], f[2]], '-', ' ');
    JoinFree([f[3], f[4], seconds], ':', ' ');
    SplitOfJoin([date, time], ' ');
    SplitOfJoin([f[0], f[1], f[2]], '-');
    SplitOfJoin([f[3], f[4], seconds], ':');
    SplitOfJoin([f[5], f[6]], '.');
    assert f == [f[0], f[1], f[2], f[3], f[4], f[5], f[6]];
  }

  lemma {:induction false} JoinFree(parts: seq<string>, sep: char, c: char)
    requires c != sep && forall i :: 0 <= i < |parts| ==> c !in parts[i]
    ensures c !in Join(parts, sep)
  {
    if |parts| <= 1 {
    } else {
      JoinFree(parts[1..], sep, c);
    }
  }

  /** The ninth millisecond of a minute is placed behind the tenth, whatever the rest of the timestamp is. */
  lemma NinthAfterTenth(f: seq<string>)
    requires |f| == 6 && AreNumerals(f)
    ensures var t1, t2 := Assemble(f + ["9"]), Assemble(f + ["10"]);
            && Compare(t1, t2) == Some(1)
            && Parse(t1) == Some(f + ["9"]) && Parse(t2) == Some(f + ["10"])
            && CompareNumbers(Numbers(f + ["9"]), Numbers(f + ["10"])) == -1
  {
    var a, b := f + ["9"], f + ["10"];
    ParseOfAssemble(a);
    ParseOfAssemble(b);
    SameUntil(f, "9", "10");
    assert Less("10", "9") && !Less("9", "10");
    TextDecides(a, b);
    DigitsDecide(a, b);
    assert Significant("9") == "9" && Significant("10") == "10";
  }

  lemma {:induction false} SameUntil(f: seq<string>, x: string, y: string)
    requires Significant(x) != Significant(y)
    ensures FirstDifference(f + [x], f + [y]) == |f|
    ensures |AllSignificant(f + [x])| == |AllSignificant(f + [y])|
    ensures FirstDifference(AllSignificant(f + [x]), AllSignificant(f + [y])) == |f|
  {
    if f == [] {
      assert (f + [x])[1..] == [] && (f + [y])[1..] == [];
    } else {
      assert (f + [x])[1..] == f[1..] + [x] && (f + [y])[1..] == f[1..] + [y];
      SameUntil(f[1..], x, y);
    }
  }

  lemma Spelled(f: seq<string>, date: string, time: string)
    requires |f| == 7
    requires date == f[0] + ['-'] + f[1] + ['-'] + f[2]
    requires time == f[3] + [':'] + f[4] + [':'] + f[5] + ['.'] + f[6]
    ensures Assemble(f) == date + [' '] + time
  {
    JoinOfThree(f[0], f[1], f[2], '-');
    JoinOfTwo(f[5], f[6], '.');
    JoinOfThree(f[3], f[4], Join([f[5], f[6]], '.'), ':');
    JoinOfTwo(date, time, ' ');
    assert time == f[3] + [':'] + f[4] + [':'] + Join([f[5], f[6]], '.');
  }

  lemma JoinOfTwo(a: string, b: string, sep: char)
    ensures Join([a, b], sep) == a + [sep] + b
  {
    assert [a, b][1..] == [b];
  }

  lemma JoinOfThree(a: string, b: string, c: string, sep: char)
    ensures Join([a, b, c], sep) == a + [sep] + b + [sep] + c
  {
    assert [a, b, c][1..] == [b, c];
    JoinOfTwo(b, c, sep);
  }

  const NEW_YEAR: seq<string> := ["2019", "01", "01", "00", "00", "00"]

  lemma NewYearWritten(ms: string)
    ensures Assemble(NEW_YEAR + [ms]) == "2019-01-01 00:00:00." + ms
  {
    Spelled(NEW_YEAR + [ms], "2019-01-01", "00:00:00." + ms);
    assert "2019-01-01" + [' '] + "00:00:00." == "2019-01-01 00:00:00.";
  }

  /** For one, 2019-01-01 00:00:00.9 is placed behind 2019-01-01 00:00:00.10. */
  lemma MisplacedTimestamp()
    ensures Compare("2019-01-01 00:00:00.9", "2019-01-01 00:00:00.10") == Some(1)
    ensures Parse("2019-01-01 00:00:00.9") == Some(NEW_YEAR + ["9"])
    ensures Parse("2019-01-01 00:00:00.10") == Some(NEW_YEAR + ["10"])
  {
    NinthAfterTenth(NEW_YEAR);
    NewYearWritten("9");
    NewYearWritten("10");
    assert "2019-01-01 00:00:00." + "9" == "2019-01-01 00:00:00.9";
    assert "2019-01-01 00:00:00." + "10" == "2019-01-01 00:00:00.10";
  }
}
