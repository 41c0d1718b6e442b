/**
  The Levenshtein distance as its users understand it: the least number of single-character
  edits that turns one string into another. Edits act anywhere in the string, one after
  the other; nothing here mentions a table.

  Distance is the textbook recurrence, and the lemmas show that it is that least number.
  The laws of a metric then follow by concatenating and measuring edit scripts.
 */
module EditDistance {

  datatype Edit =
    | Insert(at: nat, c: char)
    | Delete(at: nat)
    | Substitute(at: nat, c: char)
  {
    predicate AppliesTo(s: string) {
      match this
      case Insert(_, _) => at <= |s|
      case Delete(_) => at < |s|
      case Substitute(_, _) => at < |s|
    }

    function Apply(s: string): string
      requires AppliesTo(s)
    {
      match this
      case Insert(_, _) => s[..at] + [c] + s[at..]
      case Delete(_) => s[..at] + s[at + 1..]
      case Substitute(_, _) => s[..at] + [c] + s[at + 1..]
    }
  }

  type Script = seq<Edit>

  /** Running the edits of script in turn is possible from s and ends in t. */
  predicate Transforms(script: Script, s: string, t: string) {
    if script == [] then
      s == t
    else
      script[0].AppliesTo(s) && Transforms(script[1..], script[0].Apply(s), t)
  }

  /** d is the length of a shortest script from s to t. */
  ghost predicate IsEditDistance(s: string, t: string, d: nat) {
    && (exists script :: |script| == d && Transforms(script, s, t))
    && (forall script :: Transforms(script, s, t) ==> d <= |script|)
  }

  function Min(a: nat, b: nat): nat {
    if a <= b then a else b
  }

  function Max(a: nat, b: nat): nat {
    if a <= b then b else a
  }

  function Mismatch(a: char, b: char): nat {
    if a == b then 0 else 1
  }

  /** The recurrence on the last characters. */
  function Distance(s: string, t: string): nat
    decreases |s| + |t|
  {
    if s == [] then
      |t|
    else if t == [] then
      |s|
    else
      var sInit, tInit := s[..|s| - 1], t[..|t| - 1];
      Min(Min(Distance(sInit, t) + 1, Distance(s, tInit) + 1),
          Distance(sInit, tInit) + Mismatch(s[|s| - 1], t[|t| - 1]))
  }

  // ---------- a script of length Distance exists ----------

  lemma {:induction false} TransformsConcat(first: Script, second: Script, s: string, m: string, t: string)
    requires Transforms(first, s, m) && Transforms(second, m, t)
    ensures Transforms(first + second, s, t)
  {
    if first == [] {
      assert first + second == second;
    } else {
      TransformsConcat(first[1..], second, first[0].Apply(s), m, t);
      TransformsBehind(first[0], first[1..] + second, s, t);
      FirstOfConcat(first, second);
    }
  }

  lemma FirstOfConcat(first: Script, second: Script)
    requires first != []
    ensures first + second == [first[0]] + (first[1..] + second)
  {
  }

  lemma TransformsBehind(e: Edit, rest: Script, s: string, t: string)
    requires e.AppliesTo(s) && Transforms(rest, e.Apply(s), t)
    ensures Transforms([e] + rest, s, t)
  {
    assert ([e] + rest)[1..] == rest;
  }

  lemma ApplyBeforeSuffix(e: Edit, s: string, suffix: string)
    requires e.AppliesTo(s)
    ensures e.AppliesTo(s + suffix) && e.Apply(s + suffix) == e.Apply(s) + suffix
  {
    SplitBeforeSuffix(s, suffix, e.at);
    if e.at < |s| {
      SplitBeforeSuffix(s, suffix, e.at + 1);
    }
  }

  lemma SplitBeforeSuffix(s: string, suffix: string, at: nat)
    requires at <= |s|
    ensures (s + suffix)[..at] == s[..at] && (s + suffix)[at..] == s[at..] + suffix
  {
  }

  /** A script never looks past the string it runs on, so a suffix can be carried along. */
  lemma {:induction false} TransformsBeforeSuffix(script: Script, s: string, t: string, suffix: string)
    requires Transforms(script, s, t)
    ensures Transforms(script, s + suffix, t + suffix)
  {
    if script == [] {
    } else {
      var e, rest := script[0], script[1..];
      ApplyBeforeSuffix(e, s, suffix);
      TransformsBeforeSuffix(rest, e.Apply(s), t, suffix);
      TransformsBehind(e, rest, s + suffix, t + suffix);
      assert script == [e] + rest;
    }
  }

  lemma TransformsThenEdit(script: Script, s: string, m: string, e: Edit)
    requires Transforms(script, s, m) && e.AppliesTo(m)
    ensures Transforms(script + [e], s, e.Apply(m))
  {
    assert [e][1..] == [];
    TransformsConcat(script, [e], s, m, e.Apply(m));
  }

  lemma EndWithInsert(script: Script, s: string, t: string, z: char)
    requires Transforms(script, s, t)
    ensures Transforms(script + [Insert(|t|, z)], s, t + [z])
  {
    TransformsThenEdit(script, s, t, Insert(|t|, z));
    assert Insert(|t|, z).Apply(t) == t + [z];
  }

  lemma EndWithDelete(script: Script, s: string, x: char, t: string)
    requires Transforms(script, s, t)
    ensures Transforms(script + [Delete(|t|)], s + [x], t)
  {
    TransformsBeforeSuffix(script, s, t, [x]);
    TransformsThenEdit(script, s + [x], t + [x], Delete(|t|));
    assert Delete(|t|).Apply(t + [x]) == t;
  }

  lemma EndWithSubstitute(script: Script, s: string, x: char, t: string, z: char)
    requires Transforms(script, s, t)
    ensures Transforms(script + [Substitute(|t|, z)], s + [x], t + [z])
  {
    TransformsBeforeSuffix(script, s, t, [x]);
    TransformsThenEdit(script, s + [x], t + [x], Substitute(|t|, z));
    assert Substitute(|t|, z).Apply(t + [x]) == t + [z];
  }

  lemma {:induction false} ShortestScript(s: string, t: string) returns (script: Script)
    ensures |script| == Distance(s, t) && Transforms(script, s, t)
    decreases |s| + |t|
  {
    if s == [] && t == [] {
      return [];
    }
    if t != [] && (s == [] || Distance(s, t) == Distance(s, t[..|t| - 1]) + 1) {
      var tInit, z := t[..|t| - 1], t[|t| - 1];
      assert t == tInit + [z];
      script := ShortestScript(s, tInit);
      EndWithInsert(script, s, tInit, z);
      return script + [Insert(|tInit|, z)];
    }
    var sInit, x := s[..|s| - 1], s[|s| - 1];
    assert s == sInit + [x];
    if t == [] || Distance(s, t) == Distance(sInit, t) + 1 {
      script := ShortestScript(sInit, t);
      EndWithDelete(script, sInit, x, t);
      return script + [Delete(|t|)];
    }
    var tInit, z := t[..|t| - 1], t[|t| - 1];
    assert t == tInit + [z];
    script := ShortestScript(sInit, tInit);
    if x == z {
      TransformsBeforeSuffix(script, sInit, tInit, [x]);
    } else {
      EndWithSubstitute(script, sInit, x, tInit, z);
      script := script + [Substitute(|tInit|, z)];
    }
  }

  // ---------- no script is shorter: one edit changes Distance by at most one ----------

  /** The cost of the last characters, given those of the three neighbours. */
  function LastCost(insertion: nat, deletion: nat, both: nat, x: char, z: char): nat {
    Min(Min(insertion + 1, deletion + 1), both + Mismatch(x, z))
  }

  /** The recurrence with the last characters written out. */
  lemma DistanceOfSnoc(s: string, x: char, t: string, z: char)
    ensures Distance(s + [x], t + [z]) ==
            LastCost(Distance(s, t + [z]), Distance(s + [x], t), Distance(s, t), x, z)
  {
    assert (s + [x])[..|s|] == s && (t + [z])[..|t|] == t;
  }

  /** Neighbours that are never more than one farther are followed by a cost at most one greater. */
  lemma LastCostWithinOne(a: nat, b: nat, c: nat, d: nat, e: nat, f: nat, x: char, z: char)
    requires d <= a + 1 && e <= b + 1 && f <= c + 1
    ensures LastCost(d, e, f, x, z) <= LastCost(a, b, c, x, z) + 1
  {
  }

  /** Dropping the last character costs at most one, either way round. */
  lemma {:induction false} DistanceAfterDropLast(s: string, x: char, t: string)
    ensures Distance(s + [x], t) <= Distance(s, t) + 1
    ensures Distance(s, t) <= Distance(s + [x], t) + 1
    decreases |t|
  {
    assert (s + [x])[..|s|] == s;
    if t == [] {
    } else {
      DistanceAfterDropLast(s, x, t[..|t| - 1]);
    }
  }

  /** Deleting a character anywhere changes the distance by at most one. */
  lemma {:induction false} DistanceAfterDelete(a: string, x: char, b: string, t: string)
    ensures Distance(a + [x] + b, t) <= Distance(a + b, t) + 1
    ensures Distance(a + b, t) <= Distance(a + [x] + b, t) + 1
    decreases |b| + |t|
  {
    if b == [] {
      assert a + b == a && a + [x] + b == a + [x];
      DistanceAfterDropLast(a, x, t);
    } else if t != [] {
      var bInit, y, tInit, z := b[..|b| - 1], b[|b| - 1], t[..|t| - 1], t[|t| - 1];
      var without, with_ := a + bInit, a + [x] + bInit;
      assert a + b == without + [y] && a + [x] + b == with_ + [y] && t == tInit + [z];
      DistanceAfterDelete(a, x, bInit, t);
      DistanceAfterDelete(a, x, b, tInit);
      DistanceAfterDelete(a, x, bInit, tInit);
      DistanceOfSnoc(without, y, tInit, z);
      DistanceOfSnoc(with_, y, tInit, z);
      LastCostWithinOne(Distance(without, t), Distance(a + b, tInit), Distance(without, tInit),
                        Distance(with_, t), Distance(a + [x] + b, tInit), Distance(with_, tInit), y, z);
      LastCostWithinOne(Distance(with_, t), Distance(a + [x] + b, tInit), Distance(with_, tInit),
                        Distance(without, t), Distance(a + b, tInit), Distance(without, tInit), y, z);
    }
  }

  lemma {:induction false} DistanceAfterReplaceLast(a: string, x: char, y: char, t: string)
    ensures Distance(a + [x], t) <= Distance(a + [y], t) + 1
  {
    if t == [] {
    } else {
      var tInit, z := t[..|t| - 1], t[|t| - 1];
      assert t == tInit + [z];
      DistanceOfSnoc(a, x, tInit, z);
      DistanceOfSnoc(a, y, tInit, z);
      DistanceAfterReplaceLast(a, x, y, tInit);
    }
  }

  lemma {:induction false} DistanceAfterSubstitute(a: string, x: char, y: char, b: string, t: string)
    ensures Distance(a + [x] + b, t) <= Distance(a + [y] + b, t) + 1
    decreases |b| + |t|
  {
    if b == [] {
      assert a + [x] + b == a + [x] && a + [y] + b == a + [y];
      DistanceAfterReplaceLast(a, x, y, t);
    } else if t != [] {
      var bInit, w, tInit, z := b[..|b| - 1], b[|b| - 1], t[..|t| - 1], t[|t| - 1];
      var p, q := a + [y] + bInit, a + [x] + bInit;
      assert a + [x] + b == q + [w] && a + [y] + b == p + [w] && t == tInit + [z];
      DistanceAfterSubstitute(a, x, y, bInit, t);
      DistanceAfterSubstitute(a, x, y, b, tInit);
      DistanceAfterSubstitute(a, x, y, bInit, tInit);
      DistanceOfSnoc(p, w, tInit, z);
      DistanceOfSnoc(q, w, tInit, z);
      LastCostWithinOne(Distance(p, t), Distance(a + [y] + b, tInit), Distance(p, tInit),
                        Distance(q, t), Distance(a + [x] + b, tInit), Distance(q, tInit), w, z);
    }
  }

  lemma OneEditChangesDistanceByOne(e: Edit, s: string, t: string)
    requires e.AppliesTo(s)
    ensures Distance(s, t) <= Distance(e.Apply(s), t) + 1
  {
    match e
    case Insert(at, c) =>
      assert s[..at] + s[at..] == s;
      DistanceAfterDelete(s[..at], c, s[at..], t);
    case Delete(at) =>
      assert s[..at] + [s[at]] + s[at + 1..] == s;
      DistanceAfterDelete(s[..at], s[at], s[at + 1..], t);
    case Substitute(at, c) =>
      assert s[..at] + [s[at]] + s[at + 1..] == s;
      DistanceAfterSubstitute(s[..at], s[at], c, s[at + 1..], t);
  }

  lemma {:induction false} SelfDistance(s: string)
    ensures Distance(s, s) == 0
  {
    if s == [] {
    } else {
      SelfDistance(s[..|s| - 1]);
    }
  }

  /** Every script is at least as long as the distance it covers. */
  lemma {:induction false} NoShorterScript(script: Script, s: string, t: string)
    requires Transforms(script, s, t)
    ensures Distance(s, t) <= |script|
  {
    if script == [] {
      SelfDistance(s);
    } else {
      NoShorterScript(script[1..], script[0].Apply(s), t);
      OneEditChangesDistanceByOne(script[0], s, t);
    }
  }

  /** The recurrence computes the least number of edits, and nothing else is that number. */
  lemma {:induction false} DistanceIsEditDistance(s: string, t: string, d: nat)
    ensures IsEditDistance(s, t, d) <==> d == Distance(s, t)
  {
    var best := ShortestScript(s, t);
    forall script | Transforms(script, s, t)
      ensures Distance(s, t) <= |script|
    {
      NoShorterScript(script, s, t);
    }
  }

  // ---------- the laws of a metric ----------

  lemma {:induction false} DistanceIsSymmetric(s: string, t: string)
    ensures Distance(s, t) == Distance(t, s)
    decreases |s| + |t|
  {
    if s == [] || t == [] {
    } else {
      var sInit, tInit := s[..|s| - 1], t[..|t| - 1];
      DistanceIsSymmetric(sInit, t);
      DistanceIsSymmetric(s, tInit);
      DistanceIsSymmetric(sInit, tInit);
    }
  }

  lemma {:induction false} ZeroDistanceIffEqual(s: string, t: string)
    ensures Distance(s, t) == 0 <==> s == t
  {
    SelfDistance(s);
    var script := ShortestScript(s, t);
  }

  lemma {:induction false} TriangleInequality(s: string, m: string, t: string)
    ensures Distance(s, t) <= Distance(s, m) + Distance(m, t)
  {
    var first := ShortestScript(s, m);
    var second := ShortestScript(m, t);
    TransformsConcat(first, second, s, m, t);
    NoShorterScript(first + second, s, t);
  }

  lemma {:induction false} DistanceBounds(s: string, t: string)
    ensures Distance(s, t) <= Max(|s|, |t|)
    ensures |s| <= |t| + Distance(s, t) && |t| <= |s| + Distance(s, t)
    decreases |s| + |t|
  {
    if s == [] || t == [] {
    } else {
      var sInit, tInit := s[..|s| - 1], t[..|t| - 1];
      DistanceBounds(sInit, t);
      DistanceBounds(s, tInit);
      DistanceBounds(sInit, tInit);
    }
  }
}
