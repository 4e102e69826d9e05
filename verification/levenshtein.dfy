/**
 Levenshtein edit distance between two strings.

 `EditDistance` is the unit-cost recurrence on prefixes (insertion, deletion
 and substitution cost 1, keeping a matching character costs 0).  `Apply` and
 `Cost` give an independent reading of it as the cheapest edit script, and
 `LevenshteinDistance` is the two-row dynamic programme of the program, proved
 to compute it.
*/
module Levenshtein {
  import opened Wrappers

  function Min3(a: nat, b: nat, c: nat): (m: nat)
    ensures m <= a && m <= b && m <= c
    ensures m == a || m == b || m == c
  {
    if a <= b && a <= c then a else if b <= c then b else c
  }

  /** Cost of lining up the two last characters: 0 when equal, 1 otherwise
      (the program's `c1 != c2` used as an integer). */
  function Mismatch(c1: char, c2: char): (cost: nat) {
    if c1 == c2 then 0 else 1
  }

  /** The unit-cost edit distance, by recursion on the last characters. */
  function EditDistance(a: string, b: string): (d: nat)
    decreases |a| + |b|
  {
    if |a| == 0 then |b|
    else if |b| == 0 then |a|
    else
      Min3(EditDistance(a[..|a| - 1], b) + 1,
           EditDistance(a, b[..|b| - 1]) + 1,
           EditDistance(a[..|a| - 1], b[..|b| - 1]) + Mismatch(a[|a| - 1], b[|b| - 1]))
  }

  // ---------------------------------------------------------------------------
  // Properties of the distance
  // ---------------------------------------------------------------------------

  /** An empty string is as far from another string as that string is long. */
  lemma EmptyDistance(s: string)
    ensures EditDistance(s, "") == |s| && EditDistance("", s) == |s|
  {
  }

  /** The order of the arguments does not matter. */
  lemma {:induction false} Symmetric(a: string, b: string)
    ensures EditDistance(a, b) == EditDistance(b, a)
    decreases |a| + |b|
  {
    if |a| > 0 && |b| > 0 {
      Symmetric(a[..|a| - 1], b);
      Symmetric(a, b[..|b| - 1]);
      Symmetric(a[..|a| - 1], b[..|b| - 1]);
    }
  }

  /** A string is at distance 0 from itself. */
  lemma {:induction false} SelfDistanceZero(s: string)
    ensures EditDistance(s, s) == 0
    decreases |s|
  {
    if |s| > 0 {
      SelfDistanceZero(s[..|s| - 1]);
    }
  }

  /** The distance lies between the length difference and the longer length. */
  lemma {:induction false} Bounds(a: string, b: string)
    ensures EditDistance(a, b) <= (if |a| >= |b| then |a| else |b|)
    ensures EditDistance(a, b) >= (if |a| >= |b| then |a| - |b| else |b| - |a|)
    decreases |a| + |b|
  {
    if |a| > 0 && |b| > 0 {
      Bounds(a[..|a| - 1], b);
      Bounds(a, b[..|b| - 1]);
      Bounds(a[..|a| - 1], b[..|b| - 1]);
    }
  }

  /** The recurrence, read at the prefixes the dynamic programme visits. */
  lemma PrefixStep(s1: string, s2: string, i: nat, j: nat)
    requires i < |s1| && j < |s2|
    ensures EditDistance(s1[..i + 1], s2[..j + 1])
         == Min3(EditDistance(s1[..i], s2[..j + 1]) + 1,
                 EditDistance(s1[..i + 1], s2[..j]) + 1,
                 EditDistance(s1[..i], s2[..j]) + Mismatch(s1[i], s2[j]))
  {
    assert s1[..i + 1][..i] == s1[..i];
    assert s2[..j + 1][..j] == s2[..j];
  }

  // ---------------------------------------------------------------------------
  // Edit scripts: the distance is the cost of the cheapest edit script
  // ---------------------------------------------------------------------------

  /** One edit step. Scripts are read from the end: the last step acts on the
      last character of what remains of the source. */
  datatype Edit = Keep | Substitute(c: char) | Insert(c: char) | Delete

  function Cost(script: seq<Edit>): (total: nat) {
    if script == [] then 0
    else Cost(script[..|script| - 1]) + (if script[|script| - 1].Keep? then 0 else 1)
  }

  /** The string a script turns `a` into, or `None` when the script does not
      consume exactly the characters of `a`. */
  function Apply(a: string, script: seq<Edit>): (b: Option<string>)
    decreases |script|
  {
    if script == [] then
      if a == [] then Some([]) else None
    else
      var rest := script[..|script| - 1];
      match script[|script| - 1]
      case Keep =>
        if a == [] then None
        else Then(Apply(a[..|a| - 1], rest), a[|a| - 1])
      case Substitute(c) =>
        if a == [] then None
        else Then(Apply(a[..|a| - 1], rest), c)
      case Insert(c) =>
        Then(Apply(a, rest), c)
      case Delete =>
        if a == [] then None else Apply(a[..|a| - 1], rest)
  }

  function Then(r: Option<string>, c: char): (r': Option<string>) {
    match r
    case None => None
    case Some(s) => Some(s + [c])
  }

  /** A cheapest script, built along the recurrence. */
  function OptimalScript(a: string, b: string): (script: seq<Edit>)
    decreases |a| + |b|
  {
    if |a| == 0 then InsertAll(b)
    else if |b| == 0 then OptimalScript(a[..|a| - 1], b) + [Delete]
    else
      var d := EditDistance(a, b);
      var a', b' := a[..|a| - 1], b[..|b| - 1];
      if d == EditDistance(a', b') + Mismatch(a[|a| - 1], b[|b| - 1]) then
        OptimalScript(a', b') + [if a[|a| - 1] == b[|b| - 1] then Keep else Substitute(b[|b| - 1])]
      else if d == EditDistance(a', b) + 1 then
        OptimalScript(a', b) + [Delete]
      else
        OptimalScript(a, b') + [Insert(b[|b| - 1])]
  }

  function InsertAll(b: string): (script: seq<Edit>)
    decreases |b|
  {
    if b == [] then [] else InsertAll(b[..|b| - 1]) + [Insert(b[|b| - 1])]
  }

  lemma {:induction false} InsertAllBuilds(b: string)
    ensures Apply("", InsertAll(b)) == Some(b) && Cost(InsertAll(b)) == |b|
    decreases |b|
  {
    if b != [] {
      InsertAllBuilds(b[..|b| - 1]);
      var s := InsertAll(b);
      assert s[..|s| - 1] == InsertAll(b[..|b| - 1]);
      assert b[..|b| - 1] + [b[|b| - 1]] == b;
    }
  }

  /** The distance is achieved: `OptimalScript` turns `a` into `b` at cost
      exactly `EditDistance(a, b)`. */
  lemma {:induction false} DistanceIsAchieved(a: string, b: string)
    ensures Apply(a, OptimalScript(a, b)) == Some(b)
    ensures Cost(OptimalScript(a, b)) == EditDistance(a, b)
    decreases |a| + |b|
  {
    if |a| == 0 {
      InsertAllBuilds(b);
    } else {
      var a' := a[..|a| - 1];
      var s := OptimalScript(a, b);
      if |b| == 0 {
        DistanceIsAchieved(a', b);
        assert s[..|s| - 1] == OptimalScript(a', b);
      } else {
        var b' := b[..|b| - 1];
        var d := EditDistance(a, b);
        if d == EditDistance(a', b') + Mismatch(a[|a| - 1], b[|b| - 1]) {
          DistanceIsAchieved(a', b');
          assert s[..|s| - 1] == OptimalScript(a', b');
          assert b' + [b[|b| - 1]] == b;
        } else if d == EditDistance(a', b) + 1 {
          DistanceIsAchieved(a', b);
          assert s[..|s| - 1] == OptimalScript(a', b);
        } else {
          DistanceIsAchieved(a, b');
          assert s[..|s| - 1] == OptimalScript(a, b');
          assert b' + [b[|b| - 1]] == b;
        }
      }
    }
  }

  /** No script is cheaper: every script that turns `a` into some `b` costs at
      least `EditDistance(a, b)`. */
  lemma {:induction false} NoCheaperScript(a: string, script: seq<Edit>)
    requires Apply(a, script).Some?
    ensures Cost(script) >= EditDistance(a, Apply(a, script).value)
    decreases |script|
  {
    var b := Apply(a, script).value;
    if script == [] {
      assert a == [] && b == [];
    } else {
      var rest := script[..|script| - 1];
      match script[|script| - 1]
      case Keep =>
        NoCheaperScript(a[..|a| - 1], rest);
        var b' := Apply(a[..|a| - 1], rest).value;
        assert b == b' + [a[|a| - 1]];
        assert b[..|b| - 1] == b';
      case Substitute(c) =>
        NoCheaperScript(a[..|a| - 1], rest);
        var b' := Apply(a[..|a| - 1], rest).value;
        assert b == b' + [c];
        assert b[..|b| - 1] == b';
      case Insert(c) =>
        NoCheaperScript(a, rest);
        var b' := Apply(a, rest).value;
        assert b == b' + [c];
        assert b[..|b| - 1] == b';
        Bounds(a, b);
      case Delete =>
        NoCheaperScript(a[..|a| - 1], rest);
    }
  }

  // ---------------------------------------------------------------------------
  // The two-row dynamic programme
  // ---------------------------------------------------------------------------

  /** `levenshtein_distance`: swaps the arguments so that `s1` is the longer,
      returns the other length when the shorter string is empty, and otherwise
      keeps one row of distances per prefix of `s1`. */
  method LevenshteinDistance(s1: string, s2: string) returns (d: nat)
    ensures d == EditDistance(s1, s2)
    ensures d == EditDistance(s2, s1)
    ensures (if |s1| >= |s2| then |s1| - |s2| else |s2| - |s1|) <= d
    ensures d <= (if |s1| >= |s2| then |s1| else |s2|)
  {
    Symmetric(s1, s2);
    Bounds(s1, s2);
    var a, b := s1, s2;
    if |a| < |b| {
      a, b := b, a;
    }
    assert EditDistance(a, b) == EditDistance(s1, s2);
    if |b| == 0 {
      return |a|;
    }
    var previousRow := FirstRow(b);
    var i := 0;
    while i < |a|
      invariant 0 <= i <= |a|
      invariant |previousRow| == |b| + 1
      invariant forall k :: 0 <= k <= |b| ==> previousRow[k] == EditDistance(a[..i], b[..k])
    {
      var currentRow := NextRow(a, b, i, previousRow);
      previousRow := currentRow;
      i := i + 1;
    }
    assert a[..|a|] == a && b[..|b|] == b;
    d := previousRow[|b|];
  }

  /** `range(len(s2) + 1)`: the row of distances from the empty prefix of
      the first string to every prefix of `b`. */
  function FirstRow(b: string): (row: seq<nat>)
    ensures |row| == |b| + 1
    ensures forall k :: 0 <= k <= |b| ==> row[k] == EditDistance([], b[..k])
  {
    seq(|b| + 1, k => k)
  }

  /** One pass of the inner loop: from the row for `a[..i]` builds the row for
      `a[..i + 1]`; its first cell is `i + 1`. */
  method NextRow(a: string, b: string, i: nat, previousRow: seq<nat>) returns (currentRow: seq<nat>)
    requires i < |a|
    requires |previousRow| == |b| + 1
    requires forall k :: 0 <= k <= |b| ==> previousRow[k] == EditDistance(a[..i], b[..k])
    ensures |currentRow| == |b| + 1
    ensures currentRow[0] == i + 1
    ensures forall k :: 0 <= k <= |b| ==> currentRow[k] == EditDistance(a[..i + 1], b[..k])
  {
    currentRow := [i + 1];
    var j := 0;
    while j < |b|
      invariant 0 <= j <= |b|
      invariant |currentRow| == j + 1
      invariant currentRow[0] == i + 1
      invariant forall k :: 0 <= k <= j ==> currentRow[k] == EditDistance(a[..i + 1], b[..k])
    {
      var insertions := previousRow[j + 1] + 1;
      var deletions := currentRow[j] + 1;
      var substitutions := previousRow[j] + Mismatch(a[i], b[j]);
      PrefixStep(a, b, i, j);
      currentRow := currentRow + [Min3(insertions, deletions, substitutions)];
      j := j + 1;
    }
  }
}
