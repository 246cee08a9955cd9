/**
 * The spoken-answer matcher of src/speech.ts: `matchWord` compares the
 * recognised transcript with the target word after lower-casing and trimming
 * both, accepting equality, containment either way, or a small edit distance
 * computed by `levenshtein`.
 */
module Speech {
  import opened Common

  function Min3(x: int, y: int, z: int): int { Min(Min(x, y), z) }

  // ----- Edit distance -----

  /**
   * The Levenshtein recurrence on the prefixes `a[..i]` and `b[..j]`: the
   * empty prefix is `j` (or `i`) insertions away, otherwise the cheapest of a
   * deletion, an insertion and a substitution (free when the characters agree).
   */
  function Lev(a: string, b: string, i: nat, j: nat): nat
    requires i <= |a| && j <= |b|
    decreases i + j
  {
    if i == 0 then j
    else if j == 0 then i
    else Min3(Lev(a, b, i - 1, j) + 1,
              Lev(a, b, i, j - 1) + 1,
              Lev(a, b, i - 1, j - 1) + (if a[i - 1] == b[j - 1] then 0 else 1))
  }

  function EditDistance(a: string, b: string): nat
  {
    Lev(a, b, |a|, |b|)
  }

  /**
   * `levenshtein`: fills the (|a|+1) x (|b|+1) table row by row; every cell
   * is the distance between the corresponding prefixes.
   */
  method Levenshtein(a: string, b: string) returns (r: nat)
    ensures r == EditDistance(a, b)
  {
    var m, n := |a|, |b|;
    var d := new nat[m + 1, n + 1]((i, j) => if i == 0 then j else if j == 0 then i else 0);
    for i := 1 to m + 1
      invariant forall i', j' {:trigger d[i', j']} :: 0 <= i' < i && 0 <= j' <= n ==> d[i', j'] == Lev(a, b, i', j')
      invariant forall i' :: i <= i' <= m ==> d[i', 0] == i'
    {
      for j := 1 to n + 1
        invariant forall i', j' {:trigger d[i', j']} :: 0 <= i' < i && 0 <= j' <= n ==> d[i', j'] == Lev(a, b, i', j')
        invariant forall j' {:trigger d[i, j']} :: 0 <= j' < j ==> d[i, j'] == Lev(a, b, i, j')
        invariant forall i' :: i < i' <= m ==> d[i', 0] == i'
      {
        var del, ins, sub := d[i - 1, j] + 1, d[i, j - 1] + 1, d[i - 1, j - 1] + (if a[i - 1] == b[j - 1] then 0 else 1);
        LevStep(a, b, i, j);
        d[i, j] := Min3(del, ins, sub);
      }
    }
    r := d[m, n];
  }

  /** One cell of the table, in terms of its three neighbours. */
  lemma LevStep(a: string, b: string, i: nat, j: nat)
    requires 0 < i <= |a| && 0 < j <= |b|
    ensures Lev(a, b, i, j) == Min3(Lev(a, b, i - 1, j) + 1,
                                    Lev(a, b, i, j - 1) + 1,
                                    Lev(a, b, i - 1, j - 1) + (if a[i - 1] == b[j - 1] then 0 else 1))
  {
  }

  /** A string is at distance 0 from itself. */
  lemma {:induction false} LevSelf(a: string, i: nat)
    requires i <= |a|
    ensures Lev(a, a, i, i) == 0
  {
    if i > 0 {
      LevSelf(a, i - 1);
    }
  }

  lemma EditDistanceSelf(a: string)
    ensures EditDistance(a, a) == 0
  {
    LevSelf(a, |a|);
  }

  /** From or to the empty string the distance is the other string's length. */
  lemma EditDistanceEmpty(b: string)
    ensures EditDistance("", b) == |b| && EditDistance(b, "") == |b|
  {
  }

  /** The distance is at least the difference of the lengths. */
  lemma {:induction false} LevLowerBound(a: string, b: string, i: nat, j: nat)
    requires i <= |a| && j <= |b|
    ensures Lev(a, b, i, j) >= i - j && Lev(a, b, i, j) >= j - i
    decreases i + j
  {
    if i > 0 && j > 0 {
      LevLowerBound(a, b, i - 1, j);
      LevLowerBound(a, b, i, j - 1);
      LevLowerBound(a, b, i - 1, j - 1);
    }
  }

  /** The distance is at most the longer length. */
  lemma {:induction false} LevUpperBound(a: string, b: string, i: nat, j: nat)
    requires i <= |a| && j <= |b|
    ensures Lev(a, b, i, j) <= Max(i, j)
    decreases i + j
  {
    if i > 0 && j > 0 {
      LevUpperBound(a, b, i - 1, j - 1);
      if i < j {
        LevUpperBound(a, b, i, j - 1);
      } else if j < i {
        LevUpperBound(a, b, i - 1, j);
      }
    }
  }

  lemma EditDistanceBounds(a: string, b: string)
    ensures EditDistance(a, b) >= |a| - |b| && EditDistance(a, b) >= |b| - |a|
    ensures EditDistance(a, b) <= Max(|a|, |b|)
  {
    LevLowerBound(a, b, |a|, |b|);
    LevUpperBound(a, b, |a|, |b|);
  }

  /** The cell (i, j) of the table for (a, b) equals the cell (j, i) of the table for (b, a). */
  ghost predicate LevSymmetricAt(a: string, b: string, i: nat, j: nat)
    requires i <= |a| && j <= |b|
  {
    Lev(a, b, i, j) == Lev(b, a, j, i)
  }

  lemma LevSymmetricBase(a: string, b: string, i: nat, j: nat)
    requires i <= |a| && j <= |b| && (i == 0 || j == 0)
    ensures LevSymmetricAt(a, b, i, j)
  {
  }

  /** One step of the symmetry proof: symmetric neighbours give a symmetric cell. */
  lemma LevSymmetricStep(a: string, b: string, i: nat, j: nat)
    requires 0 < i <= |a| && 0 < j <= |b|
    requires LevSymmetricAt(a, b, i - 1, j) && LevSymmetricAt(a, b, i, j - 1) && LevSymmetricAt(a, b, i - 1, j - 1)
    ensures LevSymmetricAt(a, b, i, j)
  {
  }

  /** The distance does not depend on the order of its arguments. */
  lemma {:induction false} LevSymmetric(a: string, b: string, i: nat, j: nat)
    requires i <= |a| && j <= |b|
    ensures LevSymmetricAt(a, b, i, j)
    decreases i + j
  {
    if i == 0 || j == 0 {
      LevSymmetricBase(a, b, i, j);
    } else {
      LevSymmetric(a, b, i - 1, j);
      LevSymmetric(a, b, i, j - 1);
      LevSymmetric(a, b, i - 1, j - 1);
      LevSymmetricStep(a, b, i, j);
    }
  }

  lemma EditDistanceSymmetric(a: string, b: string)
    ensures EditDistance(a, b) == EditDistance(b, a)
  {
    LevSymmetric(a, b, |a|, |b|);
  }

  // ----- Normalisation -----

  /** ASCII case folding, the part of `toLowerCase` the model keeps. */
  function ToLowerChar(c: char): (r: char)
    ensures 'A' <= c <= 'Z' ==> r as int == c as int + 32
    ensures !('A' <= c <= 'Z') ==> r == c
  {
    if 'A' <= c <= 'Z' then (c as int + 32) as char else c
  }

  function Lower(s: string): (r: string)
    ensures |r| == |s| && forall i :: 0 <= i < |s| ==> r[i] == ToLowerChar(s[i])
  {
    seq(|s|, i requires 0 <= i < |s| => ToLowerChar(s[i]))
  }

  /**
   * The characters `String.prototype.trim` removes: the ECMAScript
   * WhiteSpace and LineTerminator code points.
   */
  predicate IsSpace(c: char)
  {
    || c == '\t' || c == '\n' || c == '\U{B}' || c == '\U{C}' || c == '\r' || c == ' '
    || c == '\U{A0}' || c == '\U{1680}' || ('\U{2000}' <= c <= '\U{200A}')
    || c == '\U{2028}' || c == '\U{2029}' || c == '\U{202F}' || c == '\U{205F}'
    || c == '\U{3000}' || c == '\U{FEFF}'
  }

  /** Drop leading white space. */
  function TrimStart(s: string): (r: string)
    ensures |r| <= |s| && r == s[|s| - |r|..]
    ensures forall i :: 0 <= i < |s| - |r| ==> IsSpace(s[i])
    ensures r == [] || !IsSpace(r[0])
  {
    if |s| > 0 && IsSpace(s[0]) then TrimStart(s[1..]) else s
  }

  /** Drop trailing white space. */
  function TrimEnd(s: string): (r: string)
    ensures |r| <= |s| && r == s[..|r|]
    ensures forall i :: |r| <= i < |s| ==> IsSpace(s[i])
    ensures r == [] || !IsSpace(r[|r| - 1])
  {
    if |s| > 0 && IsSpace(s[|s| - 1]) then TrimEnd(s[..|s| - 1]) else s
  }

  function Trim(s: string): string
  {
    TrimEnd(TrimStart(s))
  }

  /**
   * `s.toLowerCase().trim()`: no longer than `s`, free of ASCII upper-case
   * letters, and without white space at either end.
   */
  function Normalize(s: string): (r: string)
    ensures |r| <= |s|
    ensures forall i :: 0 <= i < |r| ==> !('A' <= r[i] <= 'Z')
    ensures r == [] || (!IsSpace(r[0]) && !IsSpace(r[|r| - 1]))
  {
    TrimmedLowerShape(s);
    Trim(Lower(s))
  }

  lemma TrimmedLowerShape(s: string)
    ensures var r := Trim(Lower(s));
            && |r| <= |s|
            && (forall i :: 0 <= i < |r| ==> !('A' <= r[i] <= 'Z'))
            && (r == [] || (!IsSpace(r[0]) && !IsSpace(r[|r| - 1])))
  {
    var l := Lower(s);
    var t := TrimStart(l);
    var r := TrimEnd(t);
    var off := |l| - |t|;
    assert t == l[off..];
    assert r == t[..|r|];
    forall i | 0 <= i < |r| ensures !('A' <= r[i] <= 'Z') {
      assert r[i] == t[i];
      assert t[i] == l[off + i];
      assert l[off + i] == ToLowerChar(s[off + i]);
    }
    TrimEnds(l);
  }

  /** Trimming leaves no white space at either end. */
  lemma TrimEnds(x: string)
    ensures Trim(x) == [] || (!IsSpace(Trim(x)[0]) && !IsSpace(Trim(x)[|Trim(x)| - 1]))
  {
    var t := TrimStart(x);
    var r := TrimEnd(t);
    if r != [] {
      assert r == t[..|r|];
      assert r[0] == t[0];
    }
  }

  lemma LowerIdempotent(s: string)
    ensures Lower(Lower(s)) == Lower(s)
  {
  }

  lemma LowerSlice(s: string, i: nat, j: nat)
    requires i <= j <= |s|
    ensures Lower(s[i..j]) == Lower(s)[i..j]
  {
  }

  /** Trim happens to be a slice of its input. */
  lemma TrimIsSlice(s: string) returns (lo: nat, hi: nat)
    ensures lo <= hi <= |s| && Trim(s) == s[lo..hi]
  {
    var t := TrimStart(s);
    lo := |s| - |t|;
    hi := lo + |TrimEnd(t)|;
    assert TrimEnd(t) == t[..|TrimEnd(t)|];
  }

  /** Normalizing twice is normalizing once. */
  lemma NormalizeIdempotent(s: string)
    ensures Normalize(Normalize(s)) == Normalize(s)
  {
    var n := Normalize(s);
    var lo, hi := TrimIsSlice(Lower(s));
    LowerSlice(Lower(s), lo, hi);
    LowerIdempotent(s);
    assert Lower(n) == n;
    assert TrimStart(n) == n;
    assert TrimEnd(n) == n;
  }

  // ----- Matching -----

  predicate OccursAt(s: string, w: string, i: nat)
  {
    i + |w| <= |s| && s[i..i + |w|] == w
  }

  /** `s.includes(w)`: `w` occurs in `s` as a contiguous piece. */
  predicate Contains(s: string, w: string)
    ensures Contains(s, w) ==> |w| <= |s|
  {
    exists i: nat :: i <= |s| && OccursAt(s, w, i)
  }

  /** A prefix and a suffix are contained. */
  lemma ContainsEnds(s: string, w: string)
    requires |w| <= |s|
    ensures s[..|w|] == w ==> Contains(s, w)
    ensures s[|s| - |w|..] == w ==> Contains(s, w)
  {
    assert s[..|w|] == w ==> OccursAt(s, w, 0);
    assert s[|s| - |w|..] == w ==> OccursAt(s, w, |s| - |w|);
  }

  lemma ContainsSelfAndEmpty(s: string)
    ensures Contains(s, s) && Contains(s, "")
  {
    assert OccursAt(s, s, 0);
    assert OccursAt(s, "", 0);
  }

  /** The edit distance a target of this (normalized) length tolerates. */
  function Tolerance(w: string): nat
  {
    if |w| <= 4 then 1 else 2
  }

  /**
   * `matchWord`: equal, containing or contained after normalization, or
   * within one edit of a target of at most four characters, within two of a
   * longer one.
   */
  function MatchWord(transcript: string, target: string): (r: bool)
    ensures var t, w := Normalize(transcript), Normalize(target);
      r <==> Contains(t, w) || Contains(w, t) || EditDistance(t, w) <= Tolerance(w)
  {
    var t := Normalize(transcript);
    var w := Normalize(target);
    ContainsSelfAndEmpty(t);
    if t == w || Contains(t, w) || Contains(w, t) then true
    else if |w| <= 4 && EditDistance(t, w) <= 1 then true
    else if |w| > 4 && EditDistance(t, w) <= 2 then true
    else false
  }

  /** Only the normalized forms of the two strings decide the answer. */
  lemma MatchDependsOnNormalForms(transcript: string, target: string)
    ensures MatchWord(transcript, target) == MatchWord(Normalize(transcript), Normalize(target))
  {
    NormalizeIdempotent(transcript);
    NormalizeIdempotent(target);
  }

  /** Strings that differ only in ASCII case and surrounding white space match. */
  lemma SameNormalFormMatches(transcript: string, target: string)
    requires Normalize(transcript) == Normalize(target)
    ensures MatchWord(transcript, target)
  {
    ContainsSelfAndEmpty(Normalize(target));
  }

  /** An empty or all-white-space transcript matches every target. */
  lemma BlankTranscriptMatches(transcript: string, target: string)
    requires Normalize(transcript) == ""
    ensures MatchWord(transcript, target)
  {
    ContainsSelfAndEmpty(Normalize(target));
  }

  /** One edit is forgiven for any target; two only for targets longer than four. */
  lemma SmallEditsMatch(transcript: string, target: string)
    ensures EditDistance(Normalize(transcript), Normalize(target)) <= 1 ==> MatchWord(transcript, target)
    ensures |Normalize(target)| > 4 && EditDistance(Normalize(transcript), Normalize(target)) <= 2 ==>
              MatchWord(transcript, target)
  {
  }

  /**
   * Without containment either way, a transcript whose normalized length is
   * more than two away from the target's never matches.
   */
  lemma FarLengthsReject(transcript: string, target: string)
    requires var t, w := Normalize(transcript), Normalize(target);
      !Contains(t, w) && !Contains(w, t) && (|t| > |w| + 2 || |w| > |t| + 2)
    ensures !MatchWord(transcript, target)
  {
    EditDistanceBounds(Normalize(transcript), Normalize(target));
  }
}
