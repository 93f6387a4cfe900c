/** The string operations the user table relies on: `toLowerCase`, `includes`, and the
    `<`/`>` comparison of two strings. */
module Text {

  predicate IsUpper(c: char) { 'A' <= c <= 'Z' }

  /** `toLowerCase` on one character, for the ASCII letters. */
  function LowerChar(c: char): (d: char)
    ensures !IsUpper(d)
    ensures IsUpper(c) ==> d as int == c as int + 32
    ensures !IsUpper(c) ==> d == c
  {
    if IsUpper(c) then (c as int + 32) as char else c
  }

  /** `s.toLowerCase()`: same length, no upper-case letter left, every other character kept. */
  function Lower(s: string): (r: string)
    ensures |r| == |s|
    ensures forall i :: 0 <= i < |r| ==> !IsUpper(r[i])
    ensures forall i :: 0 <= i < |s| && !IsUpper(s[i]) ==> r[i] == s[i]
    ensures forall i :: 0 <= i < |s| && IsUpper(s[i]) ==> r[i] as int == s[i] as int + 32
  {
    seq(|s|, i requires 0 <= i < |s| => LowerChar(s[i]))
  }

  /** Lower-casing twice is lower-casing once. */
  lemma LowerIdempotent(s: string)
    ensures Lower(Lower(s)) == Lower(s)
  {
    assert forall i :: 0 <= i < |s| ==> Lower(Lower(s))[i] == Lower(s)[i];
  }

  /** Lower-casing distributes over concatenation. */
  lemma LowerAppend(s: string, t: string)
    ensures Lower(s + t) == Lower(s) + Lower(t)
  {
    assert forall i :: 0 <= i < |s + t| ==> Lower(s + t)[i] == (Lower(s) + Lower(t))[i];
  }

  /** `t` occurs in `s` starting at position `i`. */
  ghost predicate OccursAt(t: string, s: string, i: nat)
  {
    i + |t| <= |s| && s[i..i + |t|] == t
  }

  /** `s.includes(t)`. */
  function Contains(s: string, t: string): (b: bool)
    ensures b <==> exists i: nat :: OccursAt(t, s, i)
    decreases |s|
  {
    if |t| <= |s| && s[..|t|] == t then
      assert OccursAt(t, s, 0);
      true
    else if |s| <= |t| then
      assert forall i: nat :: !OccursAt(t, s, i);
      false
    else
      var b := Contains(s[1..], t);
      assert forall i: nat :: OccursAt(t, s[1..], i) <==> OccursAt(t, s, i + 1) by {
        forall i: nat ensures OccursAt(t, s[1..], i) <==> OccursAt(t, s, i + 1) {
          if i + |t| <= |s[1..]| {
            assert s[1..][i..i + |t|] == s[i + 1..i + 1 + |t|];
          }
        }
      }
      assert !OccursAt(t, s, 0) by {
        assert s[..|t|] == s[0..|t|];
      }
      assert (exists i: nat :: OccursAt(t, s, i)) ==> exists i: nat :: OccursAt(t, s[1..], i) by {
        if exists i: nat :: OccursAt(t, s, i) {
          var i: nat :| OccursAt(t, s, i);
          assert i > 0 && OccursAt(t, s[1..], i - 1);
        }
      }
      b
  }

  /** Every string includes the empty string. */
  lemma ContainsEmpty(s: string)
    ensures Contains(s, "")
  {
    assert OccursAt("", s, 0);
  }

  /** An occurrence of an occurrence is an occurrence. */
  lemma ContainsTransitive(s: string, t: string, u: string)
    requires Contains(s, t) && Contains(t, u)
    ensures Contains(s, u)
  {
    var i: nat :| OccursAt(t, s, i);
    var j: nat :| OccursAt(u, t, j);
    assert forall k :: 0 <= k < |u| ==> s[i + j + k] == t[j + k] == u[k];
    assert OccursAt(u, s, i + j);
  }

  /** The JavaScript comparison `a < b` on strings: lexicographic by character code. */
  predicate StrLess(a: string, b: string)
  {
    if a == [] then b != []
    else if b == [] then false
    else if a[0] != b[0] then a[0] < b[0]
    else StrLess(a[1..], b[1..])
  }

  lemma {:induction false} StrLessIrreflexive(a: string)
    ensures !StrLess(a, a)
  {
    if a != [] {
      StrLessIrreflexive(a[1..]);
    }
  }

  lemma {:induction false} StrLessTransitive(a: string, b: string, c: string)
    requires StrLess(a, b) && StrLess(b, c)
    ensures StrLess(a, c)
  {
    if a != [] && b != [] && c != [] && a[0] == b[0] == c[0] {
      StrLessTransitive(a[1..], b[1..], c[1..]);
    }
  }

  /** `b` agrees with `a` before position `i` and has a greater character there. */
  ghost predicate LessAt(a: string, b: string, i: nat)
  {
    i < |a| && i < |b| && a[..i] == b[..i] && a[i] < b[i]
  }

  /** The comparison read off the first difference: `a` is a proper prefix of `b`, or
      the first character where they differ is smaller in `a`. */
  lemma {:induction false} StrLessFirstDifference(a: string, b: string)
    ensures StrLess(a, b) <==> (|a| < |b| && a == b[..|a|]) || exists i: nat :: LessAt(a, b, i)
  {
    if a == [] || b == [] {
    } else if a[0] != b[0] {
      if StrLess(a, b) {
        assert LessAt(a, b, 0);
      }
      forall i: nat | LessAt(a, b, i) ensures a[0] < b[0] {
        if i > 0 {
          assert a[..i][0] == b[..i][0];
        }
      }
    } else {
      StrLessFirstDifference(a[1..], b[1..]);
      assert |a| < |b| && a == b[..|a|] <==> |a[1..]| < |b[1..]| && a[1..] == b[1..][..|a[1..]|] by {
        if |a| < |b| && a[1..] == b[1..][..|a[1..]|] {
          assert a == [a[0]] + a[1..] && b[..|a|] == [b[0]] + b[1..][..|a[1..]|];
        }
      }
      forall i: nat | LessAt(a[1..], b[1..], i) ensures LessAt(a, b, i + 1) {
        assert a[..i + 1] == [a[0]] + a[1..][..i] && b[..i + 1] == [b[0]] + b[1..][..i];
      }
      forall i: nat | LessAt(a, b, i) ensures i > 0 && LessAt(a[1..], b[1..], i - 1) {
        assert i > 0;
        assert a[1..][..i - 1] == a[..i][1..] && b[1..][..i - 1] == b[..i][1..];
      }
    }
  }

  /** Two different strings are ordered one way or the other. */
  lemma {:induction false} StrLessTotal(a: string, b: string)
    requires a != b
    ensures StrLess(a, b) || StrLess(b, a)
  {
    if a != [] && b != [] && a[0] == b[0] {
      assert a == [a[0]] + a[1..] && b == [b[0]] + b[1..];
      StrLessTotal(a[1..], b[1..]);
    }
  }
}
