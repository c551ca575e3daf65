/**
 * The string operations the diagram filters and the access-log filter rely on:
 * ASCII lower-casing, prefix/suffix tests, substring search and Java's
 * `String.isBlank`.
 */
module Text {

  /** `Character.toLowerCase`, restricted to the ASCII letters. */
  function LowerChar(c: char): char
  {
    if 'A' <= c <= 'Z' then (c as int + 32) as char else c
  }

  /** `String.toLowerCase` restricted to ASCII: every character lowered in place. */
  function Lower(s: string): string
  {
    seq(|s|, i requires 0 <= i < |s| => LowerChar(s[i]))
  }

  /** Lower-casing twice is lower-casing once. */
  lemma LowerIdempotent(s: string)
    ensures Lower(Lower(s)) == Lower(s)
  {
  }

  predicate StartsWith(s: string, prefix: string)
  {
    |prefix| <= |s| && s[..|prefix|] == prefix
  }

  predicate EndsWith(s: string, suffix: string)
  {
    |suffix| <= |s| && s[|s| - |suffix|..] == suffix
  }

  /** Reference definition: `q` sits in `s` starting at index `i`. */
  ghost predicate OccursAt(s: string, q: string, i: int)
  {
    0 <= i && i + |q| <= |s| && s[i..i + |q|] == q
  }

  /** `String.contains`: try every start position from left to right. */
  predicate Contains(s: string, q: string)
    decreases |s|
  {
    StartsWith(s, q) || (|s| > 0 && Contains(s[1..], q))
  }

  /** Dropping the first character shifts every occurrence one place left. */
  lemma OccursAtShift(s: string, q: string, i: int)
    requires |s| > 0 && 0 <= i
    ensures OccursAt(s, q, i + 1) <==> OccursAt(s[1..], q, i)
  {
    if i + 1 + |q| <= |s| {
      assert s[1..][i..i + |q|] == s[i + 1..i + 1 + |q|];
    }
  }

  /** The search finds `q` exactly when `q` occurs somewhere in `s`. */
  lemma {:induction false} ContainsIffOccurs(s: string, q: string)
    ensures Contains(s, q) <==> exists i :: OccursAt(s, q, i)
    decreases |s|
  {
    if StartsWith(s, q) {
      assert OccursAt(s, q, 0);
    } else if |s| == 0 {
      forall i | 0 <= i ensures !OccursAt(s, q, i) {
      }
    } else {
      ContainsIffOccurs(s[1..], q);
      if Contains(s[1..], q) {
        var i :| OccursAt(s[1..], q, i);
        OccursAtShift(s, q, i);
      } else {
        forall i | 0 < i ensures !OccursAt(s, q, i) {
          OccursAtShift(s, q, i - 1);
        }
        assert !OccursAt(s, q, 0);
      }
    }
  }

  /** The middle part of a concatenation occurs right after the first part. */
  lemma OccursInMiddle(a: string, b: string, c: string)
    ensures Contains(a + b + c, b)
  {
    var s := a + b + c;
    assert s[|a|..|a| + |b|] == b;
    assert OccursAt(s, b, |a|);
    ContainsIffOccurs(s, b);
  }

  /** Every character of a found query is a character of the searched string. */
  lemma ContainsOnlyIfCharPresent(s: string, q: string, k: nat)
    requires k < |q| && q[k] !in s
    ensures !Contains(s, q)
  {
    ContainsIffOccurs(s, q);
    forall i | 0 <= i && i + |q| <= |s| ensures !OccursAt(s, q, i) {
      assert s[i..i + |q|][k] == s[i + k];
    }
  }

  /** The query filter: `title.toLowerCase().contains(query.toLowerCase())`. */
  predicate ContainsIgnoreCase(s: string, q: string)
  {
    Contains(Lower(s), Lower(q))
  }

  /** Changing the letter case of either side does not change the answer. */
  lemma ContainsIgnoreCaseIsCaseBlind(s: string, q: string)
    ensures ContainsIgnoreCase(s, q) == ContainsIgnoreCase(Lower(s), q)
    ensures ContainsIgnoreCase(s, q) == ContainsIgnoreCase(s, Lower(q))
  {
    LowerIdempotent(s);
    LowerIdempotent(q);
  }

  /** `Character.isWhitespace` on a code point. */
  predicate IsWhitespace(c: char)
  {
    var n := c as int;
    (0x09 <= n <= 0x0D) || (0x1C <= n <= 0x20) || n == 0x1680
    || (0x2000 <= n <= 0x2006) || (0x2008 <= n <= 0x200A)
    || n == 0x2028 || n == 0x2029 || n == 0x205F || n == 0x3000
  }

  /** `String.isBlank`: empty, or white space only. */
  predicate IsBlank(s: string)
  {
    forall i :: 0 <= i < |s| ==> IsWhitespace(s[i])
  }

  /** The pieces written one after another, as a string builder accumulates them. */
  function Concat(parts: seq<string>): string
    decreases |parts|
  {
    if parts == [] then "" else Concat(parts[..|parts| - 1]) + parts[|parts| - 1]
  }

  lemma ConcatStep(parts: seq<string>, k: nat)
    requires k < |parts|
    ensures Concat(parts[..k + 1]) == Concat(parts[..k]) + parts[k]
  {
    assert parts[..k + 1][..k] == parts[..k];
  }

  /** Writing two runs of pieces is writing the first run, then the second. */
  lemma {:induction false} ConcatAppend(a: seq<string>, b: seq<string>)
    ensures Concat(a + b) == Concat(a) + Concat(b)
    decreases |b|
  {
    if b == [] {
      assert a + b == a;
    } else {
      var n := |b| - 1;
      ConcatAppend(a, b[..n]);
      assert (a + b)[..|a| + n] == a + b[..n];
    }
  }

  /** Piece k sits between the pieces before it and the pieces after it. */
  lemma ConcatAround(parts: seq<string>, k: nat)
    requires k < |parts|
    ensures Concat(parts) == Concat(parts[..k]) + parts[k] + Concat(parts[k + 1..])
  {
    assert parts == parts[..k + 1] + parts[k + 1..];
    ConcatAppend(parts[..k + 1], parts[k + 1..]);
    ConcatStep(parts, k);
  }

  // Regrouping facts about `+` on strings. Dafny can prove each of them
  // unaided, but only by comparing the strings character by character; the
  // proofs above call them on named terms so that the solver does not have to
  // rediscover them inside larger goals. They state nothing about the program.

  lemma AppendFive(h: string, a: string, b: string, c: string, d: string, e: string)
    ensures h + a + b + c + d + e == h + (a + b + c + d + e)
  {
  }

  lemma Regroup(h: string, x: string, y: string, z: string, t: string)
    ensures h + (x + y + z) + t == (h + x) + y + (z + t)
  {
  }

  lemma AppendAssoc(a: string, b: string, c: string)
    ensures a + b + c == a + (b + c)
  {
  }
}
