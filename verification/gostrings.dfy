/** The few Go string helpers the enrichment code relies on:
    strings.TrimSpace, strings.ToLower (on ASCII letters), strings.HasPrefix
    and strings.Contains, over strings as sequences of Unicode scalars. */
module GoStrings {

  /** unicode.IsSpace */
  predicate IsSpace(c: char)
  {
    || c == ' ' || c == '\t' || c == '\n' || c == '\r' || c == '\U{000B}' || c == '\U{000C}'
    || c == '\U{0085}' || c == '\U{00A0}' || c == '\U{1680}'
    || ('\U{2000}' <= c <= '\U{200A}')
    || c == '\U{2028}' || c == '\U{2029}' || c == '\U{202F}' || c == '\U{205F}' || c == '\U{3000}'
  }

  /** Number of white-space characters at the front of s. */
  function LeadingSpaces(s: string): (n: nat)
    ensures n <= |s|
    ensures forall i :: 0 <= i < n ==> IsSpace(s[i])
    ensures n < |s| ==> !IsSpace(s[n])
  {
    if |s| == 0 || !IsSpace(s[0]) then 0 else 1 + LeadingSpaces(s[1..])
  }

  /** Number of white-space characters at the back of s. */
  function TrailingSpaces(s: string): (n: nat)
    ensures n <= |s|
    ensures forall i :: |s| - n <= i < |s| ==> IsSpace(s[i])
    ensures n < |s| ==> !IsSpace(s[|s| - n - 1])
  {
    if |s| == 0 || !IsSpace(s[|s| - 1]) then 0 else 1 + TrailingSpaces(s[..|s| - 1])
  }

  /** strings.TrimSpace: the longest infix of s that neither starts nor ends
      with white space, once the surrounding white space is dropped. */
  function TrimSpace(s: string): (t: string)
    ensures LeadingSpaces(s) + |t| <= |s|
    ensures t == s[LeadingSpaces(s) .. LeadingSpaces(s) + |t|]
    ensures t != [] ==> !IsSpace(t[0]) && !IsSpace(t[|t| - 1])
    ensures forall i :: LeadingSpaces(s) + |t| <= i < |s| ==> IsSpace(s[i])
  {
    var l := LeadingSpaces(s);
    var rest := s[l..];
    var r := TrailingSpaces(rest);
    assert l < |s| ==> rest[0] == s[l];
    rest[..|rest| - r]
  }

  /** A string that neither starts nor ends with white space is its own trim. */
  lemma TrimSpaceOfTrimmed(s: string)
    requires s != [] ==> !IsSpace(s[0]) && !IsSpace(s[|s| - 1])
    ensures TrimSpace(s) == s
  {
    if s != [] {
      assert LeadingSpaces(s) == 0;
      assert TrailingSpaces(s) == 0;
    }
  }

  /** Trimming twice is trimming once. */
  lemma TrimSpaceIdempotent(s: string)
    ensures TrimSpace(TrimSpace(s)) == TrimSpace(s)
  {
    TrimSpaceOfTrimmed(TrimSpace(s));
  }

  function LowerChar(c: char): (d: char)
    ensures 'A' <= c <= 'Z' ==> 'a' <= d <= 'z'
    ensures !('A' <= c <= 'Z') ==> d == c
  {
    if 'A' <= c <= 'Z' then (c as int - 'A' as int + 'a' as int) as char else c
  }

  predicate IsLower(s: string)
  {
    forall i :: 0 <= i < |s| ==> !('A' <= s[i] <= 'Z')
  }

  /** strings.ToLower, restricted to ASCII letters. */
  function ToLower(s: string): (t: string)
    ensures |t| == |s|
    ensures forall i :: 0 <= i < |s| ==> t[i] == LowerChar(s[i])
    ensures IsLower(t)
  {
    seq(|s|, i requires 0 <= i < |s| => LowerChar(s[i]))
  }

  /** Lower-casing a lower-case string changes nothing. */
  lemma ToLowerOfLower(s: string)
    requires IsLower(s)
    ensures ToLower(s) == s
  {
  }

  lemma ToLowerIdempotent(s: string)
    ensures ToLower(ToLower(s)) == ToLower(s)
  {
    ToLowerOfLower(ToLower(s));
  }

  lemma ToLowerConcat(a: string, b: string)
    ensures ToLower(a + b) == ToLower(a) + ToLower(b)
  {
  }

  /** strings.HasPrefix */
  predicate HasPrefix(s: string, p: string)
  {
    |p| <= |s| && s[..|p|] == p
  }

  /** strings.Contains */
  predicate Contains(s: string, sub: string)
    decreases |s|
  {
    HasPrefix(s, sub) || (|s| > 0 && Contains(s[1..], sub))
  }

  /** A string contains whatever sits at any position inside it. */
  lemma {:induction false} ContainsInfix(s: string, sub: string, i: nat)
    requires i + |sub| <= |s| && s[i..i + |sub|] == sub
    ensures Contains(s, sub)
    decreases i
  {
    if i == 0 {
      assert s[..|sub|] == sub;
    } else {
      assert s[1..][i - 1..i - 1 + |sub|] == s[i..i + |sub|];
      ContainsInfix(s[1..], sub, i - 1);
    }
  }

  /** A string contains sub only if sub sits at some position inside it. */
  lemma {:induction false} ContainsHasWitness(s: string, sub: string) returns (i: nat)
    requires Contains(s, sub)
    ensures i + |sub| <= |s| && s[i..i + |sub|] == sub
    decreases |s|
  {
    if HasPrefix(s, sub) {
      i := 0;
    } else {
      var j := ContainsHasWitness(s[1..], sub);
      assert s[1..][j..j + |sub|] == s[j + 1..j + 1 + |sub|];
      i := j + 1;
    }
  }

  /** Every string that contains sub is at least as long as sub. */
  lemma ContainsLength(s: string, sub: string)
    requires Contains(s, sub)
    ensures |sub| <= |s|
  {
    var _ := ContainsHasWitness(s, sub);
  }

  /** Duplicate-free sequences. */
  predicate NoDup<T(==)>(s: seq<T>)
  {
    forall i, j :: 0 <= i < j < |s| ==> s[i] != s[j]
  }

  function ToSet<T>(s: seq<T>): set<T>
  {
    set x <- s
  }

  /** A duplicate-free sequence has as many elements as its set. */
  lemma {:induction false} NoDupCard<T>(s: seq<T>)
    requires NoDup(s)
    ensures |ToSet(s)| == |s|
  {
    if s != [] {
      NoDupCard(s[1..]);
      assert ToSet(s) == ToSet(s[1..]) + {s[0]};
      assert s[0] !in ToSet(s[1..]);
    }
  }

  /** The seen-map idiom: keeps, in order, the first occurrence of each
      element that is not already in seen. */
  function Dedup<T(==)>(s: seq<T>, seen: set<T>): (r: seq<T>)
    ensures |r| <= |s|
    ensures NoDup(r)
    ensures forall i :: 0 <= i < |r| ==> r[i] !in seen && r[i] in s
    decreases |s|
  {
    if |s| == 0 then []
    else if s[0] in seen then Dedup(s[1..], seen)
    else
      var rest := Dedup(s[1..], seen + {s[0]});
      [s[0]] + rest
  }

  /** Nothing outside seen is lost: every such element of s survives. */
  lemma {:induction false} DedupComplete<T>(s: seq<T>, seen: set<T>)
    ensures forall i :: 0 <= i < |s| && s[i] !in seen ==> s[i] in Dedup(s, seen)
    decreases |s|
  {
    if |s| > 0 {
      var next := if s[0] in seen then seen else seen + {s[0]};
      DedupComplete(s[1..], next);
      forall i | 0 <= i < |s| && s[i] !in seen ensures s[i] in Dedup(s, seen) {
        if i > 0 {
          assert s[i] == s[1..][i - 1];
        }
      }
    }
  }

  /** Two duplicate-free sequences with nothing in common concatenate to one. */
  lemma NoDupConcat<T>(a: seq<T>, b: seq<T>)
    requires NoDup(a) && NoDup(b)
    requires forall i :: 0 <= i < |b| ==> b[i] !in a
    ensures NoDup(a + b)
  {
    forall i, j | 0 <= i < j < |a + b| ensures (a + b)[i] != (a + b)[j] {
      if i >= |a| {
        assert (a + b)[i] == b[i - |a|] && (a + b)[j] == b[j - |a|];
      } else if j >= |a| {
        assert (a + b)[j] == b[j - |a|];
        assert (a + b)[i] in a;
      }
    }
  }

  /** Dedup loses only what is seen: seen and the kept elements cover s. */
  lemma DedupSet<T>(s: seq<T>, seen: set<T>)
    ensures seen + ToSet(Dedup(s, seen)) == seen + ToSet(s)
  {
    var r := Dedup(s, seen);
    DedupComplete(s, seen);
    forall y | y in ToSet(s) ensures y in seen + ToSet(r) {
      var i :| 0 <= i < |s| && s[i] == y;
    }
  }

  /** Appending the deduplicated new elements: still no duplicate, and
      exactly the new elements join the set. */
  lemma AppendUnseen<T>(xs: seq<T>, ys: seq<T>)
    requires NoDup(xs)
    ensures NoDup(xs + Dedup(ys, ToSet(xs)))
    ensures ToSet(xs + Dedup(ys, ToSet(xs))) == ToSet(xs) + ToSet(ys)
  {
    var r := Dedup(ys, ToSet(xs));
    NoDupConcat(xs, r);
    DedupComplete(ys, ToSet(xs));
    forall y | y in ToSet(ys) ensures y in ToSet(xs + r) {
      var i :| 0 <= i < |ys| && ys[i] == y;
      if y !in ToSet(xs) {
        assert y in r;
      }
    }
  }
}
