/** Option and Result, the failure-carrying values used in place of None and raised exceptions. */
module Wrappers {
  datatype Option<+T> = None | Some(value: T)

  datatype Result<+T, +E> = Success(value: T) | Failure(error: E)
}

/**
 * The string primitives the contact bot relies on, restricted to ASCII:
 * str.isdigit, str.isalpha, str.strip, str.split(), str.lower, str.join,
 * str.ljust, string repetition, integer formatting and string ordering.
 */
module Text {

  /** The characters Python's str.split() and str.strip() treat as whitespace, within ASCII:
      space, the controls \t \n \v \f \r (9..13) and the separators \x1c..\x1f (28..31). */
  predicate IsSpace(c: char) {
    c == ' ' || (9 <= c as int <= 13) || (28 <= c as int <= 31)
  }

  predicate IsDigit(c: char) {
    '0' <= c <= '9'
  }

  predicate IsAlpha(c: char) {
    ('A' <= c <= 'Z') || ('a' <= c <= 'z')
  }

  predicate IsUpper(c: char) {
    'A' <= c <= 'Z'
  }

  /** str.isdigit(): true only for a non-empty string of digits. */
  predicate IsDigits(s: string) {
    |s| > 0 && forall i :: 0 <= i < |s| ==> IsDigit(s[i])
  }

  predicate AllSpace(s: string) {
    forall i :: 0 <= i < |s| ==> IsSpace(s[i])
  }

  predicate NoSpace(s: string) {
    forall i :: 0 <= i < |s| ==> !IsSpace(s[i])
  }

  /** A token as str.split() produces it: non-empty, without whitespace. */
  predicate IsWord(s: string) {
    |s| > 0 && NoSpace(s)
  }

  /** Neither end of `s` is whitespace (vacuous for the empty string). */
  predicate Trimmed(s: string) {
    |s| == 0 || (!IsSpace(s[0]) && !IsSpace(s[|s| - 1]))
  }

  // ---------------------------------------------------------------- strip

  /** Drops the leading whitespace: what is left starts with none. */
  function TrimStart(s: string): (r: string)
    ensures |r| <= |s|
    ensures |r| == 0 || !IsSpace(r[0])
  {
    if |s| > 0 && IsSpace(s[0]) then TrimStart(s[1..]) else s
  }

  /** Drops the trailing whitespace: what is left ends with none. */
  function TrimEnd(s: string): (r: string)
    ensures |r| <= |s|
    ensures |r| > 0 ==> r[0] == s[0]
    ensures |r| == 0 || !IsSpace(r[|r| - 1])
  {
    if |s| > 0 && IsSpace(s[|s| - 1]) then TrimEnd(s[..|s| - 1]) else s
  }

  /** What TrimStart drops is a whitespace prefix. */
  lemma {:induction false} TrimStartSuffix(s: string)
    ensures TrimStart(s) == s[|s| - |TrimStart(s)|..]
    ensures AllSpace(s[..|s| - |TrimStart(s)|])
  {
    if |s| > 0 && IsSpace(s[0]) {
      TrimStartSuffix(s[1..]);
      var n := |s| - |TrimStart(s)|;
      assert s[..n] == [s[0]] + s[1..][..n - 1];
    }
  }

  /** What TrimEnd drops is a whitespace suffix. */
  lemma {:induction false} TrimEndPrefix(s: string)
    ensures TrimEnd(s) == s[..|TrimEnd(s)|]
    ensures AllSpace(s[|TrimEnd(s)|..])
  {
    if |s| > 0 && IsSpace(s[|s| - 1]) {
      TrimEndPrefix(s[..|s| - 1]);
      var n := |TrimEnd(s)|;
      assert s[n..] == s[..|s| - 1][n..] + [s[|s| - 1]];
    }
  }

  /** str.strip() with no argument. */
  function Strip(s: string): (r: string)
    ensures |r| <= |s|
    ensures Trimmed(r)
  {
    TrimEnd(TrimStart(s))
  }

  /** Strip removes exactly a whitespace prefix and a whitespace suffix. */
  lemma StripParts(s: string) returns (lead: nat)
    ensures lead + |Strip(s)| <= |s|
    ensures s == s[..lead] + Strip(s) + s[lead + |Strip(s)|..]
    ensures AllSpace(s[..lead]) && AllSpace(s[lead + |Strip(s)|..])
  {
    var t := TrimStart(s);
    lead := |s| - |t|;
    var r := TrimEnd(t);
    TrimStartSuffix(s);
    TrimEndPrefix(t);
    var e := lead + |r|;
    assert r == s[lead..e];
    assert s[e..] == t[|r|..];
    Cut3(s, lead, e);
  }

  lemma Cut3(s: string, a: nat, b: nat)
    requires a <= b <= |s|
    ensures s == s[..a] + s[a..b] + s[b..]
  {
  }

  lemma {:induction false} TrimStartOfLayout(a: string, c: string)
    requires AllSpace(a) && |c| > 0 && !IsSpace(c[0])
    ensures TrimStart(a + c) == c
  {
    if |a| > 0 {
      assert (a + c)[1..] == a[1..] + c;
      TrimStartOfLayout(a[1..], c);
    } else {
      assert a + c == c;
    }
  }

  lemma {:induction false} TrimEndOfLayout(c: string, b: string)
    requires AllSpace(b) && |c| > 0 && !IsSpace(c[|c| - 1])
    ensures TrimEnd(c + b) == c
  {
    if |b| > 0 {
      assert (c + b)[..|c + b| - 1] == c + b[..|b| - 1];
      TrimEndOfLayout(c, b[..|b| - 1]);
    } else {
      assert c + b == c;
    }
  }

  lemma {:induction false} TrimStartAllSpace(s: string)
    requires AllSpace(s)
    ensures TrimStart(s) == []
  {
    if |s| > 0 {
      TrimStartAllSpace(s[1..]);
    }
  }

  /** Strip is empty exactly for whitespace-only input. */
  lemma StripEmptyIff(s: string)
    ensures Strip(s) == [] <==> AllSpace(s)
  {
    if AllSpace(s) {
      TrimStartAllSpace(s);
    }
    var lead := StripParts(s);
    if Strip(s) == [] {
      assert s == s[..lead] + s[lead..];
      forall i | 0 <= i < |s| ensures IsSpace(s[i]) {
        if i < lead {
          assert s[..lead][i] == s[i];
        } else {
          assert s[lead..][i - lead] == s[i];
        }
      }
    }
  }

  /** Whitespace around a trimmed core is exactly what Strip removes. */
  lemma StripOfLayout(a: string, c: string, b: string)
    requires AllSpace(a) && AllSpace(b) && Trimmed(c)
    ensures Strip(a + c + b) == c
  {
    if |c| == 0 {
      assert AllSpace(a + c + b) by {
        forall i | 0 <= i < |a + c + b| ensures IsSpace((a + c + b)[i]) {
          if i >= |a| {
            assert (a + c + b)[i] == b[i - |a|];
          }
        }
      }
      StripEmptyIff(a + c + b);
    } else {
      assert a + c + b == a + (c + b);
      assert (c + b)[0] == c[0];
      TrimStartOfLayout(a, c + b);
      TrimEndOfLayout(c, b);
    }
  }

  /** A string with no whitespace at either end is left as it is by Strip. */
  lemma StripTrimmed(c: string)
    requires Trimmed(c)
    ensures Strip(c) == c
  {
    StripOfLayout([], c, []);
    assert [] + c + [] == c;
  }

  // ---------------------------------------------------------------- split and join

  /** Length of the run of non-whitespace characters at the start of `s`. */
  function WordLength(s: string): (n: nat)
    ensures n <= |s|
    ensures NoSpace(s[..n])
    ensures n < |s| ==> IsSpace(s[n])
  {
    if |s| == 0 || IsSpace(s[0]) then 0 else 1 + WordLength(s[1..])
  }

  /** str.split() with no argument: the maximal runs of non-whitespace characters, in order. */
  function Split(s: string): (r: seq<string>)
    decreases |s|
  {
    if |s| == 0 then []
    else if IsSpace(s[0]) then Split(s[1..])
    else
      var n := WordLength(s);
      [s[..n]] + Split(s[n..])
  }

  /** Every token of str.split() is non-empty and free of whitespace. */
  lemma {:induction false} SplitWords(s: string)
    ensures forall i :: 0 <= i < |Split(s)| ==> IsWord(Split(s)[i])
    decreases |s|
  {
    if |s| == 0 {
    } else if IsSpace(s[0]) {
      SplitWords(s[1..]);
    } else {
      var n := WordLength(s);
      SplitWords(s[n..]);
    }
  }

  /** str.split() yields no token exactly when the string is whitespace only. */
  lemma {:induction false} SplitEmptyIff(s: string)
    ensures Split(s) == [] <==> AllSpace(s)
    decreases |s|
  {
    if |s| == 0 {
    } else if IsSpace(s[0]) {
      SplitEmptyIff(s[1..]);
      assert AllSpace(s) <==> AllSpace(s[1..]) by {
        if AllSpace(s[1..]) {
          forall i | 0 <= i < |s| ensures IsSpace(s[i]) {
            if i > 0 { assert s[i] == s[1..][i - 1]; }
          }
        }
      }
    } else {
      assert !AllSpace(s);
    }
  }

  lemma {:induction false} WordLengthOfWord(w: string, rest: string)
    requires NoSpace(w)
    requires |rest| == 0 || IsSpace(rest[0])
    ensures WordLength(w + rest) == |w|
  {
    if |w| > 0 {
      assert (w + rest)[1..] == w[1..] + rest;
      WordLengthOfWord(w[1..], rest);
    } else {
      assert w + rest == rest;
    }
  }

  /** A word followed by nothing or by whitespace is the first token of str.split(). */
  lemma SplitWordThen(w: string, rest: string)
    requires IsWord(w)
    requires |rest| == 0 || IsSpace(rest[0])
    ensures Split(w + rest) == [w] + Split(rest)
  {
    WordLengthOfWord(w, rest);
    assert (w + rest)[..|w|] == w;
    assert (w + rest)[|w|..] == rest;
  }

  /** sep.join(xs) */
  function Join(xs: seq<string>, sep: string): string
  {
    if |xs| == 0 then ""
    else if |xs| == 1 then xs[0]
    else xs[0] + sep + Join(xs[1..], sep)
  }

  /** Joining with one more element appends the separator and the element. */
  lemma {:induction false} JoinSnoc(xs: seq<string>, x: string, sep: string)
    requires |xs| > 0
    ensures Join(xs + [x], sep) == Join(xs, sep) + sep + x
  {
    if |xs| == 1 {
      assert xs + [x] == [xs[0], x];
      assert [xs[0], x][1..] == [x];
    } else {
      assert (xs + [x])[1..] == xs[1..] + [x];
      JoinSnoc(xs[1..], x, sep);
    }
  }

  /** str.split() undoes " ".join on whitespace-free, non-empty tokens. */
  lemma {:induction false} SplitJoin(ts: seq<string>)
    requires forall i :: 0 <= i < |ts| ==> IsWord(ts[i])
    ensures Split(Join(ts, " ")) == ts
  {
    if |ts| == 0 {
    } else if |ts| == 1 {
      SplitWordThen(ts[0], "");
      assert ts[0] + "" == ts[0];
    } else {
      var rest := Join(ts[1..], " ");
      assert ts[0] + " " + rest == ts[0] + (" " + rest);
      SplitWordThen(ts[0], " " + rest);
      assert (" " + rest)[1..] == rest;
      SplitJoin(ts[1..]);
    }
  }

  /** The first token starts the joined string; a non-empty first word makes the join contain a non-space. */
  lemma {:induction false} JoinStartsWith(ts: seq<string>, sep: string)
    requires |ts| > 0
    ensures |Join(ts, sep)| >= |ts[0]| && Join(ts, sep)[..|ts[0]|] == ts[0]
  {
    if |ts| > 1 {
      assert Join(ts, sep) == ts[0] + (sep + Join(ts[1..], sep));
    }
  }

  // ---------------------------------------------------------------- case, padding, numbers

  function LowerChar(c: char): (r: char)
    ensures !IsUpper(r)
    ensures IsAlpha(c) <==> IsAlpha(r)
  {
    if IsUpper(c) then (c as int + 32) as char else c
  }

  /** str.lower() over ASCII: every upper-case letter replaced by its lower-case form. */
  function Lower(s: string): (r: string)
    ensures |r| == |s|
  {
    seq(|s|, i requires 0 <= i < |s| => LowerChar(s[i]))
  }

  /** `n` copies of `c` ('-' * n). */
  function Repeat(c: char, n: nat): (r: string)
    ensures |r| == n && forall i :: 0 <= i < n ==> r[i] == c
  {
    seq(n, _ => c)
  }

  /** str.ljust(width): padded on the right with spaces; never truncated. */
  function LJust(s: string, width: nat): (r: string)
    ensures |r| == if |s| < width then width else |s|
    ensures r[..|s|] == s
    ensures forall i :: |s| <= i < |r| ==> r[i] == ' '
  {
    if |s| < width then s + Repeat(' ', width - |s|) else s
  }

  function DigitChar(d: nat): (c: char)
    requires d < 10
    ensures IsDigit(c)
  {
    ('0' as int + d) as char
  }

  /** str(n) for a natural number: its decimal digits without leading zeros. */
  function NatToString(n: nat): (r: string)
    ensures IsDigits(r)
  {
    if n < 10 then [DigitChar(n)] else NatToString(n / 10) + [DigitChar(n % 10)]
  }

  // ---------------------------------------------------------------- ordering

  /** Python's `<` on str: lexicographic by code point, a proper prefix coming first. */
  predicate LexLess(a: string, b: string)
  {
    |b| > 0 && (|a| == 0 || a[0] < b[0] || (a[0] == b[0] && LexLess(a[1..], b[1..])))
  }

  /** Python's `<=` on str. */
  predicate LexLeq(a: string, b: string)
  {
    !LexLess(b, a)
  }

  lemma {:induction false} LexLessIrreflexive(a: string)
    ensures !LexLess(a, a)
  {
    if |a| > 0 {
      LexLessIrreflexive(a[1..]);
    }
  }

  lemma {:induction false} LexLessAsymmetric(a: string, b: string)
    requires LexLess(a, b)
    ensures !LexLess(b, a)
  {
    if |a| > 0 && a[0] == b[0] {
      LexLessAsymmetric(a[1..], b[1..]);
    }
  }

  lemma {:induction false} LexLessTotal(a: string, b: string)
    ensures a == b || LexLess(a, b) || LexLess(b, a)
  {
    if |a| > 0 && |b| > 0 && a[0] == b[0] {
      LexLessTotal(a[1..], b[1..]);
      if a[1..] == b[1..] {
        assert a == [a[0]] + a[1..] && b == [b[0]] + b[1..];
      }
    }
  }

  lemma {:induction false} LexLessTransitive(a: string, b: string, c: string)
    requires LexLess(a, b) && LexLess(b, c)
    ensures LexLess(a, c)
  {
    if |a| > 0 && a[0] == b[0] && b[0] == c[0] {
      LexLessTransitive(a[1..], b[1..], c[1..]);
    }
  }

  /** `<=` on str is a total preorder, so sorting by it is well defined. */
  lemma LexLeqTotalPreorder(a: string, b: string, c: string)
    ensures LexLeq(a, b) || LexLeq(b, a)
    ensures LexLeq(a, b) && LexLeq(b, c) ==> LexLeq(a, c)
  {
    LexLessTotal(a, b);
    if LexLess(a, b) { LexLessAsymmetric(a, b); }
    if LexLeq(a, b) && LexLeq(b, c) {
      LexLessTotal(b, a);
      LexLessTotal(c, b);
      if a == b || b == c {
        LexLessIrreflexive(c);
      } else {
        LexLessTransitive(a, b, c);
        LexLessAsymmetric(a, c);
      }
    }
  }
}
