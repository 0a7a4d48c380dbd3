/**
 * The few Python string operations the compound import and the symbol lookup rely on,
 * written out over `seq<char>`: `str.strip()`, `str.title()`, `str.split(sep)` and the
 * `.strip().title()` normalisation of element symbols.
 */
module Text {

  /** The characters Python's `str.isspace()` accepts, which `str.strip()` removes. */
  predicate IsSpace(c: char) {
    || c == ' '
    || ('\t' <= c <= '\r')
    || ('\U{1C}' <= c <= '\U{1F}')
    || c == '\U{85}' || c == '\U{A0}' || c == '\U{1680}'
    || ('\U{2000}' <= c <= '\U{200A}')
    || c == '\U{2028}' || c == '\U{2029}' || c == '\U{202F}' || c == '\U{205F}' || c == '\U{3000}'
  }

  /** Number of whitespace characters at the front of `s`. */
  function LeadingSpaces(s: string): (n: nat)
    ensures n <= |s|
    ensures forall i :: 0 <= i < n ==> IsSpace(s[i])
    ensures n < |s| ==> !IsSpace(s[n])
  {
    if |s| > 0 && IsSpace(s[0]) then 1 + LeadingSpaces(s[1..]) else 0
  }

  /** Number of whitespace characters at the back of `s`. */
  function TrailingSpaces(s: string): (n: nat)
    ensures n <= |s|
    ensures forall i :: |s| - n <= i < |s| ==> IsSpace(s[i])
    ensures n < |s| ==> !IsSpace(s[|s| - 1 - n])
  {
    if |s| > 0 && IsSpace(s[|s| - 1]) then 1 + TrailingSpaces(s[..|s| - 1]) else 0
  }

  /** Python's `s.strip()`: `s` without its leading and trailing whitespace. */
  function Strip(s: string): (r: string)
    ensures r == [] <==> forall i :: 0 <= i < |s| ==> IsSpace(s[i])
    ensures r != [] ==> !IsSpace(r[0]) && !IsSpace(r[|r| - 1])
    ensures |r| <= |s|
  {
    var front := s[LeadingSpaces(s)..];
    front[..|front| - TrailingSpaces(front)]
  }

  /**
   * `Strip(s)` is the slice of `s` that starts after its leading whitespace and is
   * followed only by whitespace: nothing but the outer whitespace is removed.
   */
  lemma StripSlice(s: string)
    ensures LeadingSpaces(s) + |Strip(s)| <= |s|
    ensures Strip(s) == s[LeadingSpaces(s)..LeadingSpaces(s) + |Strip(s)|]
    ensures forall k :: LeadingSpaces(s) + |Strip(s)| <= k < |s| ==> IsSpace(s[k])
  {
    StripBody(s);
    StripTail(s);
  }

  /** The slice of `s` that `Strip` keeps. */
  lemma StripBody(s: string)
    ensures LeadingSpaces(s) + |Strip(s)| <= |s|
    ensures Strip(s) == s[LeadingSpaces(s)..LeadingSpaces(s) + |Strip(s)|]
  {
    var l := LeadingSpaces(s);
    var front := s[l..];
    var n := |front| - TrailingSpaces(front);
    assert Strip(s) == front[..n];
    assert front[..n] == s[l..l + n];
  }

  /** What follows the slice `Strip` keeps is whitespace. */
  lemma StripTail(s: string)
    ensures forall k :: LeadingSpaces(s) + |Strip(s)| <= k < |s| ==> IsSpace(s[k])
  {
    var l := LeadingSpaces(s);
    var front := s[l..];
    var n := |front| - TrailingSpaces(front);
    assert |Strip(s)| == n;
    forall k | l + n <= k < |s| ensures IsSpace(s[k]) {
      assert s[k] == front[k - l];
    }
  }

  /** A string that starts and ends with a non-space character is left alone by `Strip`. */
  lemma StripTrimmed(s: string)
    requires s == [] || (!IsSpace(s[0]) && !IsSpace(s[|s| - 1]))
    ensures Strip(s) == s
  {
  }

  /** Stripping twice is stripping once. */
  lemma StripIdempotent(s: string)
    ensures Strip(Strip(s)) == Strip(s)
  {
    StripTrimmed(Strip(s));
  }

  /**
   * `Strip` keeps exactly the slice between the outer whitespace: any slice `s[a..b]` with
   * only whitespace before and after it, which is empty or starts and ends with a
   * non-space, is the stripped string.
   */
  lemma StripUnique(s: string, a: nat, b: nat)
    requires a <= b <= |s|
    requires forall k :: 0 <= k < a ==> IsSpace(s[k])
    requires forall k :: b <= k < |s| ==> IsSpace(s[k])
    requires a < b ==> !IsSpace(s[a]) && !IsSpace(s[b - 1])
    ensures Strip(s) == s[a..b]
  {
    var r := Strip(s);
    var l := LeadingSpaces(s);
    StripSlice(s);
    if a == b {
      assert forall k :: 0 <= k < |s| ==> IsSpace(s[k]) by {
        forall k | 0 <= k < |s| ensures IsSpace(s[k]) {
          if k >= a {
            assert k >= b;
          }
        }
      }
    } else {
      assert !IsSpace(s[a]);
      assert l == a;
      var e := l + |r|;
      assert s[e - 1] == r[|r| - 1];
      assert !IsSpace(s[b - 1]);
      assert e == b;
    }
  }

  /** Whitespace dropped from the front is counted by `LeadingSpaces`. */
  lemma {:induction false} LeadingDrop(s: string, a: nat)
    requires a <= |s| && forall k :: 0 <= k < a ==> IsSpace(s[k])
    ensures a <= LeadingSpaces(s) && LeadingSpaces(s[a..]) == LeadingSpaces(s) - a
    decreases a
  {
    if a > 0 {
      var t := s[1..];
      assert forall k :: 0 <= k < a - 1 ==> t[k] == s[k + 1];
      LeadingDrop(t, a - 1);
      assert t[a - 1..] == s[a..];
    }
  }

  /** Dropping leading whitespace before stripping changes nothing. */
  lemma StripDropLeading(s: string, a: nat)
    requires a <= |s| && forall k :: 0 <= k < a ==> IsSpace(s[k])
    ensures Strip(s[a..]) == Strip(s)
  {
    LeadingDrop(s, a);
    var f1, f2 := s[a..][LeadingSpaces(s[a..])..], s[LeadingSpaces(s)..];
    assert f1 == f2;
    assert Strip(s[a..]) == f1[..|f1| - TrailingSpaces(f1)];
    assert Strip(s) == f2[..|f2| - TrailingSpaces(f2)];
  }

  /** Dropping trailing whitespace before stripping changes nothing. */
  lemma StripDropTrailing(s: string, b: nat)
    requires b <= |s| && forall k :: b <= k < |s| ==> IsSpace(s[k])
    ensures Strip(s[..b]) == Strip(s)
  {
    var r := Strip(s[..b]);
    var p := TakeStripSlice(s, b);
    TakeSpaces(s, b);
    if r != [] {
      assert s[p] == r[0] && s[p + |r| - 1] == r[|r| - 1];
    }
    StripUnique(s, p, p + |r|);
  }

  /** Where in `s` the part of `s[..b]` that `Strip` keeps lies. */
  lemma TakeStripSlice(s: string, b: nat) returns (p: nat)
    requires b <= |s|
    ensures p == LeadingSpaces(s[..b]) && p + |Strip(s[..b])| <= b
    ensures Strip(s[..b]) == s[p..p + |Strip(s[..b])|]
  {
    var t := s[..b];
    p := LeadingSpaces(t);
    StripBody(t);
    assert t[p..p + |Strip(t)|] == s[p..p + |Strip(t)|];
  }

  /** Around the part of `s[..b]` that `Strip` keeps, `s` has whitespace up to `b`. */
  lemma TakeSpaces(s: string, b: nat)
    requires b <= |s|
    ensures forall k :: 0 <= k < LeadingSpaces(s[..b]) ==> IsSpace(s[k])
    ensures forall k :: LeadingSpaces(s[..b]) + |Strip(s[..b])| <= k < b ==> IsSpace(s[k])
  {
    var t := s[..b];
    StripTail(t);
    forall k | 0 <= k < LeadingSpaces(t) ensures IsSpace(s[k]) {
      assert s[k] == t[k];
    }
    forall k | LeadingSpaces(t) + |Strip(t)| <= k < b ensures IsSpace(s[k]) {
      assert s[k] == t[k];
    }
  }

  /** Whitespace, then a string with non-space ends, then whitespace, strips to that string. */
  lemma StripPadded(p: string, q: string, r: string)
    requires forall k :: 0 <= k < |p| ==> IsSpace(p[k])
    requires forall k :: 0 <= k < |r| ==> IsSpace(r[k])
    requires q != [] && !IsSpace(q[0]) && !IsSpace(q[|q| - 1])
    ensures Strip(p + q + r) == q
  {
    var x := p + q + r;
    forall k | 0 <= k < |p| ensures IsSpace(x[k]) {
      assert x[k] == p[k];
    }
    forall k | |p| + |q| <= k < |x| ensures IsSpace(x[k]) {
      assert x[k] == r[k - |p| - |q|];
    }
    assert x[|p|] == q[0] && x[|p| + |q| - 1] == q[|q| - 1];
    assert x[|p|..|p| + |q|] == q;
    StripUnique(x, |p|, |p| + |q|);
  }

  /** The regrouping of `s c mid c m` around its first `a` and last `j` characters. */
  lemma Regroup(s: string, c: char, mid: string, m: string, a: nat, j: nat)
    requires a <= |s| && j <= |m|
    ensures s + [c] + mid + [c] + m == s[..a] + (s[a..] + [c] + mid + [c] + m[..|m| - j]) + m[|m| - j..]
  {
    assert s == s[..a] + s[a..];
    assert m == m[..|m| - j] + m[|m| - j..];
  }

  /**
   * Stripping `s c mid c m`, for a non-space separator `c`, strips only whitespace from
   * the front of `s` and from the back of `m`: the result is `s' c mid c m'` where `s'`
   * and `m'` are slices of `s` and `m` that strip like them.
   */
  lemma StripAroundSeps(s: string, c: char, mid: string, m: string) returns (s': string, m': string)
    requires !IsSpace(c)
    ensures Strip(s + [c] + mid + [c] + m) == s' + [c] + mid + [c] + m'
    ensures Strip(s') == Strip(s) && Strip(m') == Strip(m)
    ensures forall x :: x in s' ==> x in s
    ensures forall x :: x in m' ==> x in m
    ensures s' != [] ==> s'[0] == Strip(s)[0]
  {
    var a := FrontCut(s);
    var b := BackCut(m);
    s', m' := s[a..], m[..b];
    var p, r := s[..a], m[b..];
    var q := s' + [c] + mid + [c] + m';
    assert q[0] == if s' == [] then c else s'[0];
    assert q[|q| - 1] == if m' == [] then c else m'[|m'| - 1];
    Regroup(s, c, mid, m, a, |m| - b);
    StripPadded(p, q, r);
  }

  /** The leading whitespace of `s` cut off: what is left strips like `s` and starts with a non-space. */
  lemma FrontCut(s: string) returns (a: nat)
    ensures a <= |s| && forall k :: 0 <= k < a ==> IsSpace(s[..a][k])
    ensures Strip(s[a..]) == Strip(s)
    ensures s[a..] != [] ==> !IsSpace(s[a..][0]) && s[a..][0] == Strip(s)[0]
  {
    a := LeadingSpaces(s);
    StripDropLeading(s, a);
    StripSlice(s);
    if a < |s| {
      assert !IsSpace(s[a]);
      assert Strip(s) != [];
      assert Strip(s)[0] == s[a];
    }
  }

  /** The trailing whitespace of `m` cut off: what is left strips like `m` and ends with a non-space. */
  lemma BackCut(m: string) returns (b: nat)
    ensures b <= |m| && forall k :: 0 <= k < |m| - b ==> IsSpace(m[b..][k])
    ensures Strip(m[..b]) == Strip(m)
    ensures b > 0 ==> !IsSpace(m[..b][b - 1])
  {
    b := |m| - TrailingSpaces(m);
    StripDropTrailing(m, b);
  }

  /** Python's notion of a cased character, restricted to ASCII letters. */
  predicate IsCased(c: char) {
    ('A' <= c <= 'Z') || ('a' <= c <= 'z')
  }

  function Upper(c: char): (u: char)
    ensures IsCased(u) == IsCased(c) && IsSpace(u) == IsSpace(c)
  {
    if 'a' <= c <= 'z' then (c as int - 32) as char else c
  }

  function Lower(c: char): (l: char)
    ensures IsCased(l) == IsCased(c) && IsSpace(l) == IsSpace(c)
  {
    if 'A' <= c <= 'Z' then (c as int + 32) as char else c
  }

  /**
   * Python's `str.title()` on the rest of a string: a character that follows a cased
   * character is lower-cased, any other is upper-cased.
   */
  function TitleFrom(s: string, afterCased: bool): (r: string)
    ensures |r| == |s|
    ensures forall i :: 0 <= i < |s| ==> IsSpace(r[i]) == IsSpace(s[i])
  {
    if s == [] then []
    else [if afterCased then Lower(s[0]) else Upper(s[0])] + TitleFrom(s[1..], IsCased(s[0]))
  }

  /** Python's `s.title()`: the first character is upper-cased, and the length is kept. */
  function Title(s: string): (r: string)
    ensures |r| == |s|
    ensures s != [] ==> r[0] == Upper(s[0])
  {
    TitleFrom(s, false)
  }

  lemma {:induction false} TitleFromIdempotent(s: string, afterCased: bool)
    ensures TitleFrom(TitleFrom(s, afterCased), afterCased) == TitleFrom(s, afterCased)
  {
    if s != [] {
      TitleFromIdempotent(s[1..], IsCased(s[0]));
      var t := TitleFrom(s, afterCased);
      assert t[1..] == TitleFrom(s[1..], IsCased(s[0]));
    }
  }

  /** The key under which an element symbol is stored and looked up: `symbol.strip().title()`. */
  function Normalize(symbol: string): (r: string)
    ensures |r| == |Strip(symbol)|
    ensures r == [] <==> forall i :: 0 <= i < |symbol| ==> IsSpace(symbol[i])
    ensures r != [] ==> !IsSpace(r[0]) && !IsSpace(r[|r| - 1])
  {
    Title(Strip(symbol))
  }

  /**
   * Normalising an already normalised symbol changes nothing, so a caller that normalises
   * before calling a normalising operation (the bulk import does) uses the same key.
   */
  lemma NormalizeIdempotent(symbol: string)
    ensures Normalize(Normalize(symbol)) == Normalize(symbol)
  {
    var s := Strip(symbol);
    var t := Title(s);
    assert t == [] || (!IsSpace(t[0]) && !IsSpace(t[|t| - 1]));
    StripTrimmed(t);
    TitleFromIdempotent(s, false);
  }

  /** Python's `s.split(sep)`: the pieces between the occurrences of `sep`, empty ones included. */
  function Split(s: string, sep: char): (parts: seq<string>)
    ensures |parts| >= 1
  {
    if s == [] then [[]]
    else
      var rest := Split(s[1..], sep);
      if s[0] == sep then [[]] + rest
      else
        [[s[0]] + rest[0]] + rest[1..]
  }

  /** A string without the separator is a single piece, the string itself. */
  lemma {:induction false} SplitWhole(s: string, sep: char)
    requires sep !in s
    ensures Split(s, sep) == [s]
    decreases |s|
  {
    if s != [] {
      assert s[0] != sep && sep !in s[1..];
      SplitWhole(s[1..], sep);
      assert [s[0]] + s[1..] == s;
    }
  }

  /** A piece without the separator, then the separator, splits off as the first piece. */
  lemma {:induction false} SplitConcat(a: string, sep: char, b: string)
    requires sep !in a
    ensures Split(a + [sep] + b, sep) == [a] + Split(b, sep)
    decreases |a|
  {
    var x := a + [sep] + b;
    if a == [] {
      assert x[1..] == b;
    } else {
      assert x[1..] == a[1..] + [sep] + b;
      SplitConcat(a[1..], sep, b);
      assert [a[0]] + a[1..] == a;
    }
  }

  /** Three pieces without the separator, joined by it, split back into those pieces. */
  lemma SplitThree(a: string, b: string, c: string, sep: char)
    requires sep !in a && sep !in b && sep !in c
    ensures Split(a + [sep] + b + [sep] + c, sep) == [a, b, c]
  {
    assert a + [sep] + b + [sep] + c == a + [sep] + (b + [sep] + c);
    SplitConcat(a, sep, b + [sep] + c);
    SplitConcat(b, sep, c);
    SplitWhole(c, sep);
  }

  /** Python's `sep.join(parts)`. */
  function Join(parts: seq<string>, sep: char): string
    requires |parts| >= 1
  {
    if |parts| == 1 then parts[0] else parts[0] + [sep] + Join(parts[1..], sep)
  }

  /** Joining the pieces of a split with the same separator gives back the string. */
  lemma {:induction false} JoinSplit(s: string, sep: char)
    ensures Join(Split(s, sep), sep) == s
  {
    if s != [] {
      var rest := Split(s[1..], sep);
      JoinSplit(s[1..], sep);
      if s[0] == sep {
        assert Split(s, sep)[1..] == rest;
      } else {
        var parts := Split(s, sep);
        if |rest| == 1 {
          assert parts == [[s[0]] + rest[0]];
        } else {
          assert parts[1..] == rest[1..];
          assert Join(rest, sep) == rest[0] + [sep] + Join(rest[1..], sep);
        }
      }
    }
  }

  /** No piece of a split contains the separator, and there is one piece more than separators. */
  lemma {:induction false} SplitPieces(s: string, sep: char)
    ensures forall i :: 0 <= i < |Split(s, sep)| ==> sep !in Split(s, sep)[i]
    ensures |Split(s, sep)| == multiset(s)[sep] + 1
  {
    if s != [] {
      SplitPieces(s[1..], sep);
      assert s == [s[0]] + s[1..];
      assert multiset(s) == multiset{s[0]} + multiset(s[1..]);
      var rest := Split(s[1..], sep);
      var parts := Split(s, sep);
      if s[0] != sep {
        assert parts[0] == [s[0]] + rest[0];
        forall i | 1 <= i < |parts| ensures sep !in parts[i] {
          assert parts[i] == rest[i];
        }
      } else {
        forall i | 1 <= i < |parts| ensures sep !in parts[i] {
          assert parts[i] == rest[i - 1];
        }
      }
    }
  }
}
