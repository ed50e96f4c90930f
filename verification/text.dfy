/** The operations on Python `str` values that the monitor relies on:
    ordering, ASCII lower-casing, prefix tests, `rstrip()` and `split(sep)`. */
module Text {

  /** Python's `a < b` on `str`: lexicographic by code point, and a proper
      prefix sorts before the longer string. */
  predicate Less(a: string, b: string)
    decreases |a|
  {
    if |a| == 0 then |b| > 0
    else if |b| == 0 then false
    else a[0] < b[0] || (a[0] == b[0] && Less(a[1..], b[1..]))
  }

  lemma {:induction false} LessIrreflexive(a: string)
    ensures !Less(a, a)
    decreases |a|
  {
    if |a| > 0 {
      LessIrreflexive(a[1..]);
    }
  }

  lemma {:induction false} LessAsymmetric(a: string, b: string)
    requires Less(a, b)
    ensures !Less(b, a)
    decreases |a|
  {
    if |a| > 0 && a[0] == b[0] {
      LessAsymmetric(a[1..], b[1..]);
    }
  }

  lemma {:induction false} LessTransitive(a: string, b: string, c: string)
    requires Less(a, b) && Less(b, c)
    ensures Less(a, c)
    decreases |a|
  {
    if |a| > 0 && a[0] == b[0] && b[0] == c[0] {
      LessTransitive(a[1..], b[1..], c[1..]);
    }
  }

  /** Any two strings are equal or ordered one way or the other. */
  lemma {:induction false} LessTotal(a: string, b: string)
    ensures a == b || Less(a, b) || Less(b, a)
    decreases |a|
  {
    if |a| > 0 && |b| > 0 && a[0] == b[0] {
      LessTotal(a[1..], b[1..]);
      if a[1..] == b[1..] {
        assert a == [a[0]] + a[1..];
        assert b == [b[0]] + b[1..];
      }
    }
  }

  /** Comparing two equally long strings extended by one character each:
      the prefixes decide, and only on a tie do the last characters. */
  lemma {:induction false} LessSnoc(s: string, t: string, c: char, d: char)
    requires |s| == |t|
    ensures Less(s + [c], t + [d]) <==> Less(s, t) || (s == t && c < d)
    decreases |s|
  {
    if |s| == 0 {
      assert Less([c], [d]) <==> c < d || (c == d && Less([], []));
    } else {
      assert (s + [c])[1..] == s[1..] + [c];
      assert (t + [d])[1..] == t[1..] + [d];
      LessSnoc(s[1..], t[1..], c, d);
      if s[0] == t[0] && s[1..] == t[1..] {
        assert s == [s[0]] + s[1..];
        assert t == [t[0]] + t[1..];
      }
    }
  }

  /** Python's `str.lower()` restricted to ASCII letters. */
  function LowerChar(c: char): char {
    if 'A' <= c <= 'Z' then (c as int + 32) as char else c
  }

  function Lower(s: string): string {
    seq(|s|, i requires 0 <= i < |s| => LowerChar(s[i]))
  }

  /** `str.lower` on ASCII: the same length, upper-case letters mapped to
      lower case, every other character kept, and no upper-case letter left. */
  lemma LowerFacts(s: string)
    ensures |Lower(s)| == |s|
    ensures forall i :: 0 <= i < |s| && 'A' <= s[i] <= 'Z' ==> Lower(s)[i] as int == s[i] as int + 32
    ensures forall i :: 0 <= i < |s| && !('A' <= s[i] <= 'Z') ==> Lower(s)[i] == s[i]
    ensures forall i :: 0 <= i < |s| ==> !('A' <= Lower(s)[i] <= 'Z')
  {
  }

  /** Python's `s.startswith(p)`, and what an anchored literal regex prefix tests. */
  predicate StartsWith(s: string, p: string) {
    |p| <= |s| && s[..|p|] == p
  }

  /** The longest prefix of `s` that does not contain `c`: the text a regex
      `[^c]*` matches at the start of `s`. */
  function TakeUntil(s: string, c: char): (r: string)
    ensures |r| <= |s| && r == s[..|r|]
    ensures c !in r
    ensures |r| < |s| ==> s[|r|] == c
  {
    if |s| == 0 || s[0] == c then [] else [s[0]] + TakeUntil(s[1..], c)
  }

  lemma {:induction false} TakeUntilStopsAtSeparator(p: string, c: char, rest: string)
    requires c !in p
    ensures TakeUntil(p + [c] + rest, c) == p
    decreases |p|
  {
    if |p| > 0 {
      assert (p + [c] + rest)[1..] == p[1..] + [c] + rest;
      TakeUntilStopsAtSeparator(p[1..], c, rest);
      assert p == [p[0]] + p[1..];
    }
  }

  lemma {:induction false} TakeUntilWhole(p: string, c: char)
    requires c !in p
    ensures TakeUntil(p, c) == p
    decreases |p|
  {
    if |p| > 0 {
      TakeUntilWhole(p[1..], c);
      assert p == [p[0]] + p[1..];
    }
  }

  /** Python's `sep.join(parts)` for a one-character separator. */
  function Join(parts: seq<string>, c: char): string
  {
    if |parts| == 0 then []
    else if |parts| == 1 then parts[0]
    else parts[0] + [c] + Join(parts[1..], c)
  }

  /** Python's `s.split(sep)` for a one-character separator: never empty,
      no piece contains the separator, and joining the pieces gives `s` back. */
  function Split(s: string, c: char): (r: seq<string>)
    ensures |r| >= 1
    ensures forall i :: 0 <= i < |r| ==> c !in r[i]
    ensures Join(r, c) == s
    decreases |s|
  {
    var head := TakeUntil(s, c);
    if |head| == |s| then [s]
    else
      var rest := Split(s[|head| + 1..], c);
      assert ([head] + rest)[1..] == rest;
      assert s == head + [c] + s[|head| + 1..];
      [head] + rest
  }

  /** `split` is the only way to cut a string into separator-free pieces:
      splitting what `join` built returns the pieces. */
  lemma {:induction false} SplitJoin(parts: seq<string>, c: char)
    requires |parts| >= 1
    requires forall i :: 0 <= i < |parts| ==> c !in parts[i]
    ensures Split(Join(parts, c), c) == parts
    decreases |parts|
  {
    if |parts| == 1 {
      TakeUntilWhole(parts[0], c);
    } else {
      var head, tail := parts[0], parts[1..];
      var rest := Join(tail, c);
      var s := head + [c] + rest;
      assert Join(parts, c) == s;
      TakeUntilStopsAtSeparator(head, c, rest);
      assert TakeUntil(s, c) == head;
      assert s[|head| + 1..] == rest;
      SplitJoin(tail, c);
      assert Split(s, c) == [head] + Split(rest, c);
      assert parts == [head] + tail;
    }
  }

  lemma {:induction false} JoinAppend(a: seq<string>, b: seq<string>, c: char)
    requires |a| >= 1 && |b| >= 1
    ensures Join(a + b, c) == Join(a, c) + [c] + Join(b, c)
    decreases |a|
  {
    if |a| > 1 {
      assert (a + b)[1..] == a[1..] + b;
      JoinAppend(a[1..], b, c);
    } else {
      assert (a + b)[1..] == b;
    }
  }

  lemma SeparatorFreeAppend(a: seq<string>, b: seq<string>, c: char)
    requires forall i :: 0 <= i < |a| ==> c !in a[i]
    requires forall i :: 0 <= i < |b| ==> c !in b[i]
    ensures forall i :: 0 <= i < |a + b| ==> c !in (a + b)[i]
  {
    forall i | 0 <= i < |a + b|
      ensures c !in (a + b)[i]
    {
      if i >= |a| {
        assert (a + b)[i] == b[i - |a|];
      }
    }
  }

  /** Splitting at one occurrence of the separator splits the two sides independently. */
  lemma SplitAround(x: string, c: char, y: string)
    ensures Split(x + [c] + y, c) == Split(x, c) + Split(y, c)
  {
    var sx, sy := Split(x, c), Split(y, c);
    JoinAppend(sx, sy, c);
    SeparatorFreeAppend(sx, sy, c);
    SplitJoin(sx + sy, c);
  }

  /** The characters Python's `str.isspace()` accepts, which `rstrip()` removes. */
  predicate IsSpace(c: char) {
    || c == ' '
    || '\t' <= c <= '\r'
    || '\U{1C}' <= c <= '\U{1F}'
    || c == '\U{85}' || c == '\U{A0}' || c == '\U{1680}'
    || '\U{2000}' <= c <= '\U{200A}'
    || c == '\U{2028}' || c == '\U{2029}' || c == '\U{202F}' || c == '\U{205F}' || c == '\U{3000}'
  }

  /** Python's `s.rstrip()`: the longest prefix that does not end in
      whitespace, everything cut off being whitespace. */
  function RStrip(s: string): (r: string)
    ensures |r| <= |s| && r == s[..|r|]
    ensures |r| == 0 || !IsSpace(r[|r| - 1])
    ensures forall i :: |r| <= i < |s| ==> IsSpace(s[i])
  {
    if |s| == 0 || !IsSpace(s[|s| - 1]) then s else RStrip(s[..|s| - 1])
  }
}
