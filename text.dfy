/**
 * Python's string primitives as the core uses them: whitespace, str.split()
 * with no argument, str.join, str.strip() and the " ".join(s.split())
 * collapse. One whitespace predicate serves the regex class `\s`,
 * str.split() and str.strip() alike.
 */
module Text {
  import opened Wrappers

  /** Python's str.isspace() on one character. */
  predicate IsSpace(c: char) {
    || c == ' '
    || ('\t' <= c <= '\r')            // \t \n \v \f \r
    || ('\U{1c}' <= c <= '\U{1f}')    // file, group, record and unit separators
    || c == '\U{85}' || c == '\U{a0}' || c == '\U{1680}'
    || ('\U{2000}' <= c <= '\U{200a}')
    || c == '\U{2028}' || c == '\U{2029}' || c == '\U{202f}' || c == '\U{205f}' || c == '\U{3000}'
  }

  predicate AllSpace(s: string) {
    forall i :: 0 <= i < |s| ==> IsSpace(s[i])
  }

  predicate NoSpace(s: string) {
    forall i :: 0 <= i < |s| ==> !IsSpace(s[i])
  }

  /** What str.split() produces: non-empty strings free of whitespace. */
  predicate WellFormedWords(ws: seq<string>) {
    forall k :: 0 <= k < |ws| ==> ws[k] != [] && NoSpace(ws[k])
  }

  /**
   * A collapsed paragraph: non-empty, no whitespace at either end, and every
   * whitespace character is a single space followed by a non-space.
   */
  predicate Normalized(p: string) {
    && p != []
    && !IsSpace(p[0])
    && !IsSpace(p[|p| - 1])
    && forall i :: 0 <= i < |p| && IsSpace(p[i]) ==> p[i] == ' ' && !IsSpace(p[i + 1])
  }

  /** Length of the leading run of non-whitespace characters. */
  function WordLen(s: string): (n: nat)
    ensures n <= |s|
    ensures forall i :: 0 <= i < n ==> !IsSpace(s[i])
    ensures n < |s| ==> IsSpace(s[n])
  {
    if s == [] || IsSpace(s[0]) then 0 else 1 + WordLen(s[1..])
  }

  /** Python's str.split() with no argument: the maximal non-whitespace runs, in order. */
  function Words(s: string): seq<string>
    decreases |s|
  {
    if s == [] then []
    else if IsSpace(s[0]) then Words(s[1..])
    else
      var n := WordLen(s);
      [s[..n]] + Words(s[n..])
  }

  /** Python's sep.join(parts). */
  function Join(sep: string, parts: seq<string>): string
  {
    if |parts| == 0 then ""
    else if |parts| == 1 then parts[0]
    else parts[0] + sep + Join(sep, parts[1..])
  }

  /** " ".join(s.split()): whitespace runs collapsed to one space, ends trimmed. */
  function Clean(s: string): string {
    Join(" ", Words(s))
  }

  /** Number of leading whitespace characters. */
  function LeadLen(s: string): (n: nat)
    ensures n <= |s|
    ensures forall i :: 0 <= i < n ==> IsSpace(s[i])
    ensures n < |s| ==> !IsSpace(s[n])
  {
    if s == [] || !IsSpace(s[0]) then 0 else 1 + LeadLen(s[1..])
  }

  /** Number of trailing whitespace characters. */
  function TrailLen(s: string): (n: nat)
    ensures n <= |s|
    ensures forall i :: |s| - n <= i < |s| ==> IsSpace(s[i])
    ensures n < |s| ==> !IsSpace(s[|s| - n - 1])
  {
    if s == [] || !IsSpace(s[|s| - 1]) then 0 else 1 + TrailLen(s[..|s| - 1])
  }

  /**
   * Python's str.strip() with no argument: s less a whitespace prefix and a
   * whitespace suffix, what is left beginning and ending with a non-space.
   */
  function Strip(s: string): (r: string)
    ensures exists i, j :: 0 <= i <= j <= |s| && r == s[i..j] && AllSpace(s[..i]) && AllSpace(s[j..])
    ensures r == [] <==> AllSpace(s)
    ensures r != [] ==> !IsSpace(r[0]) && !IsSpace(r[|r| - 1])
    ensures NoOuterSpace(s) ==> r == s
  {
    var i := LeadLen(s);
    var t := s[i..];
    var r := t[..|t| - TrailLen(t)];
    assert r == [] ==> i == |s|;
    assert r != [] ==> r[0] == s[i];
    assert r == s[i..i + |r|] && AllSpace(s[..i]) && AllSpace(s[i + |r|..]) by {
      var u := s[i + |r|..];
      assert forall k :: 0 <= k < |u| ==> u[k] == t[|r| + k];
    }
    r
  }

  /** A string that str.strip() leaves as it is. */
  predicate NoOuterSpace(s: string) {
    s == [] || (!IsSpace(s[0]) && !IsSpace(s[|s| - 1]))
  }

  /** Stripping twice is stripping once. */
  lemma StripTwice(s: string)
    ensures Strip(Strip(s)) == Strip(s)
  {
    assert NoOuterSpace(Strip(s));
  }

  // ---------------------------------------------------------------------
  // str.split()

  /** What str.split() yields are words: non-empty and free of whitespace. */
  lemma {:induction false} WordsWellFormed(s: string)
    ensures WellFormedWords(Words(s))
    decreases |s|
  {
    if s != [] {
      if IsSpace(s[0]) {
        WordsWellFormed(s[1..]);
      } else {
        var n := WordLen(s);
        WordsWellFormed(s[n..]);
        assert NoSpace(s[..n]);
      }
    }
  }

  lemma {:induction false} WordLenNoSpace(w: string)
    requires NoSpace(w)
    ensures WordLen(w) == |w|
  {
    if w != [] {
      WordLenNoSpace(w[1..]);
    }
  }

  lemma WordsOfWord(w: string)
    requires w != [] && NoSpace(w)
    ensures Words(w) == [w]
  {
    WordLenNoSpace(w);
    assert w[..|w|] == w;
    assert w[|w|..] == [];
  }

  lemma {:induction false} WordsOfSpace(s: string)
    ensures Words(s) == [] <==> AllSpace(s)
    decreases |s|
  {
    if s != [] && IsSpace(s[0]) {
      WordsOfSpace(s[1..]);
      if AllSpace(s[1..]) {
        forall i | 0 <= i < |s| ensures IsSpace(s[i]) {
          if i > 0 { assert s[i] == s[1..][i - 1]; }
        }
      }
    }
  }

  /** The first word of a + b is that of a, unless a is one unbroken word that b continues. */
  lemma {:induction false} WordLenAppend(a: string, b: string)
    requires WordLen(a) < |a| || b == [] || IsSpace(b[0])
    ensures WordLen(a + b) == WordLen(a)
  {
    if a != [] && !IsSpace(a[0]) {
      assert (a + b)[1..] == a[1..] + b;
      WordLenAppend(a[1..], b);
    }
  }

  /** str.split() distributes over a concatenation cut at whitespace. */
  lemma {:induction false} WordsAppend(a: string, b: string)
    requires a == [] || b == [] || IsSpace(a[|a| - 1]) || IsSpace(b[0])
    ensures Words(a + b) == Words(a) + Words(b)
    decreases |a|
  {
    var ab := a + b;
    if a == [] {
      assert ab == b;
    } else if IsSpace(a[0]) {
      assert ab[0] == a[0] && ab[1..] == a[1..] + b;
      WordsAppend(a[1..], b);
    } else {
      WordsAppendAtWord(a, b);
    }
  }

  /** WordsAppend when a starts with a word: that word comes first, then the rest of a and b. */
  lemma {:induction false} WordsAppendAtWord(a: string, b: string)
    requires a != [] && !IsSpace(a[0])
    requires b == [] || IsSpace(a[|a| - 1]) || IsSpace(b[0])
    ensures Words(a + b) == Words(a) + Words(b)
    decreases |a|, 0
  {
    var ab := a + b;
    var n := WordLen(a);
    assert n < |a| || b == [] || IsSpace(b[0]) by {
      if n == |a| && b != [] {
        assert !IsSpace(a[|a| - 1]);
      }
    }
    WordLenAppend(a, b);
    assert ab[..n] == a[..n] && ab[n..] == a[n..] + b;
    assert Words(ab) == [a[..n]] + Words(a[n..] + b) by {
      assert ab != [] && ab[0] == a[0];
    }
    assert Words(a) == [a[..n]] + Words(a[n..]);
    if n < |a| {
      assert a[n..][|a[n..]| - 1] == a[|a| - 1];
      WordsAppend(a[n..], b);
      AppendAssoc([a[..n]], Words(a[n..]), Words(b));
    } else {
      assert a[n..] == [];
      assert a[n..] + b == b;
    }
  }

  /** A non-empty whitespace run separates the words on its two sides. */
  lemma WordsAroundSpace(a: string, w: string, b: string)
    requires w != [] && AllSpace(w)
    ensures Words(a + w + b) == Words(a) + Words(b)
  {
    WordsOfSpace(w);
    WordsAppend(a, w);
    WordsAppend(a + w, b);
  }

  // ---------------------------------------------------------------------
  // str.join

  lemma {:induction false} JoinAppend(sep: string, a: seq<string>, b: seq<string>)
    requires a != [] && b != []
    ensures Join(sep, a + b) == Join(sep, a) + sep + Join(sep, b)
  {
    if |a| == 1 {
      assert (a + b)[1..] == b;
    } else {
      assert (a + b)[1..] == a[1..] + b;
      JoinAppend(sep, a[1..], b);
    }
  }

  lemma {:induction false} JoinEmpty(sep: string, parts: seq<string>)
    requires forall k :: 0 <= k < |parts| ==> parts[k] != []
    ensures Join(sep, parts) == [] <==> parts == []
  {
    if |parts| > 1 {
      JoinEmpty(sep, parts[1..]);
    }
  }

  function TotalLength(parts: seq<string>): nat
  {
    if parts == [] then 0 else |parts[0]| + TotalLength(parts[1..])
  }

  lemma {:induction false} JoinLength(sep: string, parts: seq<string>)
    requires parts != []
    ensures |Join(sep, parts)| == TotalLength(parts) + (|parts| - 1) * |sep|
  {
    if |parts| == 1 {
      assert parts[1..] == [];
    } else {
      JoinLength(sep, parts[1..]);
    }
  }

  lemma WellFormedTail(ws: seq<string>)
    requires WellFormedWords(ws) && ws != []
    ensures ws[0] != [] && NoSpace(ws[0]) && WellFormedWords(ws[1..])
  {
    forall k | 0 <= k < |ws[1..]| ensures ws[1..][k] != [] && NoSpace(ws[1..][k]) {
      assert ws[1..][k] == ws[k + 1];
    }
  }

  /** Join of two or more parts: the first, the separator, then the join of the rest. */
  lemma JoinCons(sep: string, parts: seq<string>)
    requires |parts| > 1
    ensures Join(sep, parts) == parts[0] + (sep + Join(sep, parts[1..]))
  {
  }

  /** A word followed by whitespace (or nothing) is split off first. */
  lemma WordsAfterWord(w: string, t: string)
    requires w != [] && NoSpace(w)
    requires t == [] || IsSpace(t[0])
    ensures Words(w + t) == [w] + Words(t)
  {
    WordsOfWord(w);
    WordsAppend(w, t);
  }

  /** A leading whitespace character is dropped. */
  lemma WordsAfterSpace(c: char, t: string)
    requires IsSpace(c)
    ensures Words([c] + t) == Words(t)
  {
    assert ([c] + t)[1..] == t;
  }

  /** Splitting words re-joined by single spaces gives the words back. */
  lemma {:induction false} WordsOfJoin(ws: seq<string>)
    requires WellFormedWords(ws)
    ensures Words(Join(" ", ws)) == ws
  {
    if |ws| == 1 {
      WordsOfWord(ws[0]);
    } else if |ws| > 1 {
      WellFormedTail(ws);
      WordsOfJoin(ws[1..]);
      WordsOfJoinStep(ws);
    }
  }

  /** The step of WordsOfJoin: the first word, a space, then words that split back. */
  lemma WordsOfJoinStep(ws: seq<string>)
    requires |ws| > 1 && ws[0] != [] && NoSpace(ws[0])
    requires Words(Join(" ", ws[1..])) == ws[1..]
    ensures Words(Join(" ", ws)) == ws
  {
    var w, more := ws[0], ws[1..];
    var rest := Join(" ", more);
    JoinCons(" ", ws);
    WordsAfterSpace(' ', rest);
    WordsAfterWord(w, [' '] + rest);
    assert ws == [w] + more;
  }

  lemma {:induction false} JoinNormalized(ws: seq<string>)
    requires WellFormedWords(ws) && ws != []
    ensures Normalized(Join(" ", ws))
  {
    if |ws| > 1 {
      JoinNormalized(ws[1..]);
      var w, rest := ws[0], Join(" ", ws[1..]);
      var p := w + " " + rest;
      assert p == Join(" ", ws);
      assert forall i :: 0 <= i < |w| ==> p[i] == w[i];
      assert p[|w|] == ' ' && p[|w| + 1] == rest[0];
      assert forall i :: |w| < i < |p| ==> p[i] == rest[i - |w| - 1];
      assert p[0] == w[0];
      assert p[|p| - 1] == rest[|rest| - 1];
    }
  }

  // ---------------------------------------------------------------------
  // " ".join(s.split())

  /** The collapse is empty exactly for blank text, and otherwise normalized. */
  lemma CleanShape(s: string)
    ensures Clean(s) == [] <==> AllSpace(s)
    ensures Clean(s) != [] ==> Normalized(Clean(s))
  {
    WordsOfSpace(s);
    WordsWellFormed(s);
    JoinEmpty(" ", Words(s));
    if Words(s) != [] {
      JoinNormalized(Words(s));
    }
  }

  /** Collapsing twice is collapsing once. */
  lemma CleanIdempotent(s: string)
    ensures Clean(Clean(s)) == Clean(s)
  {
    WordsWellFormed(s);
    WordsOfJoin(Words(s));
  }

  /** A normalized string contains no line feed. */
  lemma NormalizedHasNoNewline(p: string)
    requires Normalized(p)
    ensures forall i :: 0 <= i < |p| ==> p[i] != '\n'
  {
    forall i | 0 <= i < |p| ensures p[i] != '\n' {
      assert IsSpace('\n');
    }
  }
}
