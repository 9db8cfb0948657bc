/**
 * The paragraph segmenter of the contract chatbot
 * (ChatbotContractView.split_into_paragraphs): split the text with the
 * regular expression `\n\s*\n+`, collapse each fragment with
 * " ".join(fragment.split()) and drop the fragments that become empty.
 */
module Segmenter {
  import opened Wrappers
  import opened Text

  /**
   * A paragraph break: a line feed at i, another at j, and only whitespace
   * between them — a whitespace run holding at least two line feeds.
   */
  ghost predicate BreakAt(s: string, i: int, j: int) {
    && 0 <= i < j < |s|
    && s[i] == '\n' && s[j] == '\n'
    && forall k :: i < k < j ==> IsSpace(s[k])
  }

  ghost predicate HasBreak(s: string) {
    exists i, j :: BreakAt(s, i, j)
  }

  /** End of the whitespace run that starts at i. */
  function RunEnd(s: string, i: nat): (e: nat)
    requires i <= |s|
    ensures i <= e <= |s|
    ensures forall k :: i <= k < e ==> IsSpace(s[k])
    ensures e < |s| ==> !IsSpace(s[e])
    decreases |s| - i
  {
    if i == |s| || !IsSpace(s[i]) then i else RunEnd(s, i + 1)
  }

  /** The last line feed in s[lo..hi], if there is one. */
  function LastNewline(s: string, lo: nat, hi: nat): (r: Option<nat>)
    requires lo <= hi <= |s|
    ensures r.Some? ==> lo <= r.value < hi && s[r.value] == '\n'
    ensures r.Some? ==> forall k :: r.value < k < hi ==> s[k] != '\n'
    ensures r.None? ==> forall k :: lo <= k < hi ==> s[k] != '\n'
    decreases hi - lo
  {
    if hi == lo then None
    else if s[hi - 1] == '\n' then Some(hi - 1)
    else LastNewline(s, lo, hi - 1)
  }

  /** The first line feed in s[lo..hi], if there is one. */
  function FirstNewline(s: string, lo: nat, hi: nat): (r: Option<nat>)
    requires lo <= hi <= |s|
    ensures r.Some? ==> lo <= r.value < hi && s[r.value] == '\n'
    ensures r.Some? ==> forall k :: lo <= k < r.value ==> s[k] != '\n'
    ensures r.None? ==> forall k :: lo <= k < hi ==> s[k] != '\n'
    decreases hi - lo
  {
    if hi == lo then None
    else if s[lo] == '\n' then Some(lo)
    else FirstNewline(s, lo + 1, hi)
  }

  lemma {:induction false} RunEndInside(s: string, i: nat, m: nat)
    requires i <= |s| && i <= m <= RunEnd(s, i)
    ensures RunEnd(s, m) == RunEnd(s, i)
    decreases |s| - i
  {
    if i < m {
      RunEndInside(s, i + 1, m);
    }
  }

  /**
   * The end of the match of `\n\s*\n+` that starts at i, if one does: `\s*`
   * takes the whole whitespace run after the line feed at i and gives back
   * characters until `\n+` can match, so the match stops right after the
   * last line feed of that run.
   */
  function MatchEnd(s: string, i: nat): Option<nat>
    requires i < |s|
  {
    if s[i] != '\n' then None
    else
      match LastNewline(s, i + 1, RunEnd(s, i + 1))
      case None => None
      case Some(k) => Some(k + 1)
  }

  /**
   * What MatchEnd finds: a match exactly where a break starts, spanning
   * whitespace only, from a line feed to a line feed, with no line feed
   * left in the run after it.
   */
  lemma MatchEndSpec(s: string, i: nat)
    requires i < |s|
    ensures var r := MatchEnd(s, i);
      && (r.Some? <==> exists j :: BreakAt(s, i, j))
      && (r.Some? ==> i + 2 <= r.value <= |s| && s[i] == '\n' && s[r.value - 1] == '\n')
      && (r.Some? ==> forall k :: i <= k < r.value ==> IsSpace(s[k]))
      && (r.Some? ==> forall k :: r.value <= k < RunEnd(s, r.value) ==> s[k] != '\n')
  {
    if s[i] == '\n' {
      var e := RunEnd(s, i + 1);
      match LastNewline(s, i + 1, e)
      case None =>
        assert forall j :: !BreakAt(s, i, j);
      case Some(k) =>
        assert BreakAt(s, i, k);
        RunEndInside(s, i + 1, k + 1);
    }
  }

  /**
   * re.split scanning s from position i; start is where the current
   * fragment began. Matches are found left to right and never overlap.
   */
  function SplitFrom(s: string, start: nat, i: nat): seq<string>
    requires start <= i <= |s|
    decreases |s| - i
  {
    if i == |s| then [s[start..]]
    else
      match MatchEnd(s, i)
      case None => SplitFrom(s, start, i + 1)
      case Some(e) => [s[start..i]] + SplitFrom(s, e, e)
  }

  /** re.split(r'\n\s*\n+', s). */
  function RegexSplit(s: string): seq<string> {
    SplitFrom(s, 0, 0)
  }

  /** The fragment's contribution: its collapse, unless that is empty. */
  function Kept(c: string): seq<string> {
    if c == [] then [] else [c]
  }

  /** The loop of split_into_paragraphs over the fragments, as a value. */
  function CleanAll(frags: seq<string>): seq<string>
  {
    if frags == [] then []
    else CleanAll(frags[..|frags| - 1]) + Kept(Clean(frags[|frags| - 1]))
  }

  /** split_into_paragraphs(text), as a value. */
  function Paragraphs(text: string): seq<string> {
    CleanAll(RegexSplit(text))
  }

  /** What every segmenter output is: normalized, and its own collapse. */
  predicate IsParagraph(p: string) {
    Normalized(p) && Clean(p) == p
  }

  /** split_into_paragraphs: the cleaning loop over the regex fragments. */
  method SplitIntoParagraphs(text: string) returns (cleaned: seq<string>)
    ensures cleaned == Paragraphs(text)
    ensures forall k :: 0 <= k < |cleaned| ==> IsParagraph(cleaned[k])
  {
    var raw := RegexSplit(text);
    cleaned := [];
    for i := 0 to |raw|
      invariant cleaned == CleanAll(raw[..i])
    {
      assert raw[..i + 1][..i] == raw[..i];
      var c := Clean(raw[i]);
      if c != [] {
        cleaned := cleaned + [c];
      }
    }
    assert raw[..|raw|] == raw;
    ParagraphsAreParagraphs(text);
  }

  // ---------------------------------------------------------------------
  // Properties of the cleaning loop

  lemma {:induction false} CleanAllParagraphs(frags: seq<string>)
    ensures forall k :: 0 <= k < |CleanAll(frags)| ==> IsParagraph(CleanAll(frags)[k])
  {
    if frags != [] {
      var last := frags[|frags| - 1];
      CleanAllParagraphs(frags[..|frags| - 1]);
      CleanShape(last);
      CleanIdempotent(last);
    }
  }

  lemma {:induction false} CleanAllAppend(a: seq<string>, b: seq<string>)
    ensures CleanAll(a + b) == CleanAll(a) + CleanAll(b)
    decreases |b|
  {
    if b == [] {
      assert a + b == a;
    } else {
      assert (a + b)[..|a + b| - 1] == a + b[..|b| - 1];
      CleanAllAppend(a, b[..|b| - 1]);
    }
  }

  /** The words of all fragments, fragment after fragment. */
  function FlatWords(frags: seq<string>): seq<string>
  {
    if frags == [] then []
    else FlatWords(frags[..|frags| - 1]) + Words(frags[|frags| - 1])
  }

  lemma {:induction false} FlatWordsAppend(a: seq<string>, b: seq<string>)
    ensures FlatWords(a + b) == FlatWords(a) + FlatWords(b)
    decreases |b|
  {
    if b == [] {
      assert a + b == a;
    } else {
      FlatWordsAppend(a, b[..|b| - 1]);
      FlatWordsAppendStep(a, b);
    }
  }

  /** The step of FlatWordsAppend: the last fragment of b is the last fragment of a + b. */
  lemma {:induction false} FlatWordsAppendStep(a: seq<string>, b: seq<string>)
    requires b != []
    requires FlatWords(a + b[..|b| - 1]) == FlatWords(a) + FlatWords(b[..|b| - 1])
    ensures FlatWords(a + b) == FlatWords(a) + FlatWords(b)
  {
    var ab, init, x := a + b, b[..|b| - 1], b[|b| - 1];
    assert ab[..|ab| - 1] == a + init && ab[|ab| - 1] == x;
    assert FlatWords(ab) == FlatWords(a + init) + Words(x);
    assert FlatWords(b) == FlatWords(init) + Words(x);
    var fa, fi, fx := FlatWords(a), FlatWords(init), Words(x);
    AppendAssoc(fa, fi, fx);
  }

  /** One step of JoinCleanAll: a fragment with words adds their collapse, one without adds nothing. */
  lemma JoinKeptStep(ca: seq<string>, fw: seq<string>, ws: seq<string>)
    requires forall k :: 0 <= k < |ca| ==> ca[k] != []
    requires WellFormedWords(fw) && WellFormedWords(ws)
    requires Join(" ", ca) == Join(" ", fw)
    ensures Join(" ", ca + Kept(Join(" ", ws))) == Join(" ", fw + ws)
  {
    JoinEmpty(" ", ca);
    JoinEmpty(" ", fw);
    JoinEmpty(" ", ws);
    if ws == [] {
      assert fw + ws == fw;
      assert ca + [] == ca;
    } else if ca == [] {
      assert ca + [Join(" ", ws)] == [Join(" ", ws)];
      assert fw + ws == ws;
    } else {
      JoinAppend(" ", ca, [Join(" ", ws)]);
      JoinAppend(" ", fw, ws);
    }
  }

  lemma {:induction false} FlatWordsWellFormed(frags: seq<string>)
    ensures WellFormedWords(FlatWords(frags))
  {
    if frags != [] {
      FlatWordsWellFormed(frags[..|frags| - 1]);
      WordsWellFormed(frags[|frags| - 1]);
    }
  }

  /** Joining the kept collapses equals joining all the words. */
  lemma {:induction false} JoinCleanAll(frags: seq<string>)
    ensures Join(" ", CleanAll(frags)) == Join(" ", FlatWords(frags))
  {
    if frags != [] {
      var init, last := frags[..|frags| - 1], frags[|frags| - 1];
      JoinCleanAll(init);
      CleanAllParagraphs(init);
      FlatWordsWellFormed(init);
      WordsWellFormed(last);
      JoinKeptStep(CleanAll(init), FlatWords(init), Words(last));
    }
  }

  // ---------------------------------------------------------------------
  // Properties of the regex split

  /** The fragments of a split, taken together, hold exactly the words of the text. */
  lemma {:induction false} SplitFromWords(s: string, start: nat, i: nat)
    requires start <= i <= |s|
    ensures FlatWords(SplitFrom(s, start, i)) == Words(s[start..])
    decreases |s| - i
  {
    if i == |s| {
      assert FlatWords([s[start..]]) == FlatWords([]) + Words(s[start..]);
    } else {
      match MatchEnd(s, i)
      case None =>
        SplitFromWords(s, start, i + 1);
      case Some(e) =>
        SplitFromWords(s, e, e);
        BreakDropsSpace(s, start, i, e, SplitFrom(s, e, e));
    }
  }

  /** Cutting out a run of white space between two fragments loses no word. */
  lemma BreakDropsSpace(s: string, start: nat, i: nat, e: nat, rest: seq<string>)
    requires start <= i < e <= |s|
    requires forall k :: i <= k < e ==> IsSpace(s[k])
    requires FlatWords(rest) == Words(s[e..])
    ensures FlatWords([s[start..i]] + rest) == Words(s[start..])
  {
    var head, gap, tail := s[start..i], s[i..e], s[e..];
    assert s[start..] == head + gap + tail;
    assert AllSpace(gap) by {
      forall k | 0 <= k < |gap| ensures IsSpace(gap[k]) {
        assert gap[k] == s[i + k];
      }
    }
    assert FlatWords([head]) == Words(head) by {
      assert [head][..0] == [];
    }
    FlatWordsAppend([head], rest);
    WordsAroundSpace(head, gap, tail);
  }

  lemma {:induction false} SplitFromNoMatch(s: string, start: nat, i: nat)
    requires start <= i <= |s|
    requires forall k :: i <= k < |s| ==> MatchEnd(s, k).None?
    ensures SplitFrom(s, start, i) == [s[start..]]
    decreases |s| - i
  {
    if i < |s| {
      SplitFromNoMatch(s, start, i + 1);
    }
  }

  // ---------------------------------------------------------------------
  // The scan only looks ahead: a prefix shifts positions and nothing else

  lemma {:induction false} RunEndShift(p: string, b: string, i: nat)
    requires i <= |b|
    ensures RunEnd(p + b, |p| + i) == |p| + RunEnd(b, i)
    decreases |b| - i
  {
    if i < |b| {
      assert (p + b)[|p| + i] == b[i];
      if IsSpace(b[i]) {
        RunEndShift(p, b, i + 1);
      }
    }
  }

  lemma {:induction false} LastNewlineShift(p: string, b: string, lo: nat, hi: nat)
    requires lo <= hi <= |b|
    ensures LastNewline(p + b, |p| + lo, |p| + hi) ==
      if LastNewline(b, lo, hi).Some? then Some(|p| + LastNewline(b, lo, hi).value) else None
    decreases hi - lo
  {
    if lo < hi {
      assert (p + b)[|p| + hi - 1] == b[hi - 1];
      if b[hi - 1] != '\n' {
        LastNewlineShift(p, b, lo, hi - 1);
      }
    }
  }

  /** Whether `\n\s*\n+` matches at a position, and where the match ends, depend only on what follows. */
  lemma MatchEndShift(p: string, b: string, i: nat)
    requires i < |b|
    ensures MatchEnd(p + b, |p| + i) ==
      if MatchEnd(b, i).Some? then Some(|p| + MatchEnd(b, i).value) else None
  {
    assert (p + b)[|p| + i] == b[i];
    if b[i] == '\n' {
      RunEndShift(p, b, i + 1);
      LastNewlineShift(p, b, i + 1, RunEnd(b, i + 1));
    }
  }

  /** Scanning p + b inside b, from a fragment that also starts inside b, is scanning b. */
  lemma {:induction false} SplitFromShift(p: string, b: string, start: nat, i: nat)
    requires start <= i <= |b|
    ensures SplitFrom(p + b, |p| + start, |p| + i) == SplitFrom(b, start, i)
    decreases |b| - i
  {
    if i == |b| {
      ShiftAtEnd(p, b, start);
    } else if MatchEnd(b, i).None? {
      SplitFromShift(p, b, start, i + 1);
      ShiftPass(p, b, start, i);
    } else {
      var e := MatchEnd(b, i).value;
      SplitFromShift(p, b, e, e);
      ShiftCut(p, b, start, i, e);
    }
  }

  lemma ShiftCut(p: string, b: string, start: nat, i: nat, e: nat)
    requires start <= i < |b| && MatchEnd(b, i) == Some(e)
    requires SplitFrom(p + b, |p| + e, |p| + e) == SplitFrom(b, e, e)
    ensures SplitFrom(p + b, |p| + start, |p| + i) == SplitFrom(b, start, i)
  {
    var head := b[start..i];
    assert (p + b)[|p| + start..|p| + i] == head by {
      SliceShift(p, b, start, i);
    }
    assert SplitFrom(b, start, i) == [head] + SplitFrom(b, e, e) by {
      SplitFromCut(b, start, i, e);
    }
    CutInB(p, b, |p| + start, i, e);
  }

  lemma ShiftAtEnd(p: string, b: string, start: nat)
    requires start <= |b|
    ensures SplitFrom(p + b, |p| + start, |p| + |b|) == SplitFrom(b, start, |b|)
  {
    SplitFromEnd(p + b, |p| + start);
    SplitFromEnd(b, start);
    DropShift(p, b, start);
  }

  lemma DropShift(p: string, b: string, x: nat)
    requires x <= |b|
    ensures (p + b)[|p| + x..] == b[x..]
  {
  }

  /** At the end of s the scan yields the current fragment. */
  lemma SplitFromEnd(s: string, start: nat)
    requires start <= |s|
    ensures SplitFrom(s, start, |s|) == [s[start..]]
  {
  }

  lemma ShiftPass(p: string, b: string, start: nat, i: nat)
    requires start <= i < |b| && MatchEnd(b, i).None?
    requires SplitFrom(p + b, |p| + start, |p| + i + 1) == SplitFrom(b, start, i + 1)
    ensures SplitFrom(p + b, |p| + start, |p| + i) == SplitFrom(b, start, i)
  {
    MatchEndShift(p, b, i);
  }

  lemma SliceShift(p: string, b: string, x: nat, y: nat)
    requires x <= y <= |b|
    ensures (p + b)[|p| + x..|p| + y] == b[x..y]
  {
  }

  /**
   * Scanning p + b inside b, from a fragment that started in p: the first
   * fragment of b is extended by the rest of p, the others are b's.
   */
  lemma {:induction false} SplitFromPrefix(p: string, b: string, start: nat, i: nat)
    requires start <= |p| && i <= |b|
    ensures var f := SplitFrom(b, 0, i);
      f != [] && SplitFrom(p + b, start, |p| + i) == [p[start..] + f[0]] + f[1..]
    decreases |b| - i
  {
    if i == |b| {
      PrefixAtEnd(p, b, start);
    } else if MatchEnd(b, i).None? {
      SplitFromPrefix(p, b, start, i + 1);
      PrefixPass(p, b, start, i);
    } else {
      var e := MatchEnd(b, i).value;
      SplitFromShift(p, b, e, e);
      PrefixCut(p, b, start, i, e);
    }
  }

  lemma PrefixCut(p: string, b: string, start: nat, i: nat, e: nat)
    requires start <= |p| && i < |b| && MatchEnd(b, i) == Some(e)
    requires SplitFrom(p + b, |p| + e, |p| + e) == SplitFrom(b, e, e)
    ensures SplitFrom(p + b, start, |p| + i) == [p[start..] + b[..i]] + SplitFrom(b, e, e)
    ensures SplitFrom(b, 0, i) == [b[..i]] + SplitFrom(b, e, e)
  {
    CutInB(p, b, start, i, e);
    SplitFromCut(b, 0, i, e);
    SliceAcross(p, b, start, i);
    assert b[0..i] == b[..i];
  }

  lemma PrefixAtEnd(p: string, b: string, start: nat)
    requires start <= |p|
    ensures SplitFrom(p + b, start, |p| + |b|) == [p[start..] + b]
    ensures SplitFrom(b, 0, |b|) == [b]
  {
    SplitFromEnd(p + b, start);
    SplitFromEnd(b, 0);
    DropAcross(p, b, start);
    assert b[0..] == b;
  }

  lemma DropAcross(p: string, b: string, x: nat)
    requires x <= |p|
    ensures (p + b)[x..] == p[x..] + b
  {
  }

  lemma PrefixPass(p: string, b: string, start: nat, i: nat)
    requires start <= |p| && i < |b| && MatchEnd(b, i).None?
    ensures SplitFrom(p + b, start, |p| + i) == SplitFrom(p + b, start, |p| + i + 1)
    ensures SplitFrom(b, 0, i) == SplitFrom(b, 0, i + 1)
  {
    MatchEndShift(p, b, i);
  }

  /** A match at i in b is a match at |p| + i in p + b: the fragment ends there. */
  lemma CutInB(p: string, b: string, start: nat, i: nat, e: nat)
    requires start <= |p| + i && i < |b| && MatchEnd(b, i) == Some(e)
    ensures SplitFrom(p + b, start, |p| + i) == [(p + b)[start..|p| + i]] + SplitFrom(p + b, |p| + e, |p| + e)
  {
    MatchEndShift(p, b, i);
  }

  lemma SliceAcross(p: string, b: string, x: nat, y: nat)
    requires x <= |p| && y <= |b|
    ensures (p + b)[x..|p| + y] == p[x..] + b[..y]
  {
  }

  /** Positions where nothing matches are skipped without cutting. */
  lemma {:induction false} SplitFromSkip(s: string, start: nat, i: nat, j: nat)
    requires start <= i <= j <= |s|
    requires forall k :: i <= k < j ==> MatchEnd(s, k).None?
    ensures SplitFrom(s, start, i) == SplitFrom(s, start, j)
    decreases j - i
  {
    if i < j {
      SplitFromSkip(s, start, i + 1, j);
    }
  }

  lemma CleanAllHead(x: string, t: seq<string>)
    ensures CleanAll([x] + t) == Kept(Clean(x)) + CleanAll(t)
  {
    CleanAllAppend([x], t);
    assert [x][..0] == [];
  }

  /** Whitespace in front of the first fragment does not change its collapse. */
  lemma CleanAllLeadingSpace(u: string, f: seq<string>)
    requires f != [] && AllSpace(u)
    ensures CleanAll([u + f[0]] + f[1..]) == CleanAll(f)
  {
    WordsOfSpace(u);
    WordsAppend(u, f[0]);
    assert Words(u + f[0]) == [] + Words(f[0]) == Words(f[0]);
    assert Clean(u + f[0]) == Clean(f[0]);
    CleanAllHead(u + f[0], f[1..]);
    CleanAllHead(f[0], f[1..]);
    assert [f[0]] + f[1..] == f;
  }

  /** The fragment before a break: its trailing whitespace is collapsed away. */
  lemma CleanTrailingSpace(a: string, u: string)
    requires AllSpace(u)
    ensures Clean(a + u) == Clean(a)
  {
    WordsOfSpace(u);
    WordsAppend(a, u);
    assert Words(a) + [] == Words(a);
  }

  /** MatchEnd for a line feed that starts a whitespace run whose last line feed is at l. */
  lemma MatchEndAtRun(s: string, f: nat, l: nat, n: nat)
    requires f < l < n <= |s|
    requires s[f] == '\n' && s[l] == '\n'
    requires forall k :: f <= k < n ==> IsSpace(s[k])
    requires forall k :: l < k < n ==> s[k] != '\n'
    requires n == |s| || !IsSpace(s[n])
    ensures MatchEnd(s, f) == Some(l + 1)
  {
    var e := RunEnd(s, f + 1);
    assert e == n;
    var r := LastNewline(s, f + 1, e);
    assert r.Some? && r.value == l;
  }

  // ---------------------------------------------------------------------
  // What split_into_paragraphs promises

  /** Every paragraph is non-empty, trimmed, and single-spaced. */
  lemma ParagraphsAreParagraphs(text: string)
    ensures forall k :: 0 <= k < |Paragraphs(text)| ==> IsParagraph(Paragraphs(text)[k])
  {
    CleanAllParagraphs(RegexSplit(text));
  }

  /**
   * Nothing is lost, duplicated or reordered: the paragraphs, joined by
   * single spaces, are the whole text collapsed.
   */
  lemma ParagraphsKeepWords(text: string)
    ensures Join(" ", Paragraphs(text)) == Clean(text)
  {
    JoinCleanAll(RegexSplit(text));
    SplitFromWords(text, 0, 0);
    assert text[0..] == text;
  }

  /** Empty or blank text yields no paragraph, and only such text does. */
  lemma BlankTextNoParagraphs(text: string)
    ensures Paragraphs(text) == [] <==> AllSpace(text)
  {
    ParagraphsKeepWords(text);
    ParagraphsAreParagraphs(text);
    JoinEmpty(" ", Paragraphs(text));
    CleanShape(text);
  }

  /** Without a whitespace run holding two line feeds, the text is one fragment. */
  lemma NoBreakOneParagraph(text: string)
    requires !HasBreak(text)
    ensures RegexSplit(text) == [text]
    ensures Paragraphs(text) == Kept(Clean(text))
    ensures |Paragraphs(text)| <= 1
  {
    forall k | 0 <= k < |text| ensures MatchEnd(text, k).None? {
      MatchEndSpec(text, k);
      assert forall j :: !BreakAt(text, k, j);
    }
    SplitFromNoMatch(text, 0, 0);
    assert text[0..] == text;
    assert RegexSplit(text) == [text];
    assert [text][..0] == [];
    assert CleanAll([text]) == CleanAll([]) + Kept(Clean(text));
  }

  /** Segmenting an output paragraph again gives exactly that paragraph. */
  lemma ResegmentParagraph(text: string, k: nat)
    requires k < |Paragraphs(text)|
    ensures Paragraphs(Paragraphs(text)[k]) == [Paragraphs(text)[k]]
  {
    var p := Paragraphs(text)[k];
    ParagraphsAreParagraphs(text);
    NormalizedHasNoNewline(p);
    assert !HasBreak(p);
    NoBreakOneParagraph(p);
  }

  /** Inside text that ends with a non-space character and has no break, nothing matches. */
  lemma NoMatchInText(a: string, t: string)
    requires a != [] && !IsSpace(a[|a| - 1]) && !HasBreak(a)
    ensures forall k :: 0 <= k < |a| ==> MatchEnd(a + t, k).None?
  {
    var s := a + t;
    forall k | 0 <= k < |a| ensures MatchEnd(s, k).None? {
      MatchEndSpec(s, k);
      forall j | BreakAt(s, k, j) ensures BreakAt(a, k, j) {
        assert j < |a| - 1 by {
          assert IsSpace(s[j]);
          assert s[|a| - 1] == a[|a| - 1];
        }
        forall m | k < m < j ensures IsSpace(a[m]) {
          assert s[m] == a[m];
        }
      }
    }
  }

  /** A whitespace run w with two line feeds, between p and b, as positions of p + w + b. */
  predicate BlankRun(w: string) {
    AllSpace(w) && exists i, j :: 0 <= i < j < |w| && w[i] == '\n' && w[j] == '\n'
  }

  /**
   * Scanning up to the end of a blank run: nothing cuts before its first line
   * feed f, and the match there ends after its last line feed l.
   */
  lemma CutAtRun(s: string, f: nat, l: nat, n: nat)
    requires f < l < n <= |s|
    requires forall k :: 0 <= k < f ==> MatchEnd(s, k).None?
    requires s[f] == '\n' && s[l] == '\n'
    requires forall k :: f <= k < n ==> IsSpace(s[k])
    requires forall k :: l < k < n ==> s[k] != '\n'
    requires n == |s| || !IsSpace(s[n])
    ensures RegexSplit(s) == [s[..f]] + SplitFrom(s, l + 1, l + 1)
  {
    MatchEndAtRun(s, f, l, n);
    CutAt(s, f, l + 1);
  }

  /** The first match, at f, ends the first fragment there. */
  lemma CutAt(s: string, f: nat, e: nat)
    requires f < |s| && MatchEnd(s, f) == Some(e)
    requires forall k :: 0 <= k < f ==> MatchEnd(s, k).None?
    ensures RegexSplit(s) == [s[..f]] + SplitFrom(s, e, e)
  {
    SplitFromSkip(s, 0, 0, f);
    SplitFromCut(s, 0, f, e);
    assert s[0..f] == s[..f];
  }

  lemma SplitFromCut(s: string, start: nat, i: nat, e: nat)
    requires start <= i < |s| && MatchEnd(s, i) == Some(e)
    ensures SplitFrom(s, start, i) == [s[start..i]] + SplitFrom(s, e, e)
  {
  }

  lemma SplitAtRun(p: string, w: string, b: string, f: nat, l: nat)
    requires BlankRun(w) && (b == [] || !IsSpace(b[0]))
    requires forall k :: 0 <= k < |p| ==> MatchEnd(p + w + b, k).None?
    requires FirstNewline(w, 0, |w|) == Some(f) && LastNewline(w, 0, |w|) == Some(l)
    ensures f < l
    ensures RegexSplit(p + w + b) == [p + w[..f]] + SplitFrom(p + w + b, |p| + l + 1, |p| + l + 1)
  {
    var s := p + w + b;
    RunLayout(p, w, b, f, l);
    NoMatchBeforeRun(p, w, b, f);
    CutAtRun(s, |p| + f, |p| + l, |p| + |w|);
    HeadSlice(p, w, b, f);
  }

  /** Where the run and its line feeds sit in p + w + b. */
  lemma RunLayout(p: string, w: string, b: string, f: nat, l: nat)
    requires BlankRun(w) && (b == [] || !IsSpace(b[0]))
    requires FirstNewline(w, 0, |w|) == Some(f) && LastNewline(w, 0, |w|) == Some(l)
    ensures var s, n := p + w + b, |p| + |w|;
      && f < l && n <= |s| && s[|p| + f] == '\n' && s[|p| + l] == '\n'
      && (forall k :: |p| + f <= k < n ==> IsSpace(s[k]))
      && (forall k :: |p| + l < k < n ==> s[k] != '\n')
      && (n == |s| || !IsSpace(s[n]))
  {
    var s := p + w + b;
    var n := |p| + |w|;
    var i0, j0 :| 0 <= i0 < j0 < |w| && w[i0] == '\n' && w[j0] == '\n';
    assert f <= i0 < j0 <= l;
    assert forall k :: 0 <= k < |w| ==> s[|p| + k] == w[k];
    assert n < |s| ==> s[n] == b[0];
    forall k | |p| + f <= k < n ensures IsSpace(s[k]) {
      assert s[k] == w[k - |p|];
    }
    forall k | |p| + l < k < n ensures s[k] != '\n' {
      assert s[k] == w[k - |p|];
    }
  }

  lemma HeadSlice(p: string, w: string, b: string, f: nat)
    requires f <= |w|
    ensures (p + w + b)[..|p| + f] == p + w[..f]
  {
  }

  /** Before the run's first line feed nothing matches: p has no match, and the run has no line feed yet. */
  lemma NoMatchBeforeRun(p: string, w: string, b: string, f: nat)
    requires forall k :: 0 <= k < |p| ==> MatchEnd(p + w + b, k).None?
    requires FirstNewline(w, 0, |w|) == Some(f)
    ensures forall k :: 0 <= k < |p| + f ==> MatchEnd(p + w + b, k).None?
  {
    var s := p + w + b;
    forall k | |p| <= k < |p| + f ensures MatchEnd(s, k).None? {
      assert s[k] == w[k - |p|];
    }
  }

  /** After the match: the rest of the run is glued in front of b's first fragment. */
  lemma SplitAfterRun(p: string, w: string, b: string, l: nat)
    requires l < |w| && NoNewline(w, l + 1, |w|)
    ensures var r := RegexSplit(b);
      r != [] && SplitFrom(p + w + b, |p| + l + 1, |p| + l + 1) == [w[l + 1..] + r[0]] + r[1..]
  {
    NoNewlineShift(p, w, l + 1);
    ScanRunTail(p, w, b, l);
  }

  lemma ScanRunTail(p: string, w: string, b: string, l: nat)
    requires l < |w| && NoNewline(p + w, |p| + l + 1, |p + w|)
    ensures var r := RegexSplit(b);
      r != [] && SplitFrom(p + w + b, |p| + l + 1, |p| + l + 1) == [w[l + 1..] + r[0]] + r[1..]
  {
    ScanTail(p + w, b, |p| + l + 1);
    TailSlice(p, w, l);
  }

  /** s[i..j] holds no line feed. */
  predicate NoNewline(s: string, i: nat, j: nat)
    requires i <= j <= |s|
    decreases j - i
  {
    i == j || (s[i] != '\n' && NoNewline(s, i + 1, j))
  }

  lemma {:induction false} NoNewlineOf(s: string, i: nat, j: nat)
    requires i <= j <= |s|
    requires forall k :: i <= k < j ==> s[k] != '\n'
    ensures NoNewline(s, i, j)
    decreases j - i
  {
    if i < j {
      NoNewlineOf(s, i + 1, j);
    }
  }

  /** A stretch of w without line feeds is one of p + w too. */
  lemma {:induction false} NoNewlineShift(p: string, w: string, i: nat)
    requires i <= |w| && NoNewline(w, i, |w|)
    ensures NoNewline(p + w, |p| + i, |p + w|)
    decreases |w| - i
  {
    if i < |w| {
      assert (p + w)[|p| + i] == w[i];
      NoNewlineShift(p, w, i + 1);
    }
  }

  /** ... and of q + b, for a stretch of q. */
  lemma {:induction false} NoNewlineExtend(q: string, b: string, i: nat, j: nat)
    requires i <= j <= |q| && NoNewline(q, i, j)
    ensures NoNewline(q + b, i, j)
    decreases j - i
  {
    if i < j {
      assert (q + b)[i] == q[i];
      NoNewlineExtend(q, b, i + 1, j);
    }
  }

  /** Scanning q + b from a point of q after which q has no line feed: the rest of q is glued in front of b's first fragment. */
  lemma ScanTail(q: string, b: string, start: nat)
    requires start <= |q| && NoNewline(q, start, |q|)
    ensures var f := RegexSplit(b);
      f != [] && SplitFrom(q + b, start, start) == [q[start..] + f[0]] + f[1..]
  {
    SkipTail(q, b, start);
    ScanPrefix(q, b, start);
  }

  /** The scan passes over the end of q when it holds no line feed. */
  lemma SkipTail(q: string, b: string, start: nat)
    requires start <= |q| && NoNewline(q, start, |q|)
    ensures SplitFrom(q + b, start, start) == SplitFrom(q + b, start, |q|)
  {
    NoNewlineExtend(q, b, start, |q|);
    SkipFromStart(q + b, start, |q|);
  }

  lemma SkipFromStart(s: string, start: nat, j: nat)
    requires start <= j <= |s| && NoNewline(s, start, j)
    ensures SplitFrom(s, start, start) == SplitFrom(s, start, j)
  {
    SkipNoNewline(s, start, start, j);
  }

  /** No match starts at a character other than a line feed: the scan passes over such positions. */
  lemma {:induction false} SkipNoNewline(s: string, start: nat, i: nat, j: nat)
    requires start <= i <= j <= |s| && NoNewline(s, i, j)
    ensures SplitFrom(s, start, i) == SplitFrom(s, start, j)
    decreases j - i
  {
    if i < j {
      SkipNoNewline(s, start, i + 1, j);
    }
  }

  lemma TailSlice(p: string, w: string, l: nat)
    requires l < |w|
    ensures (p + w)[|p| + l + 1..] == w[l + 1..]
  {
  }

  /** Scanning p + b from the end of p, with a fragment that started in p: p's rest is glued in front of b's first fragment. */
  lemma ScanPrefix(p: string, b: string, start: nat)
    requires start <= |p|
    ensures var f := RegexSplit(b);
      f != [] && SplitFrom(p + b, start, |p|) == [p[start..] + f[0]] + f[1..]
  {
    SplitFromPrefix(p, b, start, 0);
    assert |p| + 0 == |p|;
  }

  /**
   * A blank line separates paragraphs: text without a break, then a
   * whitespace run holding two or more line feeds, then the rest, gives the
   * first text's collapse followed by the paragraphs of the rest.
   */
  lemma ParagraphBreakSplits(a: string, w: string, b: string)
    requires a != [] && !IsSpace(a[|a| - 1]) && !HasBreak(a)
    requires BlankRun(w)
    requires b == [] || !IsSpace(b[0])
    ensures Paragraphs(a + w + b) == [Clean(a)] + Paragraphs(b)
  {
    var v, u := BreakFragments(a, w, b);
    var r := RegexSplit(b);
    var t := [u + r[0]] + r[1..];
    CleanAllHead(a + v, t);
    CleanTrailingSpace(a, v);
    CleanAllLeadingSpace(u, r);
    CleanShape(a);
    assert Kept(Clean(a)) == [Clean(a)];
  }

  /**
   * A text that opens with a blank run: re.split yields the run's head as an
   * empty-after-cleaning first fragment and glues the run's tail to b, so
   * the paragraphs are b's alone ("\n\nfoo" gives ["foo"]).
   */
  lemma LeadingRunDropped(w: string, b: string)
    requires BlankRun(w)
    requires b == [] || !IsSpace(b[0])
    ensures Paragraphs(w + b) == Paragraphs(b)
  {
    var v, u := LeadingFragments(w, b);
    var r := RegexSplit(b);
    CleanAllHead(v, [u + r[0]] + r[1..]);
    CleanShape(v);
    CleanAllLeadingSpace(u, r);
  }

  /** The fragments of a text opening with a blank run: the run's head, then its tail glued to b's first fragment. */
  lemma LeadingFragments(w: string, b: string) returns (v: string, u: string)
    requires BlankRun(w)
    requires b == [] || !IsSpace(b[0])
    ensures AllSpace(v) && AllSpace(u) && RegexSplit(b) != []
    ensures RegexSplit(w + b) == [v] + ([u + RegexSplit(b)[0]] + RegexSplit(b)[1..])
  {
    var e: string := [];
    var f := FirstNewline(w, 0, |w|).value;
    var l := LastNewline(w, 0, |w|).value;
    assert e + w + b == w + b;
    SplitAtRun(e, w, b, f, l);
    u, v := w[l + 1..], w[..f];
    SpaceSlice(w, l + 1, |w|);
    SpaceSlice(w, 0, f);
    assert w[l + 1..|w|] == u && w[0..f] == v;
    NoNewlineOf(w, l + 1, |w|);
    SplitAfterRun(e, w, b, l);
    var tail := SplitFrom(e + w + b, l + 1, l + 1);
    assert e + v == v;
    assert RegexSplit(e + w + b) == [v] + tail;
    assert tail == [u + RegexSplit(b)[0]] + RegexSplit(b)[1..];
  }

  /** A slice of whitespace is whitespace. */
  lemma SpaceSlice(w: string, i: nat, j: nat)
    requires AllSpace(w) && i <= j <= |w|
    ensures AllSpace(w[i..j])
  {
    forall k | 0 <= k < j - i ensures IsSpace(w[i..j][k]) {
      assert w[i..j][k] == w[i + k];
    }
  }

  /** The fragments around the run: a with the run's head, then the run's tail glued to b's first fragment. */
  lemma BreakFragments(a: string, w: string, b: string) returns (v: string, u: string)
    requires a != [] && !IsSpace(a[|a| - 1]) && !HasBreak(a)
    requires BlankRun(w)
    requires b == [] || !IsSpace(b[0])
    ensures AllSpace(v) && AllSpace(u) && RegexSplit(b) != []
    ensures RegexSplit(a + w + b) == [a + v] + ([u + RegexSplit(b)[0]] + RegexSplit(b)[1..])
  {
    var s := a + w + b;
    var f := FirstNewline(w, 0, |w|).value;
    var l := LastNewline(w, 0, |w|).value;
    NoMatchInText(a, w + b);
    assert s == a + (w + b);
    SplitAtRun(a, w, b, f, l);
    u, v := w[l + 1..], w[..f];
    assert AllSpace(u) && AllSpace(v) by {
      assert forall k :: 0 <= k < |u| ==> u[k] == w[l + 1 + k];
      assert forall k :: 0 <= k < |v| ==> v[k] == w[k];
    }
    NoNewlineOf(w, l + 1, |w|);
    SplitAfterRun(a, w, b, l);
  }

  lemma CleanAroundSpace(x: string, g: string, y: string)
    requires x != [] && NoSpace(x) && y != [] && NoSpace(y) && g != [] && AllSpace(g)
    ensures Clean(x + g + y) == x + " " + y
  {
    WordsAroundSpace(x, g, y);
    WordsOfWord(x);
    WordsOfWord(y);
    assert Words(x + g + y) == [x] + [y] == [x, y];
    assert [x, y][1..] == [y];
    assert Join(" ", [x, y]) == x + " " + Join(" ", [y]);
  }

  /** "Hello   world\n\nFoo\tbar" gives the two paragraphs "Hello world" and "Foo bar" (an example). */
  lemma ExampleTwoParagraphs(text: string)
    requires text == "Hello   world\n\nFoo\tbar"
    ensures Paragraphs(text) == ["Hello world", "Foo bar"]
  {
    var a, w, b := "Hello   world", "\n\n", "Foo\tbar";
    assert text == a + w + b;
    ExampleLayout(a, w, b);
    ParagraphBreakSplits(a, w, b);
    ExampleFirstClean(a);
    ExampleOneParagraph(b);
  }

  lemma ExampleLayout(a: string, w: string, b: string)
    requires a == "Hello   world" && w == "\n\n" && b == "Foo\tbar"
    ensures a != [] && !IsSpace(a[|a| - 1]) && !HasBreak(a)
    ensures BlankRun(w) && (b == [] || !IsSpace(b[0]))
  {
    assert !HasBreak(a) by {
      assert forall i :: 0 <= i < |a| ==> a[i] != '\n';
    }
    assert BlankRun(w) by {
      assert w[0] == '\n' && w[1] == '\n';
    }
  }

  lemma ExampleFirstClean(a: string)
    requires a == "Hello   world"
    ensures Clean(a) == "Hello world"
  {
    ExampleClean(a, "Hello", "   ", "world");
    assert "Hello" + " " + "world" == "Hello world";
  }

  lemma ExampleOneParagraph(b: string)
    requires b == "Foo\tbar"
    ensures Paragraphs(b) == ["Foo bar"]
  {
    assert !HasBreak(b) by {
      assert forall i :: 0 <= i < |b| ==> b[i] != '\n';
    }
    NoBreakOneParagraph(b);
    ExampleClean(b, "Foo", "\t", "bar");
    assert "Foo" + " " + "bar" == "Foo bar";
    assert Kept("Foo bar") == ["Foo bar"];
  }

  lemma ExampleClean(t: string, x: string, g: string, y: string)
    requires t == x + g + y
    requires x != [] && NoSpace(x) && y != [] && NoSpace(y) && g != [] && AllSpace(g)
    ensures Clean(t) == x + " " + y
  {
    CleanAroundSpace(x, g, y);
  }
}
