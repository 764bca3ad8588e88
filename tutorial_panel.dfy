/** The two pieces of logic in website/src/components/TutorialPanel.tsx: the
    set of expanded section indices with its toggle, and `renderContent`,
    which splits tutorial text on `**bold**` runs and renders those runs in
    bold. */
module TutorialPanel {
  import opened Types

  /** The characters `.` does not match in a JavaScript regular expression. */
  predicate IsLineTerminator(c: char)
  {
    c == '\n' || c == '\r' || c == '\U{2028}' || c == '\U{2029}'
  }

  predicate StarPairAt(s: string, j: nat)
    requires j + 2 <= |s|
  {
    s[j] == '*' && s[j + 1] == '*'
  }

  /** The lazy `.*?\*\*` tail, started at k, can stop at c: a `**` sits at c,
      and every character from k up to c is matched by `.` without a `**`
      starting before c. */
  predicate ClosesAt(s: string, k: nat, c: nat)
    requires k <= c && c + 2 <= |s|
  {
    StarPairAt(s, c) &&
    forall j :: k <= j < c ==> !IsLineTerminator(s[j]) && !StarPairAt(s, j)
  }

  /** A run the regular expression `\*\*.*?\*\*` matches as a whole: it
      opens with `**`, and its first later `**` is the one that closes it. */
  predicate IsBoldRun(t: string)
  {
    4 <= |t| && StarPairAt(t, 0) && ClosesAt(t, 2, |t| - 2)
  }

  /** The lazy search for the closing `**` from k: the only place it can stop. */
  function CloseFrom(s: string, k: nat): (r: Option<nat>)
    requires k <= |s|
    ensures r.Some? ==> k <= r.value && r.value + 2 <= |s|
    ensures forall c :: k <= c && c + 2 <= |s| ==> (r == Some(c) <==> ClosesAt(s, k, c))
    decreases |s| - k
  {
    if |s| < k + 2 then None
    else if StarPairAt(s, k) then Some(k)
    else if IsLineTerminator(s[k]) then None
    else CloseFrom(s, k + 1)
  }

  /** Reading s[q..e] and s from q denote the same characters. */
  lemma ShiftedRun(s: string, q: nat, e: nat)
    requires q + 4 <= e <= |s|
    ensures IsBoldRun(s[q..e]) <==> StarPairAt(s, q) && ClosesAt(s, q + 2, e - 2)
  {
    var t := s[q..e];
    assert forall j :: 0 <= j < |t| ==> t[j] == s[q + j];
    if IsBoldRun(t) {
      forall j | q + 2 <= j < e - 2 ensures !IsLineTerminator(s[j]) && !StarPairAt(s, j) {
        assert s[j] == t[j - q] && s[j + 1] == t[j - q + 1];
      }
    }
    if StarPairAt(s, q) && ClosesAt(s, q + 2, e - 2) {
      forall j | 2 <= j < |t| - 2 ensures !IsLineTerminator(t[j]) && !StarPairAt(t, j) {
        assert t[j] == s[q + j] && t[j + 1] == s[q + j + 1];
      }
    }
  }

  /** One attempt of the regular expression at position q: the end of the
      match, if one starts there. */
  function MatchAt(s: string, q: nat): (r: Option<nat>)
    requires q <= |s|
    ensures r.Some? ==> q + 4 <= r.value <= |s|
  {
    if q + 2 <= |s| && StarPairAt(s, q) then
      match CloseFrom(s, q + 2)
      case None => None
      case Some(c) => Some(c + 2)
    else None
  }

  /** The match at q ends at e exactly when s[q..e] is a bold run. */
  lemma MatchAtBoldRun(s: string, q: nat)
    requires q <= |s|
    ensures forall e :: q + 4 <= e <= |s| ==> (MatchAt(s, q) == Some(e) <==> IsBoldRun(s[q..e]))
  {
    forall e | q + 4 <= e <= |s| ensures MatchAt(s, q) == Some(e) <==> IsBoldRun(s[q..e]) {
      ShiftedRun(s, q, e);
    }
  }

  /** `String.prototype.split` with the capturing separator
      `/(\*\*.*?\*\*)/g`, from the last cut p and the search position q: the
      text before each match, then the match itself, and the rest last. */
  function SplitFrom(s: string, p: nat, q: nat): seq<string>
    requires p <= q <= |s|
    decreases |s| - q
  {
    if q == |s| then [s[p..]]
    else match MatchAt(s, q)
      case None => SplitFrom(s, p, q + 1)
      case Some(e) => [s[p..q], s[q..e]] + SplitFrom(s, e, e)
  }

  /** `content.split(/(\*\*.*?\*\*)/g)`. The separator never matches the
      empty string, so the empty content splits into one empty part. */
  function Split(content: string): seq<string>
  {
    SplitFrom(content, 0, 0)
  }

  function Concat(parts: seq<string>): string
  {
    if |parts| == 0 then "" else parts[0] + Concat(parts[1..])
  }

  /** Splitting loses nothing: the parts, in order, spell the rest of the
      text from the last cut. */
  lemma {:induction false} SplitFromConcat(s: string, p: nat, q: nat)
    requires p <= q <= |s|
    ensures Concat(SplitFrom(s, p, q)) == s[p..]
    decreases |s| - q
  {
    if q == |s| {
      assert Concat([s[p..]]) == s[p..] + Concat([]);
    } else {
      match MatchAt(s, q)
      case None =>
        SplitFromConcat(s, p, q + 1);
      case Some(e) =>
        SplitFromConcat(s, e, e);
        var rest := SplitFrom(s, e, e);
        var parts := [s[p..q], s[q..e]] + rest;
        assert parts[1..] == [s[q..e]] + rest;
        assert ([s[q..e]] + rest)[1..] == rest;
        calc {
          Concat(parts);
          s[p..q] + (s[q..e] + Concat(rest));
          s[p..q] + (s[q..e] + s[e..]);
          { assert s[q..e] + s[e..] == s[q..]; }
          s[p..q] + s[q..];
          s[p..];
        }
    }
  }

  /** The parts alternate: an odd number of them, with a bold run at every
      odd position. */
  lemma {:induction false} SplitFromAlternates(s: string, p: nat, q: nat)
    requires p <= q <= |s|
    ensures |SplitFrom(s, p, q)| % 2 == 1
    ensures forall k :: 0 <= k < |SplitFrom(s, p, q)| && k % 2 == 1 ==> IsBoldRun(SplitFrom(s, p, q)[k])
    decreases |s| - q
  {
    if q < |s| {
      match MatchAt(s, q)
      case None =>
        SplitFromAlternates(s, p, q + 1);
      case Some(e) =>
        SplitFromAlternates(s, e, e);
        MatchAtBoldRun(s, q);
        var rest := SplitFrom(s, e, e);
        var parts := [s[p..q], s[q..e]] + rest;
        forall k | 0 <= k < |parts| && k % 2 == 1 ensures IsBoldRun(parts[k]) {
          if k >= 2 {
            assert parts[k] == rest[k - 2];
          }
        }
    }
  }

  /** MatchAt only looks forward: at q + i it finds what it finds at i in
      the text from q on, shifted by q. */
  lemma MatchAtSuffix(s: string, q: nat, i: nat)
    requires q + i <= |s|
    ensures MatchAt(s, q + i).None? <==> MatchAt(s[q..], i).None?
    ensures MatchAt(s, q + i).Some? ==> MatchAt(s[q..], i) == Some(MatchAt(s, q + i).value - q)
  {
    if MatchAt(s, q + i).Some? {
      MatchIntoSuffix(s, q, i, MatchAt(s, q + i).value);
    } else if MatchAt(s[q..], i).Some? {
      MatchFromSuffix(s, q, i, MatchAt(s[q..], i).value);
    }
  }

  lemma MatchIntoSuffix(s: string, q: nat, i: nat, e: nat)
    requires q + i <= |s| && MatchAt(s, q + i) == Some(e)
    ensures MatchAt(s[q..], i) == Some(e - q)
  {
    assert s[q..][i..e - q] == s[q + i..e];
    MatchAtBoldRun(s, q + i);
    MatchAtBoldRun(s[q..], i);
  }

  lemma MatchFromSuffix(s: string, q: nat, i: nat, e: nat)
    requires q + i <= |s| && MatchAt(s[q..], i) == Some(e)
    ensures MatchAt(s, q + i) == Some(q + e)
  {
    assert s[q..][i..e] == s[q + i..q + e];
    MatchAtBoldRun(s, q + i);
    MatchAtBoldRun(s[q..], i);
  }

  /** The cut rule for one part, judged against the text from its own
      start: a bold part is exactly the match found at its start, and no
      match starts anywhere inside a plain part. */
  predicate CutRule(part: string, rest: string, bold: bool)
  {
    |part| <= |rest| &&
    if bold then MatchAt(rest, 0) == Some(|part|)
    else forall i :: 0 <= i < |part| ==> MatchAt(rest, i).None?
  }

  /** The parts are plain and bold in turn, starting and ending with a
      plain one, and each follows the cut rule against the text from its
      own start. */
  predicate CutsAtEveryRun(parts: seq<string>)
    decreases |parts|
  {
    0 < |parts| && CutRule(parts[0], Concat(parts), false) &&
    (|parts| == 1 ||
     (2 < |parts| && CutRule(parts[1], Concat(parts[1..]), true) && CutsAtEveryRun(parts[2..])))
  }

  /** The cut rule of a plain part, a bold part and the parts after them. */
  lemma CutsCons(a: string, b: string, rest: seq<string>)
    ensures CutsAtEveryRun([a, b] + rest) <==>
      CutRule(a, a + (b + Concat(rest)), false) && CutRule(b, b + Concat(rest), true) &&
      CutsAtEveryRun(rest)
  {
    var parts := [a, b] + rest;
    assert parts[1..] == [b] + rest && parts[2..] == rest;
    ConcatCons(a, b, rest);
    assert Concat(parts[1..]) == b + Concat(rest);
  }

  lemma ConcatCons(a: string, b: string, rest: seq<string>)
    ensures Concat([a, b] + rest) == a + (b + Concat(rest))
  {
    var parts := [a, b] + rest;
    assert parts[1..] == [b] + rest && parts[1..][1..] == rest;
  }

  /** One part alone follows the cut rule when no match starts inside it. */
  lemma CutsSingle(a: string)
    ensures CutsAtEveryRun([a]) <==> forall i :: 0 <= i < |a| ==> MatchAt(a, i).None?
  {
    assert [a][0..] == [a] && [a][1..] == [];
    assert Concat([a]) == a + Concat([]) == a;
  }

  /** No match starts at any position of s from p up to q: then none starts
      inside s[p..q] when read from p on. */
  lemma PlainPrefix(s: string, p: nat, q: nat)
    requires p <= q <= |s|
    requires forall i :: p <= i < q ==> MatchAt(s, i).None?
    ensures forall i :: 0 <= i < q - p ==> MatchAt(s[p..], i).None?
  {
    forall i | 0 <= i < q - p ensures MatchAt(s[p..], i).None? {
      MatchAtSuffix(s, p, i);
    }
  }

  /** The split cuts at every match and nowhere else: each bold part is the
      match at its start, and no match starts inside a plain part. */
  lemma {:induction false} SplitFromCuts(s: string, p: nat, q: nat)
    requires p <= q <= |s|
    requires forall i :: p <= i < q ==> MatchAt(s, i).None?
    ensures CutsAtEveryRun(SplitFrom(s, p, q))
    decreases |s| - q
  {
    if q == |s| {
      PlainPrefix(s, p, q);
      CutsSingle(s[p..]);
    } else {
      match MatchAt(s, q)
      case None =>
        SplitFromCuts(s, p, q + 1);
      case Some(e) =>
        SplitFromCuts(s, e, e);
        SplitFromConcat(s, e, e);
        CutsAfterMatch(s, p, q, e, SplitFrom(s, e, e));
    }
  }

  /** A plain stretch from p to q, the match from q to e and parts that
      spell the rest and follow the cut rule, together follow it too. */
  lemma CutsAfterMatch(s: string, p: nat, q: nat, e: nat, rest: seq<string>)
    requires p <= q <= e <= |s|
    requires forall i :: p <= i < q ==> MatchAt(s, i).None?
    requires MatchAt(s, q) == Some(e)
    requires Concat(rest) == s[e..] && CutsAtEveryRun(rest)
    ensures CutsAtEveryRun([s[p..q], s[q..e]] + rest)
  {
    PlainPrefix(s, p, q);
    MatchAtSuffix(s, q, 0);
    assert s[q..e] + s[e..] == s[q..];
    assert s[p..q] + s[q..] == s[p..];
    CutsCons(s[p..q], s[q..e], rest);
  }

  /** Where the first part of parts that cut at every run ends, in the text
      they spell: no match starts inside it, and either it is the whole text
      or the match at its end is the second part and the rest follows. */
  lemma FirstCut(parts: seq<string>)
    requires CutsAtEveryRun(parts)
    ensures |parts[0]| <= |Concat(parts)| && parts[0] == Concat(parts)[..|parts[0]|]
    ensures forall i :: 0 <= i < |parts[0]| ==> MatchAt(Concat(parts), i).None?
    ensures |parts| == 1 ==> |parts[0]| == |Concat(parts)|
    ensures 1 < |parts| ==>
      var t, n := Concat(parts), |parts[0]|;
      n + |parts[1]| <= |t| && MatchAt(t, n) == Some(n + |parts[1]|) &&
      parts[1] == t[n..n + |parts[1]|] && Concat(parts[2..]) == t[n + |parts[1]|..]
  {
    var t, n := Concat(parts), |parts[0]|;
    assert t == parts[0] + Concat(parts[1..]);
    assert t[..n] == parts[0] && t[n..] == Concat(parts[1..]);
    if |parts| == 1 {
      assert parts[1..] == [];
    } else {
      var more := parts[2..];
      assert parts[1..][1..] == more;
      assert Concat(parts[1..]) == parts[1] + Concat(more);
      assert t[n..][..|parts[1]|] == parts[1] && t[n..][|parts[1]|..] == Concat(more);
      assert t[n..][..|parts[1]|] == t[n..n + |parts[1]|];
      MatchFromSuffix(t, n, 0, |parts[1]|);
    }
  }

  /** The cut rule leaves no choice: two sequences of parts that spell the
      same text and cut at every run are the same. */
  lemma {:induction false} CutsUnique(x: seq<string>, y: seq<string>)
    requires Concat(x) == Concat(y) && CutsAtEveryRun(x) && CutsAtEveryRun(y)
    ensures x == y
    decreases |x|
  {
    SameFirstCut(x, y);
    if 1 < |x| {
      CutsUnique(x[2..], y[2..]);
      assert x == [x[0], x[1]] + x[2..] && y == [y[0], y[1]] + y[2..];
    }
  }

  /** Two such sequences agree on their first part, on whether it is the
      only one, and otherwise on the second part and the text after it. */
  lemma SameFirstCut(x: seq<string>, y: seq<string>)
    requires Concat(x) == Concat(y) && CutsAtEveryRun(x) && CutsAtEveryRun(y)
    ensures x[0] == y[0] && (|x| == 1 <==> |y| == 1)
    ensures |x| == 1 ==> x == y
    ensures 1 < |x| ==> x[1] == y[1] && Concat(x[2..]) == Concat(y[2..])
  {
    FirstCut(x);
    FirstCut(y);
    assert |x[0]| == |y[0]|;
    if |x| == 1 {
      assert |y| == 1;
    } else {
      assert |x[1]| == |y[1]|;
    }
  }

  /** `content.split` is characterised by the cut rule: the split is the
      one sequence of parts that spells the content and cuts at every run. */
  lemma SplitCharacterized(content: string, parts: seq<string>)
    ensures parts == Split(content) <==> Concat(parts) == content && CutsAtEveryRun(parts)
  {
    SplitFromConcat(content, 0, 0);
    SplitFromCuts(content, 0, 0);
    if Concat(parts) == content && CutsAtEveryRun(parts) {
      CutsUnique(parts, Split(content));
    }
  }

  /** An example: the run in the middle of `x**a**y` is cut out. */
  lemma SplitsAroundRun()
    ensures Split("x**a**y") == ["x", "**a**", "y"]
  {
    var s := "x**a**y";
    assert MatchAt(s, 0) == None;
    assert CloseFrom(s, 3) == CloseFrom(s, 4) == Some(4);
    assert MatchAt(s, 1) == Some(6);
    assert MatchAt(s, 6) == None;
    assert SplitFrom(s, 6, 6) == SplitFrom(s, 6, 7) == ["y"];
    assert s[0..1] == "x" && s[1..6] == "**a**";
    assert SplitFrom(s, 0, 1) == ["x", "**a**"] + SplitFrom(s, 6, 6);
  }

  /** The rendered form of one part: text, or a bold element. */
  datatype Node = Plain(text: string) | Bold(text: string)

  /** An index argument of `String.prototype.slice` on a string of length
      len: a negative k counts back from the end, and the result is clamped
      to [0, len]. */
  function RelativeIndex(k: int, len: nat): (r: nat)
    ensures r <= len
    ensures 0 <= k <= len ==> r == k
    ensures k < 0 && 0 <= len + k ==> r == len + k
    ensures len < k ==> r == len
    ensures len + k < 0 ==> r == 0
  {
    if k < 0 then (if len + k < 0 then 0 else len + k)
    else if k < len then k else len
  }

  /** `s.slice(start, end)`: the characters from the relative start up to
      the relative end, or nothing when the end is not past the start. */
  function JsSlice(s: string, start: int, end: int): string
  {
    var from, to := RelativeIndex(start, |s|), RelativeIndex(end, |s|);
    if from < to then s[from..to] else ""
  }

  /** `part.slice(2, -2)`: the part without its first two and last two
      characters, and empty when fewer than five characters remain. */
  function Slice(part: string): (r: string)
    ensures r == JsSlice(part, 2, -2)
    ensures |r| == if |part| <= 4 then 0 else |part| - 4
    ensures 4 <= |part| ==> part == part[..2] + r + part[|part| - 2..]
  {
    if 4 < |part| then part[2..|part| - 2] else ""
  }

  predicate StartsAndEndsWithStars(part: string)
  {
    2 <= |part| && StarPairAt(part, 0) && StarPairAt(part, |part| - 2)
  }

  /** The callback of `parts.map`: bold without the outer `**` when the part
      starts and ends with `**`, the part itself otherwise. */
  function RenderPart(part: string): Node
  {
    if StartsAndEndsWithStars(part) then Bold(Slice(part)) else Plain(part)
  }

  /** `renderContent(content)`: the rendered parts, in order. */
  function RenderContent(content: string): (nodes: seq<Node>)
    ensures |nodes| == |Split(content)|
  {
    var parts := Split(content);
    seq(|parts|, (k: int) requires 0 <= k < |parts| => RenderPart(parts[k]))
  }

  /** The markup a node stands for. */
  function Markup(n: Node): string
  {
    match n
    case Plain(t) => t
    case Bold(t) => "**" + t + "**"
  }

  /** A bold run renders as bold text that gives the run back when the `**`
      are put around it again; a part without a leading `**` renders as
      itself. */
  lemma RenderPartFaithful(part: string)
    ensures IsBoldRun(part) ==> RenderPart(part).Bold? && Markup(RenderPart(part)) == part
    ensures (|part| < 2 || !StarPairAt(part, 0)) ==> RenderPart(part) == Plain(part)
  {
    if IsBoldRun(part) {
      var inner := part[2..|part| - 2];
      assert ("**" + inner + "**") == part;
    }
  }

  /** What `renderContent` shows: an odd number of nodes, and every odd
      part is a bold run displayed in bold whose markup is that part. */
  lemma RenderContentShape(content: string)
    ensures |RenderContent(content)| % 2 == 1
    ensures forall k :: 0 <= k < |RenderContent(content)| && k % 2 == 1 ==>
      RenderContent(content)[k].Bold? &&
      Markup(RenderContent(content)[k]) == Split(content)[k]
  {
    SplitFromAlternates(content, 0, 0);
    var parts := Split(content);
    forall k | 0 <= k < |parts| && k % 2 == 1
      ensures RenderPart(parts[k]).Bold? && Markup(RenderPart(parts[k])) == parts[k]
    {
      RenderPartFaithful(parts[k]);
    }
  }

  /** The markup of a sequence of nodes, in order. */
  function Unrender(nodes: seq<Node>): string
  {
    if |nodes| == 0 then "" else Markup(nodes[0]) + Unrender(nodes[1..])
  }

  lemma {:induction false} UnrenderParts(parts: seq<string>, nodes: seq<Node>)
    requires |nodes| == |parts|
    requires forall k :: 0 <= k < |parts| ==> Markup(nodes[k]) == parts[k]
    ensures Unrender(nodes) == Concat(parts)
  {
    if |parts| > 0 {
      UnrenderParts(parts[1..], nodes[1..]);
    }
  }

  /** Rendering loses nothing unless a plain part happens to start and end
      with `**`: then the markup of the nodes spells the content again. */
  lemma RenderRoundTrip(content: string)
    requires forall k :: 0 <= k < |Split(content)| && k % 2 == 0 ==>
      !StartsAndEndsWithStars(Split(content)[k])
    ensures Unrender(RenderContent(content)) == content
  {
    var parts, nodes := Split(content), RenderContent(content);
    SplitFromAlternates(content, 0, 0);
    forall k | 0 <= k < |parts| ensures Markup(nodes[k]) == parts[k] {
      RenderPartFaithful(parts[k]);
    }
    UnrenderParts(parts, nodes);
    SplitConcat(content);
  }

  /** Concatenating the parts renders the whole content. */
  lemma SplitConcat(content: string)
    ensures Concat(Split(content)) == content
  {
    SplitFromConcat(content, 0, 0);
  }

  /** Text with no bold run anywhere is not split. */
  lemma {:induction false} NoRunNoSplit(s: string, p: nat, q: nat)
    requires p <= q <= |s|
    requires forall i, e :: q <= i && i + 4 <= e <= |s| ==> !IsBoldRun(s[i..e])
    ensures SplitFrom(s, p, q) == [s[p..]]
    decreases |s| - q
  {
    if q < |s| {
      MatchAtBoldRun(s, q);
      assert MatchAt(s, q).None?;
      NoRunNoSplit(s, p, q + 1);
    }
  }

  /** A leftover `**` or `***` is not a match, yet it starts and ends with
      `**`, so it is rendered as an empty bold element. */
  lemma StrayStarsRenderEmptyBold()
    ensures RenderContent("**") == [Bold("")]
    ensures RenderContent("***") == [Bold("")]
  {
    NoRunNoSplit("**", 0, 0);
    NoRunNoSplit("***", 0, 0);
  }

  /** The toggle on a set of section indices: index flips, nothing else
      changes. */
  function Toggled(sections: set<int>, index: int): (r: set<int>)
    ensures index in r <==> index !in sections
    ensures forall j :: j != index ==> (j in r <==> j in sections)
  {
    if index in sections then sections - {index} else sections + {index}
  }

  /** Toggling one index twice restores the set, and toggles of different
      indices commute. */
  lemma ToggleLaws(sections: set<int>, i: int, j: int)
    ensures Toggled(Toggled(sections, i), i) == sections
    ensures Toggled(Toggled(sections, i), j) == Toggled(Toggled(sections, j), i)
  {
    var twice := Toggled(Toggled(sections, i), i);
    forall x ensures x in twice <==> x in sections {
    }
    var ij, ji := Toggled(Toggled(sections, i), j), Toggled(Toggled(sections, j), i);
    forall x ensures x in ij <==> x in ji {
    }
  }

  class TutorialPanelState {
    var expandedSections: set<int>

    /** Only the first section starts expanded. */
    constructor()
      ensures expandedSections == {0}
    {
      expandedSections := {0};
    }

    /** `toggleSection(index)`: copy the set, delete or add index on the
        copy, and install the copy. */
    method ToggleSection(index: int)
      modifies this
      ensures expandedSections == Toggled(old(expandedSections), index)
    {
      var newExpanded := expandedSections;
      if index in newExpanded {
        newExpanded := newExpanded - {index};
      } else {
        newExpanded := newExpanded + {index};
      }
      expandedSections := newExpanded;
    }
  }
}
