/**
 * The oversized-section splitter of the semantic chunker: the token
 * estimate, the paragraph split on blank-line runs, the overlap seed and the
 * greedy sliding window over paragraphs.
 *
 * The window is specified as a left fold (`Feed`, `FeedAll`) whose state is
 * the list of flushed windows, the open window and its running estimate;
 * `WindowGroupsShape` proves what the fold guarantees about the windows it
 * produces, and the method `SlidingWindow` is proved to compute the fold.
 */
module Window {
  import opened Text

  /** The paragraph separator used when a window is joined back into text. */
  const ParagraphBreak: string := "\n\n"

  /** `_estimate_tokens`: `max(1, len(text) // 4)`. */
  function EstimateTokens(t: string): (r: int)
    ensures r >= 1
    ensures |t| < 4 ==> r == 1
    ensures |t| >= 4 ==> 4 * r <= |t| < 4 * r + 4
  {
    if |t| / 4 > 1 then |t| / 4 else 1
  }

  /** Summed estimate of a list of paragraphs. */
  function TotalTokens(ps: seq<string>): (r: int)
    ensures r >= |ps|
  {
    if ps == [] then 0 else TotalTokens(ps[..|ps| - 1]) + EstimateTokens(ps[|ps| - 1])
  }

  /** Prepending a paragraph adds its estimate. */
  lemma {:induction false} TotalTokensCons(p: string, ps: seq<string>)
    ensures TotalTokens([p] + ps) == EstimateTokens(p) + TotalTokens(ps)
    decreases |ps|
  {
    if ps == [] {
      assert ([p] + ps)[..0] == [];
    } else {
      var init := ps[..|ps| - 1];
      assert ([p] + ps)[..|ps|] == [p] + init;
      TotalTokensCons(p, init);
    }
  }

  /** Appending a paragraph adds its estimate. */
  lemma TotalTokensSnoc(ps: seq<string>, p: string)
    ensures TotalTokens(ps + [p]) == TotalTokens(ps) + EstimateTokens(p)
  {
    assert (ps + [p])[..|ps|] == ps;
  }

  // ---------------------------------------------------------------------------
  // Paragraphs: `[p.strip() for p in re.split(r"\n\n+", text) if p.strip()]`
  // ---------------------------------------------------------------------------

  /** No two consecutive newlines, i.e. no blank-line separator inside. */
  predicate NoParagraphBreak(s: string) {
    forall i :: 0 <= i < |s| - 1 ==> !(s[i] == '\n' && s[i + 1] == '\n')
  }

  /** Drops the run of '\n' at the front of `s`. */
  function DropNewlines(s: string): (r: string)
    ensures |r| <= |s| && r == s[|s| - |r|..]
    ensures forall i :: 0 <= i < |s| - |r| ==> s[i] == '\n'
    ensures r == [] || r[0] != '\n'
  {
    if s != [] && s[0] == '\n' then DropNewlines(s[1..]) else s
  }

  /**
   * `re.split(r"\n\n+", s)`, with `cur` the part of the current piece already
   * read: every maximal run of two or more '\n' separates two pieces. A
   * piece never contains two consecutive newlines.
   */
  function SplitOnBlankLines(s: string, cur: string): (r: seq<string>)
    requires NoParagraphBreak(cur)
    requires cur != [] && cur[|cur| - 1] == '\n' ==> s == [] || s[0] != '\n'
    ensures |r| >= 1
    ensures forall k :: 0 <= k < |r| ==> NoParagraphBreak(r[k])
    decreases |s|
  {
    if s == [] then [cur]
    else if |s| >= 2 && s[0] == '\n' && s[1] == '\n' then [cur] + SplitOnBlankLines(DropNewlines(s), [])
    else SplitOnBlankLines(s[1..], cur + [s[0]])
  }

  /** Some piece has a non-space character. */
  predicate HasNonBlank(pieces: seq<string>) {
    exists k :: 0 <= k < |pieces| && !IsBlank(pieces[k])
  }

  /** Text with a non-space character yields a piece with a non-space character. */
  lemma {:induction false} SplitKeepsNonBlank(s: string, cur: string)
    requires NoParagraphBreak(cur)
    requires cur != [] && cur[|cur| - 1] == '\n' ==> s == [] || s[0] != '\n'
    requires !IsBlank(cur) || !IsBlank(s)
    ensures HasNonBlank(SplitOnBlankLines(s, cur))
    decreases |s|
  {
    if s == [] {
      assert SplitOnBlankLines(s, cur) == [cur];
      assert !IsBlank([cur][0]);
    } else if |s| >= 2 && s[0] == '\n' && s[1] == '\n' {
      var d := DropNewlines(s);
      var rest := SplitOnBlankLines(d, []);
      assert SplitOnBlankLines(s, cur) == [cur] + rest;
      if IsBlank(cur) {
        DropNewlinesKeepsNonBlank(s);
        SplitKeepsNonBlank(d, []);
      }
      HasNonBlankCons(cur, rest);
    } else {
      var cur' := cur + [s[0]];
      StepKeepsNonBlank(s, cur);
      assert SplitOnBlankLines(s, cur) == SplitOnBlankLines(s[1..], cur');
      SplitKeepsNonBlank(s[1..], cur');
    }
  }

  /** Dropping leading newlines keeps every non-space character. */
  lemma {:induction false} DropNewlinesKeepsNonBlank(s: string)
    requires !IsBlank(s)
    ensures !IsBlank(DropNewlines(s))
    decreases |s|
  {
    if s != [] && s[0] == '\n' {
      var i :| 0 <= i < |s| && !IsSpace(s[i]);
      assert i != 0;
      assert s[1..][i - 1] == s[i];
      DropNewlinesKeepsNonBlank(s[1..]);
    }
  }

  /** Moving one character from the text to the current piece keeps a non-space character in one of them. */
  lemma StepKeepsNonBlank(s: string, cur: string)
    requires s != []
    requires !IsBlank(cur) || !IsBlank(s)
    ensures !IsBlank(cur + [s[0]]) || !IsBlank(s[1..])
  {
    var cur' := cur + [s[0]];
    if !IsBlank(cur) {
      var i :| 0 <= i < |cur| && !IsSpace(cur[i]);
      assert cur'[i] == cur[i];
    } else if !IsSpace(s[0]) {
      assert cur'[|cur|] == s[0];
    } else {
      var i :| 0 <= i < |s| && !IsSpace(s[i]);
      assert s[1..][i - 1] == s[i];
    }
  }

  lemma HasNonBlankCons(p: string, rest: seq<string>)
    requires !IsBlank(p) || HasNonBlank(rest)
    ensures HasNonBlank([p] + rest)
  {
    if IsBlank(p) {
      var k :| 0 <= k < |rest| && !IsBlank(rest[k]);
      assert ([p] + rest)[k + 1] == rest[k];
    } else {
      assert ([p] + rest)[0] == p;
    }
  }

  /** Keeps the stripped form of every non-blank piece. */
  function StrippedNonBlank(pieces: seq<string>): (r: seq<string>)
    requires forall k :: 0 <= k < |pieces| ==> NoParagraphBreak(pieces[k])
    ensures forall k :: 0 <= k < |r| ==> IsParagraph(r[k])
    ensures (exists k :: 0 <= k < |pieces| && !IsBlank(pieces[k])) ==> r != []
  {
    if pieces == [] then []
    else
      var p := Strip(pieces[0]);
      assert NoParagraphBreak(p) by {
        var lead := LeadingSpace(pieces[0]);
        StripInfix(pieces[0]);
        assert NoParagraphBreak(pieces[0]);
        forall i | 0 <= i < |p| - 1
          ensures !(p[i] == '\n' && p[i + 1] == '\n')
        {
          assert lead + i + 1 < |pieces[0]|;
          assert p[i] == pieces[0][lead + i] && p[i + 1] == pieces[0][lead + i + 1];
        }
      }
      var rest := StrippedNonBlank(pieces[1..]);
      assert (exists k :: 0 <= k < |pieces| && !IsBlank(pieces[k])) ==> p != [] || (exists k :: 0 <= k < |pieces[1..]| && !IsBlank(pieces[1..][k])) by {
        if exists k :: 0 <= k < |pieces| && !IsBlank(pieces[k]) {
          var k :| 0 <= k < |pieces| && !IsBlank(pieces[k]);
          if k > 0 {
            assert pieces[1..][k - 1] == pieces[k];
          }
        }
      }
      if p != [] then [p] + rest else rest
  }

  /** A paragraph: non-empty, stripped, and free of blank-line separators. */
  predicate IsParagraph(p: string) {
    p != [] && !IsSpace(p[0]) && !IsSpace(p[|p| - 1]) && NoParagraphBreak(p)
  }

  /**
   * The paragraphs of `text`: every one is non-empty, stripped and contains
   * no blank line; a text with any non-space character has at least one.
   */
  function Paragraphs(text: string): (r: seq<string>)
    ensures forall k :: 0 <= k < |r| ==> IsParagraph(r[k])
    ensures !IsBlank(text) ==> r != []
  {
    var pieces := SplitOnBlankLines(text, []);
    assert !IsBlank(text) ==> HasNonBlank(pieces) by {
      if !IsBlank(text) {
        SplitKeepsNonBlank(text, []);
      }
    }
    StrippedNonBlank(pieces)
  }

  // ---------------------------------------------------------------------------
  // Overlap seed
  // ---------------------------------------------------------------------------

  /**
   * How many trailing paragraphs of a flushed window are carried into the
   * next one: walking back from the end, paragraphs are taken while their
   * summed estimate stays within `budget`, stopping at the first that does
   * not fit. The kept suffix fits, and one more paragraph would not.
   */
  function OverlapLength(window: seq<string>, budget: int): (k: nat)
    ensures k <= |window|
  {
    if window == [] then 0
    else
      var t := EstimateTokens(window[|window| - 1]);
      if t > budget then 0 else 1 + OverlapLength(window[..|window| - 1], budget - t)
  }

  /**
   * The overlap suffix fits within the budget, and the suffix one paragraph
   * longer does not: the walk stops at the first paragraph that does not fit.
   */
  lemma OverlapLengthFits(window: seq<string>, budget: int)
    ensures var k := OverlapLength(window, budget);
      && (k > 0 ==> TotalTokens(window[|window| - k..]) <= budget)
      && (k < |window| ==> TotalTokens(window[|window| - k - 1..]) > budget)
  {
    OverlapSuffixFits(window, budget);
    OverlapNextOverflows(window, budget);
  }

  /** The kept suffix fits within the budget. */
  lemma {:induction false} OverlapSuffixFits(window: seq<string>, budget: int)
    ensures OverlapLength(window, budget) > 0 ==>
      TotalTokens(window[|window| - OverlapLength(window, budget)..]) <= budget
  {
    if window != [] {
      var n := |window|;
      var last := window[n - 1];
      var t := EstimateTokens(last);
      if t <= budget {
        var init := window[..n - 1];
        var k' := OverlapLength(init, budget - t);
        assert OverlapLength(window, budget) == k' + 1;
        OverlapSuffixFits(init, budget - t);
        SuffixSnoc(window, k');
        TotalTokensSnoc(init[|init| - k'..], last);
      }
    }
  }

  /** The suffix one paragraph longer than the kept one exceeds the budget. */
  lemma {:induction false} OverlapNextOverflows(window: seq<string>, budget: int)
    ensures OverlapLength(window, budget) < |window| ==>
      TotalTokens(window[|window| - OverlapLength(window, budget) - 1..]) > budget
  {
    if window != [] {
      var n := |window|;
      var last := window[n - 1];
      var t := EstimateTokens(last);
      if t > budget {
        assert OverlapLength(window, budget) == 0;
        assert window[n - 1..] == [] + [last];
        TotalTokensSnoc([], last);
      } else {
        var init := window[..n - 1];
        var k' := OverlapLength(init, budget - t);
        assert OverlapLength(window, budget) == k' + 1;
        OverlapNextOverflows(init, budget - t);
        if k' < |init| {
          SuffixSnoc(window, k' + 1);
          TotalTokensSnoc(init[|init| - k' - 1..], last);
        }
      }
    }
  }

  /** A suffix of `window` one longer than a suffix of its front is that suffix plus the last element. */
  lemma SuffixSnoc(window: seq<string>, j: nat)
    requires j < |window|
    ensures window[|window| - j - 1..] == window[..|window| - 1][|window| - 1 - j..] + [window[|window| - 1]]
  {
  }

  /** The paragraphs that seed the next window: the overlap suffix, in original order. */
  function Seed(window: seq<string>, overlap: int): seq<string> {
    window[|window| - OverlapLength(window, overlap)..]
  }

  // ---------------------------------------------------------------------------
  // The window fold
  // ---------------------------------------------------------------------------

  /** State of `_sliding_window` between paragraphs. */
  datatype Progress = Progress(flushed: seq<seq<string>>, current: seq<string>, tokens: int)

  /** One iteration of the paragraph loop. */
  function Feed(st: Progress, para: string, size: int, overlap: int): Progress {
    var t := EstimateTokens(para);
    if st.tokens + t > size && st.current != [] then
      var seed := Seed(st.current, overlap);
      Progress(st.flushed + [st.current], seed + [para], TotalTokens(seed) + t)
    else
      Progress(st.flushed, st.current + [para], st.tokens + t)
  }

  /** The loop state after the given paragraphs. */
  function FeedAll(paras: seq<string>, size: int, overlap: int): Progress {
    if paras == [] then Progress([], [], 0)
    else Feed(FeedAll(paras[..|paras| - 1], size, overlap), paras[|paras| - 1], size, overlap)
  }

  /** Flushed windows followed by the open one if it is non-empty. */
  function Groups(st: Progress): seq<seq<string>> {
    if st.current != [] then st.flushed + [st.current] else st.flushed
  }

  /** The windows of a paragraph list, each as its list of paragraphs. */
  function WindowGroups(paras: seq<string>, size: int, overlap: int): seq<seq<string>> {
    Groups(FeedAll(paras, size, overlap))
  }

  /** Each window joined with blank lines. */
  function JoinEach(groups: seq<seq<string>>): (r: seq<string>)
    ensures |r| == |groups|
    ensures forall k :: 0 <= k < |r| ==> r[k] == Join(groups[k], ParagraphBreak)
  {
    seq(|groups|, k requires 0 <= k < |groups| => Join(groups[k], ParagraphBreak))
  }

  /** The loop state after one more paragraph. */
  lemma FeedAllSnoc(paras: seq<string>, i: nat, size: int, overlap: int)
    requires i < |paras|
    ensures FeedAll(paras[..i + 1], size, overlap) == Feed(FeedAll(paras[..i], size, overlap), paras[i], size, overlap)
  {
    assert paras[..i + 1][..i] == paras[..i];
  }

  /** Joining one more window appends its joined text. */
  lemma JoinEachSnoc(groups: seq<seq<string>>, g: seq<string>)
    ensures JoinEach(groups + [g]) == JoinEach(groups) + [Join(g, ParagraphBreak)]
  {
  }

  /** `_sliding_window(text)` as a function of the text. */
  function SlidingWindows(text: string, size: int, overlap: int): seq<string> {
    JoinEach(WindowGroups(Paragraphs(text), size, overlap))
  }

  // ---------------------------------------------------------------------------
  // What the fold guarantees
  // ---------------------------------------------------------------------------

  /** Number of leading paragraphs of window `k` carried over from window `k - 1`. */
  function SeedLen(G: seq<seq<string>>, k: nat, overlap: int): nat
    requires k < |G|
  {
    if k == 0 then 0 else OverlapLength(G[k - 1], overlap)
  }

  /** The paragraphs window `k` adds after its seed. */
  function FreshPart(G: seq<seq<string>>, k: nat, overlap: int): seq<string>
    requires k < |G|
  {
    var s := SeedLen(G, k, overlap);
    if s <= |G[k]| then G[k][s..] else []
  }

  /** The paragraphs of all windows with every seed left out. */
  function Fresh(G: seq<seq<string>>, overlap: int): seq<string> {
    if G == [] then [] else Fresh(G[..|G| - 1], overlap) + FreshPart(G, |G| - 1, overlap)
  }

  /** Every window holds at least one paragraph. */
  ghost predicate NonEmptyWindows(G: seq<seq<string>>) {
    forall k :: 0 <= k < |G| ==> G[k] != []
  }

  /** Every paragraph of every window is one of `P`. */
  ghost predicate DrawnFrom(G: seq<seq<string>>, P: seq<string>) {
    forall k, i :: 0 <= k < |G| && 0 <= i < |G[k]| ==> G[k][i] in P
  }

  /** Window `k` starts with the overlap seed of window `k - 1` and adds a paragraph. */
  ghost predicate ChainedAt(G: seq<seq<string>>, k: nat, overlap: int)
    requires 0 < k < |G|
  {
    SeedLen(G, k, overlap) < |G[k]| && G[k][..SeedLen(G, k, overlap)] == Seed(G[k - 1], overlap)
  }

  /** Every window after the first starts with the overlap seed of the one before and adds a paragraph. */
  ghost predicate Chained(G: seq<seq<string>>, overlap: int) {
    forall k :: 0 < k < |G| ==> ChainedAt(G, k, overlap)
  }

  /** Window `k - 1` was flushed only because window `k`'s first fresh paragraph would have pushed it above `size`. */
  ghost predicate FlushedAt(G: seq<seq<string>>, k: nat, size: int, overlap: int)
    requires 0 < k < |G|
  {
    SeedLen(G, k, overlap) < |G[k]| ==> TotalTokens(G[k - 1]) + EstimateTokens(G[k][SeedLen(G, k, overlap)]) > size
  }

  /** A window was flushed only because the next paragraph would have pushed it above `size`. */
  ghost predicate FlushedOnOverflow(G: seq<seq<string>>, size: int, overlap: int) {
    forall k :: 0 < k < |G| ==> FlushedAt(G, k, size, overlap)
  }

  /** Window `k`, if it adds two or more paragraphs, stays within `size`. */
  ghost predicate FitsAt(G: seq<seq<string>>, k: nat, size: int, overlap: int)
    requires k < |G|
  {
    |G[k]| - SeedLen(G, k, overlap) >= 2 ==> TotalTokens(G[k]) <= size
  }

  /** A window that adds two or more paragraphs stays within `size`. */
  ghost predicate FitsUnlessSingle(G: seq<seq<string>>, size: int, overlap: int) {
    forall k :: 0 <= k < |G| ==> FitsAt(G, k, size, overlap)
  }

  /**
   * The shape of the windows `G` cut from paragraphs `P`: every window is
   * non-empty and made of paragraphs of `P`; every window after the first
   * starts with the overlap seed of the one before and adds at least one
   * paragraph; leaving the seeds out gives back `P` exactly, in order; a
   * window was flushed only because the next paragraph would have pushed its
   * estimate above `size`; and a window that adds two or more paragraphs
   * stays within `size`, so only a window adding a single paragraph can
   * exceed it.
   */
  ghost predicate Shaped(G: seq<seq<string>>, P: seq<string>, size: int, overlap: int) {
    && NonEmptyWindows(G)
    && DrawnFrom(G, P)
    && Chained(G, overlap)
    && Fresh(G, overlap) == P
    && FlushedOnOverflow(G, size, overlap)
    && FitsUnlessSingle(G, size, overlap)
  }

  /** The fold's invariant after paragraphs `P`. */
  ghost predicate FoldInv(st: Progress, P: seq<string>, size: int, overlap: int) {
    && st.tokens == TotalTokens(st.current)
    && (st.current == [] <==> P == [])
    && (P == [] ==> st.flushed == [])
    && Shaped(Groups(st), P, size, overlap)
  }

  /** Adding a window leaves an earlier window and its seed length alone. */
  lemma SeedLenSnoc(G: seq<seq<string>>, g: seq<string>, k: nat, overlap: int)
    requires k < |G|
    ensures (G + [g])[k] == G[k] && SeedLen(G + [g], k, overlap) == SeedLen(G, k, overlap)
  {
    if k > 0 {
      assert (G + [g])[k - 1] == G[k - 1];
    }
  }

  /** The seed length of an added window is the overlap length of the window before it. */
  lemma SeedLenOfAdded(G: seq<seq<string>>, g: seq<string>, overlap: int)
    requires G != []
    ensures SeedLen(G + [g], |G|, overlap) == OverlapLength(G[|G| - 1], overlap) == |Seed(G[|G| - 1], overlap)|
    ensures (G + [g])[|G|] == g && (G + [g])[|G| - 1] == G[|G| - 1]
  {
  }

  /** Replacing the last window leaves the earlier windows and all seed lengths alone. */
  lemma SeedLenReplaceLast(F: seq<seq<string>>, g: seq<string>, g': seq<string>, k: nat, overlap: int)
    requires k <= |F|
    ensures k < |F| ==> (F + [g'])[k] == (F + [g])[k]
    ensures SeedLen(F + [g'], k, overlap) == SeedLen(F + [g], k, overlap)
  {
    if k > 0 {
      assert (F + [g'])[k - 1] == (F + [g])[k - 1];
    }
  }

  /** A flush: the new window is the seed of the last one plus the paragraph that did not fit. */
  lemma ShapedSnoc(G: seq<seq<string>>, P: seq<string>, para: string, size: int, overlap: int)
    requires G != [] && Shaped(G, P, size, overlap)
    requires TotalTokens(G[|G| - 1]) + EstimateTokens(para) > size
    ensures Shaped(G + [Seed(G[|G| - 1], overlap) + [para]], P + [para], size, overlap)
  {
    SnocNonEmpty(G, para, overlap);
    SnocDrawnFrom(G, P, para, overlap);
    SnocChained(G, para, overlap);
    SnocFresh(G, para, overlap);
    SnocFlushed(G, para, size, overlap);
    SnocFits(G, para, size, overlap);
  }

  lemma SnocNonEmpty(G: seq<seq<string>>, para: string, overlap: int)
    requires G != [] && NonEmptyWindows(G)
    ensures NonEmptyWindows(G + [Seed(G[|G| - 1], overlap) + [para]])
  {
    var G' := G + [Seed(G[|G| - 1], overlap) + [para]];
    forall k | 0 <= k < |G'|
      ensures G'[k] != []
    {
      if k < |G| {
        assert G'[k] == G[k];
      }
    }
  }

  lemma SnocFresh(G: seq<seq<string>>, para: string, overlap: int)
    requires G != []
    ensures Fresh(G + [Seed(G[|G| - 1], overlap) + [para]], overlap) == Fresh(G, overlap) + [para]
  {
    var n := |G|;
    var seed := Seed(G[n - 1], overlap);
    var g := seed + [para];
    var G' := G + [g];
    SeedLenOfAdded(G, g, overlap);
    assert g[|seed|..] == [para];
    assert FreshPart(G', n, overlap) == [para];
    assert G'[..n] == G;
  }

  lemma SnocDrawnFrom(G: seq<seq<string>>, P: seq<string>, para: string, overlap: int)
    requires G != [] && DrawnFrom(G, P)
    ensures DrawnFrom(G + [Seed(G[|G| - 1], overlap) + [para]], P + [para])
  {
    var n := |G|;
    var seed := Seed(G[n - 1], overlap);
    var G' := G + [seed + [para]];
    forall k, i | 0 <= k < |G'| && 0 <= i < |G'[k]|
      ensures G'[k][i] in P + [para]
    {
      if k < n {
        assert G'[k][i] == G[k][i];
      } else if i < |seed| {
        assert G'[k][i] == G[n - 1][|G[n - 1]| - |seed| + i];
      }
    }
  }

  lemma SnocChained(G: seq<seq<string>>, para: string, overlap: int)
    requires G != [] && Chained(G, overlap)
    ensures Chained(G + [Seed(G[|G| - 1], overlap) + [para]], overlap)
  {
    var n := |G|;
    var seed := Seed(G[n - 1], overlap);
    var g := seed + [para];
    var G' := G + [g];
    forall k | 0 < k < |G'|
      ensures ChainedAt(G', k, overlap)
    {
      if k < n {
        assert ChainedAt(G, k, overlap);
        SeedLenSnoc(G, g, k, overlap);
        SeedLenSnoc(G, g, k - 1, overlap);
      } else {
        SeedLenOfAdded(G, g, overlap);
        assert g[..|seed|] == seed;
      }
    }
  }

  lemma SnocFlushed(G: seq<seq<string>>, para: string, size: int, overlap: int)
    requires G != [] && FlushedOnOverflow(G, size, overlap)
    requires TotalTokens(G[|G| - 1]) + EstimateTokens(para) > size
    ensures FlushedOnOverflow(G + [Seed(G[|G| - 1], overlap) + [para]], size, overlap)
  {
    var n := |G|;
    var seed := Seed(G[n - 1], overlap);
    var g := seed + [para];
    var G' := G + [g];
    forall k | 0 < k < |G'|
      ensures FlushedAt(G', k, size, overlap)
    {
      if k < n {
        assert FlushedAt(G, k, size, overlap);
        SeedLenSnoc(G, g, k, overlap);
        SeedLenSnoc(G, g, k - 1, overlap);
      } else {
        SeedLenOfAdded(G, g, overlap);
        assert g[|seed|] == para;
      }
    }
  }

  lemma SnocFits(G: seq<seq<string>>, para: string, size: int, overlap: int)
    requires G != [] && FitsUnlessSingle(G, size, overlap)
    ensures FitsUnlessSingle(G + [Seed(G[|G| - 1], overlap) + [para]], size, overlap)
  {
    var n := |G|;
    var seed := Seed(G[n - 1], overlap);
    var g := seed + [para];
    var G' := G + [g];
    forall k | 0 <= k < |G'|
      ensures FitsAt(G', k, size, overlap)
    {
      if k < n {
        assert FitsAt(G, k, size, overlap);
        SeedLenSnoc(G, g, k, overlap);
      } else {
        SeedLenOfAdded(G, g, overlap);
      }
    }
  }

  /** No flush: the paragraph joins the open window, which stays within `size`. */
  lemma ShapedExtend(F: seq<seq<string>>, cur: seq<string>, P: seq<string>, para: string, size: int, overlap: int)
    requires Shaped(F + [cur], P, size, overlap)
    requires TotalTokens(cur) + EstimateTokens(para) <= size
    ensures Shaped(F + [cur + [para]], P + [para], size, overlap)
  {
    ExtendNonEmpty(F, cur, para);
    ExtendDrawnFrom(F, cur, P, para);
    ExtendChained(F, cur, para, overlap);
    ExtendFresh(F, cur, para, overlap);
    ExtendFlushed(F, cur, para, size, overlap);
    ExtendFits(F, cur, para, size, overlap);
  }

  lemma ExtendNonEmpty(F: seq<seq<string>>, cur: seq<string>, para: string)
    requires NonEmptyWindows(F + [cur])
    ensures NonEmptyWindows(F + [cur + [para]])
  {
    var G := F + [cur];
    var G' := F + [cur + [para]];
    forall k | 0 <= k < |G'|
      ensures G'[k] != []
    {
      if k < |F| {
        assert G'[k] == G[k];
      }
    }
  }

  lemma ExtendDrawnFrom(F: seq<seq<string>>, cur: seq<string>, P: seq<string>, para: string)
    requires DrawnFrom(F + [cur], P)
    ensures DrawnFrom(F + [cur + [para]], P + [para])
  {
    var G := F + [cur];
    var G' := F + [cur + [para]];
    forall k, i | 0 <= k < |G'| && 0 <= i < |G'[k]|
      ensures G'[k][i] in P + [para]
    {
      if k < |F| || i < |cur| {
        assert G'[k][i] == G[k][i];
      }
    }
  }

  /** The seed length of the open window is below its length (or it is the first window). */
  lemma OpenSeedLen(F: seq<seq<string>>, cur: seq<string>, overlap: int)
    requires Chained(F + [cur], overlap)
    ensures SeedLen(F + [cur], |F|, overlap) <= |cur|
    ensures |F| > 0 ==> SeedLen(F + [cur], |F|, overlap) < |cur|
  {
    if |F| > 0 {
      assert ChainedAt(F + [cur], |F|, overlap);
    }
  }

  lemma ExtendChained(F: seq<seq<string>>, cur: seq<string>, para: string, overlap: int)
    requires Chained(F + [cur], overlap)
    ensures Chained(F + [cur + [para]], overlap)
  {
    var G := F + [cur];
    var G' := F + [cur + [para]];
    OpenSeedLen(F, cur, overlap);
    forall k | 0 < k < |G'|
      ensures ChainedAt(G', k, overlap)
    {
      assert ChainedAt(G, k, overlap);
      SeedLenReplaceLast(F, cur, cur + [para], k, overlap);
      SeedLenReplaceLast(F, cur, cur + [para], k - 1, overlap);
      if k == |F| {
        var s := SeedLen(G, k, overlap);
        assert (cur + [para])[..s] == cur[..s];
      }
    }
  }

  lemma ExtendFresh(F: seq<seq<string>>, cur: seq<string>, para: string, overlap: int)
    requires Chained(F + [cur], overlap)
    ensures Fresh(F + [cur + [para]], overlap) == Fresh(F + [cur], overlap) + [para]
  {
    var G := F + [cur];
    var G' := F + [cur + [para]];
    var n := |F|;
    OpenSeedLen(F, cur, overlap);
    SeedLenReplaceLast(F, cur, cur + [para], n, overlap);
    var s := SeedLen(G, n, overlap);
    assert (cur + [para])[s..] == cur[s..] + [para];
    assert G[..n] == F && G'[..n] == F;
  }

  lemma ExtendFlushed(F: seq<seq<string>>, cur: seq<string>, para: string, size: int, overlap: int)
    requires Chained(F + [cur], overlap)
    requires FlushedOnOverflow(F + [cur], size, overlap)
    ensures FlushedOnOverflow(F + [cur + [para]], size, overlap)
  {
    var G := F + [cur];
    var G' := F + [cur + [para]];
    OpenSeedLen(F, cur, overlap);
    forall k | 0 < k < |G'|
      ensures FlushedAt(G', k, size, overlap)
    {
      assert FlushedAt(G, k, size, overlap);
      SeedLenReplaceLast(F, cur, cur + [para], k, overlap);
      SeedLenReplaceLast(F, cur, cur + [para], k - 1, overlap);
      if SeedLen(G', k, overlap) < |G'[k]| {
        assert G'[k][SeedLen(G', k, overlap)] == G[k][SeedLen(G, k, overlap)];
      }
    }
  }

  lemma ExtendFits(F: seq<seq<string>>, cur: seq<string>, para: string, size: int, overlap: int)
    requires FitsUnlessSingle(F + [cur], size, overlap)
    requires TotalTokens(cur) + EstimateTokens(para) <= size
    ensures FitsUnlessSingle(F + [cur + [para]], size, overlap)
  {
    var G := F + [cur];
    var G' := F + [cur + [para]];
    TotalTokensSnoc(cur, para);
    forall k | 0 <= k < |G'|
      ensures FitsAt(G', k, size, overlap)
    {
      if k < |F| {
        assert FitsAt(G, k, size, overlap);
      }
      SeedLenReplaceLast(F, cur, cur + [para], k, overlap);
    }
  }

  lemma FeedFirst(para: string, size: int, overlap: int)
    ensures FoldInv(Feed(Progress([], [], 0), para, size, overlap), [para], size, overlap)
  {
    var st' := Feed(Progress([], [], 0), para, size, overlap);
    assert st' == Progress([], [para], EstimateTokens(para));
    var G := Groups(st');
    assert G == [[para]];
    assert Fresh(G, overlap) == Fresh([], overlap) + FreshPart(G, 0, overlap);
    assert [para][..0] == [];
    assert TotalTokens([para]) == EstimateTokens(para);
  }

  lemma FeedStep(st: Progress, P: seq<string>, para: string, size: int, overlap: int)
    requires FoldInv(st, P, size, overlap) && P != []
    ensures FoldInv(Feed(st, para, size, overlap), P + [para], size, overlap)
  {
    if st.tokens + EstimateTokens(para) > size {
      FeedFlushes(st, P, para, size, overlap);
    } else {
      FeedExtends(st, P, para, size, overlap);
    }
  }

  lemma FeedFlushes(st: Progress, P: seq<string>, para: string, size: int, overlap: int)
    requires FoldInv(st, P, size, overlap) && P != []
    requires st.tokens + EstimateTokens(para) > size
    ensures FoldInv(Feed(st, para, size, overlap), P + [para], size, overlap)
  {
    var cur := st.current;
    var G := Groups(st);
    assert G == st.flushed + [cur];
    var seed := Seed(cur, overlap);
    var st' := Progress(st.flushed + [cur], seed + [para], TotalTokens(seed) + EstimateTokens(para));
    assert Feed(st, para, size, overlap) == st';
    TotalTokensSnoc(seed, para);
    assert Groups(st') == G + [seed + [para]];
    ShapedSnoc(G, P, para, size, overlap);
  }

  lemma FeedExtends(st: Progress, P: seq<string>, para: string, size: int, overlap: int)
    requires FoldInv(st, P, size, overlap) && P != []
    requires st.tokens + EstimateTokens(para) <= size
    ensures FoldInv(Feed(st, para, size, overlap), P + [para], size, overlap)
  {
    var cur := st.current;
    assert Groups(st) == st.flushed + [cur];
    var st' := Progress(st.flushed, cur + [para], st.tokens + EstimateTokens(para));
    assert Feed(st, para, size, overlap) == st';
    TotalTokensSnoc(cur, para);
    assert Groups(st') == st.flushed + [cur + [para]];
    ShapedExtend(st.flushed, cur, P, para, size, overlap);
  }

  /** The fold invariant holds after every prefix of the paragraphs. */
  lemma {:induction false} FeedAllInv(paras: seq<string>, size: int, overlap: int)
    ensures FoldInv(FeedAll(paras, size, overlap), paras, size, overlap)
  {
    if paras != [] {
      var init := paras[..|paras| - 1];
      var p := paras[|paras| - 1];
      assert paras == init + [p];
      FeedAllInv(init, size, overlap);
      var st := FeedAll(init, size, overlap);
      if init == [] {
        FeedFirst(p, size, overlap);
      } else {
        FeedStep(st, init, p, size, overlap);
      }
    }
  }

  /**
   * The windows of any paragraph list have the shape `Shaped` describes, and
   * there is at least one window whenever there is a paragraph.
   */
  lemma WindowGroupsShape(paras: seq<string>, size: int, overlap: int)
    ensures Shaped(WindowGroups(paras, size, overlap), paras, size, overlap)
    ensures paras != [] ==> WindowGroups(paras, size, overlap) != []
  {
    FeedAllInv(paras, size, overlap);
  }

  /** Every window of a non-blank text is non-blank. */
  lemma SlidingWindowsNonBlank(text: string, size: int, overlap: int)
    ensures !IsBlank(text) ==> SlidingWindows(text, size, overlap) != []
    ensures forall k :: 0 <= k < |SlidingWindows(text, size, overlap)| ==> !IsBlank(SlidingWindows(text, size, overlap)[k])
  {
    var P := Paragraphs(text);
    var G := WindowGroups(P, size, overlap);
    WindowGroupsShape(P, size, overlap);
    forall k | 0 <= k < |G|
      ensures !IsBlank(Join(G[k], ParagraphBreak))
    {
      assert G[k][0] in P;
      var w := Join(G[k], ParagraphBreak);
      assert G[k][0] <= w;
      assert w[0] == G[k][0][0];
    }
  }

  // ---------------------------------------------------------------------------
  // The imperative splitter
  // ---------------------------------------------------------------------------

  /** The reverse walk that collects the overlap seed of a flushed window. */
  method OverlapSeed(window: seq<string>, overlap: int) returns (seed: seq<string>, seedTokens: int)
    ensures seed == Seed(window, overlap)
    ensures seedTokens == TotalTokens(seed)
  {
    seed, seedTokens := [], 0;
    var i := |window|;
    assert window[..i] == window;
    while i > 0
      invariant 0 <= i <= |window|
      invariant seed == window[i..]
      invariant seedTokens == TotalTokens(seed)
      invariant OverlapLength(window, overlap) == |seed| + OverlapLength(window[..i], overlap - seedTokens)
    {
      var p := window[i - 1];
      var t := EstimateTokens(p);
      if seedTokens + t > overlap {
        break;
      }
      assert window[..i][..i - 1] == window[..i - 1];
      TotalTokensCons(p, seed);
      seed := [p] + seed;
      seedTokens := seedTokens + t;
      i := i - 1;
    }
  }

  /**
   * `_sliding_window(text)`: greedily fills a window with paragraphs; when
   * the next paragraph would push the running estimate above `size` and the
   * window is not empty, flushes it and seeds the next window with its
   * overlap suffix.
   */
  method SlidingWindow(text: string, size: int, overlap: int) returns (windows: seq<string>)
    ensures windows == SlidingWindows(text, size, overlap)
  {
    var paragraphs := Paragraphs(text);
    windows := [];
    var currentTokens := 0;
    var currentParas: seq<string> := [];
    ghost var flushed: seq<seq<string>> := [];
    for i := 0 to |paragraphs|
      invariant Progress(flushed, currentParas, currentTokens) == FeedAll(paragraphs[..i], size, overlap)
      invariant windows == JoinEach(flushed)
    {
      FeedAllSnoc(paragraphs, i, size, overlap);
      var para := paragraphs[i];
      var paraTokens := EstimateTokens(para);
      if currentTokens + paraTokens > size && currentParas != [] {
        JoinEachSnoc(flushed, currentParas);
        windows := windows + [Join(currentParas, ParagraphBreak)];
        flushed := flushed + [currentParas];
        var overlapParas, overlapTokens := OverlapSeed(currentParas, overlap);
        currentParas := overlapParas;
        currentTokens := overlapTokens;
      }
      currentParas := currentParas + [para];
      currentTokens := currentTokens + paraTokens;
    }
    assert paragraphs[..|paragraphs|] == paragraphs;
    if currentParas != [] {
      JoinEachSnoc(flushed, currentParas);
      windows := windows + [Join(currentParas, ParagraphBreak)];
      flushed := flushed + [currentParas];
    }
    assert flushed == WindowGroups(paragraphs, size, overlap);
  }
}
