/**
 * The heading scan of the semantic chunker: `re.finditer` with the pattern
 * `^(#{1,3})\s+(.+)$` under `re.MULTILINE`.
 *
 * `^` holds at the start of the text and after every '\n'; `\s` is any
 * whitespace character, newlines included, so `\s+` may run over blank
 * lines; `.` is any character but '\n'; `$` holds at the end of the text and
 * before every '\n'. The regex engine tries the greedy quantifiers longest
 * first and backtracks, so among all ways the pattern can match at a position
 * it takes the one with the most '#', then the longest `\s+`, then the longest
 * `.+`. `Matches` states when the pattern matches a span, `Prefers` is that
 * backtracking order, and `MatchAt` is proved to return the preferred match.
 */
module Headings {
  import opened Options
  import opened Text

  /** `^` under MULTILINE. */
  predicate AtLineStart(text: string, p: nat)
    requires p <= |text|
  {
    p == 0 || text[p - 1] == '\n'
  }

  /**
   * A match of the heading pattern: `hashes` characters of group 1 starting
   * at `start`, then `spaces` characters of `\s+`, then group 2 up to `end`.
   */
  datatype Match = Match(start: nat, hashes: nat, spaces: nat, end: nat) {
    function LabelStart(): nat {
      start + hashes + spaces
    }
  }

  /** The pattern `^(#{1,3})\s+(.+)$` matches `text[m.start..m.end]` with the groups `m` describes. */
  ghost predicate Matches(text: string, m: Match) {
    && m.end <= |text|
    && 1 <= m.hashes <= 3
    && m.spaces >= 1
    && m.LabelStart() < m.end
    && AtLineStart(text, m.start)
    && (forall i :: m.start <= i < m.start + m.hashes ==> text[i] == '#')
    && (forall i :: m.start + m.hashes <= i < m.LabelStart() ==> IsSpace(text[i]))
    && (forall i :: m.LabelStart() <= i < m.end ==> text[i] != '\n')
    && (m.end == |text| || text[m.end] == '\n')
  }

  /** Backtracking order of the greedy quantifiers: more '#', then a longer `\s+`, then a longer `.+`. */
  predicate Prefers(a: Match, b: Match) {
    || a.hashes > b.hashes
    || (a.hashes == b.hashes && a.spaces > b.spaces)
    || (a.hashes == b.hashes && a.spaces == b.spaces && a.end >= b.end)
  }

  /** Length of the run of '#' starting at `p`. */
  function HashRun(text: string, p: nat): (n: nat)
    requires p <= |text|
    ensures p + n <= |text|
    ensures forall i :: p <= i < p + n ==> text[i] == '#'
    ensures p + n < |text| ==> text[p + n] != '#'
    decreases |text| - p
  {
    if p < |text| && text[p] == '#' then 1 + HashRun(text, p + 1) else 0
  }

  /** Length of the run of whitespace starting at `p`. */
  function SpaceRun(text: string, p: nat): (n: nat)
    requires p <= |text|
    ensures p + n <= |text|
    ensures forall i :: p <= i < p + n ==> IsSpace(text[i])
    ensures p + n < |text| ==> !IsSpace(text[p + n])
    decreases |text| - p
  {
    if p < |text| && IsSpace(text[p]) then 1 + SpaceRun(text, p + 1) else 0
  }

  /** The end of the line containing position `q`: the next '\n' or the end of the text. */
  function LineEnd(text: string, q: nat): (e: nat)
    requires q <= |text|
    ensures q <= e <= |text|
    ensures forall i :: q <= i < e ==> text[i] != '\n'
    ensures e < |text| ==> text[e] == '\n'
    decreases |text| - q
  {
    if q < |text| && text[q] != '\n' then LineEnd(text, q + 1) else q
  }

  /** The last position in `[lo, hi)` that does not hold '\n'. */
  function LastNonNewline(text: string, lo: nat, hi: nat): (r: Option<nat>)
    requires hi <= |text|
    ensures r.Some? ==> lo <= r.value < hi && text[r.value] != '\n'
    ensures r.Some? ==> forall i :: r.value < i < hi ==> text[i] == '\n'
    ensures r.None? ==> forall i :: lo <= i < hi ==> text[i] == '\n'
    decreases hi
  {
    if hi <= lo then None
    else if text[hi - 1] != '\n' then Some(hi - 1)
    else LastNonNewline(text, lo, hi - 1)
  }

  /**
   * The match the regex engine reports when it tries the pattern at `p`, or
   * None. Only a run of one to three '#' can start a match; the whitespace
   * run after it is taken whole unless it reaches the end of the text, in
   * which case `\s+` gives back characters until `.+` can match one that is
   * not a newline.
   */
  function MatchAt(text: string, p: nat): (r: Option<Match>)
    requires p <= |text|
    ensures r.Some? ==> r.value.start == p && Matches(text, r.value)
    ensures r.Some? ==> forall m: Match :: m.start == p && Matches(text, m) ==> Prefers(r.value, m)
    ensures r.None? ==> forall m: Match :: m.start == p ==> !Matches(text, m)
  {
    var k := HashRun(text, p);
    var w := if p + k <= |text| then SpaceRun(text, p + k) else 0;
    if !AtLineStart(text, p) || k < 1 || 3 < k || w == 0 then
      NoMatchAt(text, p, k, w);
      None
    else if p + k + w < |text| then
      var m := Match(p, k, w, LineEnd(text, p + k + w));
      MatchIsPreferred(text, m);
      Some(m)
    else
      BacktrackAt(text, p, k, w)
  }

  /**
   * The match at `p` when the whitespace run after the '#' run reaches the
   * end of the text: `\s+` gives back characters until `.+` can match one
   * that is not a newline, and there is no match when none is left.
   */
  function BacktrackAt(text: string, p: nat, k: nat, w: nat): (r: Option<Match>)
    requires p + k <= |text| && k == HashRun(text, p)
    requires AtLineStart(text, p) && 1 <= k <= 3
    requires w == SpaceRun(text, p + k) && w > 0 && p + k + w == |text|
    ensures r.Some? ==> r.value.start == p && Matches(text, r.value)
    ensures r.Some? ==> forall m: Match :: m.start == p && Matches(text, m) ==> Prefers(r.value, m)
    ensures r.None? ==> forall m: Match :: m.start == p ==> !Matches(text, m)
  {
    match LastNonNewline(text, p + k + 1, |text|)
    case None =>
      NoMatchAtEnd(text, p, k, w);
      None
    case Some(q) =>
      var m := Match(p, k, q - p - k, LineEnd(text, q));
      assert m.start == p && m.hashes == k && m.LabelStart() == q;
      BacktrackedIsPreferred(text, m, w);
      Some(m)
  }

  /** Any match at a position uses the whole '#' run there and a prefix of the whitespace run after it. */
  lemma MatchShape(text: string, m: Match)
    ensures Matches(text, m) ==>
      && m.hashes == HashRun(text, m.start)
      && m.spaces <= SpaceRun(text, m.start + m.hashes)
      && m.end == LineEnd(text, m.LabelStart())
  {
    if Matches(text, m) {
      var p := m.start;
      var k := HashRun(text, p);
      assert IsSpace(text[p + m.hashes]);
      assert p + k < |text| ==> text[p + k] != '#';
      assert m.hashes == k;
      var w := SpaceRun(text, p + k);
      assert p + k + w < |text| ==> !IsSpace(text[p + k + w]);
      var e := LineEnd(text, m.LabelStart());
      assert e < |text| ==> text[e] == '\n';
      assert m.end < |text| ==> text[m.end] == '\n';
    }
  }

  lemma NoMatchAt(text: string, p: nat, k: nat, w: nat)
    requires p <= |text| && k == HashRun(text, p)
    requires w == (if p + k <= |text| then SpaceRun(text, p + k) else 0)
    requires !AtLineStart(text, p) || k < 1 || 3 < k || w == 0
    ensures forall m: Match :: m.start == p ==> !Matches(text, m)
  {
    forall m: Match | m.start == p
      ensures !Matches(text, m)
    {
      MatchShape(text, m);
    }
  }

  lemma NoMatchAtEnd(text: string, p: nat, k: nat, w: nat)
    requires p + k <= |text| && k == HashRun(text, p) && w == SpaceRun(text, p + k)
    requires p + k + w == |text|
    requires LastNonNewline(text, p + k + 1, |text|).None?
    ensures forall m: Match :: m.start == p ==> !Matches(text, m)
  {
    forall m: Match | m.start == p
      ensures !Matches(text, m)
    {
      MatchShape(text, m);
    }
  }

  lemma MatchIsPreferred(text: string, m: Match)
    requires m.start + m.hashes <= |text|
    requires AtLineStart(text, m.start) && 1 <= m.hashes <= 3
    requires m.hashes == HashRun(text, m.start)
    requires m.spaces == SpaceRun(text, m.start + m.hashes) >= 1
    requires m.LabelStart() < |text|
    requires m.end == LineEnd(text, m.LabelStart())
    ensures Matches(text, m)
    ensures forall m': Match :: m'.start == m.start && Matches(text, m') ==> Prefers(m, m')
  {
    assert !IsSpace(text[m.LabelStart()]);
    forall m': Match | m'.start == m.start && Matches(text, m')
      ensures Prefers(m, m')
    {
      MatchShape(text, m');
    }
  }

  lemma BacktrackedIsPreferred(text: string, m: Match, w: nat)
    requires m.start + m.hashes <= |text|
    requires AtLineStart(text, m.start) && 1 <= m.hashes <= 3
    requires m.hashes == HashRun(text, m.start)
    requires w == SpaceRun(text, m.start + m.hashes)
    requires m.start + m.hashes + w == |text|
    requires LastNonNewline(text, m.start + m.hashes + 1, |text|) == Some(m.LabelStart())
    requires m.end == LineEnd(text, m.LabelStart())
    ensures Matches(text, m)
    ensures forall m': Match :: m'.start == m.start && Matches(text, m') ==> Prefers(m, m')
  {
    forall m': Match | m'.start == m.start && Matches(text, m')
      ensures Prefers(m, m')
    {
      MatchShape(text, m');
      assert text[m'.LabelStart()] != '\n';
    }
  }

  /**
   * `re.finditer` from position `p`: try the pattern at each position in
   * turn; after a match, carry on from its end.
   */
  function FindHeadings(text: string, p: nat): (ms: seq<Match>)
    requires p <= |text|
    ensures forall i :: 0 <= i < |ms| ==> p <= ms[i].start && ms[i].LabelStart() < ms[i].end <= |text|
    ensures forall i, j :: 0 <= i < j < |ms| ==> ms[i].end <= ms[j].start
    decreases |text| - p
  {
    if p == |text| then []
    else
      var r := MatchAt(text, p);
      if r.Some? then [r.value] + FindHeadings(text, r.value.end)
      else FindHeadings(text, p + 1)
  }

  /** Every reported span is a match of the pattern. */
  lemma {:induction false} FindHeadingsSound(text: string, p: nat)
    requires p <= |text|
    ensures forall i :: 0 <= i < |FindHeadings(text, p)| ==> Matches(text, FindHeadings(text, p)[i])
    decreases |text| - p
  {
    if p < |text| {
      var r := MatchAt(text, p);
      if r.Some? {
        FindHeadingsSound(text, r.value.end);
        var rest := FindHeadings(text, r.value.end);
        assert FindHeadings(text, p) == [r.value] + rest;
        SoundCons(text, r.value, rest);
      } else {
        FindHeadingsSound(text, p + 1);
      }
    }
  }

  lemma SoundCons(text: string, first: Match, rest: seq<Match>)
    requires Matches(text, first)
    requires forall i :: 0 <= i < |rest| ==> Matches(text, rest[i])
    ensures forall i :: 0 <= i < |rest| + 1 ==> Matches(text, ([first] + rest)[i])
  {
    forall i | 0 <= i < |rest| + 1
      ensures Matches(text, ([first] + rest)[i])
    {
      if i > 0 {
        assert ([first] + rest)[i] == rest[i - 1];
      }
    }
  }

  /** Position `q` lies inside one of the matches `ms`. */
  ghost predicate Covered(ms: seq<Match>, q: nat) {
    exists i :: 0 <= i < |ms| && ms[i].start <= q < ms[i].end
  }

  /**
   * Nothing is skipped: every position from `p` on where the pattern matches
   * is the start of a reported match or lies inside one.
   */
  lemma {:induction false} FindHeadingsComplete(text: string, p: nat, m: Match)
    requires p <= m.start && Matches(text, m)
    ensures Covered(FindHeadings(text, p), m.start)
    decreases |text| - p
  {
    var ms := FindHeadings(text, p);
    var r := MatchAt(text, p);
    if r.Some? {
      var rest := FindHeadings(text, r.value.end);
      assert ms == [r.value] + rest;
      if m.start >= r.value.end {
        FindHeadingsComplete(text, r.value.end, m);
      }
      CoveredCons(r.value, rest, m.start);
    } else {
      assert m.start != p;
      assert ms == FindHeadings(text, p + 1);
      FindHeadingsComplete(text, p + 1, m);
    }
  }

  /** A position inside the first match, or covered by the later ones, is covered by all of them. */
  lemma CoveredCons(first: Match, rest: seq<Match>, q: nat)
    requires first.start <= q < first.end || Covered(rest, q)
    ensures Covered([first] + rest, q)
  {
    if first.start <= q < first.end {
      assert ([first] + rest)[0] == first;
    } else {
      var i :| 0 <= i < |rest| && rest[i].start <= q < rest[i].end;
      assert ([first] + rest)[i + 1] == rest[i];
    }
  }

  /** The heading label: group 2 of the match, stripped. */
  function Label(text: string, m: Match): string
    requires m.LabelStart() <= m.end <= |text|
  {
    Strip(text[m.LabelStart()..m.end])
  }
}
