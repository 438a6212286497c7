/**
 * `SemanticChunker`: splits a text into sections at markdown headings, keeps
 * a section that fits the token budget as one chunk, splits a larger one with
 * the sliding window, and numbers the chunks across the whole call.
 *
 * `Sections` and `ChunkText` specify `_split_by_headings` and `chunk`; the
 * methods `SplitByHeadings` and `Chunk` are the loops of the source, proved
 * to compute them.
 */
module Chunker {
  import opened Options
  import opened Text
  import opened Schemas
  import opened Headings
  import opened Window

  /** The defaults `chunk_size = 512` and `chunk_overlap = 64` of the settings. */
  const DefaultChunkSize: int := 512
  const DefaultChunkOverlap: int := 64

  /** One section: its heading label, or None for text outside any heading, and its body. */
  datatype Section = Section(title: Option<string>, body: string)

  // ---------------------------------------------------------------------------
  // Sections
  // ---------------------------------------------------------------------------

  /** Matches lie inside the text, in order, and do not overlap. */
  predicate WellPlaced(text: string, ms: seq<Match>) {
    && (forall i :: 0 <= i < |ms| ==> ms[i].LabelStart() <= ms[i].end <= |text|)
    && (forall i, j :: 0 <= i < j < |ms| ==> ms[i].end <= ms[j].start)
  }

  /** The heading matches `finditer` reports over the whole text. */
  function HeadingMatches(text: string): (ms: seq<Match>)
    ensures WellPlaced(text, ms)
  {
    FindHeadings(text, 0)
  }

  /** Where the body of heading `i` ends: at the next heading, or at the end of the text. */
  function BodyEnd(text: string, ms: seq<Match>, i: nat): (e: nat)
    requires WellPlaced(text, ms) && i < |ms|
    ensures ms[i].end <= e <= |text|
  {
    if i + 1 < |ms| then ms[i + 1].start else |text|
  }

  /** The section heading `i` opens, before blank bodies are dropped. */
  function HeadingSection(text: string, ms: seq<Match>, i: nat): Section
    requires WellPlaced(text, ms) && i < |ms|
  {
    Section(Some(Label(text, ms[i])), Strip(text[ms[i].end..BodyEnd(text, ms, i)]))
  }

  /** One section per heading, in heading order, before blank bodies are dropped. */
  function HeadingSections(text: string, ms: seq<Match>): (rs: seq<Section>)
    requires WellPlaced(text, ms)
    ensures |rs| == |ms|
  {
    seq(|ms|, i requires 0 <= i < |ms| && WellPlaced(text, ms) => HeadingSection(text, ms, i))
  }

  /** The sections whose body is not empty, in their order. */
  function NonEmptyBodies(ss: seq<Section>): seq<Section> {
    if ss == [] then []
    else NonEmptyBodies(ss[..|ss| - 1]) + (if ss[|ss| - 1].body != [] then [ss[|ss| - 1]] else [])
  }

  /** The text before the first heading, as a section of its own when it is not blank. */
  function Preamble(text: string, ms: seq<Match>): seq<Section>
    requires WellPlaced(text, ms) && ms != []
  {
    var p := Strip(text[..ms[0].start]);
    if p != [] then [Section(None, p)] else []
  }

  /** The sections of `text` given its heading matches `ms`. */
  function SectionsOf(text: string, ms: seq<Match>): seq<Section>
    requires WellPlaced(text, ms)
  {
    if ms == [] then [Section(None, text)]
    else Preamble(text, ms) + NonEmptyBodies(HeadingSections(text, ms))
  }

  /** `_split_by_headings(text)`. */
  function Sections(text: string): seq<Section> {
    SectionsOf(text, HeadingMatches(text))
  }

  /** The positions of the sections `NonEmptyBodies` keeps. */
  ghost function KeptIndices(ss: seq<Section>): seq<nat> {
    if ss == [] then []
    else KeptIndices(ss[..|ss| - 1]) + (if ss[|ss| - 1].body != [] then [|ss| - 1] else [])
  }

  /**
   * `NonEmptyBodies` is an order-preserving filter: it keeps the sections at
   * strictly increasing positions, and a position is kept exactly when the
   * body there is not empty.
   */
  lemma {:induction false} NonEmptyBodiesFilter(ss: seq<Section>)
    ensures var idx := KeptIndices(ss);
      && |idx| == |NonEmptyBodies(ss)|
      && (forall j :: 0 <= j < |idx| ==> idx[j] < |ss| && NonEmptyBodies(ss)[j] == ss[idx[j]])
      && (forall j, j' :: 0 <= j < j' < |idx| ==> idx[j] < idx[j'])
      && (forall i :: 0 <= i < |ss| ==> (i in idx <==> ss[i].body != []))
  {
    if ss != [] {
      var init := ss[..|ss| - 1];
      NonEmptyBodiesFilter(init);
      var idx := KeptIndices(init);
      assert forall i :: 0 <= i < |init| ==> init[i] == ss[i];
      if ss[|ss| - 1].body != [] {
        assert KeptIndices(ss) == idx + [|ss| - 1];
        assert NonEmptyBodies(ss) == NonEmptyBodies(init) + [ss[|ss| - 1]];
      } else {
        assert KeptIndices(ss) == idx;
        assert NonEmptyBodies(ss) == NonEmptyBodies(init);
      }
    }
  }

  /** Every heading section has a title and a stripped body. */
  lemma HeadingSectionsStripped(text: string, ms: seq<Match>)
    requires WellPlaced(text, ms)
    ensures forall i :: 0 <= i < |ms| ==>
      HeadingSections(text, ms)[i].title.Some? && Strip(HeadingSections(text, ms)[i].body) == HeadingSections(text, ms)[i].body
  {
    forall i | 0 <= i < |ms|
      ensures Strip(HeadingSection(text, ms, i).body) == HeadingSection(text, ms, i).body
    {
      StripIdempotent(text[ms[i].end..BodyEnd(text, ms, i)]);
    }
  }

  /**
   * With no heading anywhere, the whole text, unstripped, is the one section
   * and has no title. With a heading somewhere, every section has a stripped,
   * non-blank body, and only a first section (the preamble) has no title.
   */
  lemma SectionsShape(text: string)
    ensures (forall m: Match :: !Matches(text, m)) ==> Sections(text) == [Section(None, text)]
    ensures (exists m: Match :: Matches(text, m)) ==>
      forall k :: 0 <= k < |Sections(text)| ==>
        var s := Sections(text)[k];
        s.body != [] && Strip(s.body) == s.body && (s.title.None? ==> k == 0)
  {
    var ms := HeadingMatches(text);
    if ms != [] {
      FindHeadingsSound(text, 0);
      assert Matches(text, ms[0]);
    }
    if exists m: Match :: Matches(text, m) {
      var m: Match :| Matches(text, m);
      FindHeadingsComplete(text, 0, m);
      SectionsOfShape(text, ms);
    }
  }

  /** The shape of the sections once there is at least one heading match. */
  lemma SectionsOfShape(text: string, ms: seq<Match>)
    requires WellPlaced(text, ms) && ms != []
    ensures forall k :: 0 <= k < |SectionsOf(text, ms)| ==>
      var s := SectionsOf(text, ms)[k];
      s.body != [] && Strip(s.body) == s.body && (s.title.None? ==> k == 0)
  {
    var rs := HeadingSections(text, ms);
    var pre := Preamble(text, ms);
    var ks := NonEmptyBodies(rs);
    HeadingSectionsStripped(text, ms);
    NonEmptyBodiesKeep(rs);
    StripIdempotent(text[..ms[0].start]);
    forall k | 0 <= k < |pre + ks|
      ensures var s: Section := (pre + ks)[k];
        s.body != [] && Strip(s.body) == s.body && (s.title.None? ==> k == 0)
    {
      if k >= |pre| {
        assert (pre + ks)[k] == ks[k - |pre|];
        assert ks[k - |pre|] in ks;
      }
    }
  }

  /** Every section `NonEmptyBodies` keeps is one of its input sections and has a non-empty body. */
  lemma {:induction false} NonEmptyBodiesKeep(ss: seq<Section>)
    ensures forall s :: s in NonEmptyBodies(ss) ==> s in ss && s.body != []
  {
    if ss != [] {
      var init := ss[..|ss| - 1];
      NonEmptyBodiesKeep(init);
      assert forall s :: s in init ==> s in ss;
    }
  }

  /** Filtering one more section keeps it exactly when its body is not empty. */
  lemma NonEmptyBodiesSnoc(ss: seq<Section>, i: nat)
    requires i < |ss|
    ensures NonEmptyBodies(ss[..i + 1]) == NonEmptyBodies(ss[..i]) + (if ss[i].body != [] then [ss[i]] else [])
  {
    assert ss[..i + 1][..i] == ss[..i];
  }

  lemma TakeSnoc<T>(s: seq<T>, j: nat)
    requires j < |s|
    ensures s[..j + 1] == s[..j] + [s[j]]
  {
  }

  lemma AppendAssoc<T>(a: seq<T>, b: seq<T>, c: seq<T>)
    ensures (a + b) + c == a + (b + c)
  {
  }

  /** The section heading `i` opens, spelled out. */
  lemma HeadingSectionAt(text: string, ms: seq<Match>, i: nat)
    requires WellPlaced(text, ms) && i < |ms|
    ensures HeadingSections(text, ms)[i]
      == Section(Some(Label(text, ms[i])), Strip(text[ms[i].end..if i + 1 < |ms| then ms[i + 1].start else |text|]))
  {
  }

  /** Heading `i` adds its section to those kept so far exactly when its body is not empty. */
  lemma SectionsStep(text: string, ms: seq<Match>, i: nat)
    requires WellPlaced(text, ms) && i < |ms|
    ensures var rs := HeadingSections(text, ms);
      var body := Strip(text[ms[i].end..if i + 1 < |ms| then ms[i + 1].start else |text|]);
      var before := Preamble(text, ms) + NonEmptyBodies(rs[..i]);
      && (body != [] ==> Preamble(text, ms) + NonEmptyBodies(rs[..i + 1]) == before + [Section(Some(Label(text, ms[i])), body)])
      && (body == [] ==> Preamble(text, ms) + NonEmptyBodies(rs[..i + 1]) == before)
  {
    var rs := HeadingSections(text, ms);
    var body := Strip(text[ms[i].end..if i + 1 < |ms| then ms[i + 1].start else |text|]);
    HeadingSectionAt(text, ms, i);
    assert rs[i] == Section(Some(Label(text, ms[i])), body);
    NonEmptyBodiesSnoc(rs, i);
    var kept := if body != [] then [rs[i]] else [];
    AppendAssoc(Preamble(text, ms), NonEmptyBodies(rs[..i]), kept);
    if body == [] {
      assert Preamble(text, ms) + NonEmptyBodies(rs[..i]) + kept == Preamble(text, ms) + NonEmptyBodies(rs[..i]);
    }
  }

  /** `_split_by_headings`: the loop over the heading matches. */
  method SplitByHeadings(text: string) returns (sections: seq<Section>)
    ensures sections == Sections(text)
  {
    var ms := HeadingMatches(text);
    sections := SectionsLoop(text, ms);
  }

  /** The body of `_split_by_headings` once the matches are listed. */
  method SectionsLoop(text: string, ms: seq<Match>) returns (sections: seq<Section>)
    requires WellPlaced(text, ms)
    ensures sections == SectionsOf(text, ms)
  {
    if ms == [] {
      return [Section(None, text)];
    }
    ghost var rs := HeadingSections(text, ms);
    sections := [];
    var preamble := Strip(text[..ms[0].start]);
    if preamble != [] {
      sections := sections + [Section(None, preamble)];
    }
    for i := 0 to |ms|
      invariant sections == Preamble(text, ms) + NonEmptyBodies(rs[..i])
    {
      var heading := Label(text, ms[i]);
      var start := ms[i].end;
      var end := if i + 1 < |ms| then ms[i + 1].start else |text|;
      var body := Strip(text[start..end]);
      SectionsStep(text, ms, i);
      if body != [] {
        sections := sections + [Section(Some(heading), body)];
      }
    }
    assert rs[..|ms|] == rs;
  }

  // ---------------------------------------------------------------------------
  // Chunks
  // ---------------------------------------------------------------------------

  /** A chunk before it is numbered. */
  datatype Piece = Piece(section: Option<string>, text: string, tokens: int)

  /**
   * The pieces of one section. A section whose estimate is within `size` is
   * one piece; a larger one is cut by the sliding window, one piece per
   * window. Every piece carries the section title and an estimate of at
   * least 1.
   */
  function SectionPieces(s: Section, size: int, overlap: int): (ps: seq<Piece>)
    ensures forall j :: 0 <= j < |ps| ==> ps[j].section == s.title && ps[j].tokens >= 1
  {
    var t := EstimateTokens(s.body);
    if t <= size then [Piece(s.title, Strip(s.body), t)]
    else
      var ws := SlidingWindows(s.body, size, overlap);
      seq(|ws|, j requires 0 <= j < |ws| => Piece(s.title, Strip(ws[j]), EstimateTokens(ws[j])))
  }

  /**
   * The size rule: a section whose estimate is within `size`, equality
   * included, is exactly one piece, with the stripped body as its text and
   * the estimate of the body as given (not stripped); a larger section has
   * one piece per window, each with the stripped window and its estimate.
   */
  lemma SectionPiecesSizeRule(s: Section, size: int, overlap: int)
    ensures var ps := SectionPieces(s, size, overlap);
      EstimateTokens(s.body) <= size ==> ps == [Piece(s.title, Strip(s.body), EstimateTokens(s.body))]
    ensures var ps := SectionPieces(s, size, overlap);
      var ws := SlidingWindows(s.body, size, overlap);
      EstimateTokens(s.body) > size ==>
        |ps| == |ws| && forall j :: 0 <= j < |ps| ==> ps[j] == Piece(s.title, Strip(ws[j]), EstimateTokens(ws[j]))
  {
  }

  /** A section with a non-space character gives at least one piece, and every piece text is stripped and non-blank. */
  lemma SectionPiecesNonBlank(s: Section, size: int, overlap: int)
    requires !IsBlank(s.body)
    ensures var ps := SectionPieces(s, size, overlap);
      ps != [] && forall j :: 0 <= j < |ps| ==> ps[j].text != [] && Strip(ps[j].text) == ps[j].text
  {
    var ps := SectionPieces(s, size, overlap);
    if EstimateTokens(s.body) <= size {
      StripIdempotent(s.body);
    } else {
      var ws := SlidingWindows(s.body, size, overlap);
      SlidingWindowsNonBlank(s.body, size, overlap);
      forall j | 0 <= j < |ps|
        ensures ps[j].text != [] && Strip(ps[j].text) == ps[j].text
      {
        StripIdempotent(ws[j]);
      }
    }
  }

  /** The blocks of pieces, one per section. */
  function SectionBlocks(ss: seq<Section>, size: int, overlap: int): (bs: seq<seq<Piece>>)
    ensures |bs| == |ss|
    ensures forall i :: 0 <= i < |ss| ==> bs[i] == SectionPieces(ss[i], size, overlap)
  {
    seq(|ss|, i requires 0 <= i < |ss| => SectionPieces(ss[i], size, overlap))
  }

  /** The blocks one after the other. */
  function Concat(bs: seq<seq<Piece>>): seq<Piece> {
    if bs == [] then [] else Concat(bs[..|bs| - 1]) + bs[|bs| - 1]
  }

  /** Where block `i` starts in `Concat(bs)`. */
  function Offset(bs: seq<seq<Piece>>, i: nat): nat
    requires i <= |bs|
  {
    |Concat(bs[..i])|
  }

  /** The pieces numbered from 0 as chunks. */
  function Numbered(ps: seq<Piece>): (cs: seq<DocumentChunk>)
    ensures |cs| == |ps|
    ensures forall k :: 0 <= k < |cs| ==>
      cs[k] == DocumentChunk(k, ps[k].text, None, ps[k].section, Some(ps[k].tokens))
  {
    seq(|ps|, k requires 0 <= k < |ps| => DocumentChunk(k, ps[k].text, None, ps[k].section, Some(ps[k].tokens)))
  }

  /** The chunks of a list of sections: their pieces in order, numbered from 0. */
  function ChunksOf(ss: seq<Section>, size: int, overlap: int): seq<DocumentChunk> {
    Numbered(Concat(SectionBlocks(ss, size, overlap)))
  }

  /** `chunk(text)` for a chunker with the given `chunk_size` and `chunk_overlap`. */
  function ChunkText(text: string, size: int, overlap: int): seq<DocumentChunk> {
    if IsBlank(text) then [] else ChunksOf(Sections(text), size, overlap)
  }

  /** Each offset is the previous one plus the length of the block between them. */
  lemma OffsetStep(bs: seq<seq<Piece>>, i: nat)
    requires 0 < i <= |bs|
    ensures Offset(bs, i) == Offset(bs, i - 1) + |bs[i - 1]|
    ensures Concat(bs[..i]) == Concat(bs[..i - 1]) + bs[i - 1]
  {
    assert bs[..i][..i - 1] == bs[..i - 1];
  }

  /** Concatenating a prefix of the blocks gives a prefix of the concatenation. */
  lemma {:induction false} ConcatPrefix(bs: seq<seq<Piece>>, i: nat)
    requires i <= |bs|
    ensures Concat(bs[..i]) <= Concat(bs)
    decreases |bs|
  {
    if i == |bs| {
      assert bs[..i] == bs;
    } else {
      var init := bs[..|bs| - 1];
      ConcatPrefix(init, i);
      assert init[..i] == bs[..i];
      assert Concat(bs) == Concat(init) + bs[|bs| - 1];
    }
  }

  /** Element `j` of block `i` sits at position `Offset(bs, i) + j` of the concatenation. */
  lemma BlockAt(bs: seq<seq<Piece>>, i: nat, j: nat)
    requires i < |bs| && j < |bs[i]|
    ensures Offset(bs, i) + j < |Concat(bs)| && Concat(bs)[Offset(bs, i) + j] == bs[i][j]
  {
    OffsetStep(bs, i + 1);
    ConcatPrefix(bs, i + 1);
    var front := Concat(bs[..i + 1]);
    assert front[Offset(bs, i) + j] == bs[i][j];
  }

  /** Every element of the concatenation comes from some block. */
  lemma {:induction false} InSomeBlock(bs: seq<seq<Piece>>, k: nat) returns (i: nat, j: nat)
    requires k < |Concat(bs)|
    ensures i < |bs| && j < |bs[i]| && Concat(bs)[k] == bs[i][j]
  {
    var init := bs[..|bs| - 1];
    var front := Concat(init);
    if k < |front| {
      i, j := InSomeBlock(init, k);
      assert bs[i] == init[i];
    } else {
      i, j := |bs| - 1, k - |front|;
    }
  }

  /** Every section of a non-blank text has a non-blank body. */
  lemma SectionsNonBlank(text: string)
    requires !IsBlank(text)
    ensures forall i :: 0 <= i < |Sections(text)| ==> !IsBlank(Sections(text)[i].body)
  {
    SectionsShape(text);
    if exists m: Match :: Matches(text, m) {
      forall i | 0 <= i < |Sections(text)|
        ensures !IsBlank(Sections(text)[i].body)
      {
        assert Sections(text)[i].body != [];
      }
    } else {
      assert Sections(text) == [Section(None, text)];
    }
  }

  /** Every section of a non-blank text contributes at least one chunk. */
  lemma SectionsContribute(text: string, size: int, overlap: int)
    requires !IsBlank(text)
    ensures forall i :: 0 <= i < |Sections(text)| ==> SectionBlocks(Sections(text), size, overlap)[i] != []
  {
    SectionsNonBlank(text);
    forall i | 0 <= i < |Sections(text)|
      ensures SectionBlocks(Sections(text), size, overlap)[i] != []
    {
      SectionPiecesNonBlank(Sections(text)[i], size, overlap);
    }
  }

  /**
   * What `chunk` returns: nothing for an empty or whitespace-only text;
   * otherwise chunks indexed 0, 1, 2, ... in output order across all
   * sections, never with a page, each with a stripped non-blank text and an
   * estimate of at least 1.
   */
  lemma ChunkTextWellFormed(text: string, size: int, overlap: int)
    ensures IsBlank(text) ==> ChunkText(text, size, overlap) == []
    ensures forall k :: 0 <= k < |ChunkText(text, size, overlap)| ==>
      var c := ChunkText(text, size, overlap)[k];
      && c.index == k && c.page == None
      && c.text != [] && Strip(c.text) == c.text
      && c.tokens.Some? && c.tokens.value >= 1
  {
    if !IsBlank(text) {
      var ss := Sections(text);
      var bs := SectionBlocks(ss, size, overlap);
      var all := Concat(bs);
      SectionsNonBlank(text);
      forall k | 0 <= k < |all|
        ensures all[k].text != [] && Strip(all[k].text) == all[k].text && all[k].tokens >= 1
      {
        var i, j := InSomeBlock(bs, k);
        SectionPiecesNonBlank(ss[i], size, overlap);
      }
    }
  }

  /**
   * The chunks of a list of sections, section by section: the chunks of
   * section `i` start at index `Offset(i)` and are that section's pieces in
   * order, each with the section title and with its index equal to its
   * position, so numbering runs on across sections instead of restarting.
   */
  lemma SectionsLayout(ss: seq<Section>, size: int, overlap: int)
    ensures var bs := SectionBlocks(ss, size, overlap);
      && |ChunksOf(ss, size, overlap)| == Offset(bs, |bs|)
      && (forall i :: 0 < i <= |bs| ==> Offset(bs, i) == Offset(bs, i - 1) + |bs[i - 1]|)
    ensures forall i: nat, j: nat :: i < |ss| && j < |SectionBlocks(ss, size, overlap)[i]| ==>
      LaidOut(ss, size, overlap, i, j)
  {
    ChunkCount(ss, size, overlap);
    OffsetSteps(SectionBlocks(ss, size, overlap));
    forall i: nat, j: nat | i < |ss| && j < |SectionBlocks(ss, size, overlap)[i]|
      ensures LaidOut(ss, size, overlap, i, j)
    {
      LayoutAt(ss, size, overlap, i, j);
    }
  }

  /** There are as many chunks as pieces in all the blocks. */
  lemma ChunkCount(ss: seq<Section>, size: int, overlap: int)
    ensures var bs := SectionBlocks(ss, size, overlap);
      |ChunksOf(ss, size, overlap)| == Offset(bs, |bs|)
  {
    var bs := SectionBlocks(ss, size, overlap);
    assert bs[..|bs|] == bs;
  }

  /** `OffsetStep` at every block. */
  lemma OffsetSteps(bs: seq<seq<Piece>>)
    ensures forall i :: 0 < i <= |bs| ==> Offset(bs, i) == Offset(bs, i - 1) + |bs[i - 1]|
  {
    forall i | 0 < i <= |bs|
      ensures Offset(bs, i) == Offset(bs, i - 1) + |bs[i - 1]|
    {
      OffsetStep(bs, i);
    }
  }

  /**
   * Piece `j` of section `i` is the chunk at `Offset(i) + j`: its text and
   * estimate are the piece's, its section the section's title, and its
   * index its position.
   */
  ghost predicate LaidOut(ss: seq<Section>, size: int, overlap: int, i: nat, j: nat)
    requires i < |ss| && j < |SectionBlocks(ss, size, overlap)[i]|
  {
    var bs := SectionBlocks(ss, size, overlap);
    var cs := ChunksOf(ss, size, overlap);
    var k := Offset(bs, i) + j;
    k < |cs| && cs[k] == DocumentChunk(k, bs[i][j].text, None, ss[i].title, Some(bs[i][j].tokens))
  }

  /** One chunk of `SectionsLayout`. */
  lemma LayoutAt(ss: seq<Section>, size: int, overlap: int, i: nat, j: nat)
    requires i < |ss| && j < |SectionBlocks(ss, size, overlap)[i]|
    ensures LaidOut(ss, size, overlap, i, j)
  {
    var bs := SectionBlocks(ss, size, overlap);
    var all := Concat(bs);
    var k := Offset(bs, i) + j;
    BlockAt(bs, i, j);
    assert all[k] == bs[i][j];
    assert bs[i] == SectionPieces(ss[i], size, overlap);
    assert bs[i][j].section == ss[i].title;
    assert ChunksOf(ss, size, overlap) == Numbered(all);
    assert Numbered(all)[k] == DocumentChunk(k, all[k].text, None, all[k].section, Some(all[k].tokens));
  }

  /**
   * The size rule at the level of the chunks: a section whose estimate is
   * within `size`, equality included, contributes exactly one chunk, holding
   * its stripped body and the estimate of the unstripped body; a larger one
   * contributes one chunk per sliding window, each with the stripped window
   * and that window's estimate. Either way the chunks sit at the section's
   * offset and carry its title.
   */
  lemma SectionChunks(ss: seq<Section>, size: int, overlap: int, i: nat)
    requires i < |ss|
    ensures var bs := SectionBlocks(ss, size, overlap);
      var cs := ChunksOf(ss, size, overlap);
      var o := Offset(bs, i);
      EstimateTokens(ss[i].body) <= size ==>
        && Offset(bs, i + 1) == o + 1 && o < |cs|
        && cs[o] == DocumentChunk(o, Strip(ss[i].body), None, ss[i].title, Some(EstimateTokens(ss[i].body)))
    ensures var bs := SectionBlocks(ss, size, overlap);
      var o := Offset(bs, i);
      var ws := SlidingWindows(ss[i].body, size, overlap);
      EstimateTokens(ss[i].body) > size ==>
        && Offset(bs, i + 1) == o + |ws|
        && forall j :: 0 <= j < |ws| ==> WindowChunk(ss, size, overlap, i, j)
  {
    if EstimateTokens(ss[i].body) <= size {
      SmallSectionChunk(ss, size, overlap, i);
    } else {
      LargeSectionChunks(ss, size, overlap, i);
    }
  }

  /**
   * Window `j` of section `i` is the chunk at the section's offset plus `j`,
   * holding the stripped window, its estimate and the section title.
   */
  ghost predicate WindowChunk(ss: seq<Section>, size: int, overlap: int, i: nat, j: nat)
    requires i < |ss| && j < |SlidingWindows(ss[i].body, size, overlap)|
  {
    var cs := ChunksOf(ss, size, overlap);
    var o := Offset(SectionBlocks(ss, size, overlap), i);
    var w := SlidingWindows(ss[i].body, size, overlap)[j];
    o + j < |cs| && cs[o + j] == DocumentChunk(o + j, Strip(w), None, ss[i].title, Some(EstimateTokens(w)))
  }

  /** The first case of `SectionChunks`. */
  lemma SmallSectionChunk(ss: seq<Section>, size: int, overlap: int, i: nat)
    requires i < |ss| && EstimateTokens(ss[i].body) <= size
    ensures var bs := SectionBlocks(ss, size, overlap);
      var cs := ChunksOf(ss, size, overlap);
      var o := Offset(bs, i);
      && Offset(bs, i + 1) == o + 1 && o < |cs|
      && cs[o] == DocumentChunk(o, Strip(ss[i].body), None, ss[i].title, Some(EstimateTokens(ss[i].body)))
  {
    var bs := SectionBlocks(ss, size, overlap);
    OffsetStep(bs, i + 1);
    SectionPiecesSizeRule(ss[i], size, overlap);
    assert bs[i] == [Piece(ss[i].title, Strip(ss[i].body), EstimateTokens(ss[i].body))];
    LayoutAt(ss, size, overlap, i, 0);
  }

  /** The second case of `SectionChunks`. */
  lemma LargeSectionChunks(ss: seq<Section>, size: int, overlap: int, i: nat)
    requires i < |ss| && EstimateTokens(ss[i].body) > size
    ensures var bs := SectionBlocks(ss, size, overlap);
      var o := Offset(bs, i);
      var ws := SlidingWindows(ss[i].body, size, overlap);
      && Offset(bs, i + 1) == o + |ws|
      && forall j :: 0 <= j < |ws| ==> WindowChunk(ss, size, overlap, i, j)
  {
    var bs := SectionBlocks(ss, size, overlap);
    var ws := SlidingWindows(ss[i].body, size, overlap);
    OffsetStep(bs, i + 1);
    SectionPiecesSizeRule(ss[i], size, overlap);
    assert |bs[i]| == |ws|;
    forall j | 0 <= j < |ws|
      ensures WindowChunk(ss, size, overlap, i, j)
    {
      WindowChunkAt(ss, size, overlap, i, j);
    }
  }

  /** One window of `LargeSectionChunks`. */
  lemma WindowChunkAt(ss: seq<Section>, size: int, overlap: int, i: nat, j: nat)
    requires i < |ss| && EstimateTokens(ss[i].body) > size
    requires j < |SlidingWindows(ss[i].body, size, overlap)|
    ensures WindowChunk(ss, size, overlap, i, j)
  {
    var bs := SectionBlocks(ss, size, overlap);
    var w := SlidingWindows(ss[i].body, size, overlap)[j];
    SectionPiecesSizeRule(ss[i], size, overlap);
    assert bs[i][j] == Piece(ss[i].title, Strip(w), EstimateTokens(w));
    LayoutAt(ss, size, overlap, i, j);
  }

  // ---------------------------------------------------------------------------
  // The imperative `chunk`
  // ---------------------------------------------------------------------------

  /** Numbering one more piece appends one chunk with the next index. */
  lemma NumberedSnoc(ps: seq<Piece>, p: Piece)
    ensures Numbered(ps + [p]) == Numbered(ps) + [DocumentChunk(|ps|, p.text, None, p.section, Some(p.tokens))]
  {
  }

  /** `chunk(text)`: the loop over the sections with the running `index`. */
  method Chunk(text: string, size: int, overlap: int) returns (chunks: seq<DocumentChunk>)
    ensures chunks == ChunkText(text, size, overlap)
  {
    if Strip(text) == [] {
      return [];
    }
    var sections := SplitByHeadings(text);
    ghost var bs := SectionBlocks(sections, size, overlap);
    chunks := [];
    var index := 0;
    for i := 0 to |sections|
      invariant index == |chunks|
      invariant chunks == Numbered(Concat(bs[..i]))
    {
      OffsetStep(bs, i + 1);
      chunks, index := EmitSection(chunks, index, Concat(bs[..i]), sections[i], size, overlap);
    }
    assert bs[..|sections|] == bs;
  }

  /**
   * One turn of the section loop of `chunk`: the section's pieces appended
   * to `chunks` as chunks numbered on from `index`.
   */
  method EmitSection(chunks: seq<DocumentChunk>, index: int, ghost before: seq<Piece>, section: Section, size: int, overlap: int)
    returns (next: seq<DocumentChunk>, nextIndex: int)
    requires index == |chunks| && chunks == Numbered(before)
    ensures nextIndex == |next| && next == Numbered(before + SectionPieces(section, size, overlap))
  {
    ghost var own := SectionPieces(section, size, overlap);
    next, nextIndex := chunks, index;
    var title := section.title;
    var sectionText := section.body;
    var tokenCount := EstimateTokens(sectionText);
    SectionPiecesSizeRule(section, size, overlap);
    if tokenCount <= size {
      NumberedSnoc(before, own[0]);
      next := next + [DocumentChunk(nextIndex, Strip(sectionText), None, title, Some(tokenCount))];
      nextIndex := nextIndex + 1;
    } else {
      var subChunks := SlidingWindow(sectionText, size, overlap);
      for j := 0 to |subChunks|
        invariant nextIndex == |next|
        invariant next == Numbered(before + own[..j])
      {
        TakeSnoc(own, j);
        AppendAssoc(before, own[..j], [own[j]]);
        NumberedSnoc(before + own[..j], own[j]);
        next := next + [DocumentChunk(nextIndex, Strip(subChunks[j]), None, title, Some(EstimateTokens(subChunks[j])))];
        nextIndex := nextIndex + 1;
      }
      assert own[..|subChunks|] == own;
    }
  }

  // ---------------------------------------------------------------------------
  // Edge cases of the heading rule
  // ---------------------------------------------------------------------------

  /** A text that is only a heading has no body under it, so it yields no chunk at all. */
  lemma HeadingOnlyYieldsNothing(size: int, overlap: int)
    ensures ChunkText("# a", size, overlap) == []
  {
    var text := "# a";
    HeadingOnlySections();
    assert !IsSpace(text[0]);
    assert SectionBlocks([], size, overlap) == [];
    assert ChunkText(text, size, overlap) == Numbered(Concat([]));
  }

  /** The heading of "# a" has an empty body, and there is no text before it. */
  lemma HeadingOnlySections()
    ensures Sections("# a") == []
  {
    var text := "# a";
    var ms := [Match(0, 1, 1, 3)];
    HeadingOnlyMatch();
    HeadingOnlyParts();
    var hs := HeadingSections(text, ms);
    assert NonEmptyBodies(hs) == NonEmptyBodies(hs[..0]) + [];
    assert Sections(text) == Preamble(text, ms) + NonEmptyBodies(hs);
  }

  lemma HeadingOnlyParts()
    ensures WellPlaced("# a", [Match(0, 1, 1, 3)])
    ensures Preamble("# a", [Match(0, 1, 1, 3)]) == []
    ensures var hs := HeadingSections("# a", [Match(0, 1, 1, 3)]);
      |hs| == 1 && hs[0].body == []
  {
    var text := "# a";
    var ms := [Match(0, 1, 1, 3)];
    assert text[..0] == [];
    assert BodyEnd(text, ms, 0) == 3;
    assert text[3..3] == [];
    assert HeadingSections(text, ms)[0] == HeadingSection(text, ms, 0);
  }

  /** The one heading of "# a" spans the whole text. */
  lemma HeadingOnlyMatch()
    ensures HeadingMatches("# a") == [Match(0, 1, 1, 3)]
  {
    var text := "# a";
    assert HashRun(text, 2) == 0;
    assert HashRun(text, 1) == 0;
    assert HashRun(text, 0) == 1;
    assert SpaceRun(text, 1) == 1 by {
      assert SpaceRun(text, 2) == 0;
    }
    assert LineEnd(text, 2) == 3 by {
      assert LineEnd(text, 3) == 3;
    }
    var m := Match(0, 1, 1, 3);
    assert MatchAt(text, 0) == Some(m);
    assert FindHeadings(text, 3) == [];
  }

  /** At the start of "#\n\nfoo" the pattern matches the hash, both newlines and "foo". */
  lemma BlankLinesMatch()
    ensures MatchAt("#\n\nfoo", 0) == Some(Match(0, 1, 2, 6))
  {
    var text := "#\n\nfoo";
    assert HashRun(text, 1) == 0;
    assert HashRun(text, 0) == 1;
    assert SpaceRun(text, 1) == 2 by {
      assert SpaceRun(text, 3) == 0;
      assert SpaceRun(text, 2) == 1;
    }
    assert LineEnd(text, 3) == 6 by {
      assert LineEnd(text, 6) == 6;
      assert LineEnd(text, 5) == 6;
      assert LineEnd(text, 4) == 6;
    }
  }

  /** `\s+` runs across newlines: in "#\n\nfoo" the one heading has the label "foo". */
  lemma HeadingAcrossBlankLines()
    ensures var text := "#\n\nfoo";
      HeadingMatches(text) == [Match(0, 1, 2, 6)] && Label(text, Match(0, 1, 2, 6)) == "foo"
  {
    var text := "#\n\nfoo";
    var m := Match(0, 1, 2, 6);
    BlankLinesMatch();
    assert FindHeadings(text, 6) == [];
    assert text[3..6] == "foo" by {
      assert text[3] == 'f' && text[4] == 'o' && text[5] == 'o';
    }
    StripTrimmed("foo");
  }

  /** So "#\n\nfoo" has no section at all: the would-be body "foo" became the label. */
  lemma LabelSwallowsBody()
    ensures Sections("#\n\nfoo") == []
  {
    HeadingAcrossBlankLines();
  }
}
