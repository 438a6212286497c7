/**
 * The web parser's own logic around the crawler: address normalisation, the
 * bounded link-following recursion, the merge of the crawled pages into one
 * markdown document, the accumulation of chunks, and the filtering of
 * `parse_many`. The crawler itself is an input: a `Site` maps an address to
 * what `arun` gives for it.
 */
module Web {
  import opened Options
  import opened Text
  import opened Schemas
  import Chunker

  // ---------------------------------------------------------------------------
  // Address normalisation
  // ---------------------------------------------------------------------------

  /** The address already starts with one of the schemes `parse` accepts as they are. */
  predicate HasScheme(url: string) {
    "http://" <= url || "https://" <= url || "file://" <= url || "raw:" <= url
  }

  /**
   * The scheme fix at the top of `parse`: the stripped address, with
   * `https://` put in front unless it already has an accepted scheme.
   */
  function NormalizeUrl(url: string): (r: string)
    ensures HasScheme(r)
    ensures r == Strip(url) || r == "https://" + Strip(url)
    ensures HasScheme(Strip(url)) <==> r == Strip(url)
  {
    var u := Strip(url);
    if HasScheme(u) then u
    else
      assert ("https://" + u)[..8] == "https://";
      "https://" + u
  }

  /** A normalised address carries no surrounding whitespace. */
  lemma NormalizedIsStripped(url: string)
    ensures Strip(NormalizeUrl(url)) == NormalizeUrl(url)
  {
    var r := NormalizeUrl(url);
    var u := Strip(url);
    assert r != [] && !IsSpace(r[0]) by {
      if "raw:" <= r {
        assert r[0] == 'r';
      } else if "file://" <= r {
        assert r[0] == 'f';
      } else if "https://" <= r {
        assert r[0] == 'h';
      } else {
        assert r[0] == 'h';
      }
    }
    if r == u {
      assert !IsSpace(r[|r| - 1]);
    } else if u == [] {
      assert r == "https://";
    } else {
      assert r[|r| - 1] == u[|u| - 1];
    }
    StripTrimmed(r);
  }

  /** Normalising an address twice gives what normalising it once gives. */
  lemma NormalizeIdempotent(url: string)
    ensures NormalizeUrl(NormalizeUrl(url)) == NormalizeUrl(url)
  {
    NormalizedIsStripped(url);
  }

  // ---------------------------------------------------------------------------
  // The crawler, as an input
  // ---------------------------------------------------------------------------

  /**
   * What `arun` gives for one address: it raises with a message, or it
   * returns a crawl result. `markdown` is None when the result's markdown is
   * None; `links` is None when `result.links` is empty or None, and otherwise
   * holds the `href` of each entry of its `internal` list, in order.
   */
  datatype Reply =
    | Threw(error: string)
    | Crawled(success: bool, errorMessage: string, markdown: Option<string>, links: Option<seq<string>>, statusCode: int)

  /** The crawler as seen by `parse`: the reply it gives for each address. */
  type Site = string -> Reply

  /** The semantic chunker `initialize` builds when semantic chunking is enabled. */
  datatype ChunkerConfig = ChunkerConfig(size: int, overlap: int)

  /** At most this many internal links of a page are followed. */
  const MaxFollowed := 5

  /** What separates two page blocks in the merged markdown. */
  const Separator := "\n\n---\n\n"

  // ---------------------------------------------------------------------------
  // The pieces of `parse`
  // ---------------------------------------------------------------------------

  /** The cleaned page markdown: stripped, or "" when there is none. */
  function PageMarkdown(markdown: Option<string>): (r: string)
    ensures Strip(r) == r
    ensures markdown.None? ==> r == []
  {
    if markdown.Some? then
      StripIdempotent(markdown.value);
      Strip(markdown.value)
    else []
  }

  /** The chunks of the page itself: only with a chunker and a non-empty markdown. */
  function OwnChunks(chunker: Option<ChunkerConfig>, markdown: string): (r: seq<DocumentChunk>)
    ensures chunker.None? || markdown == [] ==> r == []
  {
    if chunker.Some? && markdown != [] then
      Chunker.ChunkText(markdown, chunker.value.size, chunker.value.overlap)
    else []
  }

  /** The links `parse` follows: the first five internal links, and none unless `max_depth > 1`. */
  function FollowedLinks(links: Option<seq<string>>, maxDepth: int): (r: seq<string>)
    ensures |r| <= MaxFollowed
    ensures maxDepth <= 1 || links.None? ==> r == []
    ensures links.Some? && maxDepth > 1 ==> |r| <= |links.value| && r == links.value[..|r|] && (|r| == MaxFollowed || r == links.value)
  {
    if maxDepth > 1 && links.Some? then
      var n := if |links.value| < MaxFollowed then |links.value| else MaxFollowed;
      links.value[..n]
    else []
  }

  /** `links_found`: the number of internal links, or 0 when the result has no links. */
  function LinksFound(links: Option<seq<string>>): nat {
    if links.Some? then |links.value| else 0
  }

  /** One entry of `pages`. */
  datatype Page = Page(url: string, markdown: string)

  /**
   * The page a successful sub-crawl contributes: its address and its
   * (already merged) markdown, which the f-string would render as "None" if
   * it were missing.
   */
  function SubPage(sub: ParseResponse): Page {
    Page(sub.source, if sub.markdown.Some? then sub.markdown.value else "None")
  }

  /** The responses of the sub-crawls that did not raise, in link order. */
  function Successes(outs: seq<Outcome>): (rs: seq<ParseResponse>)
    ensures |rs| <= |outs|
  {
    if outs == [] then []
    else
      var last := outs[|outs| - 1];
      Successes(outs[..|outs| - 1]) + (if last.Succeeded? then [last.response] else [])
  }

  /** The positions of the sub-crawls that did not raise, in increasing order. */
  function Kept(outs: seq<Outcome>): (idx: seq<nat>)
    ensures forall k :: 0 <= k < |idx| ==> idx[k] < |outs| && outs[idx[k]].Succeeded?
    ensures forall k, l :: 0 <= k < l < |idx| ==> idx[k] < idx[l]
    ensures forall i :: 0 <= i < |outs| && outs[i].Succeeded? ==> i in idx
  {
    if outs == [] then []
    else
      var n := |outs| - 1;
      var init := outs[..n];
      var rest := Kept(init);
      assert forall k :: 0 <= k < |rest| ==> outs[rest[k]] == init[rest[k]];
      assert forall i :: 0 <= i < n ==> outs[i] == init[i];
      rest + (if outs[n].Succeeded? then [n] else [])
  }

  /**
   * The filter keeps exactly the successful responses, in order: its k-th
   * response is that of the k-th successful position.
   */
  lemma {:induction false} SuccessesKept(outs: seq<Outcome>)
    ensures |Successes(outs)| == |Kept(outs)|
    ensures forall k :: 0 <= k < |Kept(outs)| ==> Successes(outs)[k] == outs[Kept(outs)[k]].response
  {
    if outs != [] {
      var n := |outs| - 1;
      var init := outs[..n];
      SuccessesKept(init);
      var ss, ks := Successes(init), Kept(init);
      var last := outs[n];
      var S := ss + (if last.Succeeded? then [last.response] else []);
      var K := ks + (if last.Succeeded? then [n] else []);
      assert Successes(outs) == S;
      assert Kept(outs) == K;
      forall k | 0 <= k < |K|
        ensures S[k] == outs[K[k]].response
      {
        if k < |ks| {
          assert S[k] == ss[k] && K[k] == ks[k];
          assert outs[ks[k]] == init[ks[k]];
        } else {
          assert S[k] == last.response && K[k] == n;
        }
      }
    }
  }

  /** All the chunks of the given responses, one response after the other. */
  function AllChunks(rs: seq<ParseResponse>): seq<DocumentChunk> {
    if rs == [] then [] else AllChunks(rs[..|rs| - 1]) + rs[|rs| - 1].chunks
  }

  /** The block a page contributes to the merged markdown. */
  function Block(p: Page): string {
    "## " + p.url + "\n\n" + p.markdown
  }

  /**
   * The merged markdown: the root markdown alone for a single page, and the
   * page blocks joined by the separator for several.
   */
  function Merge(pages: seq<Page>, markdown: string): string {
    if |pages| > 1 then Join(Map(Block, pages), Separator) else markdown
  }

  /**
   * `parse(url, max_depth)`: normalise the address, crawl it, raise on a
   * crawler exception or a failed crawl, and otherwise build the response
   * from the page and the sub-crawls of its followed links.
   */
  function Parse(site: Site, chunker: Option<ChunkerConfig>, url: string, maxDepth: int): (r: Outcome)
    ensures var u := NormalizeUrl(url);
      r.Succeeded? <==> site(u).Crawled? && site(u).success
    ensures r.Succeeded? ==>
      && r.response.source == NormalizeUrl(url)
      && r.response.contentType == "web"
      && r.response.markdown.Some?
    decreases if maxDepth > 0 then maxDepth else 0, 1
  {
    var u := NormalizeUrl(url);
    match site(u)
    case Threw(e) => Raised("Failed to crawl " + u + ": " + e)
    case Crawled(success, errorMessage, md, links, statusCode) =>
      if !success then Raised("Crawl failed for " + u + ": " + errorMessage)
      else Succeeded(Assemble(u, chunker, PageMarkdown(md), links, statusCode, SubOutcomes(site, chunker, links, maxDepth)))
  }

  /**
   * The sub-crawls of a page: `parse` one level shallower of each followed
   * link, in link order, and none unless `max_depth > 1`.
   */
  function SubOutcomes(site: Site, chunker: Option<ChunkerConfig>, links: Option<seq<string>>, maxDepth: int): (subs: seq<Outcome>)
    ensures |subs| == |FollowedLinks(links, maxDepth)|
    ensures maxDepth > 1 ==> subs == ParseEach(site, chunker, FollowedLinks(links, maxDepth), maxDepth - 1)
    decreases if maxDepth > 0 then maxDepth else 0, 0
  {
    if maxDepth > 1 then ParseEach(site, chunker, FollowedLinks(links, maxDepth), maxDepth - 1) else []
  }

  /**
   * The response of a successful crawl of `u`: the page and the kept
   * sub-crawl responses are the pages to merge, the page's own chunks come
   * before theirs, and the metadata counts the pages and the links and
   * carries the status code.
   */
  function Assemble(u: string, chunker: Option<ChunkerConfig>, markdown: string, links: Option<seq<string>>,
                    statusCode: int, subs: seq<Outcome>): ParseResponse
  {
    var kept := Successes(subs);
    var pages := [Page(u, markdown)] + Map(SubPage, kept);
    ParseResponse(u, "web", Some(Merge(pages, markdown)), OwnChunks(chunker, markdown) + AllChunks(kept),
      map["num_pages_crawled" := IntValue(|pages|),
          "links_found" := IntValue(LinksFound(links)),
          "status_code" := IntValue(statusCode)])
  }

  /** `parse` of each address at the given depth, in order. */
  function ParseEach(site: Site, chunker: Option<ChunkerConfig>, urls: seq<string>, depth: int): (outs: seq<Outcome>)
    ensures |outs| == |urls|
    ensures forall i :: 0 <= i < |urls| ==> outs[i] == Parse(site, chunker, urls[i], depth)
    decreases if depth > 0 then depth else 0, 2
  {
    Map(u => Parse(site, chunker, u, depth), urls)
  }

  // ---------------------------------------------------------------------------
  // Properties of `parse`
  // ---------------------------------------------------------------------------

  /** The reply behind a successful `parse`. */
  function RootReply(site: Site, url: string): Reply {
    site(NormalizeUrl(url))
  }

  /**
   * `num_pages_crawled` counts the root page and the sub-crawls that did not
   * raise: at least one page, at most one plus the five followed links, and
   * exactly one when `max_depth <= 1` or the page has no links.
   */
  lemma ParsePageCount(site: Site, chunker: Option<ChunkerConfig>, url: string, maxDepth: int)
    ensures var r := Parse(site, chunker, url, maxDepth);
      r.Succeeded? ==>
        && "num_pages_crawled" in r.response.metadata
        && var n := r.response.metadata["num_pages_crawled"];
        && n.IntValue? && 1 <= n.i <= 1 + MaxFollowed
        && (maxDepth <= 1 || RootReply(site, url).links.None? ==> n.i == 1)
  {
    ParseAssembled(site, chunker, url, maxDepth);
    var reply := RootReply(site, url);
    if reply.Crawled? {
      AssembleFacts(NormalizeUrl(url), chunker, PageMarkdown(reply.markdown), reply.links, reply.statusCode,
        SubOutcomes(site, chunker, reply.links, maxDepth));
    }
  }

  /**
   * A crawl that is not allowed to follow links returns the cleaned page
   * markdown itself and only the page's own chunks.
   */
  lemma ParseShallow(site: Site, chunker: Option<ChunkerConfig>, url: string, maxDepth: int)
    requires maxDepth <= 1
    ensures var r := Parse(site, chunker, url, maxDepth);
      r.Succeeded? ==>
        && r.response.markdown == Some(PageMarkdown(RootReply(site, url).markdown))
        && r.response.chunks == OwnChunks(chunker, PageMarkdown(RootReply(site, url).markdown))
  {
    ParseAssembled(site, chunker, url, maxDepth);
    var reply := RootReply(site, url);
    if reply.Crawled? {
      AssembleFacts(NormalizeUrl(url), chunker, PageMarkdown(reply.markdown), reply.links, reply.statusCode,
        SubOutcomes(site, chunker, reply.links, maxDepth));
    }
  }

  /** The two ways `parse` raises, with their messages. */
  lemma ParseErrors(site: Site, chunker: Option<ChunkerConfig>, url: string, maxDepth: int)
    ensures var u := NormalizeUrl(url);
      site(u).Threw? ==> Parse(site, chunker, url, maxDepth) == Raised("Failed to crawl " + u + ": " + site(u).error)
    ensures var u := NormalizeUrl(url);
      site(u).Crawled? && !site(u).success ==>
        Parse(site, chunker, url, maxDepth) == Raised("Crawl failed for " + u + ": " + site(u).errorMessage)
  {
  }

  /**
   * The merged markdown is the cleaned root markdown when only the root page
   * was kept, and otherwise starts with the root page's block.
   */
  lemma ParseMerged(site: Site, chunker: Option<ChunkerConfig>, url: string, maxDepth: int)
    ensures var r := Parse(site, chunker, url, maxDepth);
      r.Succeeded? ==>
        var root := PageMarkdown(RootReply(site, url).markdown);
        && r.response.metadata["num_pages_crawled"].IntValue?
        && (r.response.metadata["num_pages_crawled"].i == 1 ==> r.response.markdown == Some(root))
        && (r.response.metadata["num_pages_crawled"].i > 1 ==>
              Block(Page(NormalizeUrl(url), root)) <= r.response.markdown.value)
  {
    ParseAssembled(site, chunker, url, maxDepth);
    var reply := RootReply(site, url);
    if reply.Crawled? {
      AssembleFacts(NormalizeUrl(url), chunker, PageMarkdown(reply.markdown), reply.links, reply.statusCode,
        SubOutcomes(site, chunker, reply.links, maxDepth));
    }
  }

  /** A successful `parse` is the response assembled from the crawl reply and the sub-crawls. */
  lemma ParseAssembled(site: Site, chunker: Option<ChunkerConfig>, url: string, maxDepth: int)
    ensures var r := Parse(site, chunker, url, maxDepth);
      var reply := RootReply(site, url);
      r.Succeeded? ==>
        && reply.Crawled?
        && r.response == Assemble(NormalizeUrl(url), chunker, PageMarkdown(reply.markdown), reply.links,
                                  reply.statusCode, SubOutcomes(site, chunker, reply.links, maxDepth))
  {
  }

  /**
   * The assembled response counts its pages, puts the page's own chunks
   * before those of the kept sub-crawls, and merges the pages behind the
   * page's own block.
   */
  lemma AssembleFacts(u: string, chunker: Option<ChunkerConfig>, markdown: string, links: Option<seq<string>>,
                      statusCode: int, subs: seq<Outcome>)
    ensures var r := Assemble(u, chunker, markdown, links, statusCode, subs);
      && r.chunks == OwnChunks(chunker, markdown) + AllChunks(Successes(subs))
      && "num_pages_crawled" in r.metadata
      && r.metadata["num_pages_crawled"] == IntValue(1 + |Successes(subs)|)
      && (Successes(subs) == [] ==> r.markdown == Some(markdown) && r.chunks == OwnChunks(chunker, markdown))
      && (Successes(subs) != [] ==> Block(Page(u, markdown)) <= r.markdown.value)
  {
    var pages := [Page(u, markdown)] + Map(SubPage, Successes(subs));
    assert Map(Block, pages)[0] == Block(Page(u, markdown));
  }

  /** Without a chunker no page, root or followed, yields chunks. */
  lemma {:induction false} NoChunkerNoChunks(site: Site, url: string, maxDepth: int)
    ensures var r := Parse(site, None, url, maxDepth);
      r.Succeeded? ==> r.response.chunks == []
    decreases if maxDepth > 0 then maxDepth else 0, 2
  {
    ParseAssembled(site, None, url, maxDepth);
    var reply := RootReply(site, url);
    if Parse(site, None, url, maxDepth).Succeeded? {
      NoChunkerSubs(site, reply.links, maxDepth);
      AssembledNoChunks(NormalizeUrl(url), PageMarkdown(reply.markdown), reply.links, reply.statusCode,
        SubOutcomes(site, None, reply.links, maxDepth));
    }
  }

  /** None of the responses has chunks. */
  predicate ChunkFree(rs: seq<ParseResponse>) {
    forall k :: 0 <= k < |rs| ==> rs[k].chunks == []
  }

  lemma NoChunkerSubs(site: Site, links: Option<seq<string>>, maxDepth: int)
    ensures ChunkFree(Successes(SubOutcomes(site, None, links, maxDepth)))
    decreases if maxDepth > 0 then maxDepth else 0, 1
  {
    if maxDepth > 1 {
      NoChunkerEach(site, FollowedLinks(links, maxDepth), maxDepth - 1);
    } else {
      assert SubOutcomes(site, None, links, maxDepth) == [];
    }
  }

  lemma {:induction false} NoChunkerEach(site: Site, urls: seq<string>, depth: int)
    ensures ChunkFree(Successes(ParseEach(site, None, urls, depth)))
    decreases if depth > 0 then depth else 0, 3
  {
    var subs := ParseEach(site, None, urls, depth);
    var kept := Successes(subs);
    SuccessesKept(subs);
    forall k | 0 <= k < |kept|
      ensures kept[k].chunks == []
    {
      var i := Kept(subs)[k];
      NoChunkerNoChunks(site, urls[i], depth);
    }
  }

  lemma AssembledNoChunks(u: string, markdown: string, links: Option<seq<string>>, statusCode: int, subs: seq<Outcome>)
    requires ChunkFree(Successes(subs))
    ensures Assemble(u, None, markdown, links, statusCode, subs).chunks == []
  {
    AssembleFacts(u, None, markdown, links, statusCode, subs);
    AllChunksEmpty(Successes(subs));
    assert OwnChunks(None, markdown) == [];
  }

  lemma {:induction false} AllChunksEmpty(rs: seq<ParseResponse>)
    requires forall k :: 0 <= k < |rs| ==> rs[k].chunks == []
    ensures AllChunks(rs) == []
  {
    if rs != [] {
      AllChunksEmpty(rs[..|rs| - 1]);
    }
  }

  /**
   * Chunk indices restart with every page: the response's chunks begin with
   * the root page's own chunks, numbered from 0, and the chunks of the
   * followed pages that come after them are numbered from 0 again.
   */
  lemma {:induction false} ParseChunkIndices(site: Site, chunker: Option<ChunkerConfig>, url: string, maxDepth: int)
    ensures var r := Parse(site, chunker, url, maxDepth);
      r.Succeeded? ==> IndicesRestart(r.response.chunks, OwnChunks(chunker, PageMarkdown(RootReply(site, url).markdown)))
    decreases if maxDepth > 0 then maxDepth else 0, 2
  {
    ParseAssembled(site, chunker, url, maxDepth);
    var reply := RootReply(site, url);
    if Parse(site, chunker, url, maxDepth).Succeeded? {
      SubChunksStartAtZero(site, chunker, reply.links, maxDepth);
      AssembledIndices(NormalizeUrl(url), chunker, PageMarkdown(reply.markdown), reply.links, reply.statusCode,
        SubOutcomes(site, chunker, reply.links, maxDepth));
    }
  }

  /**
   * The chunks begin with the page's own chunks `own`, numbered from 0, and
   * the chunk right after them, if any, is numbered 0 again.
   */
  predicate IndicesRestart(chunks: seq<DocumentChunk>, own: seq<DocumentChunk>) {
    && own <= chunks
    && (own != [] ==> chunks[0].index == 0)
    && (|own| < |chunks| ==> chunks[|own|].index == 0)
  }

  /** `ParseChunkIndices` for one assembled response. */
  lemma AssembledIndices(u: string, chunker: Option<ChunkerConfig>, markdown: string, links: Option<seq<string>>,
                         statusCode: int, subs: seq<Outcome>)
    requires FirstChunksZero(Successes(subs))
    ensures IndicesRestart(Assemble(u, chunker, markdown, links, statusCode, subs).chunks, OwnChunks(chunker, markdown))
  {
    AssembleFacts(u, chunker, markdown, links, statusCode, subs);
    OwnChunksNumbered(chunker, markdown);
    AllChunksFirst(Successes(subs));
    AfterOwn(OwnChunks(chunker, markdown), AllChunks(Successes(subs)));
  }

  lemma AfterOwn(own: seq<DocumentChunk>, rest: seq<DocumentChunk>)
    requires rest != [] ==> rest[0].index == 0
    ensures own <= own + rest
    ensures |own| < |own + rest| ==> (own + rest)[|own|].index == 0
  {
  }

  /** Every successful sub-crawl of a page that yields chunks numbers its first chunk 0. */
  lemma SubChunksStartAtZero(site: Site, chunker: Option<ChunkerConfig>, links: Option<seq<string>>, maxDepth: int)
    ensures FirstChunksZero(Successes(SubOutcomes(site, chunker, links, maxDepth)))
    decreases if maxDepth > 0 then maxDepth else 0, 1
  {
    if maxDepth > 1 {
      EachChunksStartAtZero(site, chunker, FollowedLinks(links, maxDepth), maxDepth - 1);
    } else {
      assert SubOutcomes(site, chunker, links, maxDepth) == [];
    }
  }

  /** Every successful crawl that yields chunks numbers its first chunk 0. */
  lemma {:induction false} EachChunksStartAtZero(site: Site, chunker: Option<ChunkerConfig>, urls: seq<string>, depth: int)
    ensures FirstChunksZero(Successes(ParseEach(site, chunker, urls, depth)))
    decreases if depth > 0 then depth else 0, 3
  {
    var subs := ParseEach(site, chunker, urls, depth);
    var kept := Successes(subs);
    SuccessesKept(subs);
    forall k | 0 <= k < |kept| && kept[k].chunks != []
      ensures kept[k].chunks[0].index == 0
    {
      var i := Kept(subs)[k];
      ParseChunkIndices(site, chunker, urls[i], depth);
    }
  }

  /** The page's own chunks are numbered 0, 1, 2, ... */
  lemma OwnChunksNumbered(chunker: Option<ChunkerConfig>, markdown: string)
    ensures forall k :: 0 <= k < |OwnChunks(chunker, markdown)| ==> OwnChunks(chunker, markdown)[k].index == k
  {
    if chunker.Some? && markdown != [] {
      Chunker.ChunkTextWellFormed(markdown, chunker.value.size, chunker.value.overlap);
    }
  }

  /** Each of the responses that has chunks numbers its first chunk 0. */
  predicate FirstChunksZero(rs: seq<ParseResponse>) {
    forall k :: 0 <= k < |rs| && rs[k].chunks != [] ==> rs[k].chunks[0].index == 0
  }

  lemma {:induction false} AllChunksFirst(rs: seq<ParseResponse>)
    requires FirstChunksZero(rs)
    ensures AllChunks(rs) != [] ==> AllChunks(rs)[0].index == 0
  {
    if rs != [] {
      var init := rs[..|rs| - 1];
      assert forall k :: 0 <= k < |init| ==> init[k] == rs[k];
      AllChunksFirst(init);
    }
  }

  // ---------------------------------------------------------------------------
  // Merging
  // ---------------------------------------------------------------------------

  /**
   * From two pages on, each further page adds the separator and its block
   * to the end of the merged markdown.
   */
  lemma MergeSnoc(pages: seq<Page>, p: Page, markdown: string)
    requires |pages| >= 2
    ensures Merge(pages + [p], markdown) == Merge(pages, markdown) + Separator + Block(p)
  {
    MapSnoc(Block, pages, p);
    JoinSnoc(Map(Block, pages), Block(p), Separator);
  }

  /** Two pages merge into their blocks around one separator. */
  lemma MergeTwo(a: Page, b: Page, markdown: string)
    ensures Merge([a, b], markdown) == Block(a) + Separator + Block(b)
  {
    var bs := Map(Block, [a, b]);
    assert bs[0] == Block(a) && bs[1] == Block(b);
    assert bs[1..] == [Block(b)];
    assert Join(bs, Separator) == Block(a) + Separator + Join([Block(b)], Separator);
  }

  // ---------------------------------------------------------------------------
  // The loops
  // ---------------------------------------------------------------------------

  lemma SuccessesSnoc(outs: seq<Outcome>, o: Outcome)
    ensures Successes(outs + [o]) == Successes(outs) + (if o.Succeeded? then [o.response] else [])
  {
    assert (outs + [o])[..|outs|] == outs;
  }

  lemma AllChunksSnoc(rs: seq<ParseResponse>, r: ParseResponse)
    ensures AllChunks(rs + [r]) == AllChunks(rs) + r.chunks
  {
    assert (rs + [r])[..|rs|] == rs;
  }

  /**
   * The loop over the sub-crawl outcomes in `parse`: each response that is
   * not an exception appends its page and extends the chunks.
   */
  method CollectPages(root: Page, own: seq<DocumentChunk>, subs: seq<Outcome>)
    returns (pages: seq<Page>, chunks: seq<DocumentChunk>)
    ensures pages == [root] + Map(SubPage, Successes(subs))
    ensures chunks == own + AllChunks(Successes(subs))
  {
    pages := [root];
    chunks := own;
    for i := 0 to |subs|
      invariant pages == [root] + Map(SubPage, Successes(subs[..i]))
      invariant chunks == own + AllChunks(Successes(subs[..i]))
    {
      var sub := subs[i];
      CollectStep(root, own, subs, i);
      if sub.Succeeded? {
        pages := pages + [SubPage(sub.response)];
        chunks := chunks + sub.response.chunks;
      }
    }
    assert subs[..|subs|] == subs;
  }

  lemma CollectStep(root: Page, own: seq<DocumentChunk>, subs: seq<Outcome>, i: nat)
    requires i < |subs|
    ensures var kept := Successes(subs[..i]);
      var sub := subs[i];
      && [root] + Map(SubPage, Successes(subs[..i + 1]))
          == [root] + Map(SubPage, kept) + (if sub.Succeeded? then [SubPage(sub.response)] else [])
      && own + AllChunks(Successes(subs[..i + 1]))
          == own + AllChunks(kept) + (if sub.Succeeded? then sub.response.chunks else [])
  {
    CollectPagesStep(root, subs, i);
    CollectChunksStep(own, subs, i);
  }

  lemma CollectPagesStep(root: Page, subs: seq<Outcome>, i: nat)
    requires i < |subs|
    ensures var kept := Successes(subs[..i]);
      [root] + Map(SubPage, Successes(subs[..i + 1]))
        == [root] + Map(SubPage, kept) + (if subs[i].Succeeded? then [SubPage(subs[i].response)] else [])
  {
    var kept := Successes(subs[..i]);
    var sub := subs[i];
    assert subs[..i + 1] == subs[..i] + [sub];
    SuccessesSnoc(subs[..i], sub);
    if sub.Succeeded? {
      MapSnoc(SubPage, kept, sub.response);
      assert [root] + (Map(SubPage, kept) + [SubPage(sub.response)]) == [root] + Map(SubPage, kept) + [SubPage(sub.response)];
    } else {
      assert kept + [] == kept;
      assert [root] + Map(SubPage, kept) + [] == [root] + Map(SubPage, kept);
    }
  }

  lemma CollectChunksStep(own: seq<DocumentChunk>, subs: seq<Outcome>, i: nat)
    requires i < |subs|
    ensures var kept := Successes(subs[..i]);
      own + AllChunks(Successes(subs[..i + 1]))
        == own + AllChunks(kept) + (if subs[i].Succeeded? then subs[i].response.chunks else [])
  {
    var kept := Successes(subs[..i]);
    var sub := subs[i];
    assert subs[..i + 1] == subs[..i] + [sub];
    SuccessesSnoc(subs[..i], sub);
    if sub.Succeeded? {
      AllChunksSnoc(kept, sub.response);
      assert own + (AllChunks(kept) + sub.response.chunks) == own + AllChunks(kept) + sub.response.chunks;
    } else {
      assert kept + [] == kept;
      assert own + AllChunks(kept) + [] == own + AllChunks(kept);
    }
  }

  /** The filtering loop of `parse_many`: keep each result that is not an exception, in order. */
  method KeepSuccesses(results: seq<Outcome>) returns (output: seq<ParseResponse>)
    ensures output == Successes(results)
  {
    output := [];
    for i := 0 to |results|
      invariant output == Successes(results[..i])
    {
      assert results[..i + 1] == results[..i] + [results[i]];
      SuccessesSnoc(results[..i], results[i]);
      if results[i].Succeeded? {
        output := output + [results[i].response];
      }
    }
    assert results[..|results|] == results;
  }

  /**
   * `parse_many`: crawl every address (the gather, exceptions returned as
   * values), then keep the responses of the crawls that did not fail.
   */
  method ParseMany(site: Site, chunker: Option<ChunkerConfig>, urls: seq<string>)
    returns (output: seq<ParseResponse>)
    ensures output == Successes(ParseEach(site, chunker, urls, 1))
  {
    var results := ParseEach(site, chunker, urls, 1);
    output := KeepSuccesses(results);
  }

  /**
   * `parse_many` keeps the addresses' order: its k-th response comes from
   * the k-th address whose crawl did not fail, and every such address has
   * its response in the output.
   */
  lemma ParseManyOrder(site: Site, chunker: Option<ChunkerConfig>, urls: seq<string>)
    ensures var outs := ParseEach(site, chunker, urls, 1);
      var idx := Kept(outs);
      && |Successes(outs)| == |idx|
      && (forall k :: 0 <= k < |idx| ==>
            idx[k] < |urls| && Successes(outs)[k].source == NormalizeUrl(urls[idx[k]]))
      && (forall i :: 0 <= i < |urls| && outs[i].Succeeded? ==> i in idx)
  {
    SuccessesKept(ParseEach(site, chunker, urls, 1));
  }
}
