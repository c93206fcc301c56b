/**
 * Relevance filtering and classification (src/check.ts, checkReplyEvent,
 * hasEntry and detectPostType).
 */
module Check {
  import opened Seqs
  import opened Tags
  import opened Refs
  import TagIndex
  import NostrUri

  /** The parts of a Nostr event the checker reads. */
  datatype Event = Event(content: string, tags: seq<Tag>)

  /** The bot's own pubkey and the ids of its own (non-reply) posts. */
  datatype CheckContext = CheckContext(pubkey: string, myPostIds: seq<string>)

  datatype CheckResult = CheckResult(
    pTagToMe: seq<PTag>,
    eTagsToMyPosts: seq<ETag>,
    refsToMe: seq<TextNoteRef>,
    refsToMyPosts: seq<TextNoteRef>,
    invalidTagIndexRefs: seq<InvalidTagIndexRef>,
    invalidNostrURIRefs: seq<InvalidNostrURIRef>)

  predicate RefToMe(ctx: CheckContext, r: TextNoteRef)
  {
    r.referentType == Pubkey && r.referent == ctx.pubkey
  }

  predicate RefToMyPost(ctx: CheckContext, r: TextNoteRef)
  {
    r.referentType == EventId && r.referent in ctx.myPostIds
  }

  /**
   * `checkReplyEvent`. `uriMatches` stands for `nip27.matchAll(ev.content)`,
   * the decoded `nostr:` URIs of the content in order.
   */
  function CheckReplyEvent(ev: Event, uriMatches: seq<NostrURIMatch>, ctx: CheckContext): (r: CheckResult)
    ensures forall t :: t in r.pTagToMe <==> t in GetPTags(ev.tags) && t.pubkey == ctx.pubkey
    ensures forall t :: t in r.eTagsToMyPosts <==> t in GetETags(ev.tags) && t.eventId in ctx.myPostIds
    ensures r.pTagToMe == GetPTags(Filter(ev.tags, (t: Tag) => IsPTag(t) && t[1] == ctx.pubkey))
    ensures r.eTagsToMyPosts == GetETags(Filter(ev.tags, (t: Tag) => IsETag(t) && t[1] in ctx.myPostIds))
    ensures forall x :: x in r.refsToMe <==>
      (x in TagIndex.TagIndexRefsOf(ev.tags, ev.content).0 || x in NostrUri.ValidURIRefs(uriMatches))
      && RefToMe(ctx, x)
    ensures forall x :: x in r.refsToMyPosts <==>
      (x in TagIndex.TagIndexRefsOf(ev.tags, ev.content).0 || x in NostrUri.ValidURIRefs(uriMatches))
      && RefToMyPost(ctx, x)
    ensures r.invalidTagIndexRefs == TagIndex.TagIndexRefsOf(ev.tags, ev.content).1
    ensures r.invalidNostrURIRefs == NostrUri.InvalidURIRefs(uriMatches)
  {
    var pTags := GetPTags(ev.tags);
    var eTags := GetETags(ev.tags);
    var pTagToMe := Filter(pTags, (t: PTag) => t.pubkey == ctx.pubkey);
    var eTagsToMyPosts := Filter(eTags, (t: ETag) => t.eventId in ctx.myPostIds);
    var (tagIndexRefs, invalidTagIndexRefs) := TagIndex.TagIndexRefsOf(ev.tags, ev.content);
    var (nostrURIRefs, invalidNostrURIRefs) := NostrUri.NostrURIRefsOf(uriMatches);
    var refs := tagIndexRefs + nostrURIRefs;
    var toMe := (x: TextNoteRef) => RefToMe(ctx, x);
    var toMyPosts := (x: TextNoteRef) => RefToMyPost(ctx, x);
    FilterMemberAll(pTags, (t: PTag) => t.pubkey == ctx.pubkey);
    FilterMemberAll(eTags, (t: ETag) => t.eventId in ctx.myPostIds);
    PTagsWithPubkey(ev.tags, ctx.pubkey);
    ETagsWithIdIn(ev.tags, ctx.myPostIds);
    FilterMemberAll(refs, toMe);
    FilterMemberAll(refs, toMyPosts);
    CheckResult(pTagToMe, eTagsToMyPosts, Filter(refs, toMe), Filter(refs, toMyPosts),
                invalidTagIndexRefs, invalidNostrURIRefs)
  }

  /**
   * Keeping the p-tags with a given pubkey is reading the p-tags of the raw
   * tags that carry it: the same tags, in the same order and multiplicity.
   */
  lemma {:induction false} PTagsWithPubkey(tags: seq<Tag>, key: string)
    ensures Filter(GetPTags(tags), (t: PTag) => t.pubkey == key)
      == GetPTags(Filter(tags, (t: Tag) => IsPTag(t) && t[1] == key))
  {
    if tags != [] {
      var t := tags[0];
      var ps := GetPTags(tags[1..]);
      var fs := Filter(tags[1..], (t: Tag) => IsPTag(t) && t[1] == key);
      PTagsWithPubkey(tags[1..], key);
      if IsPTag(t) {
        assert ([ToPTag(t)] + ps)[0] == ToPTag(t) && ([ToPTag(t)] + ps)[1..] == ps;
      }
      if IsPTag(t) && t[1] == key {
        assert ([t] + fs)[0] == t && ([t] + fs)[1..] == fs;
      }
    }
  }

  /** The same for the e-tags whose id is one of `ids`. */
  lemma {:induction false} ETagsWithIdIn(tags: seq<Tag>, ids: seq<string>)
    ensures Filter(GetETags(tags), (t: ETag) => t.eventId in ids)
      == GetETags(Filter(tags, (t: Tag) => IsETag(t) && t[1] in ids))
  {
    if tags != [] {
      var t := tags[0];
      var es := GetETags(tags[1..]);
      var fs := Filter(tags[1..], (t: Tag) => IsETag(t) && t[1] in ids);
      ETagsWithIdIn(tags[1..], ids);
      if IsETag(t) {
        assert ([ToETag(t)] + es)[0] == ToETag(t) && ([ToETag(t)] + es)[1..] == es;
      }
      if IsETag(t) && t[1] in ids {
        assert ([t] + fs)[0] == t && ([t] + fs)[1..] == fs;
      }
    }
  }

  /** The references to the bot keep the NIP-08 ones before the NIP-27 ones. */
  lemma RefsInOrder(ev: Event, uriMatches: seq<NostrURIMatch>, ctx: CheckContext)
    ensures var r := CheckReplyEvent(ev, uriMatches, ctx);
      var tagIndexRefs := TagIndex.TagIndexRefsOf(ev.tags, ev.content).0;
      var uriRefs := NostrUri.ValidURIRefs(uriMatches);
      && r.refsToMe == Filter(tagIndexRefs, (x: TextNoteRef) => RefToMe(ctx, x))
                       + Filter(uriRefs, (x: TextNoteRef) => RefToMe(ctx, x))
      && r.refsToMyPosts == Filter(tagIndexRefs, (x: TextNoteRef) => RefToMyPost(ctx, x))
                            + Filter(uriRefs, (x: TextNoteRef) => RefToMyPost(ctx, x))
  {
    var tagIndexRefs := TagIndex.TagIndexRefsOf(ev.tags, ev.content).0;
    var uriRefs := NostrUri.ValidURIRefs(uriMatches);
    FilterAppend(tagIndexRefs, uriRefs, (x: TextNoteRef) => RefToMe(ctx, x));
    FilterAppend(tagIndexRefs, uriRefs, (x: TextNoteRef) => RefToMyPost(ctx, x));
  }

  /**
   * In terms of the raw tags: there is a p-tag to the bot iff some tag is
   * `["p", ctx.pubkey, ...]` with a non-empty pubkey.
   */
  lemma PTagToMeIff(ev: Event, uriMatches: seq<NostrURIMatch>, ctx: CheckContext)
    ensures CheckReplyEvent(ev, uriMatches, ctx).pTagToMe != [] <==>
      exists k :: 0 <= k < |ev.tags| && IsPTag(ev.tags[k]) && ev.tags[k][1] == ctx.pubkey
  {
    var r := CheckReplyEvent(ev, uriMatches, ctx);
    if r.pTagToMe != [] {
      assert r.pTagToMe[0] in r.pTagToMe;
      GetPTagsFrom(ev.tags, r.pTagToMe[0]);
    }
    if exists k :: 0 <= k < |ev.tags| && IsPTag(ev.tags[k]) && ev.tags[k][1] == ctx.pubkey {
      var k :| 0 <= k < |ev.tags| && IsPTag(ev.tags[k]) && ev.tags[k][1] == ctx.pubkey;
      assert ToPTag(ev.tags[k]) in r.pTagToMe;
    }
  }

  /**
   * In terms of the raw tags: there is an e-tag to one of the bot's posts iff
   * some tag is `["e", id, ...]` with `id` one of `ctx.myPostIds`.
   */
  lemma ETagsToMyPostsIff(ev: Event, uriMatches: seq<NostrURIMatch>, ctx: CheckContext)
    ensures CheckReplyEvent(ev, uriMatches, ctx).eTagsToMyPosts != [] <==>
      exists k :: 0 <= k < |ev.tags| && IsETag(ev.tags[k]) && ev.tags[k][1] in ctx.myPostIds
  {
    var r := CheckReplyEvent(ev, uriMatches, ctx);
    if r.eTagsToMyPosts != [] {
      assert r.eTagsToMyPosts[0] in r.eTagsToMyPosts;
      GetETagsFrom(ev.tags, r.eTagsToMyPosts[0]);
    }
    if exists k :: 0 <= k < |ev.tags| && IsETag(ev.tags[k]) && ev.tags[k][1] in ctx.myPostIds {
      var k :| 0 <= k < |ev.tags| && IsETag(ev.tags[k]) && ev.tags[k][1] in ctx.myPostIds;
      assert ToETag(ev.tags[k]) in r.eTagsToMyPosts;
    }
  }

  /**
   * A `nostr:` URI of a kind the checker does not understand is reported as
   * invalid and never becomes a reference to the bot or to its posts.
   */
  lemma UnsupportedURIIsInvalid(ev: Event, uriMatches: seq<NostrURIMatch>, ctx: CheckContext, m: NostrURIMatch)
    requires m in uriMatches && m.decoded.OtherKind?
    ensures var r := CheckReplyEvent(ev, uriMatches, ctx);
      && InvalidNostrURIRef(m) in r.invalidNostrURIRefs
      && (forall x :: x in r.refsToMe + r.refsToMyPosts ==> !(x.NostrURIRef? && x.uri == m))
  {
    NostrUri.InvalidURIRefsFrom(uriMatches);
    NostrUri.ValidURIRefsFrom(uriMatches);
    TagIndex.ValidOfAreResolved(ev.tags, TagIndex.Scan(ev.content));
  }

  /** `hasEntry`. */
  function HasEntry<T>(arr: seq<T>): (b: bool)
    ensures b <==> arr != []
  {
    |arr| > 0
  }

  datatype PostType = Reply | Quote

  /** `detectPostType`: the fixed decision table. */
  function DetectPostType(res: CheckResult): (r: seq<PostType>)
    ensures r == [Quote, Reply] <==>
      res.pTagToMe != [] && res.eTagsToMyPosts != [] && res.refsToMyPosts != []
    ensures r == [Reply] <==>
      res.pTagToMe != [] && !(res.eTagsToMyPosts != [] && res.refsToMyPosts != [])
    ensures r == [Quote] <==> res.pTagToMe == [] && res.eTagsToMyPosts != []
    ensures r == [] <==> res.pTagToMe == [] && res.eTagsToMyPosts == []
    ensures Reply in r <==> res.pTagToMe != []
    ensures forall i, j :: 0 <= i < j < |r| ==> r[i] == Quote && r[j] == Reply
  {
    if HasEntry(res.pTagToMe) && HasEntry(res.eTagsToMyPosts) then
      if HasEntry(res.refsToMyPosts) then [Quote, Reply] else [Reply]
    else if HasEntry(res.pTagToMe) then [Reply]
    else if HasEntry(res.eTagsToMyPosts) then [Quote]
    else []
  }

  /** The post-reference list decides anything only when both tag lists are non-empty. */
  lemma RefsToMyPostsMatterOnlyWithBothTags(a: CheckResult, b: CheckResult)
    requires a.pTagToMe == b.pTagToMe && a.eTagsToMyPosts == b.eTagsToMyPosts
    requires a.pTagToMe == [] || a.eTagsToMyPosts == []
    ensures DetectPostType(a) == DetectPostType(b)
  {
  }
}
