/**
 * The diagnostic message (src/check.ts, msg and buildResultMessage). The
 * wording of the templates is data; what is modelled is which template each
 * condition selects and how the pieces are joined.
 */
module Message {
  import opened Seqs
  import opened Decimal
  import opened Refs
  import opened Check

  /** The keys of the `msg` table. */
  datatype MsgKey =
    | ValidReply | ReplyWith27Ref | ReplyWith08Ref | ReplyWithoutRef | ReplyWithoutRefAndETag
    | ValidQuote | QuoteWith27Ref | QuoteWith08Ref | QuoteWithoutRef
    | Invalid

  /** The `msg` table: the wording of each template. */
  function Msg(k: MsgKey): string
  {
    match k
    case ValidReply => "✅正しいリプライです！"
    case ReplyWith27Ref => "- 💯本文にリプライ先ユーザへの参照(NIP-27形式)が含まれています"
    case ReplyWith08Ref => "- ⚠️本文にリプライ先ユーザへの参照(NIP-08形式)が含まれています。この形式は現在では古い仕様となっています"
    case ReplyWithoutRef => "- 🙂本文にリプライ先ユーザへの参照が含まれていません。NIP-27に従って参照を含めることで、リプライ対象がわかりやすく表示されるようになります"
    case ReplyWithoutRefAndETag => "- 😶本文にリプライ先ユーザへの参照が含まれていません。特定の投稿を対象としないリプライの場合は、NIP-27に従って参照を含めることでリプライ対象のユーザを明示することをおすすめします"
    case ValidQuote => "✅正しい引用リポストです！"
    case QuoteWith27Ref => "- 💯本文に引用先投稿への参照(NIP-27形式)が含まれています"
    case QuoteWith08Ref => "- ⚠️本文に引用先投稿への参照(NIP-08形式)が含まれています。この形式は現在では古い仕様となっています"
    case QuoteWithoutRef => "🤔投稿を指すeタグが含まれていますが、本文に引用先投稿への参照が含まれていません。引用リポストとして正しく表示されない可能性があります！"
    case Invalid => "❌不正なリプライ/引用リポストです！ pタグまたはeタグの値が正しくない可能性があります"
  }

  const InvalidTagIndexRefsHead := "🤯本文に含まれているNIP-08形式の参照(#[n])のうち、"
  const InvalidNostrURIRefsHead := "🤯本文に含まれているNIP-27形式の参照(nostr: ...)のうち、"
  const InvalidRefsTail := "件が不正です！"

  /** The footer line for `n` invalid `#[n]` mentions: the count sits, in decimal, between a fixed head and tail. */
  function InvalidTagIndexRefsLine(n: nat): (s: string)
    ensures |InvalidTagIndexRefsHead| + |InvalidRefsTail| < |s|
    ensures s[..|InvalidTagIndexRefsHead|] == InvalidTagIndexRefsHead
    ensures s[|s| - |InvalidRefsTail|..] == InvalidRefsTail
    ensures var d := s[|InvalidTagIndexRefsHead|..|s| - |InvalidRefsTail|]; IsCanonical(d) && DecimalValue(d) == n
  {
    var s := InvalidTagIndexRefsHead + NatToString(n) + InvalidRefsTail;
    assert s[|InvalidTagIndexRefsHead|..|s| - |InvalidRefsTail|] == NatToString(n);
    DecimalValueOfNatToString(n);
    s
  }

  /** The footer line for `n` invalid `nostr:` mentions, built the same way. */
  function InvalidNostrURIRefsLine(n: nat): (s: string)
    ensures |InvalidNostrURIRefsHead| + |InvalidRefsTail| < |s|
    ensures s[..|InvalidNostrURIRefsHead|] == InvalidNostrURIRefsHead
    ensures s[|s| - |InvalidRefsTail|..] == InvalidRefsTail
    ensures var d := s[|InvalidNostrURIRefsHead|..|s| - |InvalidRefsTail|]; IsCanonical(d) && DecimalValue(d) == n
  {
    var s := InvalidNostrURIRefsHead + NatToString(n) + InvalidRefsTail;
    assert s[|InvalidNostrURIRefsHead|..|s| - |InvalidRefsTail|] == NatToString(n);
    DecimalValueOfNatToString(n);
    s
  }

  /** The footer lines tell the counts apart, and never mistake one kind of line for the other. */
  lemma InvalidRefsLinesDistinct(n: nat, m: nat)
    ensures InvalidTagIndexRefsLine(n) == InvalidTagIndexRefsLine(m) <==> n == m
    ensures InvalidNostrURIRefsLine(n) == InvalidNostrURIRefsLine(m) <==> n == m
    ensures InvalidTagIndexRefsLine(n) != InvalidNostrURIRefsLine(m)
  {
  }

  /**
   * Every reference is a `nostr:` URI. As with `every`, an empty list passes,
   * which is why the callers test for an empty list first.
   */
  predicate AllNostrURI(refs: seq<TextNoteRef>)
    ensures refs == [] ==> AllNostrURI(refs)
  {
    forall k :: 0 <= k < |refs| ==> refs[k].NostrURIRef?
  }

  /**
   * The lines of a reply block: "valid reply", then exactly one of four
   * templates; the NIP-27 one only when every mention of the bot is a
   * `nostr:` URI.
   */
  function ReplyKeys(res: CheckResult): (ks: seq<MsgKey>)
    ensures ks == [ValidReply, ReplyWith27Ref] <==> res.refsToMe != [] && AllNostrURI(res.refsToMe)
    ensures ks == [ValidReply, ReplyWith08Ref] <==> res.refsToMe != [] && !AllNostrURI(res.refsToMe)
    ensures ks == [ValidReply, ReplyWithoutRef] <==> res.refsToMe == [] && res.eTagsToMyPosts != []
    ensures ks == [ValidReply, ReplyWithoutRefAndETag] <==> res.refsToMe == [] && res.eTagsToMyPosts == []
  {
    if res.refsToMe != [] then
      if AllNostrURI(res.refsToMe) then [ValidReply, ReplyWith27Ref] else [ValidReply, ReplyWith08Ref]
    else if res.eTagsToMyPosts != [] then [ValidReply, ReplyWithoutRef]
    else [ValidReply, ReplyWithoutRefAndETag]
  }

  /**
   * The lines of a quote block: "valid quote" and the format of the mention of
   * the post, or the single warning line when the content does not mention it.
   */
  function QuoteKeys(res: CheckResult): (ks: seq<MsgKey>)
    ensures ks == [ValidQuote, QuoteWith27Ref] <==>
      res.refsToMyPosts != [] && AllNostrURI(res.refsToMyPosts)
    ensures ks == [ValidQuote, QuoteWith08Ref] <==>
      res.refsToMyPosts != [] && !AllNostrURI(res.refsToMyPosts)
    ensures ks == [QuoteWithoutRef] <==> res.refsToMyPosts == []
  {
    if res.refsToMyPosts != [] then
      if AllNostrURI(res.refsToMyPosts) then [ValidQuote, QuoteWith27Ref] else [ValidQuote, QuoteWith08Ref]
    else [QuoteWithoutRef]
  }

  function BlockKeys(res: CheckResult, pt: PostType): seq<MsgKey>
  {
    match pt
    case Reply => ReplyKeys(res)
    case Quote => QuoteKeys(res)
  }

  /** `lines.join("\n")` of a block's templates. */
  function Block(res: CheckResult, pt: PostType): string
  {
    var ks := BlockKeys(res, pt);
    if |ks| == 1 then Msg(ks[0]) else Msg(ks[0]) + "\n" + Msg(ks[1])
  }

  /** The footer: the count line of each non-empty invalid list, NIP-08 first. */
  function Footer(res: CheckResult): (f: string)
    ensures f == "" <==> res.invalidTagIndexRefs == [] && res.invalidNostrURIRefs == []
  {
    var n08, n27 := |res.invalidTagIndexRefs|, |res.invalidNostrURIRefs|;
    if n08 > 0 && n27 > 0 then InvalidTagIndexRefsLine(n08) + "\n" + InvalidNostrURIRefsLine(n27)
    else if n08 > 0 then InvalidTagIndexRefsLine(n08)
    else if n27 > 0 then InvalidNostrURIRefsLine(n27)
    else ""
  }

  /** The blocks in the order the decision table gives, or the "invalid" line. */
  function Body(res: CheckResult): string
  {
    var pts := DetectPostType(res);
    if pts == [Quote, Reply] then Block(res, Quote) + "\n\n" + Block(res, Reply)
    else if pts == [Reply] then Block(res, Reply)
    else if pts == [Quote] then Block(res, Quote)
    else Msg(Invalid)
  }

  /** The whole message: the body, a blank line, and the footer (even when empty). */
  function ResultMessage(res: CheckResult): string
  {
    Body(res) + "\n\n" + Footer(res)
  }

  /**
   * `buildResultMessage`: pushes each block's lines, joins them with a newline,
   * falls back to the "invalid" line, pushes the joined footer lines, and joins
   * everything with a blank line.
   */
  method BuildResultMessage(res: CheckResult) returns (m: string)
    ensures m == ResultMessage(res)
  {
    var pts := DetectPostType(res);
    var submsgs: seq<string> := [];
    for i := 0 to |pts|
      invariant |submsgs| == i
      invariant forall k :: 0 <= k < i ==> submsgs[k] == Block(res, pts[k])
    {
      var lines: seq<string> := [];
      match pts[i] {
        case Reply =>
          lines := lines + [Msg(ValidReply)];
          if HasEntry(res.refsToMe) {
            if AllNostrURI(res.refsToMe) {
              lines := lines + [Msg(ReplyWith27Ref)];
            } else {
              lines := lines + [Msg(ReplyWith08Ref)];
            }
          } else {
            if HasEntry(res.eTagsToMyPosts) {
              lines := lines + [Msg(ReplyWithoutRef)];
            } else {
              lines := lines + [Msg(ReplyWithoutRefAndETag)];
            }
          }
          JoinSnoc([lines[0]], lines[1], "\n");
        case Quote =>
          if HasEntry(res.refsToMyPosts) {
            lines := lines + [Msg(ValidQuote)];
            if AllNostrURI(res.refsToMyPosts) {
              lines := lines + [Msg(QuoteWith27Ref)];
            } else {
              lines := lines + [Msg(QuoteWith08Ref)];
            }
            JoinSnoc([lines[0]], lines[1], "\n");
          } else {
            lines := lines + [Msg(QuoteWithoutRef)];
          }
      }
      submsgs := submsgs + [Join(lines, "\n")];
    }

    if |submsgs| == 0 {
      submsgs := submsgs + [Msg(Invalid)];
    }

    var invalidRefMsgs: seq<string> := [];
    if HasEntry(res.invalidTagIndexRefs) {
      invalidRefMsgs := invalidRefMsgs + [InvalidTagIndexRefsLine(|res.invalidTagIndexRefs|)];
    }
    if HasEntry(res.invalidNostrURIRefs) {
      if invalidRefMsgs != [] {
        JoinSnoc(invalidRefMsgs, InvalidNostrURIRefsLine(|res.invalidNostrURIRefs|), "\n");
      }
      invalidRefMsgs := invalidRefMsgs + [InvalidNostrURIRefsLine(|res.invalidNostrURIRefs|)];
    }
    assert Join(invalidRefMsgs, "\n") == Footer(res);

    JoinSnoc(submsgs, Join(invalidRefMsgs, "\n"), "\n\n");
    if |submsgs| == 2 {
      JoinSnoc([submsgs[0]], submsgs[1], "\n\n");
      assert submsgs == [submsgs[0]] + [submsgs[1]];
    }
    assert Join(submsgs, "\n\n") == Body(res);
    m := Join(submsgs + [Join(invalidRefMsgs, "\n")], "\n\n");
  }

  // ---------------------------------------------------------------------------
  // Whole-pipeline consequences
  // ---------------------------------------------------------------------------

  /** An event with no tags and no content gets exactly the "invalid" line and an empty footer. */
  lemma EmptyEventMessage(ctx: CheckContext)
    ensures ResultMessage(CheckReplyEvent(Event("", []), [], ctx)) == Msg(Invalid) + "\n\n"
  {
    var res := CheckReplyEvent(Event("", []), [], ctx);
    assert TagIndex.Scan("") == [];
    assert TagIndex.Resolutions([], []) == [];
    assert res.pTagToMe == [] && res.eTagsToMyPosts == [];
    assert res.invalidTagIndexRefs == [] && res.invalidNostrURIRefs == [];
  }

  /**
   * A bare p-tag to the bot, no content: a reply that neither mentions the bot
   * nor targets one of its posts.
   */
  lemma PTagOnlyMessage(ctx: CheckContext)
    requires ctx.pubkey != ""
    ensures ResultMessage(CheckReplyEvent(Event("", [["p", ctx.pubkey]]), [], ctx))
      == Msg(ValidReply) + "\n" + Msg(ReplyWithoutRefAndETag) + "\n\n"
  {
    var tags: seq<Tags.Tag> := [["p", ctx.pubkey]];
    var res := CheckReplyEvent(Event("", tags), [], ctx);
    assert TagIndex.Scan("") == [];
    assert TagIndex.Resolutions(tags, []) == [];
    assert Tags.ToPTag(tags[0]) in res.pTagToMe;
    assert Tags.GetETags(tags) == [] by {
      assert tags[1..] == [];
    }
    assert res.refsToMe == [] && res.eTagsToMyPosts == [];
    assert res.invalidTagIndexRefs == [] && res.invalidNostrURIRefs == [];
  }

  /** The example event of QuoteAndReplyExample has a p-tag to the bot and an e-tag to its post. */
  lemma QuoteAndReplyExampleTags(res: CheckResult)
    requires res == CheckReplyEvent(Event("#[0] #[1]", [["p", "A"], ["e", "B", "", "root"]]), [], CheckContext("A", ["B"]))
    ensures res.pTagToMe != [] && res.eTagsToMyPosts != []
  {
    var ev := Event("#[0] #[1]", [["p", "A"], ["e", "B", "", "root"]]);
    var ctx := CheckContext("A", ["B"]);
    PTagToMeIff(ev, [], ctx);
    ETagsToMyPostsIff(ev, [], ctx);
    assert Tags.IsPTag(ev.tags[0]) && ev.tags[0][1] == ctx.pubkey;
    assert Tags.IsETag(ev.tags[1]) && ev.tags[1][1] in ctx.myPostIds;
  }

  /** The example event of QuoteAndReplyExample mentions the bot and its post in the NIP-08 form only. */
  lemma QuoteAndReplyExampleRefs(res: CheckResult)
    requires res == CheckReplyEvent(Event("#[0] #[1]", [["p", "A"], ["e", "B", "", "root"]]), [], CheckContext("A", ["B"]))
    ensures res.refsToMe != [] && !AllNostrURI(res.refsToMe)
    ensures res.refsToMyPosts != [] && !AllNostrURI(res.refsToMyPosts)
    ensures res.invalidTagIndexRefs == [] && res.invalidNostrURIRefs == []
  {
    var tags: seq<Tags.Tag> := [["p", "A"], ["e", "B", "", "root"]];
    var content := "#[0] #[1]";
    TagIndex.TwoMentionsExample();
    var p0 := TagIndexRef(0, Pubkey, "A", tags[0]);
    var e1 := TagIndexRef(1, EventId, "B", tags[1]);
    assert p0 in TagIndex.TagIndexRefsOf(tags, content).0;
    assert e1 in TagIndex.TagIndexRefsOf(tags, content).0;
    assert p0 in res.refsToMe;
    assert e1 in res.refsToMyPosts;
  }

  /**
   * A quote and a reply whose mentions of the bot and of its post are not all
   * `nostr:` URIs, with nothing invalid: the quote block comes first and both
   * blocks report the deprecated NIP-08 form.
   */
  lemma QuoteAndReplyWith08Refs(res: CheckResult)
    requires res.pTagToMe != [] && res.eTagsToMyPosts != []
    requires res.refsToMe != [] && !AllNostrURI(res.refsToMe)
    requires res.refsToMyPosts != [] && !AllNostrURI(res.refsToMyPosts)
    requires res.invalidTagIndexRefs == [] && res.invalidNostrURIRefs == []
    ensures ResultMessage(res) ==
      Msg(ValidQuote) + "\n" + Msg(QuoteWith08Ref) + "\n\n" + Msg(ValidReply) + "\n" + Msg(ReplyWith08Ref) + "\n\n"
  {
  }

  /**
   * Tags `["p","A"]`, `["e","B","","root"]` and content "#[0] #[1]" checked by
   * the bot "A" with post "B": a quote and a reply, both mentioned in the
   * deprecated NIP-08 form, quote block first.
   */
  lemma QuoteAndReplyExample(res: CheckResult)
    requires res == CheckReplyEvent(Event("#[0] #[1]", [["p", "A"], ["e", "B", "", "root"]]), [], CheckContext("A", ["B"]))
    ensures DetectPostType(res) == [Quote, Reply]
    ensures ResultMessage(res) ==
      Msg(ValidQuote) + "\n" + Msg(QuoteWith08Ref) + "\n\n" + Msg(ValidReply) + "\n" + Msg(ReplyWith08Ref) + "\n\n"
  {
    QuoteAndReplyExampleTags(res);
    QuoteAndReplyExampleRefs(res);
    QuoteAndReplyWith08Refs(res);
  }

  /** QuoteAndReplyExample, stated of the event itself. */
  lemma QuoteAndReplyEvent()
    ensures var res := CheckReplyEvent(Event("#[0] #[1]", [["p", "A"], ["e", "B", "", "root"]]), [], CheckContext("A", ["B"]));
      DetectPostType(res) == [Quote, Reply] &&
      ResultMessage(res) ==
        Msg(ValidQuote) + "\n" + Msg(QuoteWith08Ref) + "\n\n" + Msg(ValidReply) + "\n" + Msg(ReplyWith08Ref) + "\n\n"
  {
    QuoteAndReplyExample(CheckReplyEvent(Event("#[0] #[1]", [["p", "A"], ["e", "B", "", "root"]]), [], CheckContext("A", ["B"])));
  }
}
