# nostr-bot-reply-checker, modelled in Dafny

This project models the checking engine of a Nostr bot that replies to the text notes sent to it. The bot tells the author whether their note is a valid **reply** to the bot's key, a valid **quote repost** of one of the bot's posts, or both. It also says how the note mentions the bot, so that clients render it correctly. The engine is `src/check.ts`, and it has five layers:

1. **Tag reading.** `getPTags` and `getETags` read NIP-01 `["p", pubkey, relay?]` and `["e", id, relay?, marker?]` tags (module `Tags`).
2. **NIP-08 mentions.** The content is scanned for `#[n]` tokens. Each index is resolved against the event's own tag list (module `TagIndex`). The regular expression `/#\[([0-9]|[1-9][0-9]+)\]/g` is written out as an explicit scanner. Its no-leading-zero rule is the predicate `Decimal.IsCanonical`.
3. **NIP-27 mentions.** Each `nostr:` URI, already decoded as a NIP-19 entity, is mapped to a pubkey or an event id (module `NostrUri`).
4. **Relevance filtering and classification.** `checkReplyEvent` keeps what points at the bot's pubkey or at one of its post ids. `detectPostType` applies the fixed decision table (module `Check`).
5. **The diagnostic message.** `buildResultMessage` picks templates from the `msg` table, joins the blocks, and appends the footer of invalid-mention counts (module `Message`).

Shared records are in `Refs`. `Option` is in `Wrappers`. `Array.prototype.filter` and `join` are in `Seqs`. `Number()` on a digit string and the `${n}` interpolation are in `Decimal`.

The three places where the source loops and pushes into local arrays are methods with loops:

- `extractTagIndexRefs`
- `extractNostrURIRefs`
- `buildResultMessage`

Each method is proved equal to a specification function, and the lemmas about that function state what the source promises. The filter/map/switch code is written as functions.

What the message code does with its templates:

- The `msg` table has ten templates, and the footer adds two count lines. They are modelled as the key datatype `Message.MsgKey` and its wording function `Message.Msg`.
- The contracts say which key a condition selects and how the selected texts are joined. Their wording is carried along but not reasoned about.

## Model

| member | source | states |
|---|---|---|
| `Tags.GetPTags` | src/check.ts:16-21 | every result has a non-empty pubkey; every tag `["p", x, ...]` with non-empty `x` gives `PTag(x, t[2])`; no more results than tags |
| `Tags.GetETags` | src/check.ts:23-28 | every result has a non-empty id; every tag `["e", x, ...]` with non-empty `x` gives `ETag(x, t[2], t[3])`; no more results than tags |
| `Tags.GetPTagsOne` | src/check.ts:16-21 | one tag gives exactly its `PTag(t[1], t[2])` if it is a p-tag with a value, and nothing otherwise (other tags are dropped silently) |
| `Tags.GetETagsOne` | src/check.ts:23-28 | one tag gives exactly `ETag(t[1], t[2], t[3])` if it is an e-tag with a value, and nothing otherwise |
| `Tags.GetPTagsAppend` | src/check.ts:16-21 | reading a concatenation reads each part in order; with `GetPTagsOne` this fixes the result and its source order |
| `Tags.GetETagsAppend` | src/check.ts:23-28 | same for e-tags |
| `Tags.GetPTagsFrom` | src/check.ts:16-21 | every p-tag read comes from some p-tag of the list |
| `Tags.GetETagsFrom` | src/check.ts:23-28 | every e-tag read comes from some e-tag of the list |
| `Decimal.DecimalValue` | src/check.ts:53 | the base-ten value of a digit string; it is zero exactly when every digit is `0` |
| `Decimal.NatToString` | src/check.ts:276-285 | the decimal rendering of a count is a canonical digit string (one digit, or no leading zero), and it starts with `0` only for zero |
| `Decimal.DecimalValueOfNatToString` | src/check.ts:53 | reading back a rendered number gives the number |
| `Decimal.NatToStringOfDecimalValue` | src/check.ts:45-53 | rendering the value of an accepted token body gives the body back, so accepted bodies and indices correspond one to one |
| `TagIndex.TokenAt` | src/check.ts:45 | a token found at `i` really is `"#[" + d + "]"` at `i` with `d` canonical |
| `TagIndex.TokenAtComplete` | src/check.ts:45 | conversely, every such token at `i` is found, with exactly that body |
| `TagIndex.TokenExamples` | src/check.ts:45 | `#[0]`, `#[7]`, `#[10]` are tokens with bodies "0", "7", "10"; `#[01]`, `#[]`, `#[x]` are not |
| `TagIndex.Scan` | src/check.ts:52 | the matches of a whole content string, each with a canonical digit body (the rest is `ScanCorrect`) |
| `TagIndex.ScanFrom` | src/check.ts:52 | every match of the scan has a canonical digit body |
| `TagIndex.ScanFromTokens` | src/check.ts:52 | every match is the token at its start, and no match starts before the scan position |
| `TagIndex.ScanFromOrdered` | src/check.ts:52 | matches go left to right without overlap: each ends before the next begins |
| `TagIndex.ScanFromComplete` | src/check.ts:52 | the scan reports a match at exactly the positions where a token starts (no token can start inside another, so none is skipped) |
| `TagIndex.ScanCorrect` | src/check.ts:45-52 | for a whole content string: matches are tokens, in order, non-overlapping, inside the string, and exactly the token starts |
| `TagIndex.ScanExample` | src/check.ts:45-52 | the scan of "#[0] #[1]" is `#[0]` at 0, then `#[1]` at 5 |
| `TagIndex.ResolveTagIndex` | src/check.ts:53-81 | an index is valid iff it is in range and `tags[index]` is a p- or e-tag with a non-empty value; a valid one is `TagIndexRef(index, pubkey for "p" / eventId for "e", tags[index][1], tags[index])`; an invalid one records the index and the tag, or none when out of range |
| `TagIndex.ValidInvalidCount` | src/check.ts:50-83 | valid count plus invalid count equals the number of resolutions |
| `TagIndex.OfComplete` | src/check.ts:55-81 | a resolved index puts its reference in the valid list and an unresolved one its entry in the invalid list |
| `TagIndex.OfAppend` | src/check.ts:50-83 | the lists for a concatenation of resolutions are the lists of each part, in order; with the one-resolution definition this fixes order and duplicates |
| `TagIndex.TagIndexRefsComplete` | src/check.ts:47-84 | every `#[n]` found in the content is reported: its reference is valid when the index resolves, its invalid entry recorded when it does not |
| `TagIndex.ValidOfAreResolved` | src/check.ts:60-78 | every valid reference points into a p- or e-tag of the list, with referent `tag[1]` and the referent type that matches the tag name |
| `TagIndex.ExtractTagIndexRefs` | src/check.ts:47-84 | the push loop yields exactly the specification's valid and invalid lists, in scan order, and their sizes add up to the number of matches |
| `TagIndex.TwoMentionsExample` | src/check.ts:47-84 | over tags `["p","A"]`, `["e","B","","root"]` the content "#[0] #[1]" gives a pubkey reference to "A" and an event-id reference to "B", and nothing invalid |
| `NostrUri.NostrURIRefFromURIMatch` | src/check.ts:97-116 | npub maps to (pubkey, data), nprofile to (pubkey, data.pubkey), note to (eventId, data), nevent to (eventId, data.id); a URI reference keeps its match; no reference iff the kind is any other |
| `NostrUri.URIRefsCount` | src/check.ts:118-131 | the valid and the invalid list together have exactly one entry per match |
| `NostrUri.KnownKindIsValid` | src/check.ts:122-128 | every match of kind npub, nprofile, note or nevent puts its reference in the valid list |
| `NostrUri.URIRefsAppend` | src/check.ts:118-131 | the lists for a concatenation of matches are the lists of each part, in order; with the one-match definition this fixes order and duplicates |
| `NostrUri.ValidURIRefsFrom` | src/check.ts:122-128 | every valid reference is a URI reference to one of the matches, and is that match's mapping |
| `NostrUri.InvalidURIRefsFrom` | src/check.ts:122-128 | the invalid entries are exactly the matches of an unknown kind, kept whole |
| `NostrUri.ExtractNostrURIRefs` | src/check.ts:118-131 | the push loop yields exactly the specification's lists, in match order, with sizes adding up to the number of matches |
| `Check.CheckReplyEvent` | src/check.ts:149-178 | the p-tags to the bot are the p-tags with its pubkey, and the e-tags to its posts the e-tags with an id in `myPostIds`, both as membership and as the reading of exactly those raw tags in source order and multiplicity; the references to the bot (resp. its posts) are the NIP-08 and NIP-27 references with that referent; the invalid lists pass through unchanged |
| `Check.PTagsWithPubkey` | src/check.ts:153-156 | keeping the p-tags with a pubkey gives the same list, order and duplicates included, as reading the p-tags of just the raw tags that carry it |
| `Check.ETagsWithIdIn` | src/check.ts:154-157 | the same for the e-tags with an id among the bot's post ids |
| `Check.RefsInOrder` | src/check.ts:162-168 | in both reference lists the NIP-08 references come before the NIP-27 ones, each group in its own order |
| `Check.PTagToMeIff` | src/check.ts:153-156 | there is a p-tag to the bot iff some raw tag is `["p", ctx.pubkey, ...]` with a non-empty pubkey |
| `Check.ETagsToMyPostsIff` | src/check.ts:154-157 | there is an e-tag to the bot's posts iff some raw tag is `["e", id, ...]` with `id` in `myPostIds` |
| `Check.UnsupportedURIIsInvalid` | src/check.ts:160-168 | a URI of an unknown kind is in the invalid URI list and is never a reference to the bot or its posts |
| `Check.HasEntry` | src/check.ts:182 | true iff the array is non-empty |
| `Check.DetectPostType` | src/check.ts:184-204 | `[quote, reply]` iff all three lists are non-empty; `[reply]` iff there is a p-tag to the bot but not all three; `[quote]` iff no p-tag but an e-tag; `[]` iff neither tag list; reply in the result iff there is a p-tag to the bot; reply never precedes quote |
| `Check.RefsToMyPostsMatterOnlyWithBothTags` | src/check.ts:184-204 | when one of the tag lists is empty, the references to the bot's posts do not change the classification |
| `Message.Msg` | src/check.ts:206-224 | the wording of each of the ten templates, by key; the other message members select keys and carry these texts unchanged |
| `Message.AllNostrURI` | src/check.ts:241 | every reference is a `nostr:` URI; like `every`, it holds of the empty list |
| `Message.InvalidTagIndexRefsLine` | src/check.ts:276-278 | the footer line for `#[n]` mentions: a fixed head and tail with, between them, the canonical decimal digits of the count |
| `Message.InvalidNostrURIRefsLine` | src/check.ts:281-283 | the footer line for `nostr:` mentions, built the same way |
| `Message.InvalidRefsLinesDistinct` | src/check.ts:274-284 | distinct counts give distinct lines, and a NIP-08 line is never a NIP-27 line |
| `Message.ReplyKeys` | src/check.ts:238-253 | a reply block is "valid reply" and then exactly one of: the NIP-27 line iff there are references to the bot and all are URIs; the NIP-08 line iff there are references and not all are URIs; "no reference" iff there are none and there is an e-tag to the bot's posts; "no reference, no e-tag" iff neither |
| `Message.QuoteKeys` | src/check.ts:255-266 | a quote block is "valid quote" and the NIP-27 line iff there are references to the bot's posts and all are URIs; "valid quote" and the NIP-08 line iff there are some and not all are URIs; the single warning line iff there are none |
| `Message.Footer` | src/check.ts:275-286 | the footer is empty iff there are no invalid mentions of either kind |
| `Message.BuildResultMessage` | src/check.ts:226-289 | the push-and-join construction gives exactly the specified message: the blocks in classification order (or the "invalid" line), a blank line, and the footer |
| `Message.EmptyEventMessage` | src/check.ts:271-288 | an event with no tags and no content gets exactly the "invalid" line followed by `"\n\n"` |
| `Message.PTagOnlyMessage` | src/check.ts:238-252 | a single p-tag to the bot and no content gives "valid reply" plus the "no reference, no e-tag" line, and an empty footer |
| `Message.QuoteAndReplyWith08Refs` | src/check.ts:235-269 | a quote and reply with mixed or NIP-08 references and nothing invalid renders the quote block, a blank line, the reply block, each with its NIP-08 line |
| `Message.QuoteAndReplyEvent` | src/check.ts:149-289 | the event with tags `["p","A"]`, `["e","B","","root"]` and content "#[0] #[1]", checked by "A" with post "B", is classified `[quote, reply]` and gets the quote block, then the reply block, both with their NIP-08 lines, and an empty footer |
| `Seqs.Filter` | src/check.ts:156-168 | the result keeps only elements that satisfy the predicate, keeps every element that does, and is no longer than the input |
| `Seqs.Join` | src/check.ts:268 | joining no parts gives the empty string and one part gives that part |
| `Seqs.JoinSnoc` | src/check.ts:286-288 | joining one more part appends the separator and that part |
| `Seqs.FilterAppend` | src/check.ts:162-168 | filtering a concatenation is the concatenation of the filtered parts |

## Left out

- `nip27.matchAll` and NIP-19 bech32 decoding (src/check.ts:2-3, :122) come from a foreign library. The URI matches are therefore an input: `Check.CheckReplyEvent` takes them as the sequence of already-decoded matches of the content. Kinds other than npub, nprofile, note and nevent are one `OtherKind` arm. The offsets of the matches are not modelled, because the checker never reads them.
- `Number()` on very long digit strings (src/check.ts:53) gives a float, and beyond about 2^53 it loses precision. `Decimal.DecimalValue` gives the exact natural number instead. Any such index is far beyond the tag list, so it is invalid either way. Only the index recorded in the invalid entry can differ.
- `Check.Event` holds only `content` and `tags`. The id, pubkey, kind, creation time and signature of a Nostr event are not read by the checker.
- `myPostIds` is a sequence tested for membership, as `Array.prototype.includes` does. Its order and duplicates do not matter.
- The wording of the ten templates (src/check.ts:206-224) is carried as data and has no property proved. For the two footer lines the model proves only that they carry their count.
- src/index.ts holds relay subscription, key derivation, signing, publishing and logging, all network I/O. Its `isReply` predicate only builds `myPostIds` from fetched posts. src/util.ts holds promise-based publishing and a wall-clock `unixtime`. src/post_text.ts and src/set_profile.ts are command-line scripts that sign and publish. src/config.ts holds only a type declaration. None of these files is part of this model.
- Repeating a check on the same input gives the same result and the same message. This holds because every operation is a function or a method whose result is fixed by its contract. No separate lemma states it.
