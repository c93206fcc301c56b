/**
 * The reference records of src/check.ts: what a `#[n]` mention or a `nostr:`
 * URI in a note's content resolves to, and the records kept for the ones that
 * do not resolve.
 */
module Refs {
  import opened Wrappers
  import opened Tags

  datatype ReferentType = Pubkey | EventId

  /**
   * A NIP-19 entity as decoded by the URI matcher. The four kinds the checker
   * understands carry the fields it reads; every other kind (naddr, nsec,
   * nrelay, ...) is `OtherKind`.
   */
  datatype Decoded =
    | Npub(data: string)
    | Nprofile(pubkey: string, relays: seq<string>)
    | Note(data: string)
    | Nevent(id: string, relays: seq<string>, author: Option<string>)
    | OtherKind(kind: string)

  /** One `nostr:` mention found in the content, already decoded. */
  datatype NostrURIMatch = NostrURIMatch(uri: string, value: string, decoded: Decoded)

  /** `TagIndexRef | NostrURIRef` (the source's TextNoteRef). */
  datatype TextNoteRef =
    | TagIndexRef(index: nat, referentType: ReferentType, referent: string, tag: Tag)
    | NostrURIRef(referentType: ReferentType, referent: string, uri: NostrURIMatch)

  datatype InvalidTagIndexRef = InvalidTagIndexRef(index: nat, tag: Option<Tag>)

  datatype InvalidNostrURIRef = InvalidNostrURIRef(uri: NostrURIMatch)
}
