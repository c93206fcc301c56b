/**
 * NIP-27 mentions (src/check.ts, nostrURIRefFromURIMatch and
 * extractNostrURIRefs). Finding and decoding the `nostr:` URIs is the URI
 * matcher's job; here its output is the given sequence of decoded matches.
 */
module NostrUri {
  import opened Wrappers
  import opened Refs

  /**
   * What a decoded match points at: npub and nprofile name a pubkey, note and
   * nevent an event id; any other kind gives no reference.
   */
  function NostrURIRefFromURIMatch(m: NostrURIMatch): (r: Option<TextNoteRef>)
    ensures r.None? <==> m.decoded.OtherKind?
    ensures r.Some? ==> r.value.NostrURIRef? && r.value.uri == m
    ensures m.decoded.Npub? ==> r == Some(NostrURIRef(Pubkey, m.decoded.data, m))
    ensures m.decoded.Nprofile? ==> r == Some(NostrURIRef(Pubkey, m.decoded.pubkey, m))
    ensures m.decoded.Note? ==> r == Some(NostrURIRef(EventId, m.decoded.data, m))
    ensures m.decoded.Nevent? ==> r == Some(NostrURIRef(EventId, m.decoded.id, m))
  {
    match m.decoded
    case Npub(data) => Some(NostrURIRef(Pubkey, data, m))
    case Nprofile(pubkey, _) => Some(NostrURIRef(Pubkey, pubkey, m))
    case Note(data) => Some(NostrURIRef(EventId, data, m))
    case Nevent(id, _, _) => Some(NostrURIRef(EventId, id, m))
    case OtherKind(_) => None
  }

  /** The references of the matches that map to one, in match order. */
  function ValidURIRefs(ms: seq<NostrURIMatch>): seq<TextNoteRef>
  {
    if ms == [] then []
    else
      var last := NostrURIRefFromURIMatch(ms[|ms| - 1]);
      ValidURIRefs(ms[..|ms| - 1]) + (if last.Some? then [last.value] else [])
  }

  /** The matches that map to no reference, kept whole, in match order. */
  function InvalidURIRefs(ms: seq<NostrURIMatch>): seq<InvalidNostrURIRef>
  {
    if ms == [] then []
    else
      var last := ms[|ms| - 1];
      InvalidURIRefs(ms[..|ms| - 1])
        + (if NostrURIRefFromURIMatch(last).None? then [InvalidNostrURIRef(last)] else [])
  }

  /** The two lists together have one entry per match. */
  lemma {:induction false} URIRefsCount(ms: seq<NostrURIMatch>)
    ensures |ValidURIRefs(ms)| + |InvalidURIRefs(ms)| == |ms|
  {
    if ms != [] {
      URIRefsCount(ms[..|ms| - 1]);
    }
  }

  /** A valid reference is the mapping of one of the matches, and keeps it. */
  lemma {:induction false} ValidURIRefsFrom(ms: seq<NostrURIMatch>)
    ensures forall r :: r in ValidURIRefs(ms) ==>
      r.NostrURIRef? && r.uri in ms && NostrURIRefFromURIMatch(r.uri) == Some(r)
  {
    if ms != [] {
      ValidURIRefsFrom(ms[..|ms| - 1]);
      assert forall m :: m in ms[..|ms| - 1] ==> m in ms;
    }
  }

  /** Conversely, every match of a known kind puts its reference in the valid list. */
  lemma {:induction false} KnownKindIsValid(ms: seq<NostrURIMatch>, m: NostrURIMatch)
    requires m in ms && !m.decoded.OtherKind?
    ensures NostrURIRefFromURIMatch(m).value in ValidURIRefs(ms)
  {
    var init := ms[..|ms| - 1];
    if m != ms[|ms| - 1] {
      assert ms == init + [ms[|ms| - 1]];
      KnownKindIsValid(init, m);
    }
  }

  /**
   * Both lists of a concatenation are the lists of each part, in order: with
   * the definitions on one match, this fixes order and multiplicity.
   */
  lemma {:induction false} URIRefsAppend(a: seq<NostrURIMatch>, b: seq<NostrURIMatch>)
    ensures ValidURIRefs(a + b) == ValidURIRefs(a) + ValidURIRefs(b)
    ensures InvalidURIRefs(a + b) == InvalidURIRefs(a) + InvalidURIRefs(b)
  {
    if b == [] {
      assert a + b == a;
    } else {
      var init := b[..|b| - 1];
      assert (a + b)[..|a + b| - 1] == a + init;
      assert (a + b)[|a + b| - 1] == b[|b| - 1];
      URIRefsAppend(a, init);
    }
  }

  /** An invalid entry is exactly a match whose decoded kind is not understood. */
  lemma {:induction false} InvalidURIRefsFrom(ms: seq<NostrURIMatch>)
    ensures forall r :: r in InvalidURIRefs(ms) <==> r.uri in ms && r.uri.decoded.OtherKind?
  {
    if ms != [] {
      var init := ms[..|ms| - 1];
      InvalidURIRefsFrom(init);
      assert ms == init + [ms[|ms| - 1]];
    }
  }

  /** `[valid, invalid]` as `extractNostrURIRefs` returns them. */
  function NostrURIRefsOf(ms: seq<NostrURIMatch>): (seq<TextNoteRef>, seq<InvalidNostrURIRef>)
  {
    (ValidURIRefs(ms), InvalidURIRefs(ms))
  }

  /**
   * `extractNostrURIRefs`: one loop over the matches, pushing each mapped
   * reference to `valid` and each unmapped match to `invalid`.
   */
  method ExtractNostrURIRefs(matches: seq<NostrURIMatch>)
    returns (valid: seq<TextNoteRef>, invalid: seq<InvalidNostrURIRef>)
    ensures (valid, invalid) == NostrURIRefsOf(matches)
    ensures |valid| + |invalid| == |matches|
  {
    valid, invalid := [], [];
    for i := 0 to |matches|
      invariant valid == ValidURIRefs(matches[..i])
      invariant invalid == InvalidURIRefs(matches[..i])
    {
      assert matches[..i + 1][..i] == matches[..i];
      var m := matches[i];
      var res := NostrURIRefFromURIMatch(m);
      if res.Some? {
        valid := valid + [res.value];
      } else {
        invalid := invalid + [InvalidNostrURIRef(m)];
      }
    }
    assert matches[..|matches|] == matches;
    URIRefsCount(matches);
  }
}
