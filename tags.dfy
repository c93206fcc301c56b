/**
 * Tag reading (src/check.ts, getPTags and getETags). A tag is the raw NIP-01
 * array of strings; `t[i]` in the source is `At(t, i)` here, and JavaScript
 * truthiness of `t[i]` is "index i exists and the string is non-empty".
 */
module Tags {
  import opened Wrappers
  import opened Seqs

  type Tag = seq<string>

  /** `t[i]`: the element, or `undefined` past the end. */
  function At(t: Tag, i: nat): (r: Option<string>)
    ensures r.Some? <==> i < |t|
    ensures r.Some? ==> r.value == t[i]
  {
    if i < |t| then Some(t[i]) else None
  }

  /** The tag is named `name` and has a non-empty value at position 1. */
  predicate HasName(t: Tag, name: string)
  {
    |t| >= 2 && t[0] == name && t[1] != ""
  }

  datatype PTag = PTag(pubkey: string, relay: Option<string>)

  datatype ETag = ETag(eventId: string, relay: Option<string>, marker: Option<string>)

  predicate IsPTag(t: Tag) { HasName(t, "p") }

  predicate IsETag(t: Tag) { HasName(t, "e") }

  function ToPTag(t: Tag): PTag
    requires |t| >= 2
  {
    PTag(t[1], At(t, 2))
  }

  function ToETag(t: Tag): ETag
    requires |t| >= 2
  {
    ETag(t[1], At(t, 2), At(t, 3))
  }

  /** The p-tags of a tag list, in source order. */
  function GetPTags(tags: seq<Tag>): (r: seq<PTag>)
    ensures |r| <= |tags|
    ensures forall k :: 0 <= k < |r| ==> r[k].pubkey != ""
    ensures forall k :: 0 <= k < |tags| && IsPTag(tags[k]) ==> ToPTag(tags[k]) in r
  {
    if tags == [] then []
    else if IsPTag(tags[0]) then [ToPTag(tags[0])] + GetPTags(tags[1..])
    else GetPTags(tags[1..])
  }

  /** The e-tags of a tag list, in source order. */
  function GetETags(tags: seq<Tag>): (r: seq<ETag>)
    ensures |r| <= |tags|
    ensures forall k :: 0 <= k < |r| ==> r[k].eventId != ""
    ensures forall k :: 0 <= k < |tags| && IsETag(tags[k]) ==> ToETag(tags[k]) in r
  {
    if tags == [] then []
    else if IsETag(tags[0]) then [ToETag(tags[0])] + GetETags(tags[1..])
    else GetETags(tags[1..])
  }

  /** One tag: a p-tag gives its pubkey and relay hint, any other tag nothing. */
  lemma GetPTagsOne(t: Tag)
    ensures GetPTags([t]) == if IsPTag(t) then [PTag(t[1], At(t, 2))] else []
  {
    assert [t][1..] == [];
  }

  /** One tag: an e-tag gives its id, relay hint and marker, any other tag nothing. */
  lemma GetETagsOne(t: Tag)
    ensures GetETags([t]) == if IsETag(t) then [ETag(t[1], At(t, 2), At(t, 3))] else []
  {
    assert [t][1..] == [];
  }

  /**
   * Reading a concatenation reads each part: with GetPTagsOne this fixes the
   * result completely, and says that source order is kept.
   */
  lemma {:induction false} GetPTagsAppend(a: seq<Tag>, b: seq<Tag>)
    ensures GetPTags(a + b) == GetPTags(a) + GetPTags(b)
  {
    if a == [] {
      assert a + b == b;
    } else {
      assert (a + b)[0] == a[0];
      assert (a + b)[1..] == a[1..] + b;
      GetPTagsAppend(a[1..], b);
    }
  }

  lemma {:induction false} GetETagsAppend(a: seq<Tag>, b: seq<Tag>)
    ensures GetETags(a + b) == GetETags(a) + GetETags(b)
  {
    if a == [] {
      assert a + b == b;
    } else {
      assert (a + b)[0] == a[0];
      assert (a + b)[1..] == a[1..] + b;
      GetETagsAppend(a[1..], b);
    }
  }

  /** Every p-tag read comes from a p-tag of the list with that pubkey. */
  lemma {:induction false} GetPTagsFrom(tags: seq<Tag>, p: PTag)
    requires p in GetPTags(tags)
    ensures exists k :: 0 <= k < |tags| && IsPTag(tags[k]) && p == ToPTag(tags[k])
  {
    if IsPTag(tags[0]) && p == ToPTag(tags[0]) {
    } else {
      GetPTagsFrom(tags[1..], p);
      var k :| 0 <= k < |tags[1..]| && IsPTag(tags[1..][k]) && p == ToPTag(tags[1..][k]);
      assert tags[k + 1] == tags[1..][k];
    }
  }

  /** Every e-tag read comes from an e-tag of the list with that id. */
  lemma {:induction false} GetETagsFrom(tags: seq<Tag>, e: ETag)
    requires e in GetETags(tags)
    ensures exists k :: 0 <= k < |tags| && IsETag(tags[k]) && e == ToETag(tags[k])
  {
    if IsETag(tags[0]) && e == ToETag(tags[0]) {
    } else {
      GetETagsFrom(tags[1..], e);
      var k :| 0 <= k < |tags[1..]| && IsETag(tags[1..][k]) && e == ToETag(tags[1..][k]);
      assert tags[k + 1] == tags[1..][k];
    }
  }
}
