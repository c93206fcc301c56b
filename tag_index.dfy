/**
 * NIP-08 mentions (src/check.ts, tagIndexRegex and extractTagIndexRefs): the
 * content is scanned for `#[n]` tokens and each index is resolved against the
 * event's own tag list.
 */
module TagIndex {
  import opened Wrappers
  import opened Decimal
  import opened Tags
  import opened Refs

  // ---------------------------------------------------------------------------
  // The scanner: every `#[d]` token with a canonical digit body, left to right
  // ---------------------------------------------------------------------------

  /** The token `"#[" + d + "]"` starts at position `i` of `s`, with `d` canonical. */
  predicate IsTokenAt(s: string, i: nat, d: string)
  {
    && i + |d| + 3 <= |s|
    && s[i] == '#' && s[i + 1] == '['
    && s[i + 2..i + 2 + |d|] == d
    && s[i + 2 + |d|] == ']'
    && IsCanonical(d)
  }

  /** The end of the longest run of digits starting at `j`. */
  function DigitRunEnd(s: string, j: nat): (e: nat)
    requires j <= |s|
    ensures j <= e <= |s|
    ensures forall k :: j <= k < e ==> IsDigit(s[k])
    ensures e < |s| ==> !IsDigit(s[e])
    decreases |s| - j
  {
    if j < |s| && IsDigit(s[j]) then DigitRunEnd(s, j + 1) else j
  }

  /**
   * The digits of the token at `i`, if one starts there. The digits cannot be
   * followed by another digit (the next character must be `]`), so the body is
   * the whole digit run, and the pattern accepts it iff it is canonical.
   */
  function TokenAt(s: string, i: nat): (r: Option<string>)
    ensures r.Some? ==> IsTokenAt(s, i, r.value)
  {
    if i + 1 < |s| && s[i] == '#' && s[i + 1] == '[' then
      var e := DigitRunEnd(s, i + 2);
      if e < |s| && s[e] == ']' && IsCanonical(s[i + 2..e]) then
        assert |s[i + 2..e]| == e - (i + 2);
        Some(s[i + 2..e])
      else
        None
    else
      None
  }

  /** A token's digit body is the whole digit run after its `#[`. */
  lemma TokenDigitRun(s: string, i: nat, d: string)
    requires IsTokenAt(s, i, d)
    ensures DigitRunEnd(s, i + 2) == i + 2 + |d|
  {
    var e, f := DigitRunEnd(s, i + 2), i + 2 + |d|;
    forall k | i + 2 <= k < f
      ensures IsDigit(s[k])
    {
      assert s[k] == s[i + 2..f][k - (i + 2)] == d[k - (i + 2)];
    }
    if e < f {
      assert false;
    }
  }

  /** Every token is found: if `"#[" + d + "]"` starts at `i`, the scanner reads `d` there. */
  lemma TokenAtComplete(s: string, i: nat, d: string)
    requires IsTokenAt(s, i, d)
    ensures TokenAt(s, i) == Some(d)
  {
    TokenDigitRun(s, i, d);
  }

  /** One token found by the scan: where it starts and its digit body. */
  datatype IndexMatch = IndexMatch(start: nat, digits: string)

  /** The end of a match: one past its closing bracket. */
  function End(m: IndexMatch): nat { m.start + |m.digits| + 3 }

  /**
   * The global-regex scan from position `i`: at each position try the token;
   * on a match continue after it, otherwise move on by one character.
   */
  function ScanFrom(s: string, i: nat): (r: seq<IndexMatch>)
    ensures forall k :: 0 <= k < |r| ==> IsCanonical(r[k].digits)
    decreases |s| - i
  {
    if i >= |s| then []
    else match TokenAt(s, i)
      case Some(d) => [IndexMatch(i, d)] + ScanFrom(s, i + |d| + 3)
      case None => ScanFrom(s, i + 1)
  }

  function Scan(content: string): (r: seq<IndexMatch>)
    ensures forall k :: 0 <= k < |r| ==> IsCanonical(r[k].digits)
  {
    ScanFrom(content, 0)
  }

  function Starts(ms: seq<IndexMatch>): (r: seq<nat>)
    ensures |r| == |ms|
    ensures forall k :: 0 <= k < |ms| ==> r[k] == ms[k].start
  {
    if ms == [] then [] else [ms[0].start] + Starts(ms[1..])
  }

  /** No token starts strictly inside another one: its inner characters are not `#`. */
  lemma NoTokenInside(s: string, i: nat, d: string, p: nat)
    requires IsTokenAt(s, i, d) && i < p < i + |d| + 3
    ensures TokenAt(s, p) == None
  {
    if i + 2 <= p < i + 2 + |d| {
      assert s[p] == s[i + 2..i + 2 + |d|][p - (i + 2)] == d[p - (i + 2)];
    }
  }

  /** Each match of the scan from `i` is the token at its start, at or after `i`. */
  lemma {:induction false} ScanFromTokens(s: string, i: nat)
    ensures forall m :: m in ScanFrom(s, i) ==> i <= m.start && TokenAt(s, m.start) == Some(m.digits)
    decreases |s| - i
  {
    if i < |s| {
      var t := TokenAt(s, i);
      if t.Some? {
        ScanFromTokens(s, i + |t.value| + 3);
      } else {
        ScanFromTokens(s, i + 1);
      }
    }
  }

  /** Each match ends before the next one begins. */
  predicate Ordered(ms: seq<IndexMatch>)
  {
    forall k :: 0 <= k < |ms| - 1 ==> End(ms[k]) <= ms[k + 1].start
  }

  /** A match that ends before an ordered list begins can be put in front of it. */
  lemma OrderedCons(m: IndexMatch, rest: seq<IndexMatch>)
    requires Ordered(rest) && (rest != [] ==> End(m) <= rest[0].start)
    ensures Ordered([m] + rest)
  {
    var ms := [m] + rest;
    forall k | 0 <= k < |ms| - 1
      ensures End(ms[k]) <= ms[k + 1].start
    {
      if k > 0 {
        assert ms[k] == rest[k - 1] && ms[k + 1] == rest[k];
      }
    }
  }

  /** The scan proceeds left to right, each match ending before the next begins. */
  lemma {:induction false} ScanFromOrdered(s: string, i: nat)
    ensures Ordered(ScanFrom(s, i))
    decreases |s| - i
  {
    if i < |s| {
      var t := TokenAt(s, i);
      if t.Some? {
        var j := i + |t.value| + 3;
        ScanFromOrdered(s, j);
        ScanFromTokens(s, j);
        var rest := ScanFrom(s, j);
        if rest != [] {
          assert rest[0] in rest;
        }
        OrderedCons(IndexMatch(i, t.value), rest);
      } else {
        ScanFromOrdered(s, i + 1);
        assert ScanFrom(s, i) == ScanFrom(s, i + 1);
      }
    }
  }

  /** The scan from `i` only reports positions from `i` on. */
  lemma {:induction false} ScanFromStarts(s: string, i: nat)
    ensures forall p :: p in Starts(ScanFrom(s, i)) ==> i <= p
    decreases |s| - i
  {
    if i < |s| {
      var t := TokenAt(s, i);
      if t.Some? {
        var j := i + |t.value| + 3;
        ScanFromStarts(s, j);
        assert ScanFrom(s, i) == [IndexMatch(i, t.value)] + ScanFrom(s, j);
        assert Starts(ScanFrom(s, i)) == [i] + Starts(ScanFrom(s, j));
      } else {
        ScanFromStarts(s, i + 1);
        assert ScanFrom(s, i) == ScanFrom(s, i + 1);
      }
    }
  }

  /**
   * No token is missed: the positions where the scan from `i` reports a match
   * are exactly the positions from `i` on where a token starts.
   */
  lemma {:induction false} ScanFromComplete(s: string, i: nat)
    ensures forall p :: i <= p < |s| ==> (TokenAt(s, p).Some? <==> p in Starts(ScanFrom(s, i)))
    decreases |s| - i
  {
    if i < |s| {
      var t := TokenAt(s, i);
      if t.Some? {
        var j := i + |t.value| + 3;
        ScanFromComplete(s, j);
        ScanFromStarts(s, j);
        assert ScanFrom(s, i) == [IndexMatch(i, t.value)] + ScanFrom(s, j);
        assert Starts(ScanFrom(s, i)) == [i] + Starts(ScanFrom(s, j));
        forall p | i < p < j
          ensures TokenAt(s, p).None?
        {
          NoTokenInside(s, i, t.value, p);
        }
      } else {
        ScanFromComplete(s, i + 1);
        ScanFromStarts(s, i + 1);
        assert ScanFrom(s, i) == ScanFrom(s, i + 1);
      }
    }
  }

  /** The scan of a whole content string reports exactly the token starts. */
  lemma ScanCorrect(content: string)
    ensures var ms := Scan(content);
      && (forall k :: 0 <= k < |ms| ==> TokenAt(content, ms[k].start) == Some(ms[k].digits))
      && (forall k :: 0 <= k < |ms| ==> End(ms[k]) <= |content|)
      && (forall k :: 0 <= k < |ms| - 1 ==> End(ms[k]) <= ms[k + 1].start)
      && (forall p :: 0 <= p < |content| ==> (TokenAt(content, p).Some? <==> p in Starts(ms)))
  {
    var ms := Scan(content);
    assert ms == ScanFrom(content, 0);
    ScanFromTokens(content, 0);
    ScanFromOrdered(content, 0);
    assert forall k :: 0 <= k < |ms| ==> ms[k] in ms;
    ScanFromComplete(content, 0);
  }

  /** The no-leading-zero rule: `#[0]`, `#[7]`, `#[10]` are tokens; `#[01]`, `#[]`, `#[x]` are not. */
  lemma TokenExamples()
    ensures TokenAt("#[0]", 0) == Some("0")
    ensures TokenAt("#[7]", 0) == Some("7")
    ensures TokenAt("#[10]", 0) == Some("10")
    ensures TokenAt("#[01]", 0) == None
    ensures TokenAt("#[]", 0) == None
    ensures TokenAt("#[x]", 0) == None
  {
    assert DigitRunEnd("#[0]", 2) == 3 && "#[0]"[2..3] == "0";
    assert DigitRunEnd("#[7]", 2) == 3 && "#[7]"[2..3] == "7";
    assert DigitRunEnd("#[10]", 2) == 4 && "#[10]"[2..4] == "10";
    assert DigitRunEnd("#[01]", 2) == 4;
    assert "#[01]"[2..4] == "01";
    assert DigitRunEnd("#[]", 2) == 2;
    assert DigitRunEnd("#[x]", 2) == 2;
  }

  // ---------------------------------------------------------------------------
  // Resolving an index against the tag list
  // ---------------------------------------------------------------------------

  /** What one `#[index]` becomes: a valid reference or an invalid entry. */
  datatype Resolution = Resolved(ref: TextNoteRef) | Unresolved(inv: InvalidTagIndexRef)

  /**
   * `tags[index]` must exist and have a non-empty value, and its name must be
   * "p" (a pubkey) or "e" (an event id); otherwise the index and the tag, if
   * there is one, are recorded as invalid.
   */
  function ResolveTagIndex(tags: seq<Tag>, index: nat): (r: Resolution)
    ensures r.Resolved? <==> index < |tags| && (IsPTag(tags[index]) || IsETag(tags[index]))
    ensures r.Resolved? ==> r.ref == TagIndexRef(index,
      if tags[index][0] == "p" then Pubkey else EventId, tags[index][1], tags[index])
    ensures r.Unresolved? ==> r.inv == InvalidTagIndexRef(index, if index < |tags| then Some(tags[index]) else None)
  {
    if index >= |tags| then Unresolved(InvalidTagIndexRef(index, None))
    else
      var tag := tags[index];
      if At(tag, 1).None? || tag[1] == "" then Unresolved(InvalidTagIndexRef(index, Some(tag)))
      else if tag[0] == "p" then Resolved(TagIndexRef(index, Pubkey, tag[1], tag))
      else if tag[0] == "e" then Resolved(TagIndexRef(index, EventId, tag[1], tag))
      else Unresolved(InvalidTagIndexRef(index, Some(tag)))
  }

  predicate DigitsOk(ms: seq<IndexMatch>) { forall k :: 0 <= k < |ms| ==> AllDigits(ms[k].digits) }

  /** The resolution of every match, in scan order. */
  function Resolutions(tags: seq<Tag>, ms: seq<IndexMatch>): (r: seq<Resolution>)
    requires DigitsOk(ms)
    ensures |r| == |ms|
  {
    seq(|ms|, k requires 0 <= k < |ms| => ResolveTagIndex(tags, DecimalValue(ms[k].digits)))
  }

  function ValidOf(rs: seq<Resolution>): seq<TextNoteRef>
  {
    if rs == [] then []
    else ValidOf(rs[..|rs| - 1]) + (if rs[|rs| - 1].Resolved? then [rs[|rs| - 1].ref] else [])
  }

  function InvalidOf(rs: seq<Resolution>): seq<InvalidTagIndexRef>
  {
    if rs == [] then []
    else InvalidOf(rs[..|rs| - 1]) + (if rs[|rs| - 1].Unresolved? then [rs[|rs| - 1].inv] else [])
  }

  lemma ResolutionsSnoc(tags: seq<Tag>, ms: seq<IndexMatch>, i: nat)
    requires DigitsOk(ms) && i < |ms|
    ensures Resolutions(tags, ms[..i + 1])
      == Resolutions(tags, ms[..i]) + [ResolveTagIndex(tags, DecimalValue(ms[i].digits))]
  {
    assert DigitsOk(ms[..i + 1]) && DigitsOk(ms[..i]);
  }

  lemma OfSnoc(rs: seq<Resolution>, r: Resolution)
    ensures ValidOf(rs + [r]) == ValidOf(rs) + (if r.Resolved? then [r.ref] else [])
    ensures InvalidOf(rs + [r]) == InvalidOf(rs) + (if r.Unresolved? then [r.inv] else [])
  {
    assert (rs + [r])[..|rs|] == rs;
  }

  /** The two lists together have one entry per resolution. */
  lemma {:induction false} ValidInvalidCount(rs: seq<Resolution>)
    ensures |ValidOf(rs)| + |InvalidOf(rs)| == |rs|
  {
    if rs != [] {
      ValidInvalidCount(rs[..|rs| - 1]);
    }
  }

  /**
   * The valid list holds exactly the references that point into a p- or e-tag;
   * `index`, `referent` and `tag` all come from the tag the index names.
   */
  lemma {:induction false} ValidOfAreResolved(tags: seq<Tag>, ms: seq<IndexMatch>)
    requires DigitsOk(ms)
    ensures forall r :: r in ValidOf(Resolutions(tags, ms)) ==>
      r.TagIndexRef? && r.index < |tags| && r.tag == tags[r.index]
      && (IsPTag(r.tag) || IsETag(r.tag)) && r.referent == r.tag[1]
      && (r.referentType == Pubkey <==> r.tag[0] == "p")
  {
    if ms != [] {
      var init := ms[..|ms| - 1];
      assert Resolutions(tags, ms)[..|ms| - 1] == Resolutions(tags, init);
      ValidOfAreResolved(tags, init);
    }
  }

  /** Each resolution lands in its list: a resolved one in the valid list, an unresolved one in the invalid list. */
  lemma {:induction false} OfComplete(rs: seq<Resolution>, k: nat)
    requires k < |rs|
    ensures rs[k].Resolved? ==> rs[k].ref in ValidOf(rs)
    ensures rs[k].Unresolved? ==> rs[k].inv in InvalidOf(rs)
  {
    if k < |rs| - 1 {
      OfComplete(rs[..|rs| - 1], k);
    }
  }

  /**
   * Both lists of a concatenation are the lists of each part, in order: with
   * the definitions on one resolution, this fixes order and multiplicity.
   */
  lemma {:induction false} OfAppend(a: seq<Resolution>, b: seq<Resolution>)
    ensures ValidOf(a + b) == ValidOf(a) + ValidOf(b)
    ensures InvalidOf(a + b) == InvalidOf(a) + InvalidOf(b)
  {
    if b == [] {
      assert a + b == a;
    } else {
      var init := b[..|b| - 1];
      assert (a + b)[..|a + b| - 1] == a + init;
      assert (a + b)[|a + b| - 1] == b[|b| - 1];
      OfAppend(a, init);
    }
  }

  /** `[valid, invalid]` as `extractTagIndexRefs` returns them. */
  function TagIndexRefsOf(tags: seq<Tag>, content: string): (seq<TextNoteRef>, seq<InvalidTagIndexRef>)
  {
    var rs := Resolutions(tags, Scan(content));
    (ValidOf(rs), InvalidOf(rs))
  }

  /**
   * Every `#[n]` of the content is reported: its reference is in the valid
   * list when the index resolves, its invalid entry in the invalid list when
   * it does not.
   */
  lemma TagIndexRefsComplete(tags: seq<Tag>, content: string, k: nat)
    requires k < |Scan(content)|
    ensures var r := ResolveTagIndex(tags, DecimalValue(Scan(content)[k].digits));
      && (r.Resolved? ==> r.ref in TagIndexRefsOf(tags, content).0)
      && (r.Unresolved? ==> r.inv in TagIndexRefsOf(tags, content).1)
  {
    OfComplete(Resolutions(tags, Scan(content)), k);
  }

  /**
   * `extractTagIndexRefs`: one loop over the matches, pushing each resolved
   * index to `valid` or to `invalid`.
   */
  method ExtractTagIndexRefs(tags: seq<Tag>, content: string)
    returns (valid: seq<TextNoteRef>, invalid: seq<InvalidTagIndexRef>)
    ensures (valid, invalid) == TagIndexRefsOf(tags, content)
    ensures |valid| + |invalid| == |Scan(content)|
  {
    var matches := Scan(content);
    valid, invalid := [], [];
    for i := 0 to |matches|
      invariant valid == ValidOf(Resolutions(tags, matches[..i]))
      invariant invalid == InvalidOf(Resolutions(tags, matches[..i]))
    {
      var index := DecimalValue(matches[i].digits);
      ghost var r := ResolveTagIndex(tags, index);
      ResolutionsSnoc(tags, matches, i);
      OfSnoc(Resolutions(tags, matches[..i]), r);
      if index >= |tags| || |tags[index]| < 2 || tags[index][1] == "" {
        assert r.Unresolved?;
        invalid := invalid + [InvalidTagIndexRef(index, if index < |tags| then Some(tags[index]) else None)];
        continue;
      }
      var tag := tags[index];
      if tag[0] == "p" {
        assert r == Resolved(TagIndexRef(index, Pubkey, tag[1], tag));
        valid := valid + [TagIndexRef(index, Pubkey, tag[1], tag)];
      } else if tag[0] == "e" {
        assert r == Resolved(TagIndexRef(index, EventId, tag[1], tag));
        valid := valid + [TagIndexRef(index, EventId, tag[1], tag)];
      } else {
        assert r.Unresolved?;
        invalid := invalid + [InvalidTagIndexRef(index, Some(tag))];
      }
    }
    assert matches[..|matches|] == matches;
    ValidInvalidCount(Resolutions(tags, matches));
  }

  /** The scan of "#[0] #[1]" finds `#[0]` at 0 and `#[1]` at 5, and nothing else. */
  lemma ScanExample()
    ensures Scan("#[0] #[1]") == [IndexMatch(0, "0"), IndexMatch(5, "1")]
  {
    var s := "#[0] #[1]";
    assert DigitRunEnd(s, 7) == 8 && s[7..8] == "1";
    assert TokenAt(s, 5) == Some("1");
    assert ScanFrom(s, 9) == [];
    assert ScanFrom(s, 4) == [IndexMatch(5, "1")];
    assert DigitRunEnd(s, 2) == 3 && s[2..3] == "0";
    assert TokenAt(s, 0) == Some("0");
  }

  /**
   * Content "#[0] #[1]" over the tags `["p","A"]` and `["e","B","","root"]`:
   * two valid references, a pubkey then an event id, and nothing invalid.
   */
  lemma TwoMentionsExample()
    ensures TagIndexRefsOf([["p", "A"], ["e", "B", "", "root"]], "#[0] #[1]") ==
      ([TagIndexRef(0, Pubkey, "A", ["p", "A"]), TagIndexRef(1, EventId, "B", ["e", "B", "", "root"])], [])
  {
    ScanExample();
    var tags: seq<Tag> := [["p", "A"], ["e", "B", "", "root"]];
    var rs := Resolutions(tags, [IndexMatch(0, "0"), IndexMatch(5, "1")]);
    assert DecimalValue("0") == 0 && DecimalValue("1") == 1;
    assert rs == [Resolved(TagIndexRef(0, Pubkey, "A", tags[0])), Resolved(TagIndexRef(1, EventId, "B", tags[1]))];
    var r0 := [rs[0]];
    assert rs[..1] == r0 && r0[..0] == [];
    assert ValidOf(r0) == [rs[0].ref] && InvalidOf(r0) == [];
    assert ValidOf(rs) == [rs[0].ref, rs[1].ref] && InvalidOf(rs) == [];
  }
}
