/**
 * Extraction of the bearer token from the text of the marketplace's front
 * page (`getBearerToken`, after the page has been read): cut the page at the
 * marker `bearerToken`, take the piece after the first marker, cut that at
 * every `"` and keep the third field. The two index-out-of-range panics of
 * the original become the two extraction errors.
 */
module BearerToken {
  import opened Wrappers
  import opened Strings

  const Marker: string := "bearerToken"
  const Quote: char := '"'

  datatype ExtractError =
    | MarkerAbsent   // the page has no marker, so there is no piece after it
    | TooFewQuotes   // the piece after the first marker has fewer than two `"`

  /**
   * The token of `page`. It fails with `MarkerAbsent` exactly when the page
   * lacks the marker, and a token never contains a `"` or the marker.
   */
  function Extract(page: string): (r: Result<string, ExtractError>)
    ensures r == Failure(MarkerAbsent) <==> !Contains(page, Marker)
    ensures r.Success? ==> Quote !in r.value && !Contains(r.value, Marker)
  {
    var tmp := Split(page, Marker);
    IndexOfSpec(page, Marker);
    if |tmp| < 2 then
      Failure(MarkerAbsent)
    else
      var tmp2 := Split(tmp[1], [Quote]);
      if |tmp2| < 3 then
        Failure(TooFewQuotes)
      else
        SplitPieceLacksSep(page, Marker, 1);
        SplitPieceLacks(tmp[1], [Quote], 2, Marker);
        SplitPieceLacksSep(tmp[1], [Quote], 2);
        ContainsChar(tmp2[2], Quote);
        Success(tmp2[2])
  }

  /** The text between the first marker and the next one (or the end of the page), if there is a marker. */
  function MarkerSegment(page: string): Option<string>
  {
    match IndexOf(page, Marker)
    case None => None
    case Some(i) =>
      var after := page[i + |Marker|..];
      match IndexOf(after, Marker)
      case None => Some(after)
      case Some(j) => Some(after[..j])
  }

  /** The segment after the first marker is the second piece of splitting the page at the marker. */
  lemma SegmentIsSecondPiece(page: string)
    ensures MarkerSegment(page).Some? <==> |Split(page, Marker)| >= 2
    ensures MarkerSegment(page).Some? ==> Split(page, Marker)[1] == MarkerSegment(page).value
  {
    match IndexOf(page, Marker)
    case None =>
    case Some(i) =>
      var after := page[i + |Marker|..];
      SplitStep(page, Marker, i);
  }

  /**
   * `seg` is `a`, a `"`, `b`, a `"`, `t` and `post`, where `a`, `b` and `t`
   * hold no `"` and `post` is empty or starts with one.
   */
  ghost predicate QuotedLayout(seg: string, a: string, b: string, t: string, post: string)
  {
    seg == a + [Quote] + b + [Quote] + t + post &&
    Quote !in a && Quote !in b && Quote !in t && (post == [] || post[0] == Quote)
  }

  /**
   * `t` is the third `"`-separated field of `seg`: it follows the second `"`,
   * holds no `"`, and runs up to the third `"` or the end of `seg`.
   */
  ghost predicate ThirdQuotedField(seg: string, t: string)
  {
    exists a: string, b: string, post: string :: QuotedLayout(seg, a, b, t, post)
  }

  /** Builds `QuotedLayout` from the three cuts that produce it. */
  lemma QuotedLayoutIntro(seg: string, a: string, seg1: string, b: string, seg2: string, t: string, post: string)
    requires seg == a + [Quote] + seg1 && seg1 == b + [Quote] + seg2 && seg2 == t + post
    requires Quote !in a && Quote !in b && Quote !in t && (post == [] || post[0] == Quote)
    ensures QuotedLayout(seg, a, b, t, post)
  {
  }

  /** Forward half of `ExtractLayout`: the third piece of a split at `"` sits in a `QuotedLayout`. */
  lemma {:induction false} ThirdFieldOfSplit(seg: string) returns (a: string, b: string, post: string)
    requires |Split(seg, [Quote])| >= 3
    ensures QuotedLayout(seg, a, b, Split(seg, [Quote])[2], post)
  {
    var seg1, seg2;
    a, seg1 := SplitAtChar(seg, Quote);
    b, seg2 := SplitAtChar(seg1, Quote);
    var t := Split(seg2, [Quote])[0];
    assert t == Split(seg, [Quote])[2];
    post := SplitFirstChar(seg2, Quote);
    QuotedLayoutIntro(seg, a, seg1, b, seg2, t, post);
  }

  /** Converse half of `ExtractLayout`: a `QuotedLayout` determines the third piece. */
  lemma {:induction false} SplitOfLayout(seg: string, a: string, b: string, t: string, post: string)
    requires QuotedLayout(seg, a, b, t, post)
    ensures |Split(seg, [Quote])| >= 3 && Split(seg, [Quote])[2] == t
  {
    var seg2 := t + post;
    var seg1 := b + [Quote] + seg2;
    assert seg == a + [Quote] + seg1;
    SplitOnChar(a, Quote, seg1);
    SplitOnChar(b, Quote, seg2);
    SplitHeadChar(t, Quote, post);
  }

  /**
   * The token is exactly the third `"`-separated field of the text between
   * the first marker and the next one.
   */
  lemma ExtractLayout(page: string, t: string)
    ensures Extract(page) == Success(t) <==>
      MarkerSegment(page).Some? && ThirdQuotedField(MarkerSegment(page).value, t)
  {
    SegmentIsSecondPiece(page);
    if Extract(page) == Success(t) {
      var a, b, post := ThirdFieldOfSplit(Split(page, Marker)[1]);
    }
    if MarkerSegment(page).Some? && ThirdQuotedField(MarkerSegment(page).value, t) {
      var a: string, b: string, post: string :| QuotedLayout(MarkerSegment(page).value, a, b, t, post);
      SplitOfLayout(MarkerSegment(page).value, a, b, t, post);
    }
  }

  /**
   * Extraction fails for lack of quotes exactly when there is a marker and the
   * text between it and the next marker has fewer than two `"`.
   */
  lemma TooFewQuotesIff(page: string)
    ensures Extract(page) == Failure(TooFewQuotes) <==>
      MarkerSegment(page).Some? && multiset(MarkerSegment(page).value)[Quote] < 2
  {
    SegmentIsSecondPiece(page);
    if MarkerSegment(page).Some? {
      SplitCountsChar(MarkerSegment(page).value, Quote);
    }
  }

  /** The segment of the example page: everything after its only marker. */
  lemma {:induction false} ExampleSegment(page: string, seg: string)
    requires seg == "\":\"abc123\"}"
    requires page == "{\"" + Marker + seg
    ensures MarkerSegment(page) == Some(seg)
  {
    assert page[..|Marker|] != Marker by {
      assert page[0] != Marker[0];
    }
    assert page[1..][..|Marker|] != Marker by {
      assert page[1] != Marker[0];
    }
    assert page[2..] == Marker + seg;
    assert page[2..][..|Marker|] == Marker;
    assert IndexOf(page[2..], Marker) == Some(0);
    assert page[1..][1..] == page[2..];
    assert IndexOf(page[1..], Marker) == Some(1);
    assert IndexOf(page, Marker) == Some(2);
    assert page[2 + |Marker|..] == seg;
    assert seg[..|Marker|] != Marker by {
      assert seg[0] != Marker[0];
    }
  }

  /** The example segment has `abc123` as its third `"`-separated field. */
  lemma ExampleLayout(seg: string)
    requires seg == "\":\"abc123\"}"
    ensures QuotedLayout(seg, "", ":", "abc123", "\"}")
  {
    assert seg == [Quote] + ":" + [Quote] + "abc123" + "\"}";
    assert "" + [Quote] == [Quote];
  }

  /** A front page carrying `{"bearerToken":"abc123"}` yields the token `abc123`. */
  lemma ExampleToken()
    ensures Extract("{\"" + Marker + "\":\"abc123\"}") == Success("abc123")
  {
    var seg := "\":\"abc123\"}";
    var page := "{\"" + Marker + seg;
    ExampleSegment(page, seg);
    ExampleLayout(seg);
    ExtractLayout(page, "abc123");
  }
}
