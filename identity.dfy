/**
 * Visitor identity: the `tracking_id` cookie. The client mints an id when its
 * cookie string has none; the server reads the id back out of the `Cookie`
 * header of each connection, and mints one itself when it finds none.
 * The clock (`Date.now()`) and `Math.floor(Math.random() * 1000)` are inputs.
 */
module Identity {
  import opened Wrappers
  import opened JsString

  const COOKIE_NAME := "tracking_id"
  const COOKIE_PREFIX := COOKIE_NAME + "="

  /** `Math.floor(Math.random() * 1000)`. */
  type RandomSuffix = r: nat | r < 1000

  /** `user-${Date.now()}-${suffix}`. */
  function MintId(nowMs: nat, rand: RandomSuffix): (id: string)
    ensures StartsWith(id, "user-")
    ensures ';' !in id && '=' !in id
    ensures IsDigit(id[|id| - 1])
  {
    "user-" + Decimal(nowMs) + "-" + Decimal(rand)
  }

  /** A `;`-piece of a cookie string that, once trimmed, starts with `tracking_id=`. */
  predicate IsTrackingSegment(seg: string) {
    StartsWith(Trim(seg), COOKIE_PREFIX)
  }

  /** The index `find`/`some` stop at: the first tracking segment, if any. */
  function FirstTrackingSegment(segs: seq<string>): Option<nat> {
    FindIndex(segs, IsTrackingSegment)
  }

  /** `cookie.split(';').some(c => c.trim().startsWith('tracking_id='))`. */
  predicate HasTrackingCookie(cookie: string) {
    FirstTrackingSegment(Split(cookie, ';')).Some?
  }

  lemma TrackingSegmentHasEquals(seg: string)
    requires IsTrackingSegment(seg)
    ensures '=' in seg && |Split(seg, '=')| >= 2
  {
    assert Trim(seg)[|COOKIE_PREFIX| - 1] == '=';
    var parts := Split(seg, '=');
  }

  /**
   * `v` is what `seg.split('=')[1]` reads: the text after the first `=` of
   * `seg`, up to the next `=` or the end.
   */
  ghost predicate IsSegmentValue(seg: string, v: string) {
    exists pre, post :: SegmentLayout(seg, pre, v, post)
  }

  /** `seg` is `pre=v` followed by nothing or by a further `=`-piece. */
  predicate SegmentLayout(seg: string, pre: string, v: string, post: string) {
    seg == pre + ['='] + v + post && '=' !in pre && '=' !in v && (post == [] || post[0] == '=')
  }

  /** A segment has at most one value: the layout pins it down. */
  lemma SegmentValueUnique(seg: string, v: string, w: string)
    requires IsSegmentValue(seg, v) && IsSegmentValue(seg, w)
    ensures v == w
  {
    var pre, post :| SegmentLayout(seg, pre, v, post);
    var pre', post' :| SegmentLayout(seg, pre', w, post');
    assert seg[|pre|] == '=' && seg[|pre'|] == '=';
    assert forall j :: 0 <= j < |pre| ==> seg[j] == pre[j];
    assert forall j :: 0 <= j < |pre'| ==> seg[j] == pre'[j];
    assert |pre| == |pre'|;
    var k := |pre| + 1;
    assert k + |v| == |seg| || seg[k + |v|] == '=';
    assert k + |w| == |seg| || seg[k + |w|] == '=';
    assert forall j :: 0 <= j < |v| ==> seg[k + j] == v[j];
    assert forall j :: 0 <= j < |w| ==> seg[k + j] == w[j];
    assert |v| == |w|;
    assert v == seg[k..k + |v|];
    assert w == seg[k..k + |w|];
  }

  lemma SecondPieceIsValue(seg: string)
    requires |Split(seg, '=')| >= 2
    ensures IsSegmentValue(seg, Split(seg, '=')[1])
  {
    var parts := Split(seg, '=');
    SecondPiece(seg, '=');
    var post :| seg == parts[0] + ['='] + parts[1] + post && (post == [] || post[0] == '=');
    assert '=' !in parts[0] && '=' !in parts[1];
    assert SegmentLayout(seg, parts[0], parts[1], post);
  }

  /**
   * Client, lines 1-5: the id minted and stored when the cookie string has no
   * tracking segment; none when it has one.
   */
  function ClientMintedId(cookie: string, nowMs: nat, rand: RandomSuffix): (r: Option<string>)
    ensures r.None? <==> HasTrackingCookie(cookie)
    ensures r.Some? ==> r.value == MintId(nowMs, rand)
  {
    if HasTrackingCookie(cookie) then None else Some(MintId(nowMs, rand))
  }

  /**
   * The cookie string the browser presents once `tracking_id=<id>` has been set
   * (cookies are listed as `name=value` pairs joined by `"; "`).
   */
  function CookieAfterMint(cookie: string, id: string): string {
    if cookie == "" then COOKIE_PREFIX + id else cookie + "; " + COOKIE_PREFIX + id
  }

  /**
   * Server, lines 65 and 70-71: the user id of a connection. The value of the first
   * tracking segment (the text after its first `=`, up to the next `=`), or a
   * freshly minted id when the header is absent or carries none.
   */
  function ResolveUserId(cookieHeader: Option<string>, nowMs: nat, rand: RandomSuffix): (userId: string)
    ensures !HasTrackingCookie(cookieHeader.GetOr("")) ==> userId == MintId(nowMs, rand)
    ensures HasTrackingCookie(cookieHeader.GetOr("")) ==> '=' !in userId && ';' !in userId
    ensures HasTrackingCookie(cookieHeader.GetOr("")) ==>
      var segs := Split(cookieHeader.GetOr(""), ';');
      IsSegmentValue(segs[FirstTrackingSegment(segs).value], userId)
  {
    var cookies := cookieHeader.GetOr("");
    var segs := Split(cookies, ';');
    match FirstTrackingSegment(segs)
    case Some(i) =>
      TrackingSegmentHasEquals(segs[i]);
      assert ';' !in Split(segs[i], '=')[1] by {
        assert Join(Split(segs[i], '='), '=') == segs[i];
        JoinContains(Split(segs[i], '='), '=', 1);
      }
      SecondPieceIsValue(segs[i]);
      Split(segs[i], '=')[1]
    case None => MintId(nowMs, rand)
  }

  /** Every piece is part of the joined string. */
  lemma {:induction false} JoinContains(parts: seq<string>, d: char, k: nat)
    requires |parts| >= 1 && k < |parts|
    ensures forall c :: c in parts[k] ==> c in Join(parts, d)
    decreases |parts|
  {
    if k > 0 {
      JoinContains(parts[1..], d, k - 1);
    }
  }

  /** The piece `tracking_id=<v>`, after blanks, is a tracking segment. */
  lemma TrackingPieceIsSegment(p: string, v: string)
    requires AllSpace(p)
    requires v == [] || !IsJsSpace(v[|v| - 1])
    ensures IsTrackingSegment(p + COOKIE_PREFIX + v)
  {
    var m := COOKIE_PREFIX + v;
    assert p + COOKIE_PREFIX + v == p + m + "";
    TrimUnique(p, m, "");
  }

  /** The piece `tracking_id=<v>` is one `;`-piece, whose second `=`-piece is `v`. */
  lemma TrackingPieceSplits(p: string, v: string)
    requires ';' !in p && '=' !in p
    requires '=' !in v && ';' !in v
    ensures Split(p + COOKIE_PREFIX + v, ';') == [p + COOKIE_PREFIX + v]
    ensures Split(p + COOKIE_PREFIX + v, '=')[1] == v
  {
    var seg := p + COOKIE_PREFIX + v;
    assert Split(seg, ';') == [seg] by {
      assert ';' !in COOKIE_PREFIX;
      assert ';' !in seg;
      SplitNoSeparator(seg, ';');
    }
    var i := |p| + |COOKIE_NAME|;
    assert Split(seg, '=')[1] == v by {
      forall k | 0 <= k < |seg| && k != i
        ensures seg[k] != '='
      {
        if |p| <= k < i {
          assert seg[k] == COOKIE_NAME[k - |p|];
        }
      }
      SplitAtOnly(seg, i, '=');
      assert seg[i + 1..] == v;
    }
  }

  /**
   * Identity continuity: once the client has stored an id (the cookie string had no
   * tracking segment before), the server resolves every later connection to that
   * id, whatever its clock and random draw.
   */
  lemma StoredIdResolves(cookie: string, v: string, nowMs: nat, rand: RandomSuffix)
    requires !HasTrackingCookie(cookie)
    requires '=' !in v && ';' !in v
    requires v == [] || !IsJsSpace(v[|v| - 1])
    ensures ResolveUserId(Some(CookieAfterMint(cookie, v)), nowMs, rand) == v
  {
    var header := CookieAfterMint(cookie, v);
    var p := if cookie == "" then "" else " ";
    var piece := p + COOKIE_PREFIX + v;
    var before := if cookie == "" then [] else Split(cookie, ';');
    TrackingPieceIsSegment(p, v);
    TrackingPieceSplits(p, v);
    if cookie == "" {
      assert header == piece;
    } else {
      AppendedPiece(cookie, v);
      SplitConcat(cookie, piece, ';');
    }
    assert Split(header, ';') == before + [piece];
    FindIndexAfterMisses(before, piece, IsTrackingSegment);
    assert (before + [piece])[|before|] == piece;
  }

  /**
   * The tracking cookie need not come last: with cookies listed before it that
   * are not tracking segments, and any cookies after it, the server reads its
   * value (`a=1; tracking_id=abc; b=2` gives `abc`).
   */
  lemma TrackingCookieAmongOthers(before: string, v: string, after: string, nowMs: nat, rand: RandomSuffix)
    requires !HasTrackingCookie(before)
    requires '=' !in v && ';' !in v
    requires v == [] || !IsJsSpace(v[|v| - 1])
    ensures ResolveUserId(Some(before + [';'] + (" " + COOKIE_PREFIX + v) + [';'] + after), nowMs, rand) == v
  {
    var piece := " " + COOKIE_PREFIX + v;
    var header := before + [';'] + piece + [';'] + after;
    var segs, rest := Split(before, ';'), Split(after, ';');
    TrackingPieceIsSegment(" ", v);
    TrackingPieceSplits(" ", v);
    AppendAssoc(before + [';'], piece, [';']);
    AppendAssoc(before + [';'], piece + [';'], after);
    assert header == before + [';'] + (piece + [';'] + after);
    SplitConcat(before, piece + [';'] + after, ';');
    SplitConcat(piece, after, ';');
    AppendAssoc(segs, [piece], rest);
    assert Split(header, ';') == (segs + [piece]) + rest;
    FindIndexAfterMisses(segs, piece, IsTrackingSegment);
    FindIndexPrefixWins(segs + [piece], rest, IsTrackingSegment);
    assert ((segs + [piece]) + rest)[|segs|] == piece;
  }

  /** Appending to a non-empty cookie string adds one `;`-piece, with its leading blank. */
  lemma AppendedPiece(cookie: string, v: string)
    requires cookie != ""
    ensures CookieAfterMint(cookie, v) == cookie + [';'] + (" " + COOKIE_PREFIX + v)
  {
  }

  /** The id the client mints is the id the server reads back. */
  lemma MintedIdRoundTrip(cookie: string, nowMs: nat, rand: RandomSuffix, serverNow: nat, serverRand: RandomSuffix)
    requires ClientMintedId(cookie, nowMs, rand).Some?
    ensures var id := ClientMintedId(cookie, nowMs, rand).value;
      ResolveUserId(Some(CookieAfterMint(cookie, id)), serverNow, serverRand) == id
  {
    var id := MintId(nowMs, rand);
    assert ClientMintedId(cookie, nowMs, rand) == Some(id) && !HasTrackingCookie(cookie);
    assert ResolveUserId(Some(CookieAfterMint(cookie, id)), serverNow, serverRand) == id by {
      assert IsDigit(id[|id| - 1]);
      StoredIdResolves(cookie, id, serverNow, serverRand);
    }
  }

  /** Only the first tracking segment counts: a later `tracking_id` piece is ignored. */
  lemma FirstSegmentWins(cookie: string, w: string, nowMs: nat, rand: RandomSuffix, nowMs': nat, rand': RandomSuffix)
    requires HasTrackingCookie(cookie)
    ensures ResolveUserId(Some(CookieAfterMint(cookie, w)), nowMs, rand) == ResolveUserId(Some(cookie), nowMs', rand')
  {
    EmptyCookieHasNone();
    var piece := " " + COOKIE_PREFIX + w;
    var header := CookieAfterMint(cookie, w);
    var segs, more := Split(cookie, ';'), Split(piece, ';');
    var i := FirstTrackingSegment(segs).value;
    AppendedPiece(cookie, w);
    SplitConcat(cookie, piece, ';');
    FindIndexPrefixWins(segs, more, IsTrackingSegment);
    assert Split(header, ';')[i] == segs[i];
  }

  lemma EmptyCookieHasNone()
    ensures !HasTrackingCookie("")
  {
    assert Split("", ';') == [""];
    assert Trim("") == "";
  }

  /** An absent or empty `Cookie` header always leads to a minted id. */
  lemma NoCookieMints(nowMs: nat, rand: RandomSuffix)
    ensures ResolveUserId(None, nowMs, rand) == MintId(nowMs, rand)
    ensures ResolveUserId(Some(""), nowMs, rand) == MintId(nowMs, rand)
  {
    EmptyCookieHasNone();
  }
}
