/** The keyword filter engine: whether a post survives a channel's ordered
    filter list. Three copies exist in the source: the layered channel service
    and the flat channel monitor share `contains`/`containsSubstring`/`toLower`;
    the flat bot handler uses `containsKeyword` built on the standard library.
    All three are modelled, and shown to agree. */
module Filters {
  import opened Text
  import opened Domain

  // ---------------------------------------------------------------------
  // Keyword matching
  // ---------------------------------------------------------------------

  /** The offset loop of `containsSubstring`, from offset `i` on. */
  function ScanFrom(t: string, k: string, i: nat): (r: bool)
    decreases |t| - i
    ensures r <==> exists j :: i <= j && OccursAt(k, t, j)
  {
    if i + |k| > |t| then false
    else if t[i..i + |k|] == k then
      assert OccursAt(k, t, i);
      true
    else ScanFrom(t, k, i + 1)
  }

  /** `containsSubstring`: lower both sides, then try every offset. */
  function ContainsSubstring(text: string, sub: string): (r: bool)
    ensures r <==> Occurs(ToLower(sub), ToLower(text))
  {
    ScanFrom(ToLower(text), ToLower(sub), 0)
  }

  /** `contains`: an empty keyword never matches; otherwise a case-insensitive
      substring test (the length guard and the equality shortcut change nothing). */
  function Contains(text: string, keyword: string): (r: bool)
    ensures r <==> |keyword| > 0 && Occurs(ToLower(keyword), ToLower(text))
    ensures r ==> |keyword| <= |text|
  {
    if |keyword| > 0 && |text| >= |keyword| && text == keyword then
      assert OccursAt(ToLower(keyword), ToLower(text), 0);
      true
    else
      |keyword| > 0 && |text| >= |keyword| && ContainsSubstring(text, keyword)
  }

  /** `containsKeyword` of the flat bot handler: `strings.Contains` on the
      lowered strings (lowering modelled as ASCII lowering). */
  function ContainsKeyword(text: string, keyword: string): (r: bool)
    ensures keyword == [] ==> !r
    ensures r ==> |keyword| <= |text|
  {
    if |keyword| == 0 then false
    else Occurs(ToLower(keyword), ToLower(text))
  }

  /** On every input the two matchers give the same answer. */
  lemma MatchersAgree(text: string, keyword: string)
    ensures Contains(text, keyword) == ContainsKeyword(text, keyword)
  {
  }

  /** A keyword written exactly as it appears in the text matches. */
  lemma ContainsVerbatim(text: string, keyword: string, i: int)
    requires keyword != [] && OccursAt(keyword, text, i)
    ensures Contains(text, keyword)
  {
    ToLowerSlice(text, i, i + |keyword|);
    assert OccursAt(ToLower(keyword), ToLower(text), i);
  }

  /** Matching ignores ASCII case on both sides. */
  lemma ContainsCaseInsensitive(text: string, keyword: string)
    ensures Contains(ToLower(text), ToLower(keyword)) == Contains(text, keyword)
  {
    ToLowerIdempotent(text);
    ToLowerIdempotent(keyword);
  }

  // ---------------------------------------------------------------------
  // One filter
  // ---------------------------------------------------------------------

  /** The keyword loop with `break`: does any keyword match? */
  function AnyMatch(keywords: seq<string>, text: string): (r: bool)
    ensures r <==> exists i :: 0 <= i < |keywords| && Contains(text, keywords[i])
  {
    if |keywords| == 0 then false
    else Contains(text, keywords[0]) || AnyMatch(keywords[1..], text)
  }

  /** What one filter demands of a text: a disabled filter demands nothing;
      Keywords needs some keyword to match; ExcludeKeywords needs no keyword to
      match; Author (a placeholder) and unrecognized types demand nothing. */
  predicate Admits(f: Filter, text: string) {
    || !f.enabled
    || match f.kind
       case Keywords => exists i :: 0 <= i < |f.keywords| && Contains(text, f.keywords[i])
       case ExcludeKeywords => forall i :: 0 <= i < |f.keywords| ==> !Contains(text, f.keywords[i])
       case Author => true
       case Unrecognized => true
  }

  // ---------------------------------------------------------------------
  // The filter list
  // ---------------------------------------------------------------------

  /** `passesFilters` of the channel service: filters in order, disabled ones
      skipped, the first rejecting filter decides. */
  function Passes(filters: seq<Filter>, text: string): (r: bool)
    ensures |filters| == 0 ==> r
    ensures |filters| > 0 ==> (r <==> Admits(filters[0], text) && Passes(filters[1..], text))
  {
    if |filters| == 0 then true
    else
      var f := filters[0];
      if !f.enabled then Passes(filters[1..], text)
      else match f.kind
        case Keywords => AnyMatch(f.keywords, text) && Passes(filters[1..], text)
        case ExcludeKeywords => !AnyMatch(f.keywords, text) && Passes(filters[1..], text)
        case Author => Passes(filters[1..], text)
        case Unrecognized => Passes(filters[1..], text)
  }

  /** A text passes exactly when every filter in the list admits it. */
  lemma {:induction false} PassesIff(filters: seq<Filter>, text: string)
    ensures Passes(filters, text) <==> forall i :: 0 <= i < |filters| ==> Admits(filters[i], text)
  {
    if |filters| > 0 {
      PassesIff(filters[1..], text);
      assert forall i :: 1 <= i < |filters| ==> filters[i] == filters[1..][i - 1];
    }
  }

  /** An author filter, like a disabled one, never decides: inserting it
      anywhere in the list leaves every verdict unchanged. */
  lemma InertFilterIgnored(filters: seq<Filter>, k: int, f: Filter, text: string)
    requires 0 <= k <= |filters| && (f.kind == Author || !f.enabled)
    ensures Passes(filters[..k] + [f] + filters[k..], text) == Passes(filters, text)
  {
    var g := filters[..k] + [f] + filters[k..];
    PassesIff(g, text);
    PassesIff(filters, text);
    assert Admits(f, text);
    assert forall i :: 0 <= i < k ==> g[i] == filters[i];
    assert forall i :: k < i < |g| ==> g[i] == filters[i - 1];
    if Passes(filters, text) {
      forall i | 0 <= i < |g| ensures Admits(g[i], text) {
        if i < k {
          assert g[i] == filters[i];
        } else if i > k {
          assert g[i] == filters[i - 1];
        }
      }
    }
    if Passes(g, text) {
      forall i | 0 <= i < |filters| ensures Admits(filters[i], text) {
        if i < k {
          assert filters[i] == g[i];
        } else {
          assert filters[i] == g[i + 1];
        }
      }
    }
  }

  /** A list of disabled filters (the empty list included) accepts every text. */
  lemma AllDisabledPasses(filters: seq<Filter>, text: string)
    requires forall i :: 0 <= i < |filters| ==> !filters[i].enabled
    ensures Passes(filters, text)
  {
    PassesIff(filters, text);
  }

  /** One enabled rejecting filter anywhere in the list rejects the text. */
  lemma RejectingFilterDecides(filters: seq<Filter>, text: string, k: int)
    requires 0 <= k < |filters| && !Admits(filters[k], text)
    ensures !Passes(filters, text)
  {
    PassesIff(filters, text);
  }

  /** Appending a filter narrows the accepted texts to those it admits. */
  lemma PassesAppend(filters: seq<Filter>, f: Filter, text: string)
    ensures Passes(filters + [f], text) <==> Passes(filters, text) && Admits(f, text)
  {
    PassesIff(filters, text);
    PassesIff(filters + [f], text);
    assert forall i :: 0 <= i < |filters| ==> (filters + [f])[i] == filters[i];
    assert (filters + [f])[|filters|] == f;
  }

  /** Removing a filter never rejects a text that passed before. */
  lemma PassesRemove(filters: seq<Filter>, k: int, text: string)
    requires 0 <= k < |filters|
    ensures Passes(filters, text) ==> Passes(filters[..k] + filters[k + 1..], text)
  {
    var rest := filters[..k] + filters[k + 1..];
    PassesIff(filters, text);
    PassesIff(rest, text);
    assert forall i :: 0 <= i < |rest| ==> rest[i] == filters[if i < k then i else i + 1];
  }

  // ---------------------------------------------------------------------
  // Caption fallback and the flat variants
  // ---------------------------------------------------------------------

  /** The text the flat variants filter on: the post text, or the caption when
      the text is empty. */
  function EffectiveText(text: string, caption: string): (r: string)
    ensures text != [] ==> r == text
    ensures text == [] ==> r == caption
  {
    if text == [] && caption != [] then caption else text
  }

  /** `passesFilters` of the flat channel monitor: the engine on the effective text. */
  function MonitorPasses(filters: seq<Filter>, text: string, caption: string): (r: bool)
    ensures r == Passes(filters, EffectiveText(text, caption))
  {
    if |filters| == 0 then true else Passes(filters, EffectiveText(text, caption))
  }

  /** The filter loop of the flat bot handler, built on `lo.ContainsBy` and
      `containsKeyword`. */
  function BotPassesList(filters: seq<Filter>, text: string): (r: bool)
    ensures (forall i :: 0 <= i < |filters| ==> !filters[i].enabled || filters[i].kind == Author) ==> r
  {
    if |filters| == 0 then true
    else
      var f := filters[0];
      if !f.enabled then BotPassesList(filters[1..], text)
      else match f.kind
        case Keywords =>
          (exists i | 0 <= i < |f.keywords| :: ContainsKeyword(text, f.keywords[i]))
          && BotPassesList(filters[1..], text)
        case ExcludeKeywords =>
          !(exists i | 0 <= i < |f.keywords| :: ContainsKeyword(text, f.keywords[i]))
          && BotPassesList(filters[1..], text)
        case Author => BotPassesList(filters[1..], text)
        case Unrecognized => BotPassesList(filters[1..], text)
  }

  /** The bot handler's loop decides exactly as the channel service's. */
  lemma {:induction false} BotAgrees(filters: seq<Filter>, text: string)
    ensures BotPassesList(filters, text) == Passes(filters, text)
  {
    if |filters| > 0 {
      BotAgrees(filters[1..], text);
      var f := filters[0];
      forall i | 0 <= i < |f.keywords| {
        MatchersAgree(text, f.keywords[i]);
      }
    }
  }

  /** `passesFilters` of the flat bot handler: agrees with the monitor's. */
  function BotPasses(filters: seq<Filter>, text: string, caption: string): (r: bool)
    ensures r == MonitorPasses(filters, text, caption)
  {
    BotAgrees(filters, EffectiveText(text, caption));
    if |filters| == 0 then true else BotPassesList(filters, EffectiveText(text, caption))
  }

  // ---------------------------------------------------------------------
  // Worked examples
  // ---------------------------------------------------------------------

  /** An include filter on "tech" admits "new tech release". */
  lemma IncludeAdmits()
    ensures Passes([Filter(Keywords, ["tech"], true)], "new tech release")
  {
    assert "new tech release"[4..8] == "tech";
    ContainsVerbatim("new tech release", "tech", 4);
    assert AnyMatch(["tech"], "new tech release");
  }

  /** An include filter on "tech" rejects "cooking tips". */
  lemma IncludeRejects()
    ensures !Passes([Filter(Keywords, ["tech"], true)], "cooking tips")
  {
    NoMatch("cooking tips", "tech", 1);
  }

  /** An exclude filter on "spam" rejects "this is spam content". */
  lemma ExcludeRejects()
    ensures !Passes([Filter(ExcludeKeywords, ["spam"], true)], "this is spam content")
  {
    assert "this is spam content"[8..12] == "spam";
    ContainsVerbatim("this is spam content", "spam", 8);
    assert AnyMatch(["spam"], "this is spam content");
  }

  /** An exclude filter on "spam" admits "clean content". */
  lemma ExcludeAdmits()
    ensures Passes([Filter(ExcludeKeywords, ["spam"], true)], "clean content")
  {
    CleanHasNoSpam();
  }

  lemma CleanHasNoSpam()
    ensures !AnyMatch(["spam"], "clean content")
  {
    NoMatch("clean content", "spam", 0);
  }

  /** A lower-case keyword one of whose units is absent from a lower-case text
      does not match it. */
  lemma NoMatch(text: string, keyword: string, k: int)
    requires forall i :: 0 <= i < |text| ==> !IsUpper(text[i])
    requires forall i :: 0 <= i < |keyword| ==> !IsUpper(keyword[i])
    requires 0 <= k < |keyword| && keyword[k] !in text
    ensures !Contains(text, keyword)
  {
    LowerIsIdentity(text);
    LowerIsIdentity(keyword);
    AbsentChar(keyword, text, k);
  }

  lemma LowerIsIdentity(s: string)
    requires forall i :: 0 <= i < |s| ==> !IsUpper(s[i])
    ensures ToLower(s) == s
  {
  }
}
