/** The feature-graphic selection rules of the Play Store asset generator (tools/generate_play_store_assets.py). */
module PlayStoreAssets {
  import opened Wrappers
  import opened Text
  import opened Collections

  // ------------------------------------------------------------------ slugify

  /** The characters `[a-z0-9]` that survive the first substitution of `slugify`. */
  predicate IsSlugChar(c: char)
  {
    'a' <= c <= 'z' || '0' <= c <= '9'
  }

  /** `re.sub(r"-{2,}", "-", s)`: each run of two or more "-" becomes one. */
  function CollapseDashes(s: string): string
    decreases |s|
  {
    if |s| == 0 then ""
    else if s[0] == '-' && |s| > 1 && s[1] == '-' then CollapseDashes(s[1..])
    else [s[0]] + CollapseDashes(s[1..])
  }

  /** The slug before the "screenshot" fallback. */
  function SlugBody(value: string): string
  {
    Trim(CollapseDashes(ReplaceRuns(Lower(value), IsSlugChar)), {'-'})
  }

  /** `slugify` */
  function Slugify(value: string): string
  {
    var body := SlugBody(value);
    if body == "" then "screenshot" else body
  }

  predicate NoDoubleDash(s: string)
  {
    forall i :: 0 <= i < |s| - 1 ==> NoDashPairAt(s, i)
  }

  /** The characters at `i` and `i + 1` are not both "-". */
  predicate NoDashPairAt(s: string, i: nat)
    requires i < |s| - 1
  {
    s[i] != '-' || s[i + 1] != '-'
  }

  /** Putting a character in front keeps single "-" when the character is no "-" or is followed by none. */
  lemma {:induction false} ConsNoDoubleDash(c: char, r: string)
    requires NoDoubleDash(r) && (c == '-' ==> r == [] || r[0] != '-')
    ensures NoDoubleDash([c] + r)
  {
    var s := [c] + r;
    forall i | 0 <= i < |s| - 1 ensures NoDashPairAt(s, i) {
      if i > 0 {
        assert NoDashPairAt(r, i - 1);
      }
    }
  }

  /** The tail of text with single "-" has single "-", and its first two characters are not both "-". */
  lemma {:induction false} TailNoDoubleDash(s: string)
    requires |s| > 0 && NoDoubleDash(s)
    ensures NoDoubleDash(s[1..]) && (|s| > 1 ==> s[0] != '-' || s[1] != '-')
  {
    var t := s[1..];
    forall i | 0 <= i < |t| - 1 ensures NoDashPairAt(t, i) {
      assert NoDashPairAt(s, i + 1);
    }
    if |s| > 1 {
      assert NoDashPairAt(s, 0);
    }
  }

  predicate SlugShaped(s: string)
  {
    (forall i :: 0 <= i < |s| ==> IsSlugChar(s[i]) || s[i] == '-') && NoDoubleDash(s)
  }

  /** When "-" is replaced too, the substitution never leaves two "-" side by side. */
  lemma {:induction false} ReplaceRunsSingleDashes(s: string, keep: char -> bool)
    requires !keep('-')
    ensures NoDoubleDash(ReplaceRuns(s, keep))
    decreases |s|
  {
    if |s| > 0 {
      if keep(s[0]) {
        ReplaceRunsSingleDashes(s[1..], keep);
        var r := ReplaceRuns(s[1..], keep);
        assert ReplaceRuns(s, keep) == [s[0]] + r;
        ConsNoDoubleDash(s[0], r);
      } else {
        var i := RunEnd(s, keep);
        ReplaceRunsSingleDashes(s[i..], keep);
        var r := ReplaceRuns(s[i..], keep);
        assert ReplaceRuns(s, keep) == "-" + r;
        if |r| > 0 {
          assert r[0] == s[i];
        }
        ConsNoDoubleDash('-', r);
      }
    }
  }

  lemma {:induction false} CollapseIdentity(s: string)
    requires NoDoubleDash(s)
    ensures CollapseDashes(s) == s
    decreases |s|
  {
    if |s| > 0 {
      TailNoDoubleDash(s);
      CollapseIdentity(s[1..]);
    }
  }

  /** Stripping "-" keeps the shape and leaves no "-" at either end. */
  lemma {:induction false} TrimDashesShape(r: string)
    requires SlugShaped(r)
    ensures var t := Trim(r, {'-'});
      SlugShaped(t) && (|t| > 0 ==> t[0] != '-' && t[|t| - 1] != '-')
  {
    var t := Trim(r, {'-'});
    var d := |r| - |TrimLeft(r, {'-'})|;
    TrimWindow(r, {'-'});
    assert d + |t| <= |r| && t == r[d..d + |t|];
    SliceSlugShaped(r, d, d + |t|, t);
  }

  /** A window of a slug-shaped text is slug-shaped. */
  lemma {:induction false} SliceSlugShaped(r: string, a: nat, b: nat, w: string)
    requires a <= b <= |r| && SlugShaped(r) && w == r[a..b]
    ensures SlugShaped(w)
  {
    forall i | 0 <= i < |w| ensures IsSlugChar(w[i]) || w[i] == '-' {
      assert w[i] == r[a + i];
    }
    forall i | 0 <= i < |w| - 1 ensures NoDashPairAt(w, i) {
      assert NoDashPairAt(r, a + i);
      assert w[i] == r[a + i] && w[i + 1] == r[a + i + 1];
    }
  }

  /** A slug of slug characters and "-" with no "-" at its start is empty exactly when it has no slug character. */
  lemma {:induction false} EmptyIffNoSlugChar(t: string)
    requires SlugShaped(t) && (|t| > 0 ==> t[0] != '-')
    ensures t == "" <==> Filter(t, IsSlugChar) == ""
  {
    if |t| > 0 {
      assert IsSlugChar(t[0]);
      assert Filter(t, IsSlugChar) == [t[0]] + Filter(t[1..], IsSlugChar);
    }
  }

  /** The slug body is made of `[a-z0-9-]`, has no "--" and no "-" at either end, and is empty only when no letter or digit survives. */
  lemma {:induction false} SlugBodyShape(value: string)
    ensures var t := SlugBody(value);
      SlugShaped(t) && (|t| > 0 ==> t[0] != '-' && t[|t| - 1] != '-') &&
      Filter(t, IsSlugChar) == Filter(Lower(value), IsSlugChar)
  {
    SlugBodyShaped(value);
    SlugBodyKeeps(value);
  }

  lemma {:induction false} SlugBodyShaped(value: string)
    ensures var t := SlugBody(value);
      SlugShaped(t) && (|t| > 0 ==> t[0] != '-' && t[|t| - 1] != '-')
  {
    var r := ReplaceRuns(Lower(value), IsSlugChar);
    CollapseNeverFires(value);
    assert SlugBody(value) == Trim(r, {'-'});
    ReplaceRunsSingleDashes(Lower(value), IsSlugChar);
    TrimDashesShape(r);
  }

  lemma {:induction false} SlugBodyKeeps(value: string)
    ensures Filter(SlugBody(value), IsSlugChar) == Filter(Lower(value), IsSlugChar)
  {
    var r := ReplaceRuns(Lower(value), IsSlugChar);
    CollapseNeverFires(value);
    assert SlugBody(value) == Trim(r, {'-'});
    ReplaceRunsKeeps(Lower(value), IsSlugChar, IsSlugChar);
    TrimKeeps(r, {'-'}, IsSlugChar);
  }

  /**
   * The slug is non-empty, uses only `[a-z0-9-]`, has no "--" and no "-" at
   * either end, and keeps every lower-cased letter and digit of the value in
   * order; it is "screenshot" when the value has none.
   */
  lemma {:induction false} SlugifyShape(value: string)
    ensures var s := Slugify(value);
      |s| > 0 && SlugShaped(s) && s[0] != '-' && s[|s| - 1] != '-'
    ensures var keepers := Filter(Lower(value), IsSlugChar);
      (keepers == "" ==> Slugify(value) == "screenshot") &&
      (keepers != "" ==> Filter(Slugify(value), IsSlugChar) == keepers)
  {
    SlugBodyShape(value);
    EmptyIffNoSlugChar(SlugBody(value));
  }

  /** The second substitution of `slugify` never fires: the first already leaves single "-". */
  lemma {:induction false} CollapseNeverFires(value: string)
    ensures CollapseDashes(ReplaceRuns(Lower(value), IsSlugChar)) == ReplaceRuns(Lower(value), IsSlugChar)
  {
    ReplaceRunsSingleDashes(Lower(value), IsSlugChar);
    CollapseIdentity(ReplaceRuns(Lower(value), IsSlugChar));
  }

  /** A slug is its own slug. */
  lemma {:induction false} SlugifyIdempotent(value: string)
    ensures Slugify(Slugify(value)) == Slugify(value)
  {
    var s := Slugify(value);
    SlugifyShape(value);
    SlugLowerIdentity(s);
    SlugReplaceIdentity(s);
    CollapseIdentity(s);
    TrimIdentity(s, {'-'});
    calc {
      SlugBody(s);
      Trim(CollapseDashes(ReplaceRuns(Lower(s), IsSlugChar)), {'-'});
      Trim(CollapseDashes(ReplaceRuns(s, IsSlugChar)), {'-'});
      Trim(CollapseDashes(s), {'-'});
      Trim(s, {'-'});
      s;
    }
  }

  /** Slug-shaped text is already lower case. */
  lemma {:induction false} SlugLowerIdentity(s: string)
    requires SlugShaped(s)
    ensures Lower(s) == s
  {
    forall i | 0 <= i < |s| ensures Lower(s)[i] == s[i] {
      assert IsSlugChar(s[i]) || s[i] == '-';
    }
  }

  /** The first substitution maps a slug to itself: each "-" is a run of one. */
  lemma {:induction false} SlugReplaceIdentity(s: string)
    requires SlugShaped(s) && (|s| > 0 ==> s[0] != '-')
    ensures ReplaceRuns(s, IsSlugChar) == s
    decreases |s|
  {
    if |s| > 0 {
      assert IsSlugChar(s[0]);
      var t := s[1..];
      SliceSlugShaped(s, 1, |s|, t);
      if |t| > 0 && t[0] == '-' {
        assert RunEnd(t, IsSlugChar) == 1 by {
          if |t| > 1 {
            TailNoDoubleDash(t);
          }
        }
        var u := t[1..];
        SliceSlugShaped(t, 1, |t|, u);
        SlugReplaceIdentity(u);
        assert ReplaceRuns(t, IsSlugChar) == "-" + u;
      } else {
        SlugReplaceIdentity(t);
      }
    }
  }

  // ------------------------------------------------------------------ compute_feature_shot_width

  /** `compute_feature_shot_width`: the width of the screenshot shown in slot `slot` of the feature graphic. */
  function FeatureShotWidth(device: string, slot: int): int
  {
    var base := if device == "phone" then 230 else 330;
    if slot == 1 then base + 30 else if slot == 0 then base - 10 else base
  }

  /**
   * The middle slot is the widest and the first the narrowest; a phone shot is
   * 100 narrower than a tablet shot in the same slot.
   */
  lemma {:induction false} FeatureShotWidthOrder(device: string, slot: int)
    ensures slot != 0 && slot != 1 ==> FeatureShotWidth(device, 0) < FeatureShotWidth(device, slot) < FeatureShotWidth(device, 1)
    ensures device != "phone" ==> FeatureShotWidth("phone", slot) + 100 == FeatureShotWidth(device, slot)
    ensures 220 <= FeatureShotWidth(device, slot) <= 360
  {
  }

  // ------------------------------------------------------------------ HomeShowcaseParser._unescape

  /** `s.replace(a + b, [rep])`: each non-overlapping two-character `ab`, left to right, becomes `rep`. */
  function ReplacePair(s: string, a: char, b: char, rep: char): (r: string)
    ensures |r| <= |s|
    decreases |s|
  {
    if |s| == 0 then ""
    else if |s| > 1 && s[0] == a && s[1] == b then [rep] + ReplacePair(s[2..], a, b, rep)
    else [s[0]] + ReplacePair(s[1..], a, b, rep)
  }

  /** `_unescape`: `\'` becomes `'`, then `\"` becomes `"`. */
  function Unescape(value: string): string
  {
    ReplacePair(ReplacePair(value, '\\', '\'', '\''), '\\', '"', '"')
  }

  /** A backslash before each character of `qs`: how the template escapes quotes inside a string literal. */
  function Escape(s: string, qs: set<char>): string
    decreases |s|
  {
    if |s| == 0 then "" else (if s[0] in qs then ['\\', s[0]] else [s[0]]) + Escape(s[1..], qs)
  }

  lemma {:induction false} ReplacePairMatch(t: string, a: char, b: char, rep: char)
    ensures ReplacePair([a, b] + t, a, b, rep) == [rep] + ReplacePair(t, a, b, rep)
  {
    assert ([a, b] + t)[2..] == t;
  }

  lemma {:induction false} ReplacePairOther(x: char, t: string, a: char, b: char, rep: char)
    requires x != a
    ensures ReplacePair([x] + t, a, b, rep) == [x] + ReplacePair(t, a, b, rep)
  {
    assert ([x] + t)[1..] == t;
  }

  lemma {:induction false} ReplacePairMiss(x: char, t: string, a: char, b: char, rep: char)
    requires x != b
    ensures ReplacePair([a, x] + t, a, b, rep) == [a] + ReplacePair([x] + t, a, b, rep)
  {
    assert ([a, x] + t)[1..] == [x] + t;
  }

  /** Undoing one escaped quote `q` leaves the others escaped. */
  lemma {:induction false} ReplacePairEscape(s: string, qs: set<char>, q: char)
    requires '\\' !in s && '\\' !in qs && q in qs
    ensures ReplacePair(Escape(s, qs), '\\', q, q) == Escape(s, qs - {q})
    decreases |s|
  {
    if |s| > 0 {
      var x := s[0];
      var rest := Escape(s[1..], qs);
      ReplacePairEscape(s[1..], qs, q);
      assert x != '\\';
      if x == q {
        assert Escape(s, qs) == ['\\', q] + rest;
        ReplacePairMatch(rest, '\\', q, q);
      } else if x in qs {
        assert Escape(s, qs) == ['\\', x] + rest;
        ReplacePairMiss(x, rest, '\\', q, q);
        ReplacePairOther(x, rest, '\\', q, q);
      } else {
        assert Escape(s, qs) == [x] + rest;
        ReplacePairOther(x, rest, '\\', q, q);
      }
    }
  }

  /** `_unescape` undoes the escaping of both quote characters in text without backslashes. */
  lemma {:induction false} UnescapeEscape(s: string)
    requires '\\' !in s
    ensures Unescape(Escape(s, {'\'', '"'})) == s
  {
    ReplacePairEscape(s, {'\'', '"'}, '\'');
    assert {'\'', '"'} - {'\''} == {'"'};
    ReplacePairEscape(s, {'"'}, '"');
    assert {'"'} - {'"'} == {};
    EscapeNothing(s);
  }

  lemma {:induction false} EscapeNothing(s: string)
    ensures Escape(s, {}) == s
    decreases |s|
  {
    if |s| > 0 {
      EscapeNothing(s[1..]);
    }
  }

  // ------------------------------------------------------------------ parse_feature_pick_string

  /** The separators of `re.split(r"[,\s]+", ...)`. */
  const PickSeparators: set<char> := {','} + Whitespace

  /** A token naming a screenshot: ASCII digits whose value is within `1..total`. */
  predicate ValidPick(token: string, total: int)
  {
    AllDigits(token) && 1 <= DigitsValue(token) <= total
  }

  /** `int(token)` of a token that passed `isdigit()`; the source never converts any other token. */
  function TokenValue(token: string): nat
  {
    if AllDigits(token) then DigitsValue(token) else 0
  }

  /** `int(token)` of each of the first `n` tokens. */
  function PickValues(tokens: seq<string>, n: nat): (r: seq<int>)
    requires n <= |tokens|
    ensures |r| == n && forall k :: 0 <= k < n ==> r[k] == TokenValue(tokens[k])
  {
    if n == 0 then [] else PickValues(tokens, n - 1) + [TokenValue(tokens[n - 1])]
  }

  /** One more token: its value is added to the picks unless already picked. */
  lemma {:induction false} PickStep(tokens: seq<string>, i: nat, picks: seq<int>)
    requires i < |tokens| && picks == Dedup(PickValues(tokens, i))
    ensures var v := TokenValue(tokens[i]);
      (if v in picks then picks else picks + [v]) == Dedup(PickValues(tokens, i + 1))
  {
    DedupSnoc(PickValues(tokens, i), TokenValue(tokens[i]));
  }

  predicate AllValidPicks(tokens: seq<string>, total: int)
  {
    forall k :: 0 <= k < |tokens| ==> ValidPick(tokens[k], total)
  }

  /** The picks the tokens name: `None` when a token names no screenshot or they do not name exactly three. */
  function PicksOf(tokens: seq<string>, total: int): Option<seq<int>>
  {
    if |tokens| == 0 || !AllValidPicks(tokens, total) then None
    else
      var picks := Dedup(PickValues(tokens, |tokens|));
      if |picks| != 3 then None else Some(picks)
  }

  /** What `parse_feature_pick_string` returns. */
  function ParsePicks(raw: string, total: int): Option<seq<int>>
  {
    PicksOf(Tokens(Strip(raw), PickSeparators), total)
  }

  /** `parse_feature_pick_string` */
  method ParseFeaturePickString(raw: string, total: int) returns (r: Option<seq<int>>)
    ensures r == ParsePicks(raw, total)
  {
    var tokens := Tokens(Strip(raw), PickSeparators);
    r := PickTokens(tokens, total);
  }

  lemma {:induction false} PicksOfBad(tokens: seq<string>, total: int, i: nat)
    requires i < |tokens| && !ValidPick(tokens[i], total)
    ensures PicksOf(tokens, total) == None
  {
  }

  lemma {:induction false} PicksOfGood(tokens: seq<string>, total: int, picks: seq<int>)
    requires |tokens| > 0 && AllValidPicks(tokens, total)
    requires picks == Dedup(PickValues(tokens, |tokens|))
    ensures PicksOf(tokens, total) == if |picks| != 3 then None else Some(picks)
  {
  }

  /** The body of the token loop: `ok` is false where the source returns `None`; otherwise the value is picked unless already picked. */
  method AddPick(token: string, total: int, picks: seq<int>) returns (ok: bool, next: seq<int>)
    ensures ok <==> ValidPick(token, total)
    ensures ok ==> next == if TokenValue(token) in picks then picks else picks + [TokenValue(token)]
  {
    if !AllDigits(token) {
      return false, picks;
    }
    var value := DigitsValue(token);
    if value < 1 || value > total {
      return false, picks;
    }
    next := picks;
    if value !in picks {
      next := picks + [value];
    }
    ok := true;
  }

  /** The loop of `parse_feature_pick_string` over the tokens, returning at the first bad one. */
  method PickTokens(tokens: seq<string>, total: int) returns (r: Option<seq<int>>)
    ensures r == PicksOf(tokens, total)
  {
    if |tokens| == 0 {
      return None;
    }
    var picks: seq<int> := [];
    for i := 0 to |tokens|
      invariant forall k :: 0 <= k < i ==> ValidPick(tokens[k], total)
      invariant picks == Dedup(PickValues(tokens, i))
    {
      var ok, next := AddPick(tokens[i], total, picks);
      if !ok {
        PicksOfBad(tokens, total, i);
        return None;
      }
      PickStep(tokens, i, picks);
      picks := next;
    }
    PicksOfGood(tokens, total, picks);
    if |picks| != 3 {
      return None;
    }
    return Some(picks);
  }

  /**
   * A pick is accepted exactly when every token names a screenshot in
   * `1..total` and they name three distinct ones; it is then those three,
   * each named by some token, distinct, in the order first named.
   */
  lemma {:induction false} ParsePicksShape(raw: string, total: int)
    ensures var tokens := Tokens(Strip(raw), PickSeparators);
      ParsePicks(raw, total).Some? <==>
        (forall k :: 0 <= k < |tokens| ==> ValidPick(tokens[k], total)) && |Dedup(PickValues(tokens, |tokens|))| == 3
    ensures var tokens := Tokens(Strip(raw), PickSeparators);
      var r := ParsePicks(raw, total);
      r.Some? ==> (|r.value| == 3 && Distinct(r.value) &&
        forall i :: 0 <= i < 3 ==> (1 <= r.value[i] <= total &&
           exists k :: 0 <= k < |tokens| && ValidPick(tokens[k], total) && DigitsValue(tokens[k]) == r.value[i]))
  {
    PicksOfShape(Tokens(Strip(raw), PickSeparators), total);
  }

  /** `ParsePicksShape` for the tokens themselves. */
  lemma {:induction false} PicksOfShape(tokens: seq<string>, total: int)
    ensures PicksOf(tokens, total).Some? <==>
        (forall k :: 0 <= k < |tokens| ==> ValidPick(tokens[k], total)) && |Dedup(PickValues(tokens, |tokens|))| == 3
    ensures var r := PicksOf(tokens, total);
      r.Some? ==> (|r.value| == 3 && Distinct(r.value) &&
        forall i :: 0 <= i < 3 ==> (1 <= r.value[i] <= total &&
           exists k :: 0 <= k < |tokens| && ValidPick(tokens[k], total) && DigitsValue(tokens[k]) == r.value[i]))
  {
    if |tokens| == 0 {
      assert PickValues(tokens, 0) == [];
    }
    var r := PicksOf(tokens, total);
    if r.Some? {
      forall i | 0 <= i < 3
        ensures 1 <= r.value[i] <= total && exists k :: 0 <= k < |tokens| && ValidPick(tokens[k], total) && DigitsValue(tokens[k]) == r.value[i]
      {
        PickNamed(tokens, total, r.value[i]);
      }
    }
  }

  /** A picked value is named by some valid token. */
  lemma {:induction false} PickNamed(tokens: seq<string>, total: int, v: int)
    requires AllValidPicks(tokens, total) && v in Dedup(PickValues(tokens, |tokens|))
    ensures 1 <= v <= total && exists k :: 0 <= k < |tokens| && ValidPick(tokens[k], total) && DigitsValue(tokens[k]) == v
  {
    var vs := PickValues(tokens, |tokens|);
    var k :| 0 <= k < |vs| && vs[k] == v;
    assert ValidPick(tokens[k], total) && TokenValue(tokens[k]) == DigitsValue(tokens[k]);
  }

  // ------------------------------------------------------------------ compute_default_feature_indices

  /** `FEATURE_DEFAULT_SELECTION`: the device and per-device ordinal of each preferred screenshot. */
  const DefaultSelection: seq<(string, int)> := [("phone", 1), ("tablet7", 2), ("tablet10", 4)]

  datatype FeatureCandidate = FeatureCandidate(index: int, device: string, deviceLabel: string, deviceOrdinal: int,
                                               filename: string, caption: string, description: string, alt: string,
                                               component: string, assetPath: string)

  /** The device and per-device ordinal a candidate stands for. */
  function Slot(c: FeatureCandidate): (string, int)
  {
    (c.device, c.deviceOrdinal)
  }

  /** The position of the first candidate in `slot`. */
  function MatchAt(cands: seq<FeatureCandidate>, slot: (string, int)): (r: Option<nat>)
    ensures r.Some? ==> r.value < |cands| && Slot(cands[r.value]) == slot
    ensures r.Some? ==> forall k :: 0 <= k < r.value ==> Slot(cands[k]) != slot
    ensures r.None? ==> forall k :: 0 <= k < |cands| ==> Slot(cands[k]) != slot
    decreases |cands|
  {
    if |cands| == 0 then None
    else if Slot(cands[0]) == slot then Some(0)
    else
      assert forall k :: 1 <= k < |cands| ==> cands[k] == cands[1..][k - 1];
      match MatchAt(cands[1..], slot)
      case None => None
      case Some(i) => Some(i + 1)
  }

  /** The indices the preferred slots resolve to, in preference order; a slot no candidate fills is skipped. */
  function Preferred(cands: seq<FeatureCandidate>, selection: seq<(string, int)>): (r: seq<int>)
    ensures |r| <= |selection|
    ensures forall i :: 0 <= i < |r| ==> FillsSlot(cands, r[i], selection)
    decreases |selection|
  {
    if |selection| == 0 then []
    else
      var prefix := selection[..|selection| - 1];
      var p := Preferred(cands, prefix);
      assert forall x :: x in prefix ==> x in selection;
      WidenSlots(cands, p, prefix, selection);
      match MatchAt(cands, selection[|selection| - 1])
      case None => p
      case Some(k) =>
        assert Slot(cands[k]) in selection;
        var r := p + [cands[k].index];
        assert forall i :: 0 <= i < |p| ==> r[i] == p[i];
        r
  }

  /** Indices of candidates whose slot is among `prefix` are indices of candidates whose slot is among `selection`. */
  lemma {:induction false} WidenSlots(cands: seq<FeatureCandidate>, p: seq<int>, prefix: seq<(string, int)>, selection: seq<(string, int)>)
    requires forall x :: x in prefix ==> x in selection
    requires forall i :: 0 <= i < |p| ==> FillsSlot(cands, p[i], prefix)
    ensures forall i :: 0 <= i < |p| ==> FillsSlot(cands, p[i], selection)
  {
    forall i | 0 <= i < |p| ensures FillsSlot(cands, p[i], selection) {
      var k :| 0 <= k < |cands| && p[i] == cands[k].index && Slot(cands[k]) in prefix;
      assert Slot(cands[k]) in selection;
    }
  }

  /** `v` is the index of a candidate whose slot is one of `selection`. */
  predicate FillsSlot(cands: seq<FeatureCandidate>, v: int, selection: seq<(string, int)>)
  {
    exists k :: 0 <= k < |cands| && v == cands[k].index && Slot(cands[k]) in selection
  }

  /** The fill loop: each further candidate index not yet chosen, until three are chosen. */
  function Fill(resolved: seq<int>, cands: seq<FeatureCandidate>): seq<int>
    decreases |cands|
  {
    if |resolved| >= 3 || |cands| == 0 then resolved
    else Fill(if cands[0].index in resolved then resolved else resolved + [cands[0].index], cands[1..])
  }

  /** What `compute_default_feature_indices` returns. */
  function DefaultIndices(cands: seq<FeatureCandidate>): seq<int>
  {
    var r := Fill(Preferred(cands, DefaultSelection), cands);
    if |r| <= 3 then r else r[..3]
  }

  /** `compute_default_feature_indices` */
  method ComputeDefaultFeatureIndices(candidates: seq<FeatureCandidate>) returns (r: seq<int>)
    ensures r == DefaultIndices(candidates)
  {
    var resolved: seq<int> := [];
    for s := 0 to |DefaultSelection|
      invariant resolved == Preferred(candidates, DefaultSelection[..s])
    {
      var slot := DefaultSelection[s];
      var j := 0;
      while j < |candidates|
        invariant j <= |candidates|
        invariant forall k :: 0 <= k < j ==> Slot(candidates[k]) != slot
        invariant resolved == Preferred(candidates, DefaultSelection[..s])
      {
        if candidates[j].device == slot.0 && candidates[j].deviceOrdinal == slot.1 {
          resolved := resolved + [candidates[j].index];
          break;
        }
        j := j + 1;
      }
      assert DefaultSelection[..s + 1][..s] == DefaultSelection[..s];
    }
    assert DefaultSelection[..3] == DefaultSelection;
    var preferred := resolved;
    for j := 0 to |candidates|
      invariant Fill(resolved, candidates[j..]) == Fill(preferred, candidates)
    {
      if |resolved| >= 3 {
        break;
      }
      assert candidates[j..][1..] == candidates[j + 1..];
      if candidates[j].index !in resolved {
        resolved := resolved + [candidates[j].index];
      }
    }
    r := if |resolved| <= 3 then resolved else resolved[..3];
  }

  /** The candidates' indices, in candidate order. */
  function Indices(cands: seq<FeatureCandidate>): (r: seq<int>)
    ensures |r| == |cands| && forall k :: 0 <= k < |cands| ==> r[k] == cands[k].index
  {
    if |cands| == 0 then [] else [cands[0].index] + Indices(cands[1..])
  }

  /** The first `n` elements of `s` (`s[:n]`). */
  function Take(s: seq<int>, n: nat): (r: seq<int>)
    ensures |r| <= n && |r| <= |s| && r == s[..|r|] && (|r| < n ==> r == s)
  {
    if |s| <= n then s else s[..n]
  }

  function Max(a: int, b: int): int
  {
    if a < b then b else a
  }

  /**
   * Filling a repeat-free `resolved` from `cands` gives the first
   * `max(len(resolved), 3)` distinct values of `resolved` followed by every
   * candidate index in candidate order.
   */
  lemma {:induction false} FillIsDedup(resolved: seq<int>, cands: seq<FeatureCandidate>)
    requires Distinct(resolved)
    ensures Fill(resolved, cands) == Take(Dedup(resolved + Indices(cands)), Max(|resolved|, 3))
    decreases |cands|
  {
    if |resolved| >= 3 || |cands| == 0 {
      FillDone(resolved, cands);
    } else {
      var c := cands[0].index;
      var next := if c in resolved then resolved else resolved + [c];
      FillNext(resolved, c);
      FillIsDedup(next, cands[1..]);
      FillStep(resolved, cands);
      DedupCongruence(next, resolved + [c], Indices(cands[1..]));
      AppendAssoc(resolved, [c], Indices(cands[1..]));
    }
  }

  /** One candidate taken by the fill loop, short of three. */
  lemma {:induction false} FillStep(resolved: seq<int>, cands: seq<FeatureCandidate>)
    requires |resolved| < 3 && |cands| > 0
    ensures var c := cands[0].index;
      var next := if c in resolved then resolved else resolved + [c];
      Fill(resolved, cands) == Fill(next, cands[1..]) && Indices(cands) == [c] + Indices(cands[1..]) &&
      Max(|next|, 3) == Max(|resolved|, 3)
  {
  }

  /** Where the fill loop stops at once, `resolved` is what de-duplication keeps. */
  lemma {:induction false} FillDone(resolved: seq<int>, cands: seq<FeatureCandidate>)
    requires Distinct(resolved) && (|resolved| >= 3 || |cands| == 0)
    ensures resolved == Take(Dedup(resolved + Indices(cands)), Max(|resolved|, 3))
  {
    DedupDistinct(resolved);
    DedupPrefix(resolved, Indices(cands));
    if |cands| == 0 {
      assert resolved + Indices(cands) == resolved;
    }
  }

  /** One step of the fill loop is one step of de-duplication. */
  lemma {:induction false} FillNext(resolved: seq<int>, c: int)
    requires Distinct(resolved)
    ensures var next := if c in resolved then resolved else resolved + [c];
      Distinct(next) && Dedup(next) == Dedup(resolved + [c])
  {
    var next := if c in resolved then resolved else resolved + [c];
    DedupDistinct(resolved);
    DedupSnoc(resolved, c);
    DedupDistinct(next);
  }

  /** Distinct slots resolve to distinct candidates, so the preferred indices have no repeats when candidate indices have none. */
  lemma {:induction false} PreferredDistinct(cands: seq<FeatureCandidate>, selection: seq<(string, int)>)
    requires Distinct(selection) && Distinct(Indices(cands))
    ensures Distinct(Preferred(cands, selection))
    decreases |selection|
  {
    if |selection| > 0 {
      var prefix := selection[..|selection| - 1];
      var slot := selection[|selection| - 1];
      assert Distinct(prefix);
      PreferredDistinct(cands, prefix);
      match MatchAt(cands, slot)
      case None =>
      case Some(k) =>
        PreferredAvoids(cands, prefix, k);
    }
  }

  /** A candidate whose slot is not selected has an index the preferred list does not hold. */
  lemma {:induction false} PreferredAvoids(cands: seq<FeatureCandidate>, selection: seq<(string, int)>, k: nat)
    requires k < |cands| && Slot(cands[k]) !in selection && Distinct(Indices(cands))
    ensures cands[k].index !in Preferred(cands, selection)
  {
    var p := Preferred(cands, selection);
    forall i | 0 <= i < |p| ensures p[i] != cands[k].index {
      var j :| 0 <= j < |cands| && p[i] == cands[j].index && Slot(cands[j]) in selection;
      assert j != k;
      DistinctAt(Indices(cands), j, k);
    }
  }

  /**
   * The defaults are the first three of: the preferred slots' indices, in
   * preference order, then every candidate index in candidate order, each
   * taken once.
   */
  lemma {:induction false} DefaultIndicesSpec(cands: seq<FeatureCandidate>)
    requires Distinct(Indices(cands))
    ensures DefaultIndices(cands) == Take(Dedup(Preferred(cands, DefaultSelection) + Indices(cands)), 3)
  {
    var p := Preferred(cands, DefaultSelection);
    PreferredDistinct(cands, DefaultSelection);
    FillIsDedup(p, cands);
  }

  /**
   * `compute_default_feature_indices` returns at most three indices, each a
   * candidate's, starting with the preferred slots' matches in preference
   * order.
   */
  lemma {:induction false} DefaultIndicesShape(cands: seq<FeatureCandidate>)
    ensures var r := DefaultIndices(cands);
      var p := Preferred(cands, DefaultSelection);
      |r| <= 3 && |p| <= |r| && r[..|p|] == p &&
      forall i :: 0 <= i < |r| ==> exists k :: 0 <= k < |cands| && r[i] == cands[k].index
  {
    var r := DefaultIndices(cands);
    var p := Preferred(cands, DefaultSelection);
    FillShape(p, cands);
    var f := Fill(p, cands);
    assert r == f;
    forall i | 0 <= i < |r| ensures exists k :: 0 <= k < |cands| && r[i] == cands[k].index {
      if i >= |p| {
        assert r[i] == f[i];
      } else {
        assert r[i] == p[i];
      }
    }
  }

  /** With distinct candidate indices the defaults are distinct, and there are three of them once there are three candidates. */
  lemma {:induction false} DefaultIndicesDistinct(cands: seq<FeatureCandidate>)
    requires Distinct(Indices(cands))
    ensures Distinct(DefaultIndices(cands)) && (|cands| >= 3 ==> |DefaultIndices(cands)| == 3)
  {
    var p := Preferred(cands, DefaultSelection);
    var ids := Indices(cands);
    DefaultIndicesSpec(cands);
    forall i | 0 <= i < |ids| ensures ids[i] in p + ids {
      assert ids[i] == (p + ids)[|p| + i];
    }
    DedupCovers(p + ids, ids);
    TakeDistinct(Dedup(p + ids), 3);
  }

  lemma {:induction false} TakeDistinct(s: seq<int>, n: nat)
    requires Distinct(s)
    ensures Distinct(Take(s, n))
  {
  }

  /** Filling keeps what was resolved as its prefix, stops at three, and only adds candidate indices. */
  lemma {:induction false} FillShape(resolved: seq<int>, cands: seq<FeatureCandidate>)
    ensures var f := Fill(resolved, cands);
      |resolved| <= |f| <= Max(|resolved|, 3) && f[..|resolved|] == resolved &&
      forall i :: |resolved| <= i < |f| ==> exists k :: 0 <= k < |cands| && f[i] == cands[k].index
    decreases |cands|
  {
    if |resolved| < 3 && |cands| > 0 {
      var c := cands[0].index;
      var next := if c in resolved then resolved else resolved + [c];
      FillShape(next, cands[1..]);
      var f := Fill(resolved, cands);
      forall i | |resolved| <= i < |f| ensures exists k :: 0 <= k < |cands| && f[i] == cands[k].index {
        if i < |next| {
          assert f[i] == next[i] == c == cands[0].index;
        } else {
          var k :| 0 <= k < |cands[1..]| && f[i] == cands[1..][k].index;
          assert f[i] == cands[k + 1].index;
        }
      }
      assert f[..|next|] == next;
      assert f[..|resolved|] == next[..|resolved|];
    }
  }

  // ------------------------------------------------------------------ determine_feature_indices

  /** The exceptions `determine_feature_indices` raises. */
  datatype SelectionError = RuntimeError(message: string) | ValueError(message: string)

  const TooFewMessage: string := "Need at least three screenshots to build a feature graphic."

  function InvalidPicksMessage(picksArg: string, total: int): string
  {
    "Invalid --feature-picks value '" + picksArg + "'. Expected three indexes within 1-" + IntToString(total) + "."
  }

  /**
   * `determine_feature_indices`: `answer` is `None` when stdin is not a
   * terminal, otherwise the line `input()` returns.
   */
  function DetermineFeatureIndices(cands: seq<FeatureCandidate>, picksArg: Option<string>, answer: Option<string>): Result<seq<int>, SelectionError>
  {
    var total := |cands|;
    if total < 3 then Err(RuntimeError(TooFewMessage))
    else if picksArg.Some? && picksArg.value != "" then
      match ParsePicks(picksArg.value, total)
      case None => Err(ValueError(InvalidPicksMessage(picksArg.value, total)))
      case Some(picks) => Ok(picks)
    else if answer.Some? && Strip(answer.value) != "" && ParsePicks(Strip(answer.value), total).Some? then
      Ok(ParsePicks(Strip(answer.value), total).value)
    else Ok(DefaultIndices(cands))
  }

  /**
   * RuntimeError exactly when there are fewer than three candidates;
   * otherwise ValueError exactly when a non-empty `--feature-picks` does not
   * parse, that pick when it does, and, with no pick argument and no
   * terminal, the defaults.
   */
  lemma {:induction false} DetermineCases(cands: seq<FeatureCandidate>, picksArg: Option<string>, answer: Option<string>)
    ensures var r := DetermineFeatureIndices(cands, picksArg, answer);
      (r.Err? && r.error.RuntimeError? <==> |cands| < 3) &&
      (r.Err? && r.error.ValueError? <==>
         |cands| >= 3 && picksArg.Some? && picksArg.value != "" && ParsePicks(picksArg.value, |cands|).None?) &&
      (r.Err? && r.error.ValueError? ==> r.error.message == InvalidPicksMessage(picksArg.value, |cands|))
    ensures var r := DetermineFeatureIndices(cands, picksArg, answer);
      |cands| >= 3 && picksArg.Some? && picksArg.value != "" && ParsePicks(picksArg.value, |cands|).Some? ==>
        r == Ok(ParsePicks(picksArg.value, |cands|).value)
    ensures var r := DetermineFeatureIndices(cands, picksArg, answer);
      |cands| >= 3 && (picksArg.None? || picksArg.value == "") && answer.None? ==> r == Ok(DefaultIndices(cands))
    ensures var r := DetermineFeatureIndices(cands, picksArg, answer);
      |cands| >= 3 && (picksArg.None? || picksArg.value == "") && answer.Some? ==>
        r == Ok(if ParsePicks(Strip(answer.value), |cands|).Some? then ParsePicks(Strip(answer.value), |cands|).value else DefaultIndices(cands))
  {
    if answer.Some? && Strip(answer.value) == "" {
      assert Tokens(Strip(Strip(answer.value)), PickSeparators) == [];
    }
  }

  /** Candidates numbered `1..n` in order, as `collect_feature_candidates` numbers them. */
  predicate Numbered(cands: seq<FeatureCandidate>)
  {
    forall k :: 0 <= k < |cands| ==> cands[k].index == k + 1
  }

  /** Whatever path it takes, a selection from numbered candidates is three distinct numbers of candidates. */
  lemma {:induction false} DetermineSelectsThree(cands: seq<FeatureCandidate>, picksArg: Option<string>, answer: Option<string>)
    requires Numbered(cands)
    ensures var r := DetermineFeatureIndices(cands, picksArg, answer);
      r.Ok? ==> |r.value| == 3 && Distinct(r.value) && forall i :: 0 <= i < 3 ==> 1 <= r.value[i] <= |cands|
  {
    var r := DetermineFeatureIndices(cands, picksArg, answer);
    if r.Ok? {
      if picksArg.Some? && picksArg.value != "" {
        ParsePicksShape(picksArg.value, |cands|);
      } else if answer.Some? && Strip(answer.value) != "" && ParsePicks(Strip(answer.value), |cands|).Some? {
        ParsePicksShape(Strip(answer.value), |cands|);
      } else {
        assert Indices(cands) == seq(|cands|, k => k + 1);
        DefaultIndicesShape(cands);
        DefaultIndicesDistinct(cands);
        forall i | 0 <= i < 3 ensures 1 <= r.value[i] <= |cands| {
          var k :| 0 <= k < |cands| && r.value[i] == cands[k].index;
        }
      }
    }
  }

  // ------------------------------------------------------------------ collect_feature_candidates

  /** One entry of the template's `showcaseData`. */
  datatype ShowcaseItem = ShowcaseItem(device: string, src: string, alt: string, caption: string, description: string)

  /** One entry of the template's `deviceConfig`. */
  datatype DeviceMeta = DeviceMeta(displayLabel: string, component: string)

  /** A resolved static asset: its path and its file name. */
  datatype Asset = Asset(path: string, name: string)

  /** The devices in the order their screenshots are numbered. */
  const DeviceOrder: seq<string> := ["phone", "tablet7", "tablet10"]

  predicate IsLetter(c: char)
  {
    'a' <= c <= 'z' || 'A' <= c <= 'Z'
  }

  /** `str.title()` on ASCII: a letter is upper-cased after a non-letter (or at the start) and lower-cased after a letter. */
  function TitleFrom(s: string, afterLetter: bool): (r: string)
    ensures |r| == |s|
    decreases |s|
  {
    if |s| == 0 then ""
    else if IsLetter(s[0]) then [if afterLetter then LowerChar(s[0]) else UpperChar(s[0])] + TitleFrom(s[1..], true)
    else [s[0]] + TitleFrom(s[1..], false)
  }

  function Title(s: string): string
  {
    TitleFrom(s, false)
  }

  /** A letter starts a word when it follows a non-letter or the start of the text. */
  predicate StartsWord(s: string, i: nat, afterLetter: bool)
    requires i < |s|
  {
    if i == 0 then !afterLetter else !IsLetter(s[i - 1])
  }

  /**
   * Title-casing changes only letters' case: each word-starting letter is
   * upper-cased, every other letter lower-cased, every other character kept.
   */
  lemma {:induction false} TitleFromShape(s: string, afterLetter: bool)
    ensures var r := TitleFrom(s, afterLetter);
      forall i :: 0 <= i < |s| ==>
        r[i] == (if !IsLetter(s[i]) then s[i] else if StartsWord(s, i, afterLetter) then UpperChar(s[i]) else LowerChar(s[i]))
    decreases |s|
  {
    if |s| > 0 {
      var t := s[1..];
      var next := IsLetter(s[0]);
      TitleFromShape(t, next);
      var r := TitleFrom(s, afterLetter);
      forall i | 1 <= i < |s|
        ensures r[i] == (if !IsLetter(s[i]) then s[i] else if StartsWord(s, i, afterLetter) then UpperChar(s[i]) else LowerChar(s[i]))
      {
        assert r[i] == TitleFrom(t, next)[i - 1];
        assert t[i - 1] == s[i];
        assert StartsWord(s, i, afterLetter) == StartsWord(t, i - 1, next);
      }
    }
  }

  function ItemsOf(showcase: map<string, seq<ShowcaseItem>>, device: string): seq<ShowcaseItem>
  {
    if device in showcase then showcase[device] else []
  }

  /** The device's label from `deviceConfig`, or its title-cased name. */
  function DeviceLabel(meta: map<string, DeviceMeta>, device: string): string
  {
    if device in meta then meta[device].displayLabel else Title(device)
  }

  /** The device's frame component from `deviceConfig`, or "pc-screenshot-frame". */
  function DeviceComponent(meta: map<string, DeviceMeta>, device: string): string
  {
    if device in meta then meta[device].component else "pc-screenshot-frame"
  }

  /** The candidate made of `item`, the `ordinal`-th screenshot of `device`, numbered `index`. */
  function Candidate(meta: map<string, DeviceMeta>, device: string, item: ShowcaseItem, asset: Asset, index: int, ordinal: int): FeatureCandidate
  {
    FeatureCandidate(index, device, DeviceLabel(meta, device), ordinal, asset.name, item.caption, item.description, item.alt,
                     DeviceComponent(meta, device), asset.path)
  }

  /**
   * The candidates of one device's items, numbered from `start`;
   * `resolve` stands for `resolve_static_path`, whose error is the first
   * failing item's.
   */
  function DeviceCandidates(meta: map<string, DeviceMeta>, resolve: string -> Result<Asset, string>, device: string,
                            items: seq<ShowcaseItem>, start: int): (r: Result<seq<FeatureCandidate>, string>)
    ensures r.Ok? ==> |r.value| == |items|
    ensures r.Ok? ==> forall k :: 0 <= k < |items| ==> resolve(items[k].src).Ok?
    ensures r.Ok? ==> forall k :: 0 <= k < |items| ==>
      r.value[k] == Candidate(meta, device, items[k], resolve(items[k].src).value, start + k, k + 1)
    decreases |items|
  {
    if |items| == 0 then Ok([])
    else
      var n := |items| - 1;
      assert forall k :: 0 <= k < n ==> items[..n][k] == items[k];
      match DeviceCandidates(meta, resolve, device, items[..n], start)
      case Err(e) => Err(e)
      case Ok(p) =>
        match resolve(items[n].src)
        case Err(e) => Err(e)
        case Ok(asset) => Ok(p + [Candidate(meta, device, items[n], asset, start + n, n + 1)])
  }

  /** The candidates of `devices`, in that order, numbered from 1 across all of them. */
  function CollectedFrom(showcase: map<string, seq<ShowcaseItem>>, meta: map<string, DeviceMeta>,
                         resolve: string -> Result<Asset, string>, devices: seq<string>): Result<seq<FeatureCandidate>, string>
    decreases |devices|
  {
    if |devices| == 0 then Ok([])
    else
      var device := devices[|devices| - 1];
      match CollectedFrom(showcase, meta, resolve, devices[..|devices| - 1])
      case Err(e) => Err(e)
      case Ok(p) =>
        match DeviceCandidates(meta, resolve, device, ItemsOf(showcase, device), |p| + 1)
        case Err(e) => Err(e)
        case Ok(c) => Ok(p + c)
  }

  /** Once some item fails to resolve, further items do not change the error. */
  lemma {:induction false} DeviceErrExtends(meta: map<string, DeviceMeta>, resolve: string -> Result<Asset, string>, device: string,
                                            items: seq<ShowcaseItem>, start: int, n: nat)
    requires n <= |items| && DeviceCandidates(meta, resolve, device, items[..n], start).Err?
    ensures DeviceCandidates(meta, resolve, device, items, start) == DeviceCandidates(meta, resolve, device, items[..n], start)
    decreases |items|
  {
    if n < |items| {
      var m := |items| - 1;
      assert items[..m][..n] == items[..n];
      DeviceErrExtends(meta, resolve, device, items[..m], start, n);
    } else {
      assert items[..n] == items;
    }
  }

  /** One more item: its candidate is appended, or its resolution error ends the block. */
  lemma {:induction false} DeviceStep(meta: map<string, DeviceMeta>, resolve: string -> Result<Asset, string>, device: string,
                                      items: seq<ShowcaseItem>, start: int, ordinal: nat, block: seq<FeatureCandidate>)
    requires ordinal < |items| && DeviceCandidates(meta, resolve, device, items[..ordinal], start) == Ok(block)
    ensures DeviceCandidates(meta, resolve, device, items[..ordinal + 1], start) ==
      match resolve(items[ordinal].src)
      case Err(e) => Err(e)
      case Ok(asset) => Ok(block + [Candidate(meta, device, items[ordinal], asset, start + ordinal, ordinal + 1)])
  {
    assert items[..ordinal + 1][..ordinal] == items[..ordinal];
  }

  /** Once a device fails, further devices do not change the error. */
  lemma {:induction false} CollectedErrExtends(showcase: map<string, seq<ShowcaseItem>>, meta: map<string, DeviceMeta>,
                                               resolve: string -> Result<Asset, string>, devices: seq<string>, n: nat)
    requires n <= |devices| && CollectedFrom(showcase, meta, resolve, devices[..n]).Err?
    ensures CollectedFrom(showcase, meta, resolve, devices) == CollectedFrom(showcase, meta, resolve, devices[..n])
    decreases |devices|
  {
    if n < |devices| {
      var m := |devices| - 1;
      assert devices[..m][..n] == devices[..n];
      CollectedErrExtends(showcase, meta, resolve, devices[..m], n);
    } else {
      assert devices[..n] == devices;
    }
  }

  /** One more device: its block of candidates is appended, or its error ends the collection. */
  lemma {:induction false} CollectedStep(showcase: map<string, seq<ShowcaseItem>>, meta: map<string, DeviceMeta>,
                                         resolve: string -> Result<Asset, string>, devices: seq<string>, d: nat,
                                         candidates: seq<FeatureCandidate>)
    requires d < |devices| && CollectedFrom(showcase, meta, resolve, devices[..d]) == Ok(candidates)
    ensures CollectedFrom(showcase, meta, resolve, devices[..d + 1]) == AppendDevice(showcase, meta, resolve, devices[d], candidates)
  {
    assert devices[..d + 1][..d] == devices[..d];
  }

  /** The candidates collected so far followed by those of `device`, or the error resolving them. */
  function AppendDevice(showcase: map<string, seq<ShowcaseItem>>, meta: map<string, DeviceMeta>,
                        resolve: string -> Result<Asset, string>, device: string, candidates: seq<FeatureCandidate>): Result<seq<FeatureCandidate>, string>
  {
    match DeviceCandidates(meta, resolve, device, ItemsOf(showcase, device), |candidates| + 1)
    case Err(e) => Err(e)
    case Ok(c) => Ok(candidates + c)
  }

  /** One pass of the outer loop of `collect_feature_candidates`: a device without items is skipped. */
  method CollectDevice(showcase: map<string, seq<ShowcaseItem>>, meta: map<string, DeviceMeta>,
                       resolve: string -> Result<Asset, string>, device: string, candidates: seq<FeatureCandidate>)
    returns (r: Result<seq<FeatureCandidate>, string>)
    ensures r == AppendDevice(showcase, meta, resolve, device, candidates)
  {
    var items := if device in showcase then showcase[device] else [];
    if |items| == 0 {
      assert candidates + [] == candidates;
      return Ok(candidates);
    }
    var block := DeviceLoop(meta, resolve, device, items, |candidates| + 1);
    if block.Err? {
      return Err(block.error);
    }
    return Ok(candidates + block.value);
  }

  /** The inner loop of `collect_feature_candidates`: one device's items, numbered from `start`. */
  method DeviceLoop(meta: map<string, DeviceMeta>, resolve: string -> Result<Asset, string>, device: string,
                    items: seq<ShowcaseItem>, start: int) returns (r: Result<seq<FeatureCandidate>, string>)
    ensures r == DeviceCandidates(meta, resolve, device, items, start)
  {
    var deviceLabel := if device in meta then meta[device].displayLabel else Title(device);
    var component := if device in meta then meta[device].component else "pc-screenshot-frame";
    var block: seq<FeatureCandidate> := [];
    var index := start;
    for ordinal := 0 to |items|
      invariant DeviceCandidates(meta, resolve, device, items[..ordinal], start) == Ok(block)
      invariant index == start + ordinal
    {
      var item := items[ordinal];
      DeviceStep(meta, resolve, device, items, start, ordinal, block);
      var asset := resolve(item.src);
      if asset.Err? {
        DeviceErrExtends(meta, resolve, device, items, start, ordinal + 1);
        return Err(asset.error);
      }
      block := block + [FeatureCandidate(index, device, deviceLabel, ordinal + 1, asset.value.name, item.caption, item.description,
                                         item.alt, component, asset.value.path)];
      index := index + 1;
    }
    assert items[..|items|] == items;
    return Ok(block);
  }

  /**
   * `collect_feature_candidates`: `showcase` and `meta` are the template's
   * parsed `showcaseData` and `deviceConfig`, `resolve` is
   * `resolve_static_path`, an `Err` its exception.
   */
  method CollectFeatureCandidates(showcase: map<string, seq<ShowcaseItem>>, meta: map<string, DeviceMeta>,
                                  resolve: string -> Result<Asset, string>) returns (r: Result<seq<FeatureCandidate>, string>)
    ensures r == CollectedFrom(showcase, meta, resolve, DeviceOrder)
  {
    var candidates: seq<FeatureCandidate> := [];
    for d := 0 to |DeviceOrder|
      invariant CollectedFrom(showcase, meta, resolve, DeviceOrder[..d]) == Ok(candidates)
    {
      var next := CollectDevice(showcase, meta, resolve, DeviceOrder[d], candidates);
      CollectedStep(showcase, meta, resolve, DeviceOrder, d, candidates);
      if next.Err? {
        CollectedErrExtends(showcase, meta, resolve, DeviceOrder, d + 1);
        return next;
      }
      candidates := next.value;
    }
    assert DeviceOrder[..|DeviceOrder|] == DeviceOrder;
    return Ok(candidates);
  }

  /** The number of showcase items of `devices`. */
  function ItemCount(showcase: map<string, seq<ShowcaseItem>>, devices: seq<string>): nat
    decreases |devices|
  {
    if |devices| == 0 then 0 else ItemCount(showcase, devices[..|devices| - 1]) + |ItemsOf(showcase, devices[|devices| - 1])|
  }

  /** `c` is the candidate for the `ordinal`-th item of its device, numbered `index`. */
  predicate EntryOf(showcase: map<string, seq<ShowcaseItem>>, meta: map<string, DeviceMeta>,
                    resolve: string -> Result<Asset, string>, c: FeatureCandidate, index: int)
  {
    var items := ItemsOf(showcase, c.device);
    1 <= c.deviceOrdinal <= |items| &&
    var item := items[c.deviceOrdinal - 1];
    resolve(item.src).Ok? && c == Candidate(meta, c.device, item, resolve(item.src).value, index, c.deviceOrdinal)
  }

  /** A successful collection is the prefix's collection followed by the last device's block. */
  lemma {:induction false} CollectedSplit(showcase: map<string, seq<ShowcaseItem>>, meta: map<string, DeviceMeta>,
                                          resolve: string -> Result<Asset, string>, devices: seq<string>)
    requires |devices| > 0 && CollectedFrom(showcase, meta, resolve, devices).Ok?
    ensures var p := CollectedFrom(showcase, meta, resolve, devices[..|devices| - 1]);
      var device := devices[|devices| - 1];
      p.Ok? && DeviceCandidates(meta, resolve, device, ItemsOf(showcase, device), |p.value| + 1).Ok? &&
      CollectedFrom(showcase, meta, resolve, devices).value == p.value + DeviceCandidates(meta, resolve, device, ItemsOf(showcase, device), |p.value| + 1).value
  {
  }

  /** Collection yields one candidate per item of the listed devices. */
  lemma {:induction false} CollectedCount(showcase: map<string, seq<ShowcaseItem>>, meta: map<string, DeviceMeta>,
                                          resolve: string -> Result<Asset, string>, devices: seq<string>)
    ensures var r := CollectedFrom(showcase, meta, resolve, devices);
      r.Ok? ==> |r.value| == ItemCount(showcase, devices)
    decreases |devices|
  {
    if |devices| > 0 && CollectedFrom(showcase, meta, resolve, devices).Ok? {
      CollectedSplit(showcase, meta, resolve, devices);
      CollectedCount(showcase, meta, resolve, devices[..|devices| - 1]);
    }
  }

  /** Each of `cs` is, at its position `k`, the candidate numbered `k + 1` for an item of one of `devices`. */
  predicate Entries(showcase: map<string, seq<ShowcaseItem>>, meta: map<string, DeviceMeta>,
                    resolve: string -> Result<Asset, string>, devices: seq<string>, cs: seq<FeatureCandidate>)
  {
    forall k :: 0 <= k < |cs| ==> cs[k].device in devices && EntryOf(showcase, meta, resolve, cs[k], k + 1)
  }

  /**
   * Collected candidates are numbered `1..n`; each is a listed device's item
   * at its ordinal, with the device's label and component (or their
   * fallbacks) and its resolved asset.
   */
  lemma {:induction false} CollectedEntries(showcase: map<string, seq<ShowcaseItem>>, meta: map<string, DeviceMeta>,
                                            resolve: string -> Result<Asset, string>, devices: seq<string>)
    ensures var r := CollectedFrom(showcase, meta, resolve, devices);
      r.Ok? ==> Entries(showcase, meta, resolve, devices, r.value)
    decreases |devices|
  {
    if |devices| > 0 && CollectedFrom(showcase, meta, resolve, devices).Ok? {
      CollectedSplit(showcase, meta, resolve, devices);
      CollectedEntries(showcase, meta, resolve, devices[..|devices| - 1]);
      CollectedEntriesStep(showcase, meta, resolve, devices);
    }
  }

  /** Entries of the collection over all devices but the last carry over to the collection over all of them. */
  lemma {:induction false} CollectedEntriesStep(showcase: map<string, seq<ShowcaseItem>>, meta: map<string, DeviceMeta>,
                                                resolve: string -> Result<Asset, string>, devices: seq<string>)
    requires |devices| > 0 && CollectedFrom(showcase, meta, resolve, devices).Ok?
    requires var p := CollectedFrom(showcase, meta, resolve, devices[..|devices| - 1]);
      p.Ok? && Entries(showcase, meta, resolve, devices[..|devices| - 1], p.value)
    ensures Entries(showcase, meta, resolve, devices, CollectedFrom(showcase, meta, resolve, devices).value)
  {
    CollectedSplit(showcase, meta, resolve, devices);
    var p := CollectedFrom(showcase, meta, resolve, devices[..|devices| - 1]).value;
    EntriesAppend(showcase, meta, resolve, devices, |devices| - 1, p);
  }

  /** Appending a device's block to entries of earlier devices keeps every entry numbered by its position. */
  lemma {:induction false} EntriesAppend(showcase: map<string, seq<ShowcaseItem>>, meta: map<string, DeviceMeta>,
                                         resolve: string -> Result<Asset, string>, devices: seq<string>, n: nat,
                                         p: seq<FeatureCandidate>)
    requires n < |devices| && Entries(showcase, meta, resolve, devices[..n], p)
    requires DeviceCandidates(meta, resolve, devices[n], ItemsOf(showcase, devices[n]), |p| + 1).Ok?
    ensures Entries(showcase, meta, resolve, devices,
                    p + DeviceCandidates(meta, resolve, devices[n], ItemsOf(showcase, devices[n]), |p| + 1).value)
  {
    var device := devices[n];
    var c := DeviceCandidates(meta, resolve, device, ItemsOf(showcase, device), |p| + 1).value;
    var cs := p + c;
    forall k | 0 <= k < |cs| ensures cs[k].device in devices && EntryOf(showcase, meta, resolve, cs[k], k + 1) {
      if k < |p| {
        assert cs[k] == p[k];
        assert p[k].device in devices[..n];
      } else {
        BlockEntry(showcase, meta, resolve, device, |p| + 1, k - |p|);
        assert cs[k] == c[k - |p|];
      }
    }
  }

  lemma {:induction false} BlockEntry(showcase: map<string, seq<ShowcaseItem>>, meta: map<string, DeviceMeta>,
                                      resolve: string -> Result<Asset, string>, device: string, start: int, j: nat)
    requires DeviceCandidates(meta, resolve, device, ItemsOf(showcase, device), start).Ok?
    requires j < |ItemsOf(showcase, device)|
    ensures var c := DeviceCandidates(meta, resolve, device, ItemsOf(showcase, device), start).value;
      c[j].device == device && c[j].deviceOrdinal == j + 1 && EntryOf(showcase, meta, resolve, c[j], start + j)
  {
  }

  /** Ordinals restart at 1 on each change of device and otherwise count up by one. */
  predicate Runs(cs: seq<FeatureCandidate>)
  {
    forall k :: 0 <= k < |cs| ==>
      cs[k].deviceOrdinal == if k == 0 || cs[k - 1].device != cs[k].device then 1 else cs[k - 1].deviceOrdinal + 1
  }

  /** The position of `device` in `devices`, or `|devices|` if it is not listed. */
  function Rank(devices: seq<string>, device: string): nat
  {
    if device in devices then FirstIndex(devices, device) else |devices|
  }

  /** Candidates come grouped by device, the devices in the listed order. */
  predicate InDeviceOrder(devices: seq<string>, cs: seq<FeatureCandidate>)
  {
    forall i, j :: 0 <= i < j < |cs| ==> Rank(devices, cs[i].device) <= Rank(devices, cs[j].device)
  }

  /**
   * For distinct devices, collection lists the candidates device by device
   * in the listed order, with ordinals restarting at 1 for each device.
   */
  lemma {:induction false} CollectedOrder(showcase: map<string, seq<ShowcaseItem>>, meta: map<string, DeviceMeta>,
                                          resolve: string -> Result<Asset, string>, devices: seq<string>)
    requires Distinct(devices)
    ensures var r := CollectedFrom(showcase, meta, resolve, devices);
      r.Ok? ==> Runs(r.value) && InDeviceOrder(devices, r.value)
    decreases |devices|
  {
    if |devices| > 0 && CollectedFrom(showcase, meta, resolve, devices).Ok? {
      var prefix := devices[..|devices| - 1];
      assert Distinct(prefix);
      CollectedSplit(showcase, meta, resolve, devices);
      CollectedOrder(showcase, meta, resolve, prefix);
      CollectedEntries(showcase, meta, resolve, prefix);
      CollectedOrderStep(showcase, meta, resolve, devices);
    }
  }

  /** Grouping and device order of the collection over all devices but the last carry over to the collection over all of them. */
  lemma {:induction false} CollectedOrderStep(showcase: map<string, seq<ShowcaseItem>>, meta: map<string, DeviceMeta>,
                                              resolve: string -> Result<Asset, string>, devices: seq<string>)
    requires Distinct(devices) && |devices| > 0 && CollectedFrom(showcase, meta, resolve, devices).Ok?
    requires var p := CollectedFrom(showcase, meta, resolve, devices[..|devices| - 1]);
      p.Ok? && Entries(showcase, meta, resolve, devices[..|devices| - 1], p.value) &&
      Runs(p.value) && InDeviceOrder(devices[..|devices| - 1], p.value)
    ensures var r := CollectedFrom(showcase, meta, resolve, devices).value;
      Runs(r) && InDeviceOrder(devices, r)
  {
    var n := |devices| - 1;
    CollectedSplit(showcase, meta, resolve, devices);
    var p := CollectedFrom(showcase, meta, resolve, devices[..n]).value;
    RunsAppend(showcase, meta, resolve, devices, n, p);
    OrderAppend(showcase, meta, resolve, devices, n, p);
  }

  lemma {:induction false} RunsAppend(showcase: map<string, seq<ShowcaseItem>>, meta: map<string, DeviceMeta>,
                                      resolve: string -> Result<Asset, string>, devices: seq<string>, n: nat,
                                      p: seq<FeatureCandidate>)
    requires n < |devices| && devices[n] !in devices[..n]
    requires Entries(showcase, meta, resolve, devices[..n], p) && Runs(p)
    requires DeviceCandidates(meta, resolve, devices[n], ItemsOf(showcase, devices[n]), |p| + 1).Ok?
    ensures Runs(p + DeviceCandidates(meta, resolve, devices[n], ItemsOf(showcase, devices[n]), |p| + 1).value)
  {
    var device := devices[n];
    var c := DeviceCandidates(meta, resolve, device, ItemsOf(showcase, device), |p| + 1).value;
    var cs := p + c;
    forall k | 0 <= k < |cs|
      ensures cs[k].deviceOrdinal == if k == 0 || cs[k - 1].device != cs[k].device then 1 else cs[k - 1].deviceOrdinal + 1
    {
      if k < |p| {
        assert cs[k] == p[k];
        if k > 0 {
          assert cs[k - 1] == p[k - 1];
        }
      } else {
        BlockEntry(showcase, meta, resolve, device, |p| + 1, k - |p|);
        assert cs[k] == c[k - |p|];
        if k > |p| {
          BlockEntry(showcase, meta, resolve, device, |p| + 1, k - |p| - 1);
          assert cs[k - 1] == c[k - |p| - 1];
        } else if k > 0 {
          assert cs[k - 1] == p[k - 1];
          assert p[k - 1].device in devices[..n];
        }
      }
    }
  }

  lemma {:induction false} RankPrefix(devices: seq<string>, n: nat, x: string)
    requires n < |devices| && devices[n] !in devices[..n]
    ensures x in devices[..n] ==> Rank(devices, x) == Rank(devices[..n], x) < n
    ensures Rank(devices, devices[n]) == n
  {
    if x in devices[..n] {
      FirstIndexPrefix(devices, n, x);
    }
    assert devices[..n + 1][..n] == devices[..n];
    FirstIndexUnique(devices, devices[n], n);
  }

  lemma {:induction false} OrderAppend(showcase: map<string, seq<ShowcaseItem>>, meta: map<string, DeviceMeta>,
                                       resolve: string -> Result<Asset, string>, devices: seq<string>, n: nat,
                                       p: seq<FeatureCandidate>)
    requires n < |devices| && devices[n] !in devices[..n]
    requires Entries(showcase, meta, resolve, devices[..n], p) && InDeviceOrder(devices[..n], p)
    requires DeviceCandidates(meta, resolve, devices[n], ItemsOf(showcase, devices[n]), |p| + 1).Ok?
    ensures InDeviceOrder(devices, p + DeviceCandidates(meta, resolve, devices[n], ItemsOf(showcase, devices[n]), |p| + 1).value)
  {
    var device := devices[n];
    var c := DeviceCandidates(meta, resolve, device, ItemsOf(showcase, device), |p| + 1).value;
    var cs := p + c;
    forall i, j | 0 <= i < j < |cs| ensures Rank(devices, cs[i].device) <= Rank(devices, cs[j].device) {
      if j < |p| {
        assert cs[i] == p[i] && cs[j] == p[j];
        RankPrefix(devices, n, p[i].device);
        RankPrefix(devices, n, p[j].device);
      } else {
        BlockEntry(showcase, meta, resolve, device, |p| + 1, j - |p|);
        assert cs[j] == c[j - |p|];
        RankPrefix(devices, n, cs[i].device);
        if i < |p| {
          assert cs[i] == p[i];
        } else {
          BlockEntry(showcase, meta, resolve, device, |p| + 1, i - |p|);
          assert cs[i] == c[i - |p|];
        }
      }
    }
  }

  /**
   * What `collect_feature_candidates` returns on success: one candidate per
   * showcase item of phone, tablet7 and tablet10, numbered `1..n` in that
   * order, grouped by device with ordinals restarting at 1, each carrying its
   * item's texts, its resolved asset and its device's label and component.
   */
  lemma {:induction false} CollectFeatureCandidatesShape(showcase: map<string, seq<ShowcaseItem>>, meta: map<string, DeviceMeta>,
                                                         resolve: string -> Result<Asset, string>)
    ensures var r := CollectedFrom(showcase, meta, resolve, DeviceOrder);
      r.Ok? ==> (Numbered(r.value) && |r.value| == ItemCount(showcase, DeviceOrder) &&
        Entries(showcase, meta, resolve, DeviceOrder, r.value) && Runs(r.value) && InDeviceOrder(DeviceOrder, r.value))
  {
    var r := CollectedFrom(showcase, meta, resolve, DeviceOrder);
    CollectedCount(showcase, meta, resolve, DeviceOrder);
    CollectedEntries(showcase, meta, resolve, DeviceOrder);
    CollectedOrder(showcase, meta, resolve, DeviceOrder);
    if r.Ok? {
      forall k | 0 <= k < |r.value| ensures r.value[k].index == k + 1 {
        assert EntryOf(showcase, meta, resolve, r.value[k], k + 1);
      }
    }
  }

  // ------------------------------------------------------------------ build_feature_shots_payload

  /** One screenshot as the feature-graphic page receives it. */
  datatype FeatureGraphicShot = FeatureGraphicShot(device: string, deviceLabel: string, caption: string, alt: string,
                                                   component: string, imageData: string)

  /** `COMPONENT_MODULES`: the module that defines each frame component. */
  const ComponentModules: map<string, string> := map[
    "pc-screenshot-frame" := "server/portacode_django/static/js/components/screenshot-frame.js",
    "pc-tablet-frame" := "server/portacode_django/static/js/components/tablet-screenshot-frame.js"
  ]

  /** The shot of a selected candidate; `imageData` stands for `image_to_data_url`. */
  function Shot(c: FeatureCandidate, imageData: string -> string): FeatureGraphicShot
  {
    FeatureGraphicShot(c.device, c.deviceLabel, c.caption, c.alt, c.component, imageData(c.assetPath))
  }

  /** The shots of the selection, in selection order. */
  function Shots(selection: seq<FeatureCandidate>, imageData: string -> string): (r: seq<FeatureGraphicShot>)
    ensures |r| == |selection| && forall k :: 0 <= k < |selection| ==> r[k] == Shot(selection[k], imageData)
  {
    seq(|selection|, k requires 0 <= k < |selection| => Shot(selection[k], imageData))
  }

  function Components(shots: seq<FeatureCandidate>): (r: seq<string>)
    ensures |r| == |shots| && forall k :: 0 <= k < |shots| ==> r[k] == shots[k].component
  {
    if |shots| == 0 then [] else Components(shots[..|shots| - 1]) + [shots[|shots| - 1].component]
  }

  lemma {:induction false} ComponentsSnoc(shots: seq<FeatureCandidate>, i: nat)
    requires i < |shots|
    ensures Components(shots[..i + 1]) == Components(shots[..i]) + [shots[i].component]
  {
    assert shots[..i + 1][..i] == shots[..i];
  }

  /** The component loop of `build_feature_shots_payload`: each component once, in the order first seen. */
  method OrderedComponents(shots: seq<FeatureCandidate>) returns (ordered: seq<string>)
    ensures ordered == Dedup(Components(shots))
  {
    ordered := [];
    var seen: set<string> := {};
    for i := 0 to |shots|
      invariant ordered == Dedup(Components(shots[..i]))
      invariant forall x :: x in seen <==> x in ordered
    {
      var component := shots[i].component;
      ComponentsSnoc(shots, i);
      DedupSnoc(Components(shots[..i]), component);
      if component !in seen {
        seen := seen + {component};
        ordered := ordered + [component];
      }
    }
    assert shots[..|shots|] == shots;
  }

  /**
   * The ordered components are distinct, they are exactly the shots'
   * components, and they keep the order in which the shots first use them.
   */
  lemma {:induction false} OrderedComponentsShape(shots: seq<FeatureCandidate>)
    ensures var d := Dedup(Components(shots));
      Distinct(d) && (forall t :: t in d <==> exists k :: 0 <= k < |shots| && shots[k].component == t) &&
      forall i, j :: 0 <= i < j < |d| ==> FirstIndex(Components(shots), d[i]) < FirstIndex(Components(shots), d[j])
  {
    var cs := Components(shots);
    var d := Dedup(cs);
    DedupFirstSeenOrder(cs);
    forall t | t in d ensures exists k :: 0 <= k < |shots| && shots[k].component == t {
      var k := FirstIndex(cs, t);
    }
  }

  /**
   * `load_component_source`: ValueError for a tag without a module;
   * `moduleSource` stands for reading and inlining the module
   * (`inline_module_source`), an `Err` its FileNotFoundError.
   */
  function LoadComponentSource(tag: string, moduleSource: string -> Result<string, string>): (r: Result<string, string>)
    ensures tag !in ComponentModules ==> r == Err("No module mapping for component '" + tag + "'.")
    ensures tag in ComponentModules ==> r == moduleSource(ComponentModules[tag])
  {
    if tag !in ComponentModules then Err("No module mapping for component '" + tag + "'.")
    else moduleSource(ComponentModules[tag])
  }

  /** The sources of `tags` in order, or the first tag's error. */
  function LoadAll(tags: seq<string>, moduleSource: string -> Result<string, string>): (r: Result<seq<string>, string>)
    ensures r.Ok? ==> |r.value| == |tags|
    ensures r.Ok? ==> forall i :: 0 <= i < |tags| ==> LoadComponentSource(tags[i], moduleSource) == Ok(r.value[i])
    decreases |tags|
  {
    if |tags| == 0 then Ok([])
    else
      var n := |tags| - 1;
      assert forall i :: 0 <= i < n ==> tags[..n][i] == tags[i];
      match LoadAll(tags[..n], moduleSource)
      case Err(e) => Err(e)
      case Ok(p) =>
        match LoadComponentSource(tags[n], moduleSource)
        case Err(e) => Err(e)
        case Ok(src) => Ok(p + [src])
  }

  /** Loading fails exactly when some tag fails, and then with the first failing tag's error. */
  lemma {:induction false} LoadAllErr(tags: seq<string>, moduleSource: string -> Result<string, string>)
    ensures LoadAll(tags, moduleSource).Err? <==> exists i :: 0 <= i < |tags| && LoadComponentSource(tags[i], moduleSource).Err?
    ensures LoadAll(tags, moduleSource).Err? ==>
      exists i :: 0 <= i < |tags| && LoadComponentSource(tags[i], moduleSource).Err? &&
        LoadAll(tags, moduleSource).error == LoadComponentSource(tags[i], moduleSource).error &&
        forall j :: 0 <= j < i ==> LoadComponentSource(tags[j], moduleSource).Ok?
    decreases |tags|
  {
    if |tags| > 0 {
      var n := |tags| - 1;
      var prefix := tags[..n];
      LoadAllErr(prefix, moduleSource);
      assert forall i :: 0 <= i < n ==> prefix[i] == tags[i];
      if LoadAll(prefix, moduleSource).Err? {
        var i :| 0 <= i < n && LoadComponentSource(prefix[i], moduleSource).Err? &&
          LoadAll(prefix, moduleSource).error == LoadComponentSource(prefix[i], moduleSource).error &&
          forall j :: 0 <= j < i ==> LoadComponentSource(prefix[j], moduleSource).Ok?;
        assert LoadAll(tags, moduleSource).error == LoadComponentSource(tags[i], moduleSource).error;
      }
    }
  }

  /** What `build_feature_shots_payload` returns: the shots in selection order and the ordered components' sources joined by a blank line. */
  function ShotsPayload(selection: seq<FeatureCandidate>, imageData: string -> string, moduleSource: string -> Result<string, string>)
    : Result<(seq<FeatureGraphicShot>, string), string>
  {
    match LoadAll(Dedup(Components(selection)), moduleSource)
    case Err(e) => Err(e)
    case Ok(sources) => Ok((Shots(selection, imageData), Join(sources, "\n\n")))
  }

  /** `build_feature_shots_payload` */
  method BuildFeatureShotsPayload(selection: seq<FeatureCandidate>, imageData: string -> string,
                                  moduleSource: string -> Result<string, string>)
    returns (r: Result<(seq<FeatureGraphicShot>, string), string>)
    ensures r == ShotsPayload(selection, imageData, moduleSource)
  {
    var shots: seq<FeatureGraphicShot> := [];
    for i := 0 to |selection|
      invariant |shots| == i && forall k :: 0 <= k < i ==> shots[k] == Shot(selection[k], imageData)
    {
      var shot := selection[i];
      shots := shots + [FeatureGraphicShot(shot.device, shot.deviceLabel, shot.caption, shot.alt, shot.component, imageData(shot.assetPath))];
    }
    assert shots == Shots(selection, imageData);
    var ordered := OrderedComponents(selection);
    var sources := LoadAll(ordered, moduleSource);
    if sources.Err? {
      return Err(sources.error);
    }
    return Ok((shots, Join(sources.value, "\n\n")));
  }
}
