/** The client's quality radio group (`updateQualityOptions` in
    static/main.js). The group always opens with the "auto recommended"
    choice. In video or merged mode, when the backend sent recognisable
    height/format pairs, one choice per complete pair follows, highest
    first. Otherwise the choices come from the raw format list: distinct
    audio bitrates in audio mode (a fixed ladder when there are none), or
    distinct heights (a disabled "best" placeholder when there are none).
    The previous selection is restored when it is still offered. */
module QualityOptions {

  import opened Options
  import opened Strings
  import opened Sorting

  /** One raw format as the client reads it. An absent or falsy field is
      `""` or `0`; a numeric bitrate is held as the text it prints as. */
  datatype Format = Format(acodec: string, abr: string, audioQuality: string,
                           height: int, effectiveHeight: int)

  /** A `quality_pairs` value: the video and audio format ids to merge. */
  datatype Pair = Pair(video: string, audio: string)

  /** The `quality_pairs` object as its entries, keyed by height text. */
  type PairTable = seq<(string, Pair)>

  /** One radio button: its value, label, pinned format ids (empty when
      none) and whether it is disabled. */
  datatype Choice = Choice(value: string, text: string, videoFormat: string,
                           audioFormat: string, disabled: bool)

  const Best := "best"
  const BestChoice := Choice(Best, "🧠 自动推荐", "", "", false)
  const NoQualityChoice := Choice(Best, "无可用质量选项 (使用最佳)", "", "", true)
  const UnknownAudio := "未知"
  const AudioLadder: seq<string> := ["320k", "256k", "192k", "128k", "96k", "64k"]
  const DefaultBestKey := "default_best"

  // ------------------------------------------------------------- labels

  const TierFloors: seq<int> := [360, 480, 720, 1080, 2160, 4320]
  const TierNames: seq<string> := ["360P", "480P", "720P", "1080P", "4K", "8K"]

  /** How many of the tier floors `h` reaches. */
  function Tier(h: int): (t: nat)
    ensures t <= |TierFloors|
    ensures t == 0 <==> h < TierFloors[0]
    ensures t > 0 ==> TierFloors[t - 1] <= h
    ensures t < |TierFloors| ==> h < TierFloors[t]
  {
    if h >= 4320 then 6 else if h >= 2160 then 5 else if h >= 1080 then 4
    else if h >= 720 then 3 else if h >= 480 then 2 else if h >= 360 then 1
    else 0
  }

  /** The label a height gets: its tier's name, or `<h>p (低清)` below 360. */
  function HeightLabel(h: int): string {
    if Tier(h) == 0 then IntToString(h) + "p (低清)" else TierNames[Tier(h) - 1]
  }

  /** Higher heights never land in a lower tier. */
  lemma TierMonotone(a: int, b: int)
    requires a <= b
    ensures Tier(a) <= Tier(b)
  {
  }

  /** From 360 up, heights in one tier share one label; below 360 every
      height gets a label of its own; and no low label is a tier name. */
  lemma HeightLabelByTier(a: int, b: int)
    ensures Tier(a) > 0 && Tier(a) == Tier(b) ==> HeightLabel(a) == HeightLabel(b)
    ensures Tier(a) == 0 && Tier(b) == 0 && a != b ==> HeightLabel(a) != HeightLabel(b)
    ensures Tier(a) == 0 && Tier(b) > 0 ==> HeightLabel(a) != HeightLabel(b)
  {
    if Tier(a) == 0 && Tier(b) == 0 && HeightLabel(a) == HeightLabel(b) {
      var sa, sb := IntToString(a), IntToString(b);
      assert |sa| == |sb|;
      assert sa == (sa + "p (低清)")[..|sa|];
      IntToStringInjective(a, b);
    }
    if Tier(a) == 0 && Tier(b) > 0 {
      var la := HeightLabel(a);
      assert |la| >= 6 && la[|la| - 4..] == "(低清)";
    }
  }

  // -------------------------------------------------------------- pairs

  /** `qualityPairs[key]`: the first entry under `key`. */
  function Lookup(table: PairTable, key: string): Option<Pair> {
    if |table| == 0 then None
    else if table[0].0 == key then Some(table[0].1)
    else Lookup(table[1..], key)
  }

  /** The value stored under a key comes from an entry with that key. */
  lemma {:induction false} LookupFound(table: PairTable, key: string)
    requires Lookup(table, key).Some?
    ensures (key, Lookup(table, key).value) in table
  {
    if table[0].0 != key {
      LookupFound(table[1..], key);
      assert (key, Lookup(table, key).value) in table[1..];
    }
  }

  /** Whether a key other than `default_best` reads as a number. */
  predicate HeightKey(k: string) {
    k != DefaultBestKey && ParseIntJs(k).Some?
  }

  /** The numeric keys, read with `parseInt`, in table order. */
  function PairHeights(table: PairTable): (hs: seq<int>)
    ensures |hs| <= |table|
  {
    if |table| == 0 then []
    else
      var rest := PairHeights(table[1..]);
      var k := table[0].0;
      if HeightKey(k) then [ParseIntJs(k).value] + rest else rest
  }

  /** Whether key `k` is a numeric key that reads as `h`. */
  predicate KeyReads(k: string, h: int) {
    HeightKey(k) && ParseIntJs(k).value == h
  }

  /** A height is listed exactly when some key reads as it. */
  lemma {:induction false} PairHeightsMembers(table: PairTable, h: int)
    ensures h in PairHeights(table) <==> exists i :: 0 <= i < |table| && KeyReads(table[i].0, h)
  {
    if |table| > 0 {
      var t := table[1..];
      PairHeightsMembers(t, h);
      var k := table[0].0;
      assert PairHeights(table) == (if HeightKey(k) then [ParseIntJs(k).value] else []) + PairHeights(t);
      KeyReadsCons(table, h);
    }
  }

  lemma KeyReadsCons(table: PairTable, h: int)
    requires |table| > 0
    ensures (exists i :: 0 <= i < |table| && KeyReads(table[i].0, h))
        <==> KeyReads(table[0].0, h) || exists i :: 0 <= i < |table[1..]| && KeyReads(table[1..][i].0, h)
  {
    if exists i :: 0 <= i < |table| && KeyReads(table[i].0, h) {
      var i :| 0 <= i < |table| && KeyReads(table[i].0, h);
      if i > 0 {
        assert table[1..][i - 1] == table[i];
      }
    }
    if exists i :: 0 <= i < |table[1..]| && KeyReads(table[1..][i].0, h) {
      var i :| 0 <= i < |table[1..]| && KeyReads(table[1..][i].0, h);
      assert table[i + 1] == table[1..][i];
    }
  }

  /** Whether the table holds a pair with both format ids under `h`'s text. */
  predicate Complete(table: PairTable, h: int) {
    var p := Lookup(table, IntToString(h));
    p.Some? && p.value.video != "" && p.value.audio != ""
  }

  /** The heights of `hs` whose pair is complete, in `hs`'s order. */
  function CompleteHeights(table: PairTable, hs: seq<int>): (r: seq<int>)
    ensures forall h :: h in r ==> Complete(table, h)
  {
    if |hs| == 0 then []
    else
      var rest := CompleteHeights(table, hs[1..]);
      if Complete(table, hs[0]) then [hs[0]] + rest else rest
  }

  lemma {:induction false} CompleteHeightsMembers(table: PairTable, hs: seq<int>, h: int)
    ensures h in CompleteHeights(table, hs) <==> h in hs && Complete(table, h)
  {
    if |hs| > 0 {
      CompleteHeightsMembers(table, hs[1..], h);
      assert hs == [hs[0]] + hs[1..];
    }
  }

  lemma {:induction false} CompleteHeightsSorted(table: PairTable, hs: seq<int>)
    requires SortedBy(hs, Descending)
    ensures SortedBy(CompleteHeights(table, hs), Descending)
  {
    if |hs| > 0 {
      var rest := CompleteHeights(table, hs[1..]);
      CompleteHeightsSorted(table, hs[1..]);
      if Complete(table, hs[0]) {
        forall j | 0 <= j < |rest| ensures hs[0] >= rest[j] {
          CompleteHeightsMembers(table, hs[1..], rest[j]);
          var m :| 0 <= m < |hs[1..]| && hs[1..][m] == rest[j];
          assert hs[m + 1] == rest[j];
        }
      }
    }
  }

  /** The choice for a height whose pair is complete. */
  function PairChoice(table: PairTable, h: int): (c: Choice)
    requires Complete(table, h)
    ensures !c.disabled && c.videoFormat != "" && c.audioFormat != ""
  {
    var p := Lookup(table, IntToString(h)).value;
    Choice(IntToString(h), HeightLabel(h), p.video, p.audio, false)
  }

  /** Heights in descending order, as `sort((a, b) => b - a)` leaves them. */
  function Descending(h: int): int {
    -h
  }

  /** One choice per numeric key with a complete pair, highest first. */
  function PairChoices(table: PairTable): (r: seq<Choice>)
    ensures forall i :: 0 <= i < |r| ==> !r[i].disabled && r[i].videoFormat != "" && r[i].audioFormat != ""
  {
    var hs := CompleteHeights(table, SortBy(PairHeights(table), Descending));
    seq(|hs|, i requires 0 <= i < |hs| => PairChoice(table, hs[i]))
  }

  /** Whether the pair table decides the choices: the table is non-empty,
      the mode is not audio, and at least one key reads as a number. */
  predicate UsesPairs(table: PairTable, mode: string) {
    |table| > 0 && mode != "audio" && |PairHeights(table)| > 0
  }

  // -------------------------------------------------------------- audio

  predicate HasAudio(f: Format) {
    f.acodec != "" && f.acodec != "none"
  }

  /** `abr || audio_quality || '未知'`. */
  function AudioQuality(f: Format): (q: string)
    ensures q != ""
  {
    if f.abr != "" then f.abr else if f.audioQuality != "" then f.audioQuality else UnknownAudio
  }

  /** Whether `f` contributes an audio choice. */
  predicate KnownAudio(f: Format) {
    HasAudio(f) && AudioQuality(f) != UnknownAudio
  }

  /** The qualities of the formats that contribute an audio choice. */
  function KnownQualities(fs: seq<Format>): set<string> {
    if |fs| == 0 then {}
    else
      var f := fs[|fs| - 1];
      KnownQualities(fs[..|fs| - 1]) + if KnownAudio(f) then {AudioQuality(f)} else {}
  }

  lemma {:induction false} KnownQualitiesMembers(fs: seq<Format>, q: string)
    ensures q in KnownQualities(fs) <==>
      exists i :: 0 <= i < |fs| && KnownAudio(fs[i]) && AudioQuality(fs[i]) == q
  {
    if |fs| > 0 {
      var init := fs[..|fs| - 1];
      KnownQualitiesMembers(init, q);
      assert forall i :: 0 <= i < |init| ==> init[i] == fs[i];
    }
  }

  /** The known qualities, each once, in first-seen order. */
  function AudioValues(fs: seq<Format>): (r: seq<string>)
    ensures Distinct(r)
    ensures forall q :: q in r <==> q in KnownQualities(fs)
  {
    if |fs| == 0 then []
    else
      var f := fs[|fs| - 1];
      var acc := AudioValues(fs[..|fs| - 1]);
      if KnownAudio(f) then AddNew(acc, AudioQuality(f)) else acc
  }

  /** The leading number of a quality, as `parseInt` reads it; a quality
      without one sorts as 0. */
  function LeadingInt(q: string): int {
    match ParseIntJs(q)
    case Some(n) => n
    case None => 0
  }

  lemma LeadingIntOfRendered(h: int)
    ensures LeadingInt(IntToString(h)) == h
  {
    ParseIntJsOfNumeral(h, "");
    assert IntToString(h) + "" == IntToString(h);
  }

  function AudioKey(q: string): int {
    -LeadingInt(q)
  }

  function AudioChoice(q: string): Choice {
    Choice(q, q, "", "", false)
  }

  /** The audio qualities offered, in order. */
  function AudioOrder(fs: seq<Format>): seq<string> {
    var vs := AudioValues(fs);
    if |vs| == 0 then AudioLadder else SortBy(vs, AudioKey)
  }

  function AudioChoices(fs: seq<Format>): (r: seq<Choice>)
    ensures |r| > 0
    ensures forall i :: 0 <= i < |r| ==> !r[i].disabled && r[i].text == r[i].value && r[i].videoFormat == "" && r[i].audioFormat == ""
  {
    var qs := AudioOrder(fs);
    seq(|qs|, i requires 0 <= i < |qs| => AudioChoice(qs[i]))
  }

  // -------------------------------------------------------------- video

  /** `effective_height || height`. */
  function HeightOf(f: Format): int {
    if f.effectiveHeight != 0 then f.effectiveHeight else f.height
  }

  /** The positive heights of the formats. */
  function PositiveHeights(fs: seq<Format>): set<int> {
    if |fs| == 0 then {}
    else
      var h := HeightOf(fs[|fs| - 1]);
      PositiveHeights(fs[..|fs| - 1]) + if h > 0 then {h} else {}
  }

  lemma {:induction false} PositiveHeightsMembers(fs: seq<Format>, h: int)
    ensures h in PositiveHeights(fs) <==> h > 0 && exists i :: 0 <= i < |fs| && HeightOf(fs[i]) == h
  {
    if |fs| > 0 {
      var init := fs[..|fs| - 1];
      PositiveHeightsMembers(init, h);
      assert forall i :: 0 <= i < |init| ==> init[i] == fs[i];
    }
  }

  /** The positive heights, each once, in first-seen order. */
  function VideoHeights(fs: seq<Format>): (r: seq<int>)
    ensures Distinct(r)
    ensures forall h :: h in r <==> h in PositiveHeights(fs)
  {
    if |fs| == 0 then []
    else
      var h := HeightOf(fs[|fs| - 1]);
      var acc := VideoHeights(fs[..|fs| - 1]);
      if h > 0 then AddNew(acc, h) else acc
  }

  function HeightChoice(h: int): Choice {
    Choice(IntToString(h), HeightLabel(h), "", "", false)
  }

  /** The offered heights: each positive height once, highest first. */
  function VideoOrder(fs: seq<Format>): (hs: seq<int>)
    ensures forall h :: h in hs <==> h in PositiveHeights(fs)
    ensures forall i, j :: 0 <= i < j < |hs| ==> hs[i] > hs[j]
  {
    var vs := VideoHeights(fs);
    var hs := SortBy(vs, Descending);
    PermutationKeeps(vs, hs);
    assert forall i, j :: 0 <= i < j < |hs| ==> Descending(hs[i]) <= Descending(hs[j]);
    StrictlyDescending(hs);
    hs
  }

  function VideoChoices(fs: seq<Format>): (r: seq<Choice>)
    ensures r == [NoQualityChoice] <==> PositiveHeights(fs) == {}
    ensures forall i :: 0 <= i < |r| ==> r[i].videoFormat == "" && r[i].audioFormat == ""
  {
    var hs := VideoOrder(fs);
    if |hs| == 0 then
      assert forall h :: h !in PositiveHeights(fs);
      [NoQualityChoice]
    else
      assert hs[0] in PositiveHeights(fs);
      var r := seq(|hs|, i requires 0 <= i < |hs| => HeightChoice(hs[i]));
      assert !r[0].disabled;
      r
  }

  // ------------------------------------------------------------ choices

  /** The radio group, in document order. */
  function BuildChoices(fs: seq<Format>, table: PairTable, mode: string): (r: seq<Choice>)
    ensures |r| >= 1 && r[0] == BestChoice
  {
    [BestChoice] +
      if UsesPairs(table, mode) then PairChoices(table)
      else if mode == "audio" then AudioChoices(fs)
      else VideoChoices(fs)
  }

  /** `_lastQualitySelection || <checked value> || 'best'`. */
  function PrevSelection(remembered: string, checkedBefore: string): (r: string)
    ensures r != ""
    ensures remembered != "" ==> r == remembered
  {
    if remembered != "" then remembered else if checkedBefore != "" then checkedBefore else Best
  }

  /** Which radio ends up checked: the last one whose value is `prev`
      (each match is checked in turn), else the first `best` one. */
  function CheckedIndex(cs: seq<Choice>, prev: string): (k: nat)
    requires |cs| > 0
    ensures k < |cs|
    ensures (exists i :: 0 <= i < |cs| && cs[i].value == prev) ==>
              cs[k].value == prev && forall j :: k < j < |cs| ==> cs[j].value != prev
    ensures (forall i :: 0 <= i < |cs| ==> cs[i].value != prev) ==> k == 0
  {
    if cs[|cs| - 1].value == prev then |cs| - 1
    else if |cs| == 1 then 0
    else
      var init := cs[..|cs| - 1];
      assert forall i :: 0 <= i < |init| ==> init[i] == cs[i];
      CheckedIndex(init, prev)
  }

  /** The regenerated group, the checked radio, and the selection the page
      remembers afterwards. */
  datatype Regenerated = Regenerated(choices: seq<Choice>, checked: nat, remembered: string)

  function Regenerate(fs: seq<Format>, table: PairTable, mode: string,
                      remembered: string, checkedBefore: string): (r: Regenerated)
    ensures |r.choices| >= 1 && r.choices[0] == BestChoice
    ensures r.checked < |r.choices| && r.remembered == r.choices[r.checked].value
    ensures var prev := PrevSelection(remembered, checkedBefore);
            r.remembered == if exists i :: 0 <= i < |r.choices| && r.choices[i].value == prev
                            then prev else Best
  {
    var cs := BuildChoices(fs, table, mode);
    var k := CheckedIndex(cs, PrevSelection(remembered, checkedBefore));
    Regenerated(cs, k, cs[k].value)
  }

  // ------------------------------------------------------- properties

  /** With pairs, the raw formats play no part. */
  lemma PairsIgnoreFormats(fs1: seq<Format>, fs2: seq<Format>, table: PairTable, mode: string)
    requires UsesPairs(table, mode)
    ensures BuildChoices(fs1, table, mode) == BuildChoices(fs2, table, mode)
  {
  }

  /** Every pair choice pins the complete pair stored under its own value. */
  lemma PairChoicesPinned(table: PairTable, i: int)
    requires 0 <= i < |PairChoices(table)|
    ensures var c := PairChoices(table)[i];
            && !c.disabled && c.videoFormat != "" && c.audioFormat != ""
            && Lookup(table, c.value) == Some(Pair(c.videoFormat, c.audioFormat))
            && (c.value, Pair(c.videoFormat, c.audioFormat)) in table
  {
    var hs := CompleteHeights(table, SortBy(PairHeights(table), Descending));
    assert hs[i] in hs;
    LookupFound(table, IntToString(hs[i]));
  }

  /** A height is offered exactly when some key reads as it and the pair
      stored under its text is complete. */
  lemma PairChoicesComplete(table: PairTable, h: int)
    ensures (exists i :: 0 <= i < |PairChoices(table)| && PairChoices(table)[i].value == IntToString(h))
            <==> Complete(table, h) &&
                 exists j :: 0 <= j < |table| && HeightKey(table[j].0) && ParseIntJs(table[j].0).value == h
  {
    var ps := PairHeights(table);
    var sorted := SortBy(ps, Descending);
    var hs := CompleteHeights(table, sorted);
    var r := PairChoices(table);
    CompleteHeightsMembers(table, sorted, h);
    PairHeightsMembers(table, h);
    assert h in ps <==> h in multiset(sorted);
    if exists i :: 0 <= i < |r| && r[i].value == IntToString(h) {
      var i :| 0 <= i < |r| && r[i].value == IntToString(h);
      IntToStringInjective(hs[i], h);
    }
    if h in hs {
      var i :| 0 <= i < |hs| && hs[i] == h;
      assert r[i].value == IntToString(h);
    }
  }

  /** Pair choices are ordered by height, highest first. */
  lemma PairChoicesOrdered(table: PairTable, i: int, j: int)
    requires 0 <= i < j < |PairChoices(table)|
    ensures LeadingInt(PairChoices(table)[i].value) >= LeadingInt(PairChoices(table)[j].value)
  {
    var hs := CompleteHeights(table, SortBy(PairHeights(table), Descending));
    CompleteHeightsSorted(table, SortBy(PairHeights(table), Descending));
    LeadingIntOfRendered(hs[i]);
    LeadingIntOfRendered(hs[j]);
  }

  /** With a pair table whose numeric keys all lack a format id, only the
      auto choice is offered, even when the formats have heights. */
  lemma IncompletePairsLeaveOnlyBest(fs: seq<Format>, table: PairTable, mode: string)
    requires UsesPairs(table, mode)
    requires forall h :: h in PairHeights(table) ==> !Complete(table, h)
    ensures BuildChoices(fs, table, mode) == [BestChoice]
  {
    var sorted := SortBy(PairHeights(table), Descending);
    var hs := CompleteHeights(table, sorted);
    NothingComplete(table, sorted, PairHeights(table));
    assert |hs| == 0;
  }

  lemma {:induction false} NothingComplete(table: PairTable, hs: seq<int>, pool: seq<int>)
    requires multiset(hs) <= multiset(pool)
    requires forall h :: h in pool ==> !Complete(table, h)
    ensures CompleteHeights(table, hs) == []
  {
    if |hs| > 0 {
      assert hs[0] in multiset(pool);
      assert hs == [hs[0]] + hs[1..];
      NothingComplete(table, hs[1..], pool);
    }
  }

  /** A sequence with no members is empty. */
  lemma NoMembersEmpty<T>(s: seq<T>, members: set<T>)
    requires forall x :: x in s <==> x in members
    ensures members == {} ==> s == []
  {
    if |s| > 0 {
      assert s[0] in members;
    }
  }

  /** Audio mode with no known quality offers the fixed ladder. */
  lemma AudioFallbackLadder(fs: seq<Format>)
    requires KnownQualities(fs) == {}
    ensures AudioChoices(fs)
            == seq(|AudioLadder|, i requires 0 <= i < |AudioLadder| => AudioChoice(AudioLadder[i]))
  {
    NoMembersEmpty(AudioValues(fs), KnownQualities(fs));
  }

  /** Audio mode offers each known quality exactly once, highest leading
      number first, and qualities with the same leading number in the
      order the formats list them. */
  lemma AudioChoicesOffered(fs: seq<Format>, k: int)
    requires KnownQualities(fs) != {}
    ensures var r := AudioChoices(fs);
            var vs := seq(|r|, i requires 0 <= i < |r| => r[i].value);
            && (forall q :: q in vs <==> q in KnownQualities(fs))
            && Distinct(vs)
            && (forall i, j :: 0 <= i < j < |vs| ==> LeadingInt(vs[i]) >= LeadingInt(vs[j]))
            && WithKey(vs, AudioKey, k) == WithKey(AudioValues(fs), AudioKey, k)
  {
    var vals := AudioValues(fs);
    AudioOrderSorted(fs);
    var sorted := SortBy(vals, AudioKey);
    AudioChoiceValues(sorted);
    SortByStable(vals, AudioKey, k);
    SortedMembers(vals, sorted);
  }

  /** With a known quality, the order is the sorted list of them. */
  lemma AudioOrderSorted(fs: seq<Format>)
    requires KnownQualities(fs) != {}
    ensures AudioOrder(fs) == SortBy(AudioValues(fs), AudioKey)
  {
    var q0 :| q0 in KnownQualities(fs);
    assert q0 in AudioValues(fs);
  }

  /** The values of the audio choices for a list are that list. */
  lemma AudioChoiceValues(qs: seq<string>)
    ensures var r := seq(|qs|, i requires 0 <= i < |qs| => AudioChoice(qs[i]));
            seq(|r|, i requires 0 <= i < |r| => r[i].value) == qs
  {
  }

  /** A permutation has the same members. */
  lemma SortedMembers(vals: seq<string>, sorted: seq<string>)
    requires multiset(sorted) == multiset(vals)
    ensures forall q :: q in sorted <==> q in vals
  {
    forall q ensures q in sorted <==> q in vals {
      assert q in sorted <==> q in multiset(sorted);
    }
  }

  /** Each video choice is the choice for the height its value reads as. */
  lemma VideoChoicesAreHeights(fs: seq<Format>, i: int)
    requires PositiveHeights(fs) != {}
    requires 0 <= i < |VideoChoices(fs)|
    ensures VideoChoices(fs)[i] == HeightChoice(LeadingInt(VideoChoices(fs)[i].value))
  {
    var hs := VideoOrder(fs);
    NonEmptyHeights(fs);
    LeadingIntOfRendered(hs[i]);
  }

  lemma NonEmptyHeights(fs: seq<Format>)
    requires PositiveHeights(fs) != {}
    ensures |VideoOrder(fs)| > 0
  {
    var hs := VideoOrder(fs);
    NoMembersEmpty(hs, PositiveHeights(fs));
  }

  /** Video mode offers a height exactly when some format has it. */
  lemma VideoChoicesMembers(fs: seq<Format>, h: int)
    requires PositiveHeights(fs) != {}
    ensures HeightChoice(h) in VideoChoices(fs) <==> h in PositiveHeights(fs)
  {
    var hs := VideoOrder(fs);
    var r := VideoChoices(fs);
    NonEmptyHeights(fs);
    if HeightChoice(h) in r {
      var i :| 0 <= i < |r| && r[i] == HeightChoice(h);
      IntToStringInjective(hs[i], h);
    }
    if h in hs {
      var i :| 0 <= i < |hs| && hs[i] == h;
      assert r[i] == HeightChoice(h);
    }
  }

  /** Video choices are strictly descending by height: each height once. */
  lemma VideoChoicesDescending(fs: seq<Format>, i: int, j: int)
    requires PositiveHeights(fs) != {}
    requires 0 <= i < j < |VideoChoices(fs)|
    ensures LeadingInt(VideoChoices(fs)[i].value) > LeadingInt(VideoChoices(fs)[j].value)
  {
    var hs := VideoOrder(fs);
    NonEmptyHeights(fs);
    LeadingIntOfRendered(hs[i]);
    LeadingIntOfRendered(hs[j]);
  }

  /** Video mode with no positive height offers the disabled placeholder. */
  lemma VideoPlaceholder(fs: seq<Format>)
    requires PositiveHeights(fs) == {}
    ensures VideoChoices(fs) == [NoQualityChoice]
  {
    NoMembersEmpty(VideoOrder(fs), PositiveHeights(fs));
  }
}
