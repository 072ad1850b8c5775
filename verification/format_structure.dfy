/** The tail of `api_info` in app.py: each yt-dlp format is reduced to a
    structured entry with an effective height, formats are split into
    video-only and audio-only tracks, a `quality_pairs` table maps every
    video height to its best video track and one shared best audio track,
    and four capability flags are derived. */
module FormatStructure {

  import opened Options
  import opened Strings
  import opened Sorting
  import QualityOptions

  /** The fields of one yt-dlp format that the structuring reads. A
      missing or null field is `""` or `0`. */
  datatype RawFormat = RawFormat(formatId: string, ext: string, vcodec: string, acodec: string,
                                 height: nat, formatNote: string, fps: real, tbr: real)

  // ------------------------------------------------------ effective height

  /** `k` digits at `i` followed by `p`. */
  predicate MatchAt(s: string, i: int, k: nat) {
    0 <= i && i + k < |s| && DigitsOnly(s[i..i + k]) && s[i + k] == 'p'
  }

  /** The length of the match of `(\d{3,4})p` that starts at `i`, or 0:
      the greedy quantifier tries four digits before three. */
  function MatchLength(s: string, i: int): nat {
    if MatchAt(s, i, 4) then 4 else if MatchAt(s, i, 3) then 3 else 0
  }

  /** The leftmost match at or after `i`, as `re.search` finds it. */
  function FirstMatch(s: string, i: nat): (r: Option<nat>)
    ensures r.Some? ==> i <= r.value && MatchLength(s, r.value) > 0
    ensures forall j :: i <= j && (r.None? || j < r.value) ==> MatchLength(s, j) == 0
    decreases |s| - i
  {
    if i >= |s| then None
    else if MatchLength(s, i) > 0 then Some(i)
    else FirstMatch(s, i + 1)
  }

  /** The height a format note such as "2160p60" announces, if any. */
  function NoteHeight(note: string): Option<nat> {
    match FirstMatch(note, 0)
    case None => None
    case Some(i) => Some(ParseNat(note[i..i + MatchLength(note, i)]))
  }

  function NoteValue(note: string): nat {
    match NoteHeight(note) case Some(n) => n case None => 0
  }

  /** A three- or four-digit height rendered before a `p`, after text
      without digits, is the height the note announces. */
  lemma NoteHeightOfLabel(prefix: string, h: nat, rest: string)
    requires 100 <= h <= 9999
    requires forall i :: 0 <= i < |prefix| ==> !IsDigit(prefix[i])
    ensures NoteHeight(prefix + NatToString(h) + "p" + rest) == Some(h)
  {
    var d := NatToString(h);
    var s := prefix + d + "p" + rest;
    NatToStringWidth(h);
    NoMatchInPrefix(prefix, d + "p" + rest);
    assert s == prefix + (d + "p" + rest);
    FirstMatchSkips(s, 0, |prefix|);
    MatchOfLabel(prefix, d, rest);
    ParseNatToString(h);
  }

  /** No match starts inside text without digits. */
  lemma NoMatchInPrefix(prefix: string, tail: string)
    requires forall i :: 0 <= i < |prefix| ==> !IsDigit(prefix[i])
    ensures forall j :: 0 <= j < |prefix| ==> MatchLength(prefix + tail, j) == 0
  {
    var s := prefix + tail;
    forall j | 0 <= j < |prefix| ensures MatchLength(s, j) == 0 {
      assert s[j] == prefix[j];
      if j + 3 < |s| {
        assert s[j..j + 3][0] == s[j];
      }
      if j + 4 < |s| {
        assert s[j..j + 4][0] == s[j];
      }
    }
  }

  /** Three or four digits and a `p` match with their own length. */
  lemma MatchOfLabel(prefix: string, d: string, rest: string)
    requires IsNumeral(d) && (|d| == 3 || |d| == 4)
    ensures MatchLength(prefix + d + "p" + rest, |prefix|) == |d|
    ensures (prefix + d + "p" + rest)[|prefix|..|prefix| + |d|] == d
  {
    var s := prefix + d + "p" + rest;
    var i := |prefix|;
    assert s[i..i + |d|] == d;
    assert s[i + |d|] == 'p';
    if |d| == 3 {
      assert s[i..i + 4][3] == 'p';
      assert !MatchAt(s, i, 4);
    }
  }

  lemma NatToStringWidth(h: nat)
    requires 100 <= h <= 9999
    ensures |NatToString(h)| == if h < 1000 then 3 else 4
  {
    var a := h / 10;
    var b := a / 10;
    assert NatToString(h) == NatToString(a) + [DigitChar(h % 10)];
    assert NatToString(a) == NatToString(b) + [DigitChar(a % 10)];
    if h < 1000 {
      assert |NatToString(b)| == 1;
    } else {
      assert NatToString(b) == NatToString(b / 10) + [DigitChar(b % 10)];
      assert |NatToString(b / 10)| == 1;
    }
  }

  /** Positions without a match before `stop` are skipped. */
  lemma {:induction false} FirstMatchSkips(s: string, i: nat, stop: nat)
    requires i <= stop
    requires forall j :: i <= j < stop ==> MatchLength(s, j) == 0
    ensures FirstMatch(s, i) == FirstMatch(s, stop)
    decreases stop - i
  {
    if i < stop {
      assert MatchLength(s, i) == 0;
      FirstMatchSkips(s, i + 1, stop);
    }
  }

  /** `effective_height`: the note's height when it is set and the raw
      height is missing or smaller, else the raw height; that is, the
      larger of the two. */
  function EffectiveHeight(f: RawFormat): (h: nat)
    ensures h >= f.height && h >= NoteValue(f.formatNote)
    ensures h == f.height || h == NoteValue(f.formatNote)
  {
    var note := NoteValue(f.formatNote);
    if note != 0 && (f.height == 0 || note > f.height) then note else f.height
  }

  /** `max_effective_height`, with `0` for "none". */
  function MaxHeight(fs: seq<RawFormat>): (m: nat)
    ensures forall i :: 0 <= i < |fs| ==> EffectiveHeight(fs[i]) <= m
    ensures m == 0 || exists i :: 0 <= i < |fs| && EffectiveHeight(fs[i]) == m
  {
    if |fs| == 0 then 0
    else
      var m := MaxHeight(fs[..|fs| - 1]);
      var e := EffectiveHeight(fs[|fs| - 1]);
      assert forall i :: 0 <= i < |fs| - 1 ==> fs[..|fs| - 1][i] == fs[i];
      if e != 0 && (m == 0 || e > m) then e else m
  }

  // ---------------------------------------------------------------- tracks

  /** Video only: a real video codec, no real audio codec, and a height. */
  predicate IsVideoTrack(f: RawFormat) {
    var vc := Lower(f.vcodec);
    var ac := Lower(f.acodec);
    vc != "" && vc != "none" && (ac == "" || ac == "none") && EffectiveHeight(f) != 0
  }

  /** Audio only: a real audio codec and no real video codec. */
  predicate IsAudioTrack(f: RawFormat) {
    var vc := Lower(f.vcodec);
    var ac := Lower(f.acodec);
    ac != "" && ac != "none" && (vc == "" || vc == "none")
  }

  function VideoTracks(fs: seq<RawFormat>): (r: seq<RawFormat>)
    ensures forall f :: f in r <==> f in fs && IsVideoTrack(f)
  {
    if |fs| == 0 then []
    else (if IsVideoTrack(fs[0]) then [fs[0]] else []) + VideoTracks(fs[1..])
  }

  function AudioTracks(fs: seq<RawFormat>): (r: seq<RawFormat>)
    ensures forall f :: f in r <==> f in fs && IsAudioTrack(f)
  {
    if |fs| == 0 then []
    else (if IsAudioTrack(fs[0]) then [fs[0]] else []) + AudioTracks(fs[1..])
  }

  /** No format is both a video track and an audio track. */
  lemma TracksDisjoint(fs: seq<RawFormat>, f: RawFormat)
    ensures !(f in VideoTracks(fs) && f in AudioTracks(fs))
  {
  }

  // ----------------------------------------------------------------- ranks

  /** Python's `<` on tuples of numbers: lexicographic, a proper prefix
      first. */
  predicate RankLess(a: seq<real>, b: seq<real>) {
    if |b| == 0 then false
    else if |a| == 0 then true
    else a[0] < b[0] || (a[0] == b[0] && RankLess(a[1..], b[1..]))
  }

  lemma {:induction false} RankLessTotal(a: seq<real>, b: seq<real>)
    ensures RankLess(a, b) || RankLess(b, a) || a == b
  {
    if |a| > 0 && |b| > 0 && a[0] == b[0] {
      RankLessTotal(a[1..], b[1..]);
      if a[1..] == b[1..] {
        assert a == [a[0]] + a[1..] && b == [b[0]] + b[1..];
      }
    }
  }

  lemma {:induction false} RankLessTransitive(a: seq<real>, b: seq<real>, c: seq<real>)
    requires RankLess(a, b) && RankLess(b, c)
    ensures RankLess(a, c)
  {
    if |a| > 0 && a[0] == b[0] && b[0] == c[0] {
      RankLessTransitive(a[1..], b[1..], c[1..]);
    }
  }

  lemma {:induction false} RankLessAsymmetric(a: seq<real>, b: seq<real>)
    ensures !(RankLess(a, b) && RankLess(b, a))
  {
    if |a| > 0 && |b| > 0 && a[0] == b[0] {
      RankLessAsymmetric(a[1..], b[1..]);
    }
  }

  /** `audio_rank`: bit rate, then container (m4a/mp4 over webm/ogg),
      then codec (AAC over Opus). Structured entries carry no `abr`, so the
      bit rate read is `tbr`. */
  function AudioRank(f: RawFormat): seq<real> {
    var ext := Lower(f.ext);
    var ac := Lower(f.acodec);
    var extScore := if ext == "m4a" || ext == "mp4" then 2.0 else if ext == "webm" || ext == "ogg" then 1.0 else 0.0;
    var codecScore := if Contains(ac, "aac") || Contains(ac, "mp4a") then 2.0 else if Contains(ac, "opus") then 1.0 else 0.0;
    [f.tbr, extScore, codecScore]
  }

  /** `video_rank`: height, codec (H.264 over VP9 over AV1), frame rate,
      bit rate, then container (mp4 over webm). */
  function VideoRank(f: RawFormat): seq<real> {
    var vc := Lower(f.vcodec);
    var ext := Lower(f.ext);
    var codecScore := if Contains(vc, "avc") || Contains(vc, "h264") then 3.0
                      else if Contains(vc, "vp9") then 2.0
                      else if Contains(vc, "av01") || Contains(vc, "av1") then 1.0 else 0.0;
    var extScore := if ext == "mp4" then 2.0 else if ext == "webm" then 1.0 else 0.0;
    [EffectiveHeight(f) as real, codecScore, f.fps, f.tbr, extScore]
  }

  /** `sorted(s, key=rank, reverse=True)[0]`, as a position: a stable
      descending sort puts first the earliest of the highest-ranked. */
  function FirstBest(s: seq<RawFormat>, rank: RawFormat -> seq<real>): (i: nat)
    requires |s| > 0
    ensures i < |s|
    decreases |s|
  {
    if |s| == 1 then 0
    else
      var j := FirstBest(s[..|s| - 1], rank);
      if RankLess(rank(s[j]), rank(s[|s| - 1])) then |s| - 1 else j
  }

  /** The chosen entry is ranked no lower than any other, and strictly
      higher than every entry before it. */
  lemma {:induction false} FirstBestIsBest(s: seq<RawFormat>, rank: RawFormat -> seq<real>)
    requires |s| > 0
    ensures var i := FirstBest(s, rank);
            && (forall k :: 0 <= k < |s| ==> !RankLess(rank(s[i]), rank(s[k])))
            && (forall k :: 0 <= k < i ==> RankLess(rank(s[k]), rank(s[i])))
    decreases |s|
  {
    if |s| == 1 {
      RankLessAsymmetric(rank(s[0]), rank(s[0]));
    } else {
      var init := s[..|s| - 1];
      var j := FirstBest(init, rank);
      FirstBestIsBest(init, rank);
      var last := |s| - 1;
      assert forall k :: 0 <= k < last ==> init[k] == s[k];
      if RankLess(rank(s[j]), rank(s[last])) {
        forall k | 0 <= k < last ensures RankLess(rank(s[k]), rank(s[last])) {
          RankLessTotal(rank(s[k]), rank(s[j]));
          if RankLess(rank(s[k]), rank(s[j])) {
            RankLessTransitive(rank(s[k]), rank(s[j]), rank(s[last]));
          }
        }
        forall k | 0 <= k < |s| ensures !RankLess(rank(s[last]), rank(s[k])) {
          if k < last {
            RankLessAsymmetric(rank(s[k]), rank(s[last]));
          } else {
            RankLessAsymmetric(rank(s[last]), rank(s[last]));
          }
        }
      } else {
        assert FirstBest(s, rank) == j;
        forall k | 0 <= k < |s| ensures !RankLess(rank(s[j]), rank(s[k])) {
          if k < last {
            assert !RankLess(rank(init[j]), rank(init[k]));
          }
        }
        forall k | 0 <= k < j ensures RankLess(rank(s[k]), rank(s[j])) {
          assert RankLess(rank(init[k]), rank(init[j]));
        }
      }
    }
  }

  // --------------------------------------------------------- quality pairs

  /** The video tracks whose effective height is `h`, in order. */
  function OfHeight(vs: seq<RawFormat>, h: nat): (r: seq<RawFormat>)
    ensures forall f :: f in r <==> f in vs && EffectiveHeight(f) == h
  {
    if |vs| == 0 then []
    else (if EffectiveHeight(vs[0]) == h then [vs[0]] else []) + OfHeight(vs[1..], h)
  }

  /** The heights of the video tracks, each once, in first-seen order: the
      key order of `by_height`. */
  function Heights(vs: seq<RawFormat>): (r: seq<nat>)
    ensures Distinct(r)
    ensures forall h :: h in r <==> exists f :: f in vs && EffectiveHeight(f) == h
  {
    if |vs| == 0 then []
    else
      var init := vs[..|vs| - 1];
      var f := vs[|vs| - 1];
      assert vs == init + [f];
      AddNew(Heights(init), EffectiveHeight(f))
  }

  /** The largest of a list of heights (0 for none). */
  function Top(hs: seq<nat>): (m: nat)
    ensures forall h :: h in hs ==> h <= m
    ensures |hs| > 0 ==> m in hs
  {
    if |hs| == 0 then 0
    else
      var m := Top(hs[1..]);
      assert forall h :: h in hs ==> h == hs[0] || h in hs[1..];
      if |hs| == 1 || hs[0] > m then hs[0] else m
  }

  /** The pair stored under height `h`: the best track of that height and
      the shared audio. */
  function PairFor(vs: seq<RawFormat>, h: nat, audio: string): (p: QualityOptions.Pair)
    ensures p.audio == audio
  {
    var g := OfHeight(vs, h);
    if |g| == 0 then QualityOptions.Pair("", audio)
    else QualityOptions.Pair(g[FirstBest(g, VideoRank)].formatId, audio)
  }

  function BestAudio(auds: seq<RawFormat>): string
    requires |auds| > 0
  {
    auds[FirstBest(auds, AudioRank)].formatId
  }

  function HeightEntries(vs: seq<RawFormat>, hs: seq<nat>, audio: string): (r: QualityOptions.PairTable)
    ensures |r| == |hs|
    ensures forall i :: 0 <= i < |r| ==> r[i] == (NatToString(hs[i]), PairFor(vs, hs[i], audio))
  {
    if |hs| == 0 then [] else [(NatToString(hs[0]), PairFor(vs, hs[0], audio))] + HeightEntries(vs, hs[1..], audio)
  }

  /** The table built from the video tracks `vs` and audio tracks `auds`. */
  function Pairs(vs: seq<RawFormat>, auds: seq<RawFormat>): QualityOptions.PairTable {
    if |vs| == 0 || |auds| == 0 then []
    else
      var audio := BestAudio(auds);
      var hs := Heights(vs);
      HeightEntries(vs, hs, audio) + [(QualityOptions.DefaultBestKey, PairFor(vs, Top(hs), audio))]
  }

  /** `quality_pairs` with its keys rendered as strings, in insertion
      order: one entry per height, then `default_best`. */
  function QualityPairs(fs: seq<RawFormat>): (t: QualityOptions.PairTable)
    ensures t == [] <==> VideoTracks(fs) == [] || AudioTracks(fs) == []
    ensures forall i :: 0 <= i < |t| ==> t[i].1.audio == BestAudio(AudioTracks(fs))
  {
    PairsShape(VideoTracks(fs), AudioTracks(fs));
    Pairs(VideoTracks(fs), AudioTracks(fs))
  }

  lemma PairsShape(vs: seq<RawFormat>, auds: seq<RawFormat>)
    ensures Pairs(vs, auds) == [] <==> vs == [] || auds == []
    ensures auds != [] ==>
              forall i :: 0 <= i < |Pairs(vs, auds)| ==> Pairs(vs, auds)[i].1.audio == BestAudio(auds)
  {
    if vs != [] && auds != [] {
      var audio := BestAudio(auds);
      var hs := Heights(vs);
      var es := HeightEntries(vs, hs, audio);
      var last := (QualityOptions.DefaultBestKey, PairFor(vs, Top(hs), audio));
      PairsUnfold(vs, auds);
      SameAudio(es, last, audio);
    } else {
      assert Pairs(vs, auds) == [];
    }
  }

  lemma PairsUnfold(vs: seq<RawFormat>, auds: seq<RawFormat>)
    requires vs != [] && auds != []
    ensures var audio := BestAudio(auds);
            Pairs(vs, auds) == HeightEntries(vs, Heights(vs), audio)
                               + [(QualityOptions.DefaultBestKey, PairFor(vs, Top(Heights(vs)), audio))]
  {
  }

  lemma SameAudio(es: QualityOptions.PairTable, last: (string, QualityOptions.Pair), audio: string)
    requires forall i :: 0 <= i < |es| ==> es[i].1.audio == audio
    requires last.1.audio == audio
    ensures forall i :: 0 <= i < |es + [last]| ==> (es + [last])[i].1.audio == audio
  {
  }

  /** The table is empty exactly when either kind of track is missing, and
      every entry carries the same audio track, the best-ranked one. */
  lemma QualityPairsShape(fs: seq<RawFormat>)
    ensures QualityPairs(fs) == [] <==> VideoTracks(fs) == [] || AudioTracks(fs) == []
    ensures AudioTracks(fs) != [] ==>
              forall i :: 0 <= i < |QualityPairs(fs)| ==>
                QualityPairs(fs)[i].1.audio == BestAudio(AudioTracks(fs))
  {
    PairsShape(VideoTracks(fs), AudioTracks(fs));
  }

  /** The first entry under `key` is the one at `i` when no earlier key
      equals it. */
  lemma {:induction false} LookupFirst(table: QualityOptions.PairTable, key: string, i: int)
    requires 0 <= i < |table| && table[i].0 == key
    requires forall j :: 0 <= j < i ==> table[j].0 != key
    ensures QualityOptions.Lookup(table, key) == Some(table[i].1)
  {
    if i > 0 {
      LookupFirst(table[1..], key, i - 1);
    }
  }

  lemma {:induction false} LookupMissing(table: QualityOptions.PairTable, key: string)
    requires forall j :: 0 <= j < |table| ==> table[j].0 != key
    ensures QualityOptions.Lookup(table, key) == None
  {
    if |table| > 0 {
      LookupMissing(table[1..], key);
    }
  }

  /** The default key is not the rendering of any height. */
  lemma DefaultKeyNotNumeral(h: nat)
    ensures NatToString(h) != QualityOptions.DefaultBestKey
  {
    var d := NatToString(h);
    assert IsDigit(d[0]);
  }

  /** A table whose keys are distinct heights rendered, then the default
      key. */
  predicate KeyedBy(table: QualityOptions.PairTable, hs: seq<nat>) {
    && |table| == |hs| + 1
    && (forall j :: 0 <= j < |hs| ==> table[j].0 == NatToString(hs[j]))
    && table[|hs|].0 == QualityOptions.DefaultBestKey
  }

  lemma KeyedFound(table: QualityOptions.PairTable, hs: seq<nat>, i: int)
    requires KeyedBy(table, hs) && Distinct(hs) && 0 <= i < |hs|
    ensures QualityOptions.Lookup(table, NatToString(hs[i])) == Some(table[i].1)
  {
    forall j | 0 <= j < i ensures table[j].0 != NatToString(hs[i]) {
      DistinctIndices(hs, j, i);
      if table[j].0 == NatToString(hs[i]) {
        NatToStringInjective(hs[j], hs[i]);
      }
    }
    LookupFirst(table, NatToString(hs[i]), i);
  }

  lemma KeyedMissing(table: QualityOptions.PairTable, hs: seq<nat>, h: nat)
    requires KeyedBy(table, hs) && h !in hs
    ensures QualityOptions.Lookup(table, NatToString(h)) == None
  {
    DefaultKeyNotNumeral(h);
    forall j | 0 <= j < |table| ensures table[j].0 != NatToString(h) {
      if j < |hs| && table[j].0 == NatToString(h) {
        NatToStringInjective(hs[j], h);
      }
    }
    LookupMissing(table, NatToString(h));
  }

  lemma EntriesKeyed(vs: seq<RawFormat>, hs: seq<nat>, audio: string, last: QualityOptions.Pair)
    ensures var table := HeightEntries(vs, hs, audio) + [(QualityOptions.DefaultBestKey, last)];
            && KeyedBy(table, hs)
            && (forall i :: 0 <= i < |hs| ==> table[i].1 == PairFor(vs, hs[i], audio))
            && table[|hs|].1 == last
  {
    var es := HeightEntries(vs, hs, audio);
    var table := es + [(QualityOptions.DefaultBestKey, last)];
    assert forall j :: 0 <= j < |es| ==> table[j] == es[j];
  }

  lemma PairsKeyed(vs: seq<RawFormat>, auds: seq<RawFormat>)
    requires vs != [] && auds != []
    ensures KeyedBy(Pairs(vs, auds), Heights(vs))
    ensures forall i :: 0 <= i < |Heights(vs)| ==>
              Pairs(vs, auds)[i].1 == PairFor(vs, Heights(vs)[i], BestAudio(auds))
    ensures Pairs(vs, auds)[|Heights(vs)|].1 == PairFor(vs, Top(Heights(vs)), BestAudio(auds))
  {
    var hs := Heights(vs);
    var audio := BestAudio(auds);
    EntriesKeyed(vs, hs, audio, PairFor(vs, Top(hs), audio));
  }

  lemma PairsLookup(vs: seq<RawFormat>, auds: seq<RawFormat>, h: nat)
    requires vs != [] && auds != []
    ensures var p := QualityOptions.Lookup(Pairs(vs, auds), NatToString(h));
            && (p.Some? <==> h in Heights(vs))
            && (p.Some? ==> p.value == PairFor(vs, h, BestAudio(auds)))
  {
    var hs := Heights(vs);
    PairsKeyed(vs, auds);
    if h in hs {
      var i :| 0 <= i < |hs| && hs[i] == h;
      KeyedFound(Pairs(vs, auds), hs, i);
    } else {
      KeyedMissing(Pairs(vs, auds), hs, h);
    }
  }

  /** A height has an entry exactly when some video track has it, and the
      entry holds that height's best track with the shared audio. */
  lemma QualityPairsLookup(fs: seq<RawFormat>, h: nat)
    requires VideoTracks(fs) != [] && AudioTracks(fs) != []
    ensures var p := QualityOptions.Lookup(QualityPairs(fs), NatToString(h));
            && (p.Some? <==> exists f :: f in fs && IsVideoTrack(f) && EffectiveHeight(f) == h)
            && (p.Some? ==> p.value == PairFor(VideoTracks(fs), h, BestAudio(AudioTracks(fs))))
  {
    var vs := VideoTracks(fs);
    PairsLookup(vs, AudioTracks(fs), h);
    assert h in Heights(vs) <==> exists f :: f in vs && EffectiveHeight(f) == h;
  }

  lemma PairsDefault(vs: seq<RawFormat>, auds: seq<RawFormat>)
    requires vs != [] && auds != []
    ensures QualityOptions.Lookup(Pairs(vs, auds), QualityOptions.DefaultBestKey)
            == QualityOptions.Lookup(Pairs(vs, auds), NatToString(Top(Heights(vs))))
  {
    var hs := Heights(vs);
    var table := Pairs(vs, auds);
    PairsKeyed(vs, auds);
    assert vs[0] in vs;
    assert |hs| > 0;
    forall j | 0 <= j < |hs| ensures table[j].0 != QualityOptions.DefaultBestKey {
      DefaultKeyNotNumeral(hs[j]);
    }
    LookupFirst(table, QualityOptions.DefaultBestKey, |hs|);
    PairsLookup(vs, auds, Top(hs));
  }

  /** `default_best` holds the same pair as the largest height. */
  lemma DefaultBestIsTop(fs: seq<RawFormat>)
    requires VideoTracks(fs) != [] && AudioTracks(fs) != []
    ensures var top := Top(Heights(VideoTracks(fs)));
            && (forall f :: f in fs && IsVideoTrack(f) ==> EffectiveHeight(f) <= top)
            && QualityOptions.Lookup(QualityPairs(fs), QualityOptions.DefaultBestKey)
               == QualityOptions.Lookup(QualityPairs(fs), NatToString(top))
  {
    var vs := VideoTracks(fs);
    PairsDefault(vs, AudioTracks(fs));
    forall f | f in fs && IsVideoTrack(f) ensures EffectiveHeight(f) <= Top(Heights(vs)) {
      assert f in vs;
      assert EffectiveHeight(f) in Heights(vs);
    }
  }

  /** The client lists the pairs instead of the raw formats exactly when
      the mode is not audio and both kinds of track exist. */
  lemma ClientUsesPairs(fs: seq<RawFormat>, mode: string)
    ensures QualityOptions.UsesPairs(QualityPairs(fs), mode)
            <==> mode != "audio" && VideoTracks(fs) != [] && AudioTracks(fs) != []
  {
    var table := QualityPairs(fs);
    if mode != "audio" && VideoTracks(fs) != [] && AudioTracks(fs) != [] {
      var vs := VideoTracks(fs);
      var hs := Heights(vs);
      assert vs[0] in vs;
      assert |hs| > 0;
      var h := hs[0];
      assert table[0].0 == NatToString(h);
      DefaultKeyNotNumeral(h);
      ParseIntJsOfNumeral(h, "");
      assert NatToString(h) + "" == NatToString(h);
      assert QualityOptions.HeightKey(table[0].0);
      QualityOptions.PairHeightsMembers(table, h);
    }
  }

  // ----------------------------------------------------------- capabilities

  datatype Capabilities = Capabilities(has8k: bool, has4k: bool, hdr: bool, av1: bool)

  predicate AnyAtLeast(fs: seq<RawFormat>, lo: nat) {
    exists i :: 0 <= i < |fs| && EffectiveHeight(fs[i]) >= lo
  }

  predicate AnyBetween(fs: seq<RawFormat>, lo: nat, hi: nat) {
    exists i :: 0 <= i < |fs| && lo <= EffectiveHeight(fs[i]) < hi
  }

  function CapabilitiesOf(fs: seq<RawFormat>): Capabilities {
    Capabilities(AnyAtLeast(fs, 4320), AnyBetween(fs, 2160, 4320),
                 exists i :: 0 <= i < |fs| && Contains(Lower(fs[i].formatNote), "hdr"),
                 exists i :: 0 <= i < |fs| && Contains(Lower(fs[i].vcodec), "av01"))
  }

  /** The 8K flag is the maximum height reaching 4320; the 4K flag needs
      a height in [2160, 4320), so a source whose only tall formats are
      4320p reports 8K without 4K. */
  lemma CapabilitiesByHeight(fs: seq<RawFormat>)
    ensures CapabilitiesOf(fs).has8k <==> MaxHeight(fs) >= 4320
    ensures CapabilitiesOf(fs).has4k ==> MaxHeight(fs) >= 2160
    ensures 2160 <= MaxHeight(fs) < 4320 ==> CapabilitiesOf(fs).has4k && !CapabilitiesOf(fs).has8k
    ensures (forall i :: 0 <= i < |fs| ==> EffectiveHeight(fs[i]) == 4320 || EffectiveHeight(fs[i]) < 2160)
            ==> !CapabilitiesOf(fs).has4k
  {
    var m := MaxHeight(fs);
    if m >= 2160 {
      var i :| 0 <= i < |fs| && EffectiveHeight(fs[i]) == m;
    }
  }

  // ------------------------------------------------------ what the client sees

  /** The structured entry as the client reads it: it carries no `abr` and
      no `audio_quality`. */
  function ToClient(f: RawFormat): (c: QualityOptions.Format)
    ensures c.abr == "" && c.audioQuality == ""
    ensures c.acodec == f.acodec && c.height == f.height && c.effectiveHeight == EffectiveHeight(f)
  {
    QualityOptions.Format(f.acodec, "", "", f.height, EffectiveHeight(f))
  }

  function ToClientAll(fs: seq<RawFormat>): (r: seq<QualityOptions.Format>)
    ensures |r| == |fs|
    ensures forall i :: 0 <= i < |fs| ==> r[i] == ToClient(fs[i])
  {
    seq(|fs|, i requires 0 <= i < |fs| => ToClient(fs[i]))
  }

  /** Since no structured entry has a bit-rate text, the client's audio
      path never finds a known quality and always offers the fixed
      ladder. */
  lemma ClientAudioAlwaysLadder(fs: seq<RawFormat>)
    ensures QualityOptions.KnownQualities(ToClientAll(fs)) == {}
    ensures QualityOptions.AudioChoices(ToClientAll(fs))
            == seq(|QualityOptions.AudioLadder|, i requires 0 <= i < |QualityOptions.AudioLadder|
                     => QualityOptions.AudioChoice(QualityOptions.AudioLadder[i]))
  {
    var cs := ToClientAll(fs);
    forall q | q in QualityOptions.KnownQualities(cs) ensures false {
      QualityOptions.KnownQualitiesMembers(cs, q);
    }
    QualityOptions.AudioFallbackLadder(cs);
  }

  /** The client's raw video path offers exactly the positive effective
      heights, and its largest is `max_height`. */
  lemma ClientHeights(fs: seq<RawFormat>, h: int)
    ensures h in QualityOptions.PositiveHeights(ToClientAll(fs))
            <==> h > 0 && exists i :: 0 <= i < |fs| && EffectiveHeight(fs[i]) == h
    ensures h in QualityOptions.PositiveHeights(ToClientAll(fs)) ==> h <= MaxHeight(fs)
  {
    var cs := ToClientAll(fs);
    QualityOptions.PositiveHeightsMembers(cs, h);
    assert forall i :: 0 <= i < |fs| ==> QualityOptions.HeightOf(cs[i]) == EffectiveHeight(fs[i]);
  }
}
