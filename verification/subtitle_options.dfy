/** The subtitle choices `video_info_route` in app.py offers for one video:
    manual subtitles first, then automatic captions, each group in sorted
    language-code order, and at most one choice per base language (the code
    before its first '-'). */
module SubtitleOptions {

  import opened Options
  import opened Strings
  import opened Sorting

  /** `LANGUAGE_CODES`, in its literal order. */
  const LanguageCodes: seq<(string, string)> := [
    ("en", "英语"), ("zh-CN", "简体中文"), ("zh-Hant", "繁体中文"), ("ja", "日语"), ("ko", "韩语"),
    ("de", "德语"), ("fr", "法语"), ("es", "西班牙语"), ("ru", "俄语")
  ]

  const ManualSuffix := " (人工)"
  const AutoSuffix := " (自动)"

  /** `lang_code.split('-')[0]`. */
  function BaseCode(code: string): (b: string)
    ensures b <= code && '-' !in b
  {
    Before(code, '-')
  }

  /** `LANGUAGE_CODES.get(code, code)`. */
  function DisplayName(code: string): (r: string)
    ensures (exists i :: 0 <= i < |LanguageCodes| && LanguageCodes[i] == (code, r)) || r == code
  {
    NameIn(LanguageCodes, code)
  }

  function NameIn(table: seq<(string, string)>, code: string): (r: string)
    ensures (exists i :: 0 <= i < |table| && table[i] == (code, r)) || r == code
    ensures (forall i :: 0 <= i < |table| ==> table[i].0 != code) ==> r == code
  {
    if |table| == 0 then code
    else if table[0].0 == code then table[0].1
    else
      var r := NameIn(table[1..], code);
      assert forall i :: 0 <= i < |table| - 1 ==> table[1..][i] == table[i + 1];
      r
  }

  datatype SubOption = SubOption(value: string, text: string)

  /** The base languages the options cover. */
  function Bases(opts: seq<SubOption>): set<string> {
    set i | 0 <= i < |opts| :: BaseCode(opts[i].value)
  }

  function CodeBases(codes: seq<string>): set<string> {
    set i | 0 <= i < |codes| :: BaseCode(codes[i])
  }

  /** No two options share a base language. */
  predicate OnePerBase(opts: seq<SubOption>) {
    forall i, j :: 0 <= i < j < |opts| ==> BaseCode(opts[i].value) != BaseCode(opts[j].value)
  }

  /** One of the two loops: walks `codes` in order, skipping a code whose
      base is already in `found`, labelling the others with `suffix`; also
      gives the bases found afterwards. */
  function Pass(codes: seq<string>, suffix: string, found: set<string>): (r: (seq<SubOption>, set<string>))
    ensures forall i :: 0 <= i < |r.0| ==> r.0[i].value in codes && BaseCode(r.0[i].value) !in found
    decreases |codes|
  {
    if |codes| == 0 then ([], found)
    else
      var b := BaseCode(codes[0]);
      if b in found then Pass(codes[1..], suffix, found)
      else
        var rest := Pass(codes[1..], suffix, found + {b});
        ([SubOption(codes[0], DisplayName(b) + suffix)] + rest.0, rest.1)
  }

  /** Each option of a pass is labelled with its language name and the
      pass's suffix. */
  lemma {:induction false} PassTexts(codes: seq<string>, suffix: string, found: set<string>)
    ensures var r := Pass(codes, suffix, found).0;
            forall i :: 0 <= i < |r| ==> Labelled(r[i], suffix)
    decreases |codes|
  {
    if |codes| > 0 {
      var b := BaseCode(codes[0]);
      var found' := if b in found then found else found + {b};
      PassTexts(codes[1..], suffix, found');
      PassStep(codes, suffix, found);
      if b !in found {
        var o := SubOption(codes[0], DisplayName(b) + suffix);
        ConsLabelled(o, Pass(codes[1..], suffix, found').0, suffix);
      }
    }
  }

  predicate Labelled(o: SubOption, suffix: string) {
    o.text == DisplayName(BaseCode(o.value)) + suffix
  }

  lemma ConsLabelled(o: SubOption, rest: seq<SubOption>, suffix: string)
    requires Labelled(o, suffix) && forall i :: 0 <= i < |rest| ==> Labelled(rest[i], suffix)
    ensures forall i :: 0 <= i < |[o] + rest| ==> Labelled(([o] + rest)[i], suffix)
  {
  }

  /** A pass adds every base of its codes to `found`, emits exactly one
      option for each base it adds, and none for a base already found. */
  lemma {:induction false} PassCovers(codes: seq<string>, suffix: string, found: set<string>)
    ensures var r := Pass(codes, suffix, found);
            && r.1 == found + CodeBases(codes)
            && Bases(r.0) == r.1 - found
            && OnePerBase(r.0)
    decreases |codes|
  {
    if |codes| > 0 {
      var b := BaseCode(codes[0]);
      CodeBasesCons(codes);
      if b in found {
        PassCovers(codes[1..], suffix, found);
      } else {
        PassCovers(codes[1..], suffix, found + {b});
        var rest := Pass(codes[1..], suffix, found + {b});
        var head := SubOption(codes[0], DisplayName(b) + suffix);
        BasesCons(head, rest.0);
        ConsOnePerBase(head, rest.0);
      }
    }
  }

  lemma CodeBasesCons(codes: seq<string>)
    requires |codes| > 0
    ensures CodeBases(codes) == {BaseCode(codes[0])} + CodeBases(codes[1..])
  {
    forall x | x in CodeBases(codes) ensures x in {BaseCode(codes[0])} + CodeBases(codes[1..]) {
      var i :| 0 <= i < |codes| && BaseCode(codes[i]) == x;
      if i > 0 { assert codes[1..][i - 1] == codes[i]; }
    }
    forall x | x in CodeBases(codes[1..]) ensures x in CodeBases(codes) {
      var i :| 0 <= i < |codes[1..]| && BaseCode(codes[1..][i]) == x;
      assert codes[i + 1] == codes[1..][i];
    }
  }

  lemma BasesCons(o: SubOption, opts: seq<SubOption>)
    ensures Bases([o] + opts) == {BaseCode(o.value)} + Bases(opts)
  {
    var all := [o] + opts;
    forall x | x in Bases(all) ensures x in {BaseCode(o.value)} + Bases(opts) {
      var i :| 0 <= i < |all| && BaseCode(all[i].value) == x;
      if i > 0 { assert all[i] == opts[i - 1]; }
    }
    forall x | x in Bases(opts) ensures x in Bases(all) {
      var i :| 0 <= i < |opts| && BaseCode(opts[i].value) == x;
      assert all[i + 1] == opts[i];
    }
    assert all[0] == o;
  }

  lemma ConsOnePerBase(o: SubOption, opts: seq<SubOption>)
    requires OnePerBase(opts) && BaseCode(o.value) !in Bases(opts)
    ensures OnePerBase([o] + opts)
  {
    var all := [o] + opts;
    forall i, j | 0 <= i < j < |all| ensures BaseCode(all[i].value) != BaseCode(all[j].value) {
      assert all[j] == opts[j - 1];
      if i > 0 {
        assert all[i] == opts[i - 1];
      } else {
        assert BaseCode(opts[j - 1].value) in Bases(opts);
      }
    }
  }

  lemma ConcatBases(a: seq<SubOption>, b: seq<SubOption>)
    ensures Bases(a + b) == Bases(a) + Bases(b)
  {
    var r := a + b;
    forall x | x in Bases(r) ensures x in Bases(a) + Bases(b) {
      var i :| 0 <= i < |r| && BaseCode(r[i].value) == x;
      if i < |a| {
        assert r[i] == a[i];
      } else {
        assert r[i] == b[i - |a|];
      }
    }
    forall x | x in Bases(a) ensures x in Bases(r) {
      var i :| 0 <= i < |a| && BaseCode(a[i].value) == x;
      assert r[i] == a[i];
    }
    forall x | x in Bases(b) ensures x in Bases(r) {
      var i :| 0 <= i < |b| && BaseCode(b[i].value) == x;
      assert r[i + |a|] == b[i];
    }
  }

  lemma ConcatOnePerBase(a: seq<SubOption>, b: seq<SubOption>)
    requires OnePerBase(a) && OnePerBase(b) && Bases(a) !! Bases(b)
    ensures OnePerBase(a + b)
  {
    var r := a + b;
    forall i, j | 0 <= i < j < |r| ensures BaseCode(r[i].value) != BaseCode(r[j].value) {
      if j < |a| {
        assert r[i] == a[i] && r[j] == a[j];
      } else if i >= |a| {
        assert r[i] == b[i - |a|] && r[j] == b[j - |a|];
      } else {
        assert r[i] == a[i] && r[j] == b[j - |a|];
        assert BaseCode(a[i].value) in Bases(a);
        assert BaseCode(b[j - |a|].value) in Bases(b);
      }
    }
  }

  /** The manual pass, then the automatic pass with the manual bases
      already found. */
  function Passes(manual: seq<string>, auto: seq<string>): (r: (seq<SubOption>, seq<SubOption>))
  {
    var m := Pass(SortStrings(manual), ManualSuffix, {});
    (m.0, Pass(SortStrings(auto), AutoSuffix, m.1).0)
  }

  /** The `sub_options` list for the given subtitle and caption codes. */
  function SubtitleChoices(manual: seq<string>, auto: seq<string>): (r: seq<SubOption>)
    ensures OnePerBase(r)
    ensures Bases(r) == CodeBases(manual) + CodeBases(auto)
    ensures forall i :: 0 <= i < |r| ==> r[i].value in manual || r[i].value in auto
  {
    var p := Passes(manual, auto);
    ChoicesFacts(manual, auto);
    p.0 + p.1
  }

  lemma ChoicesFacts(manual: seq<string>, auto: seq<string>)
    ensures var p := Passes(manual, auto);
            && OnePerBase(p.0 + p.1)
            && Bases(p.0 + p.1) == CodeBases(manual) + CodeBases(auto)
            && forall i :: 0 <= i < |p.0 + p.1| ==> (p.0 + p.1)[i].value in manual || (p.0 + p.1)[i].value in auto
  {
    var m := Pass(SortStrings(manual), ManualSuffix, {});
    var a := Pass(SortStrings(auto), AutoSuffix, m.1);
    PassCovers(SortStrings(manual), ManualSuffix, {});
    PassCovers(SortStrings(auto), AutoSuffix, m.1);
    SortedCodeBases(manual);
    SortedCodeBases(auto);
    ConcatBases(m.0, a.0);
    ConcatOnePerBase(m.0, a.0);
    var r := m.0 + a.0;
    forall i | 0 <= i < |r| ensures r[i].value in manual || r[i].value in auto {
      if i < |m.0| {
        assert r[i] == m.0[i];
        assert r[i].value in multiset(SortStrings(manual));
      } else {
        assert r[i] == a.0[i - |m.0|];
        assert r[i].value in multiset(SortStrings(auto));
      }
    }
  }

  /** Sorting the codes does not change the bases they cover. */
  lemma SortedCodeBases(codes: seq<string>)
    ensures CodeBases(SortStrings(codes)) == CodeBases(codes)
  {
    var s := SortStrings(codes);
    forall x | x in CodeBases(s) ensures x in CodeBases(codes) {
      var i :| 0 <= i < |s| && BaseCode(s[i]) == x;
      assert s[i] in multiset(codes);
      var k :| 0 <= k < |codes| && codes[k] == s[i];
    }
    forall x | x in CodeBases(codes) ensures x in CodeBases(s) {
      var i :| 0 <= i < |codes| && BaseCode(codes[i]) == x;
      assert codes[i] in multiset(s);
      var k :| 0 <= k < |s| && s[k] == codes[i];
    }
  }

  // ------------------------------------------------------------ properties

  /** Every manual option comes first, labelled manual; every automatic
      option after it is labelled automatic and has a base no manual code
      has. */
  lemma ManualBeforeAuto(manual: seq<string>, auto: seq<string>)
    ensures var p := Passes(manual, auto);
            && (forall i :: 0 <= i < |p.0| ==>
                  p.0[i].value in manual && Labelled(p.0[i], ManualSuffix))
            && (forall i :: 0 <= i < |p.1| ==>
                  p.1[i].value in auto && Labelled(p.1[i], AutoSuffix)
                  && BaseCode(p.1[i].value) !in CodeBases(manual))
  {
    var m := Pass(SortStrings(manual), ManualSuffix, {});
    var a := Pass(SortStrings(auto), AutoSuffix, m.1);
    assert Passes(manual, auto) == (m.0, a.0);
    GroupFacts(manual, ManualSuffix, {}, m.0);
    BasesOfManual(manual);
    GroupFacts(auto, AutoSuffix, m.1, a.0);
  }

  /** The bases the manual pass finds are those of the manual codes. */
  lemma BasesOfManual(manual: seq<string>)
    ensures Pass(SortStrings(manual), ManualSuffix, {}).1 == CodeBases(manual)
  {
    PassCovers(SortStrings(manual), ManualSuffix, {});
    SortedCodeBases(manual);
  }

  /** A pass over sorted codes labels codes of the unsorted list. */
  lemma GroupFacts(source: seq<string>, suffix: string, found: set<string>, r: seq<SubOption>)
    requires r == Pass(SortStrings(source), suffix, found).0
    ensures forall i :: 0 <= i < |r| ==> r[i].value in source && Labelled(r[i], suffix) && BaseCode(r[i].value) !in found
  {
    var s := SortStrings(source);
    PassTexts(s, suffix, found);
    forall i | 0 <= i < |r| ensures r[i].value in source {
      assert r[i].value in multiset(s);
    }
  }

  /** The options are in sorted code order. */
  predicate ValuesSorted(opts: seq<SubOption>) {
    forall i, j :: 0 <= i < j < |opts| ==> StrLe(opts[i].value, opts[j].value)
  }

  /** One step of a pass: a code whose base was found adds nothing, any
      other adds one option in front of the rest of the pass. */
  lemma PassStep(codes: seq<string>, suffix: string, found: set<string>)
    requires |codes| > 0
    ensures var b := BaseCode(codes[0]);
            && (b in found ==> Pass(codes, suffix, found).0 == Pass(codes[1..], suffix, found).0)
            && (b !in found ==> Pass(codes, suffix, found).0
                                == [SubOption(codes[0], DisplayName(b) + suffix)] + Pass(codes[1..], suffix, found + {b}).0)
  {
  }

  /** The tail of a sorted list is sorted, and its head is no larger than
      any of it. */
  lemma SortedTail(codes: seq<string>)
    requires StrSorted(codes) && |codes| > 0
    ensures StrSorted(codes[1..])
    ensures forall k :: 0 <= k < |codes| - 1 ==> StrLe(codes[0], codes[1..][k])
  {
    var tail := codes[1..];
    forall x, y | 0 <= x < y < |tail| ensures StrLe(tail[x], tail[y]) {
      assert tail[x] == codes[x + 1] && tail[y] == codes[y + 1];
    }
    forall k | 0 <= k < |tail| ensures StrLe(codes[0], tail[k]) {
      assert tail[k] == codes[k + 1];
    }
  }

  /** A pass over sorted codes yields its options in sorted order. */
  lemma {:induction false} PassSorted(codes: seq<string>, suffix: string, found: set<string>)
    requires StrSorted(codes)
    ensures ValuesSorted(Pass(codes, suffix, found).0)
    decreases |codes|
  {
    if |codes| > 0 {
      var b := BaseCode(codes[0]);
      var tail := codes[1..];
      SortedTail(codes);
      PassStep(codes, suffix, found);
      var found' := if b in found then found else found + {b};
      PassSorted(tail, suffix, found');
      if b !in found {
        var rest := Pass(tail, suffix, found').0;
        forall j | 0 <= j < |rest| ensures StrLe(codes[0], rest[j].value) {
          assert rest[j].value in tail;
          var k :| 0 <= k < |tail| && tail[k] == rest[j].value;
        }
        ConsSorted(SubOption(codes[0], DisplayName(b) + suffix), rest);
      }
    }
  }

  lemma ConsSorted(o: SubOption, rest: seq<SubOption>)
    requires ValuesSorted(rest) && forall j :: 0 <= j < |rest| ==> StrLe(o.value, rest[j].value)
    ensures ValuesSorted([o] + rest)
  {
    var r := [o] + rest;
    forall i, j | 0 <= i < j < |r| ensures StrLe(r[i].value, r[j].value) {
      assert r[j] == rest[j - 1];
      if i > 0 {
        assert r[i] == rest[i - 1];
      }
    }
  }

  /** Each group is in sorted language-code order. */
  lemma GroupsSorted(manual: seq<string>, auto: seq<string>)
    ensures ValuesSorted(Passes(manual, auto).0) && ValuesSorted(Passes(manual, auto).1)
  {
    SortStringsSorted(manual);
    SortStringsSorted(auto);
    var m := Pass(SortStrings(manual), ManualSuffix, {});
    PassSorted(SortStrings(manual), ManualSuffix, {});
    PassSorted(SortStrings(auto), AutoSuffix, m.1);
  }

  /** The option a pass keeps for a base is the first code with that base:
      it stands at or before every code sharing its base. */
  lemma {:induction false} PassFirstIndex(codes: seq<string>, suffix: string, found: set<string>, i: int, k: int)
    returns (j: nat)
    requires 0 <= i < |Pass(codes, suffix, found).0| && 0 <= k < |codes|
    requires BaseCode(codes[k]) == BaseCode(Pass(codes, suffix, found).0[i].value)
    ensures j <= k && codes[j] == Pass(codes, suffix, found).0[i].value
    decreases |codes|
  {
    var b := BaseCode(codes[0]);
    if b in found {
      PassSkips(codes, suffix, found, i, k);
      var j' := PassFirstIndex(codes[1..], suffix, found, i, k - 1);
      j := j' + 1;
    } else if i == 0 {
      PassNew(codes, suffix, found);
      j := 0;
    } else {
      PassLater(codes, suffix, found, i, k);
      var j' := PassFirstIndex(codes[1..], suffix, found + {b}, i - 1, k - 1);
      j := j' + 1;
    }
  }

  /** A first code whose base was found is skipped. */
  lemma PassSkips(codes: seq<string>, suffix: string, found: set<string>, i: int, k: int)
    requires |codes| > 0 && BaseCode(codes[0]) in found && 0 <= i < |Pass(codes, suffix, found).0|
    requires 0 <= k < |codes| && BaseCode(codes[k]) == BaseCode(Pass(codes, suffix, found).0[i].value)
    ensures Pass(codes, suffix, found).0 == Pass(codes[1..], suffix, found).0
    ensures 0 < k && codes[1..][k - 1] == codes[k]
  {
    PassStep(codes, suffix, found);
  }

  /** Any option after the first one of a pass whose first code was new
      comes from the rest of the codes, and so does every code of its base. */
  lemma PassLater(codes: seq<string>, suffix: string, found: set<string>, i: int, k: int)
    requires |codes| > 0 && BaseCode(codes[0]) !in found && 0 < i < |Pass(codes, suffix, found).0|
    requires 0 <= k < |codes| && BaseCode(codes[k]) == BaseCode(Pass(codes, suffix, found).0[i].value)
    ensures var rest := Pass(codes[1..], suffix, found + {BaseCode(codes[0])}).0;
            && i - 1 < |rest| && Pass(codes, suffix, found).0[i] == rest[i - 1]
            && 0 < k && codes[1..][k - 1] == codes[k]
  {
    var b := BaseCode(codes[0]);
    var rest := Pass(codes[1..], suffix, found + {b}).0;
    PassNew(codes, suffix, found);
    var r := Pass(codes, suffix, found).0;
    assert r[i] == r[1..][i - 1];
    assert BaseCode(rest[i - 1].value) !in found + {b};
  }

  /** A first code whose base is new gives the first option, and the rest
      of the pass follows it. */
  lemma PassNew(codes: seq<string>, suffix: string, found: set<string>)
    requires |codes| > 0 && BaseCode(codes[0]) !in found
    ensures var r := Pass(codes, suffix, found).0;
            && |r| > 0 && r[0].value == codes[0]
            && r[1..] == Pass(codes[1..], suffix, found + {BaseCode(codes[0])}).0
  {
    PassStep(codes, suffix, found);
  }

  /** Over sorted codes, the option kept for a base is the smallest code
      with that base. */
  lemma PassFirstOfBase(codes: seq<string>, suffix: string, found: set<string>, i: int, k: int)
    requires StrSorted(codes)
    requires 0 <= i < |Pass(codes, suffix, found).0| && 0 <= k < |codes|
    requires BaseCode(codes[k]) == BaseCode(Pass(codes, suffix, found).0[i].value)
    ensures StrLe(Pass(codes, suffix, found).0[i].value, codes[k])
  {
    var j := PassFirstIndex(codes, suffix, found, i, k);
    if j == k {
      StrLeTotal(codes[k], codes[k]);
    }
  }

  /** The manual option for a language is its smallest manual code. */
  lemma ManualChoiceSmallest(manual: seq<string>, auto: seq<string>, i: int, c: string)
    requires 0 <= i < |Passes(manual, auto).0| && c in manual
    requires BaseCode(c) == BaseCode(Passes(manual, auto).0[i].value)
    ensures StrLe(Passes(manual, auto).0[i].value, c)
  {
    var s := SortStrings(manual);
    SortStringsSorted(manual);
    assert c in multiset(s);
    var k :| 0 <= k < |s| && s[k] == c;
    PassFirstOfBase(s, ManualSuffix, {}, i, k);
  }

  /** The automatic option for a language is its smallest caption code. */
  lemma AutoChoiceSmallest(manual: seq<string>, auto: seq<string>, i: int, c: string)
    requires 0 <= i < |Passes(manual, auto).1| && c in auto
    requires BaseCode(c) == BaseCode(Passes(manual, auto).1[i].value)
    ensures StrLe(Passes(manual, auto).1[i].value, c)
  {
    var s := SortStrings(auto);
    SortStringsSorted(auto);
    assert c in multiset(s);
    var k :| 0 <= k < |s| && s[k] == c;
    var m := Pass(SortStrings(manual), ManualSuffix, {});
    PassFirstOfBase(s, AutoSuffix, m.1, i, k);
  }

  /** Every Chinese code ("zh-…") is shown under the bare code "zh": the
      table's "zh-CN" and "zh-Hant" names are never looked up, because the
      lookup uses the base code. */
  lemma ChineseShownAsCode(rest: string)
    ensures BaseCode("zh-" + rest) == "zh"
    ensures DisplayName(BaseCode("zh-" + rest)) == "zh"
  {
    var code := "zh-" + rest;
    assert code[0] == 'z' && code[1] == 'h' && code[2] == '-';
    assert code[1..][1..][0] == '-';
    assert Before(code[1..][1..], '-') == "";
    assert forall i :: 0 <= i < |LanguageCodes| ==> LanguageCodes[i].0 != "zh";
  }
}
