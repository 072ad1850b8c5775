/** The three regular-expression substitutions the cue merger in tasks.py
    applies, written out as scans: `<[^>]+>` removed, `\s+` collapsed to
    one space, and `\s+` dropped before `,.!?;:`. Each comes with the
    invariant its output keeps and the fact that an output already keeping
    it passes through unchanged. `\s` is Python's `str.isspace`. */
module LegacyText {

  import opened Strings

  // ------------------------------------------------------------ HTML tags

  /** A tag opens at `s[0]`: a '<', then at least one character that is
      not '>', then '>'. */
  predicate TagAt(s: string) {
    |s| > 0 && s[0] == '<' && 1 <= |Before(s[1..], '>')| < |s| - 1
  }

  /** The length of the tag opening at `s[0]`, both brackets included. */
  function TagLength(s: string): (n: nat)
    requires TagAt(s)
    ensures 3 <= n <= |s| && s[n - 1] == '>' && '>' !in s[1..n - 1]
  {
    |Before(s[1..], '>')| + 2
  }

  /** `re.sub(r"<[^>]+>", "", s)`: matches are found left to right and do
      not overlap. */
  function StripTags(s: string): (r: string)
    ensures |r| <= |s|
    decreases |s|
  {
    if s == "" then ""
    else if TagAt(s) then StripTags(s[TagLength(s)..])
    else [s[0]] + StripTags(s[1..])
  }

  /** No tag opens anywhere in `s`. */
  predicate TagFree(s: string) {
    forall i :: 0 <= i < |s| ==> !TagAt(s[i..])
  }

  /** Removing tags introduces no character. */
  lemma {:induction false} StripTagsFree(s: string, x: char)
    requires x !in s
    ensures x !in StripTags(s)
    decreases |s|
  {
    if s != "" {
      if TagAt(s) {
        StripTagsFree(s[TagLength(s)..], x);
      } else {
        StripTagsFree(s[1..], x);
      }
    }
  }

  /** What follows a removed tag cannot form a tag with what precedes it:
      the output holds no tag. */
  lemma {:induction false} StripTagsTagFree(s: string)
    ensures TagFree(StripTags(s))
    decreases |s|
  {
    if s != "" {
      if TagAt(s) {
        StripTagsTagFree(s[TagLength(s)..]);
      } else {
        var tail := StripTags(s[1..]);
        var r := [s[0]] + tail;
        StripTagsTagFree(s[1..]);
        forall i | 0 <= i < |r| ensures !TagAt(r[i..]) {
          if i > 0 {
            assert r[i..] == tail[i - 1..];
          } else if s[0] == '<' && |s| > 1 {
            var k := |Before(s[1..], '>')|;
            if k == 0 {
              assert s[1] == '>' && !TagAt(s[1..]);
              assert tail[0] == '>';
              assert r[1..] == tail;
            } else {
              assert k == |s| - 1;
              BeforeOfFree(s[1..], '>');
              StripTagsFree(s[1..], '>');
              BeforeOfFree(tail, '>');
              assert r[1..] == tail;
            }
          }
        }
      }
    }
  }

  /** Text without tags is left alone. */
  lemma {:induction false} StripTagsOfTagFree(s: string)
    requires TagFree(s)
    ensures StripTags(s) == s
    decreases |s|
  {
    if s != "" {
      assert !TagAt(s[0..]) && s[0..] == s;
      assert forall i :: 0 <= i < |s| - 1 ==> s[1..][i..] == s[i + 1..];
      StripTagsOfTagFree(s[1..]);
    }
  }

  lemma StripTagsIdempotent(s: string)
    ensures StripTags(StripTags(s)) == StripTags(s)
  {
    StripTagsTagFree(s);
    StripTagsOfTagFree(StripTags(s));
  }

  /** Text without '<' is left alone. */
  lemma NoBracketNoTag(s: string)
    requires '<' !in s
    ensures StripTags(s) == s
  {
    assert forall i :: 0 <= i < |s| ==> s[i..][0] == s[i];
    StripTagsOfTagFree(s);
  }

  // ----------------------------------------------------- whitespace runs

  predicate NoSpace(s: string) {
    forall i :: 0 <= i < |s| ==> !IsSpace(s[i])
  }

  /** Every whitespace character is a plain space and none follows
      another. */
  predicate SingleSpaced(s: string) {
    forall i :: 0 <= i < |s| && IsSpace(s[i]) ==> s[i] == ' ' && (i + 1 < |s| ==> !IsSpace(s[i + 1]))
  }

  lemma TrimStartShorter(s: string)
    requires s != "" && IsSpace(s[0])
    ensures TrimStart(s, IsSpace) == TrimStart(s[1..], IsSpace)
  {
  }

  /** `re.sub(r"\s+", " ", s)`. */
  function Collapse(s: string): (r: string)
    ensures |r| <= |s|
    ensures s != "" ==> r != "" && (IsSpace(s[0]) ==> r[0] == ' ') && (!IsSpace(s[0]) ==> r[0] == s[0])
    decreases |s|
  {
    if s == "" then ""
    else if IsSpace(s[0]) then " " + Collapse(TrimStart(s[1..], IsSpace))
    else [s[0]] + Collapse(s[1..])
  }

  lemma {:induction false} CollapseSingleSpaced(s: string)
    ensures SingleSpaced(Collapse(s))
    decreases |s|
  {
    if s != "" {
      if IsSpace(s[0]) {
        var t := TrimStart(s[1..], IsSpace);
        CollapseSingleSpaced(t);
        var r := Collapse(s);
        assert r[1..] == Collapse(t);
        forall i | 0 <= i < |r| && IsSpace(r[i]) ensures r[i] == ' ' && (i + 1 < |r| ==> !IsSpace(r[i + 1])) {
          if i > 0 {
            assert r[i] == Collapse(t)[i - 1];
          }
        }
      } else {
        CollapseSingleSpaced(s[1..]);
        var r := Collapse(s);
        assert r[1..] == Collapse(s[1..]);
        forall i | 0 <= i < |r| && IsSpace(r[i]) ensures r[i] == ' ' && (i + 1 < |r| ==> !IsSpace(r[i + 1])) {
          assert r[i] == Collapse(s[1..])[i - 1];
        }
      }
    }
  }

  /** Single-spaced text is left alone. */
  lemma {:induction false} CollapseOfSingleSpaced(s: string)
    requires SingleSpaced(s)
    ensures Collapse(s) == s
    decreases |s|
  {
    if s != "" {
      assert forall i :: 0 <= i < |s| - 1 ==> s[1..][i] == s[i + 1];
      CollapseOfSingleSpaced(s[1..]);
      if IsSpace(s[0]) {
        assert |s| > 1 ==> !IsSpace(s[1..][0]);
      }
    }
  }

  lemma CollapseIdempotent(s: string)
    ensures Collapse(Collapse(s)) == Collapse(s)
  {
    CollapseSingleSpaced(s);
    CollapseOfSingleSpaced(Collapse(s));
  }

  lemma TrimStartFree(s: string, x: char)
    requires x !in s
    ensures x !in TrimStart(s, IsSpace)
  {
    var t := TrimStart(s, IsSpace);
    assert forall i :: 0 <= i < |t| ==> t[i] == s[|s| - |t| + i];
  }

  /** Collapsing introduces no character but the plain space. */
  lemma {:induction false} CollapseFree(s: string, x: char)
    requires x !in s && x != ' '
    ensures x !in Collapse(s)
    decreases |s|
  {
    if s != "" {
      if IsSpace(s[0]) {
        TrimStartFree(s[1..], x);
        CollapseFree(TrimStart(s[1..], IsSpace), x);
      } else {
        CollapseFree(s[1..], x);
      }
    }
  }

  // --------------------------------------------- space before punctuation

  predicate Punct(c: char) {
    c == ',' || c == '.' || c == '!' || c == '?' || c == ';' || c == ':'
  }

  /** The first character after the leading whitespace is punctuation. */
  predicate PunctFollows(s: string) {
    var t := TrimStart(s, IsSpace);
    t != "" && Punct(t[0])
  }

  /** `re.sub(r"\s+([,\.!?;:])", r"\1", s)`: a whitespace run followed by
      punctuation disappears. */
  function Unspace(s: string): (r: string)
    ensures |r| <= |s|
    ensures s != "" && !(IsSpace(s[0]) && PunctFollows(s[1..])) ==> r != "" && r[0] == s[0]
    decreases |s|
  {
    if s == "" then ""
    else if IsSpace(s[0]) && PunctFollows(s[1..]) then Unspace(TrimStart(s[1..], IsSpace))
    else [s[0]] + Unspace(s[1..])
  }

  /** No whitespace character stands right before punctuation. */
  predicate TightPunct(s: string) {
    forall i :: 0 <= i < |s| - 1 && IsSpace(s[i]) ==> !Punct(s[i + 1])
  }

  lemma {:induction false} UnspaceTight(s: string)
    ensures TightPunct(Unspace(s))
    decreases |s|
  {
    if s != "" {
      if IsSpace(s[0]) && PunctFollows(s[1..]) {
        UnspaceTight(TrimStart(s[1..], IsSpace));
      } else {
        var tail := Unspace(s[1..]);
        UnspaceTight(s[1..]);
        assert Unspace(s) == [s[0]] + tail;
        if IsSpace(s[0]) && |s| > 1 {
          KeptSpaceThenNoPunct(s);
        }
        ConsTight(s[0], tail);
      }
    }
  }

  /** A kept whitespace character is followed, after unspacing the rest,
      by something other than punctuation. */
  lemma KeptSpaceThenNoPunct(s: string)
    requires |s| > 1 && IsSpace(s[0]) && !PunctFollows(s[1..])
    ensures Unspace(s[1..]) != "" && !Punct(Unspace(s[1..])[0])
  {
    if IsSpace(s[1]) {
      TrimStartShorter(s[1..]);
      assert !PunctFollows(s[2..]);
    } else {
      assert TrimStart(s[1..], IsSpace) == s[1..];
    }
  }

  lemma ConsTight(c: char, tail: string)
    requires TightPunct(tail)
    requires IsSpace(c) && tail != "" ==> !Punct(tail[0])
    ensures TightPunct([c] + tail)
  {
    var r := [c] + tail;
    forall i | 0 <= i < |r| - 1 && IsSpace(r[i]) ensures !Punct(r[i + 1]) {
      if i > 0 {
        assert r[i] == tail[i - 1] && r[i + 1] == tail[i];
      }
    }
  }

  /** In tight text a whitespace run is never followed by punctuation. */
  lemma TightRun(s: string)
    requires TightPunct(s) && s != "" && IsSpace(s[0])
    ensures !PunctFollows(s[1..])
  {
    var t := TrimStart(s[1..], IsSpace);
    if t != "" {
      var j := |s| - |t|;
      assert s[j] == t[0];
      if j > 1 {
        TrimStartDropsOnly(s[1..], IsSpace, j - 2);
      }
      assert IsSpace(s[j - 1]);
    }
  }

  lemma TightTail(s: string)
    requires TightPunct(s) && s != ""
    ensures TightPunct(s[1..])
  {
    var t := s[1..];
    forall i | 0 <= i < |t| - 1 && IsSpace(t[i]) ensures !Punct(t[i + 1]) {
      assert t[i] == s[i + 1] && t[i + 1] == s[i + 2];
    }
  }

  /** Text already tight around punctuation is left alone. */
  lemma {:induction false} UnspaceOfTight(s: string)
    requires TightPunct(s)
    ensures Unspace(s) == s
    decreases |s|
  {
    if s != "" {
      if IsSpace(s[0]) {
        TightRun(s);
      }
      TightTail(s);
      UnspaceOfTight(s[1..]);
    }
  }

  lemma UnspaceIdempotent(s: string)
    ensures Unspace(Unspace(s)) == Unspace(s)
  {
    UnspaceTight(s);
    UnspaceOfTight(Unspace(s));
  }

  /** Dropping whitespace introduces no character. */
  lemma {:induction false} UnspaceFree(s: string, x: char)
    requires x !in s
    ensures x !in Unspace(s)
    decreases |s|
  {
    if s != "" {
      if IsSpace(s[0]) && PunctFollows(s[1..]) {
        TrimStartFree(s[1..], x);
        UnspaceFree(TrimStart(s[1..], IsSpace), x);
      } else {
        UnspaceFree(s[1..], x);
      }
    }
  }
}
