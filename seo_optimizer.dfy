/** The business-name template optimiser (src/utils/seoOptimizer.ts). */
module SeoOptimizer {
  import opened JsValues
  import GmbConverter

  // ---------------------------------------------------------------------
  // `includes`, `split` and `join` on a non-empty separator
  // ---------------------------------------------------------------------

  predicate StartsWith(s: string, t: string) {
    |t| <= |s| && s[..|t|] == t
  }

  /** `s.includes(t)` */
  predicate Contains(s: string, t: string) {
    StartsWith(s, t) || (s != [] && Contains(s[1..], t))
  }

  lemma {:induction false} ContainsIsLonger(s: string, t: string)
    requires Contains(s, t)
    ensures |t| <= |s|
  {
    if !StartsWith(s, t) {
      ContainsIsLonger(s[1..], t);
    }
  }

  /** `s.split(t)` for a non-empty `t`: the pieces between the occurrences of
      `t` found left to right without overlap. The first piece is a prefix of
      `s`. */
  function Split(s: string, t: string): (parts: seq<string>)
    requires |t| > 0
    ensures |parts| >= 1
    ensures |parts[0]| <= |s| && parts[0] == s[..|parts[0]|]
    decreases |s|
  {
    if |s| < |t| then [s]
    else if s[..|t|] == t then [""] + Split(s[|t|..], t)
    else
      var rest := Split(s[1..], t);
      [[s[0]] + rest[0]] + rest[1..]
  }

  lemma JoinPrepend(c: char, parts: seq<string>, sep: string)
    requires |parts| >= 1
    ensures Join([[c] + parts[0]] + parts[1..], sep) == [c] + Join(parts, sep)
  {
    var q := [[c] + parts[0]] + parts[1..];
    if |parts| > 1 {
      assert q[1..] == parts[1..];
    }
  }

  lemma JoinAfterCut(parts: seq<string>, sep: string)
    requires |parts| >= 1
    ensures Join([""] + parts, sep) == sep + Join(parts, sep)
  {
    assert ([""] + parts)[1..] == parts;
  }

  /** Joining the pieces with the separator gives back the string. */
  lemma {:induction false} SplitJoinRoundTrip(s: string, t: string)
    requires |t| > 0
    ensures Join(Split(s, t), t) == s
    decreases |s|
  {
    if |s| < |t| {
    } else if s[..|t|] == t {
      var rest := Split(s[|t|..], t);
      SplitJoinRoundTrip(s[|t|..], t);
      JoinAfterCut(rest, t);
      assert s == t + s[|t|..];
    } else {
      var rest := Split(s[1..], t);
      SplitJoinRoundTrip(s[1..], t);
      JoinPrepend(s[0], rest, t);
      assert s == [s[0]] + s[1..];
    }
  }

  /** No piece contains the separator: every occurrence has been cut out. */
  lemma {:induction false} SplitPiecesTokenFree(s: string, t: string)
    requires |t| > 0
    ensures forall i :: 0 <= i < |Split(s, t)| ==> !Contains(Split(s, t)[i], t)
    decreases |s|
  {
    var parts := Split(s, t);
    if |s| < |t| {
      if Contains(s, t) {
        ContainsIsLonger(s, t);
      }
    } else if s[..|t|] == t {
      SplitPiecesTokenFree(s[|t|..], t);
      assert !Contains("", t) by {
        if Contains("", t) { ContainsIsLonger("", t); }
      }
      forall i | 0 <= i < |parts| ensures !Contains(parts[i], t) {
        if i > 0 {
          assert parts[i] == Split(s[|t|..], t)[i - 1];
        }
      }
    } else {
      var rest := Split(s[1..], t);
      SplitPiecesTokenFree(s[1..], t);
      forall i | 0 <= i < |parts| ensures !Contains(parts[i], t) {
        if i == 0 {
          var p := [s[0]] + rest[0];
          assert p == s[..|p|];
          assert p[1..] == rest[0];
        } else {
          assert parts[i] == rest[i];
        }
      }
    }
  }

  /** `includes` holds exactly when `split` cuts the string. */
  lemma {:induction false} SplitCutsIffContains(s: string, t: string)
    requires |t| > 0
    ensures |Split(s, t)| > 1 <==> Contains(s, t)
    decreases |s|
  {
    if |s| < |t| {
      if Contains(s, t) {
        ContainsIsLonger(s, t);
      }
    } else if s[..|t|] == t {
    } else {
      SplitCutsIffContains(s[1..], t);
    }
  }

  /** `split` cuts at the leftmost occurrence: no occurrence starts inside
      the first piece, one starts right after it when there is a cut, and
      the other pieces are the split of what follows that occurrence. */
  lemma SplitFirstCut(s: string, t: string)
    requires |t| > 0
    ensures var parts := Split(s, t);
      && (forall j :: 0 <= j < |parts[0]| ==> !StartsWith(s[j..], t))
      && (|parts| == 1 ==> parts[0] == s)
      && (|parts| > 1 ==>
            && StartsWith(s[|parts[0]|..], t)
            && parts[1..] == Split(s[|parts[0]| + |t|..], t))
  {
    SplitFirstPieceClear(s, t);
    SplitNextCut(s, t);
    SplitJoinRoundTrip(s, t);
  }

  lemma {:induction false} SplitFirstPieceClear(s: string, t: string)
    requires |t| > 0
    ensures forall j :: 0 <= j < |Split(s, t)[0]| ==> !StartsWith(s[j..], t)
    decreases |s|
  {
    if |s| >= |t| && !StartsWith(s, t) {
      var rest := Split(s[1..], t);
      SplitPastMismatch(s, t);
      SplitFirstPieceClear(s[1..], t);
      forall j | 0 <= j < |Split(s, t)[0]| ensures !StartsWith(s[j..], t) {
        if j > 0 {
          assert s[j..] == s[1..][j - 1..];
        }
      }
    }
  }

  /** When `split` cuts `s`, the token starts right after the first piece
      and the other pieces are the split of what follows it. */
  predicate CutsAfterFirst(s: string, t: string)
    requires |t| > 0
  {
    var parts := Split(s, t);
    |parts| > 1 ==>
      && StartsWith(s[|parts[0]|..], t)
      && parts[1..] == Split(s[|parts[0]| + |t|..], t)
  }

  lemma {:induction false} SplitNextCut(s: string, t: string)
    requires |t| > 0
    ensures CutsAfterFirst(s, t)
    decreases |s|
  {
    if |s| < |t| {
      SplitShort(s, t);
    } else if StartsWith(s, t) {
      SplitNextCutAtMatch(s, t);
    } else {
      SplitNextCut(s[1..], t);
      SplitNextCutPast(s, t);
    }
  }

  lemma SplitShort(s: string, t: string)
    requires 0 < |t| && |s| < |t|
    ensures Split(s, t) == [s] && CutsAfterFirst(s, t)
  {
  }

  /** The match step of `SplitNextCut`: the first piece is empty. */
  lemma SplitNextCutAtMatch(s: string, t: string)
    requires |t| > 0 && StartsWith(s, t)
    ensures CutsAfterFirst(s, t)
  {
    var parts := Split(s, t);
    SplitAtMatch(s, t);
    assert parts[0] == "" && parts[1..] == Split(s[|t|..], t);
    assert s[0..] == s;
  }

  /** The mismatch step of `SplitNextCut`: the cut found in `s[1..]` is
      the cut of `s`, one character further on. */
  lemma SplitNextCutPast(s: string, t: string)
    requires |t| > 0 && |s| >= |t| && !StartsWith(s, t)
    requires CutsAfterFirst(s[1..], t)
    ensures CutsAfterFirst(s, t)
  {
    var rest := Split(s[1..], t);
    var parts := Split(s, t);
    SplitPastMismatch(s, t);
    assert |parts| == |rest| && parts[0] == [s[0]] + rest[0] && parts[1..] == rest[1..];
    if |rest| > 1 {
      var k := |rest[0]|;
      var tail := s[1..][k..];
      assert StartsWith(tail, t);
      assert s[k + 1..] == tail;
      assert s[k + 1 + |t|..] == tail[|t|..];
      assert s[1..][k + |t|..] == tail[|t|..];
    }
  }

  /** Joining with a separator adds its length once per gap between pieces. */
  lemma {:induction false} JoinLength(parts: seq<string>, sep: string)
    requires |parts| >= 1
    ensures |Join(parts, sep)| == |Join(parts, "")| + (|parts| - 1) * |sep|
  {
    if |parts| > 1 {
      JoinLength(parts[1..], sep);
      assert (|parts| - 1) * |sep| == (|parts| - 2) * |sep| + |sep|;
    }
  }

  /** Joining the pieces with `sep` instead of the token changes the length
      by the difference once per cut. */
  lemma ReplacedLength(s: string, t: string, sep: string)
    requires |t| > 0
    ensures var cuts := |Split(s, t)| - 1;
      |Join(Split(s, t), sep)| + cuts * |t| == |s| + cuts * |sep|
  {
    SplitJoinRoundTrip(s, t);
    JoinLength(Split(s, t), t);
    JoinLength(Split(s, t), sep);
  }

  // ---------------------------------------------------------------------
  // The three string helpers
  // ---------------------------------------------------------------------

  /** `replaceToken`: with `enabled`, every occurrence of the token becomes
      the value, or the value is appended when the token is absent; without
      it, every occurrence is deleted. */
  function ReplaceToken(base: string, token: string, value: string, enabled: bool): (r: string)
    requires |token| > 0
    ensures var cuts := |Split(base, token)| - 1;
      (Contains(base, token) || !enabled) ==>
        |r| + cuts * |token| == |base| + cuts * (if enabled then |value| else 0)
  {
    if enabled then
      if Contains(base, token) then
        ReplacedLength(base, token, value);
        Join(Split(base, token), value)
      else Trim(base + " " + value)
    else
      ReplacedLength(base, token, "");
      Join(Split(base, token), "")
  }

  /** A present token is cut out at every occurrence and the pieces are
      joined with the value (the empty string when not included); an absent
      token with `enabled` set makes the value be appended. */
  lemma ReplaceTokenMeaning(base: string, token: string, value: string, enabled: bool)
    requires |token| > 0
    ensures Join(Split(base, token), token) == base
    ensures forall i :: 0 <= i < |Split(base, token)| ==> !Contains(Split(base, token)[i], token)
    ensures Contains(base, token) || !enabled ==>
      ReplaceToken(base, token, value, enabled) == Join(Split(base, token), if enabled then value else "")
    ensures !Contains(base, token) && enabled ==>
      ReplaceToken(base, token, value, enabled) == Trim(base + " " + value)
  {
    SplitJoinRoundTrip(base, token);
    SplitPiecesTokenFree(base, token);
  }

  lemma SplitAtMatch(s: string, t: string)
    requires |t| > 0 && StartsWith(s, t)
    ensures Split(s, t) == [""] + Split(s[|t|..], t)
  {
  }

  lemma SplitPastMismatch(s: string, t: string)
    requires |t| > 0 && |s| >= |t| && !StartsWith(s, t)
    ensures Split(s, t) == [[s[0]] + Split(s[1..], t)[0]] + Split(s[1..], t)[1..]
  {
  }

  /** Deleting the token can splice a new occurrence together. */
  lemma DeletionCanLeaveToken()
    ensures ReplaceToken("{C{CP}P}", "{CP}", "", false) == "{CP}"
  {
    var t := "{CP}";
    assert Split("P}", t) == ["P}"];
    assert "{CP}P}"[4..] == "P}";
    SplitAtMatch("{CP}P}", t);
    var r1 := Split("{CP}P}", t);
    assert r1 == ["", "P}"];
    assert "C{CP}P}"[..4][1] != t[1] && "C{CP}P}"[1..] == "{CP}P}";
    SplitPastMismatch("C{CP}P}", t);
    var r2 := Split("C{CP}P}", t);
    assert r2 == [['C'] + r1[0]] + r1[1..];
    assert ['C'] + r1[0] == "C" && r1[1..] == ["P}"];
    assert r2 == ["C", "P}"];
    assert "{C{CP}P}"[..4][2] != t[2] && "{C{CP}P}"[1..] == "C{CP}P}";
    SplitPastMismatch("{C{CP}P}", t);
    assert Split("{C{CP}P}", t) == [['{'] + r2[0]] + r2[1..];
    assert ['{'] + r2[0] == "{C" && r2[1..] == ["P}"];
    assert Split("{C{CP}P}", t) == ["{C", "P}"];
  }

  /** A character `[^\w\sÀ-ÿ-]` does not remove. */
  predicate IsKeptChar(c: char) {
    IsWordChar(c) || IsSpace(c) || ('\U{00C0}' <= c <= '\U{00FF}') || c == '-'
  }

  /** `removeSpecialChars`: keeps the word characters, whitespace, U+00C0 to
      U+00FF and hyphens, in their order. */
  function RemoveSpecialChars(s: string): (r: string)
    ensures |r| <= |s|
    ensures forall i :: 0 <= i < |r| ==> IsKeptChar(r[i])
  {
    if s == [] then []
    else (if IsKeptChar(s[0]) then [s[0]] else []) + RemoveSpecialChars(s[1..])
  }

  /** Filtering works piece by piece, so kept characters keep their order. */
  lemma {:induction false} RemoveSpecialCharsConcat(a: string, b: string)
    ensures RemoveSpecialChars(a + b) == RemoveSpecialChars(a) + RemoveSpecialChars(b)
  {
    if a == [] {
      assert a + b == b;
    } else {
      assert (a + b)[0] == a[0];
      assert (a + b)[1..] == a[1..] + b;
      RemoveSpecialCharsConcat(a[1..], b);
    }
  }

  /** On one character: a kept character stays, any other is deleted. With
      `RemoveSpecialCharsConcat` this fixes the result of every string. */
  lemma RemoveSpecialCharsOne(c: char)
    ensures RemoveSpecialChars([c]) == if IsKeptChar(c) then [c] else []
  {
    assert [c][1..] == [];
  }

  /** A string is left unchanged exactly when every character is kept. */
  lemma {:induction false} RemoveSpecialCharsFixedIff(s: string)
    ensures RemoveSpecialChars(s) == s <==> forall i :: 0 <= i < |s| ==> IsKeptChar(s[i])
  {
    if s != [] {
      RemoveSpecialCharsFixedIff(s[1..]);
      if !IsKeptChar(s[0]) {
        assert |RemoveSpecialChars(s)| < |s| by {
          assert RemoveSpecialChars(s) == RemoveSpecialChars(s[1..]);
        }
      }
    }
  }

  /** Removing special characters twice is the same as once. */
  lemma RemoveSpecialCharsIdempotent(s: string)
    ensures RemoveSpecialChars(RemoveSpecialChars(s)) == RemoveSpecialChars(s)
  {
    RemoveSpecialCharsFixedIff(RemoveSpecialChars(s));
  }

  /** `.replace(/\b\w/g, toUpperCase)` on an already lower-cased string;
      `afterWord` says whether the preceding character is a `\w`. */
  function CapitalizeFrom(s: string, afterWord: bool): (r: string)
    ensures |r| == |s|
  {
    if s == [] then []
    else
      [if IsWordChar(s[0]) && !afterWord then Upper(s[0]) else s[0]]
      + CapitalizeFrom(s[1..], IsWordChar(s[0]))
  }

  /** `capitalizeWords` */
  function CapitalizeWords(s: string): (r: string)
    ensures |r| == |s|
  {
    CapitalizeFrom(LowerStr(s), false)
  }

  /** A `\w` character starts a word when it is first or follows a non-`\w`. */
  predicate StartsWord(l: string, i: int)
    requires 0 <= i < |l|
  {
    IsWordChar(l[i]) && (i == 0 || !IsWordChar(l[i - 1]))
  }

  lemma {:induction false} CapitalizeFromAt(s: string, afterWord: bool, i: int)
    requires 0 <= i < |s|
    ensures CapitalizeFrom(s, afterWord)[i] ==
      if IsWordChar(s[i]) && (if i == 0 then !afterWord else !IsWordChar(s[i - 1])) then Upper(s[i]) else s[i]
  {
    if i > 0 {
      CapitalizeFromAt(s[1..], IsWordChar(s[0]), i - 1);
    }
  }

  /** Character by character: the lower-cased input, with each `\w`
      character that starts a word upper-cased. */
  lemma CapitalizeWordsAt(s: string)
    ensures |CapitalizeWords(s)| == |s|
    ensures forall i :: 0 <= i < |s| ==>
      CapitalizeWords(s)[i] == if StartsWord(LowerStr(s), i) then Upper(Lower(s[i])) else Lower(s[i])
  {
    forall i | 0 <= i < |s|
      ensures CapitalizeWords(s)[i] == if StartsWord(LowerStr(s), i) then Upper(Lower(s[i])) else Lower(s[i])
    {
      CapitalizeFromAt(LowerStr(s), false, i);
    }
  }

  /** Capitalising twice is the same as once. */
  lemma CapitalizeWordsIdempotent(s: string)
    ensures CapitalizeWords(CapitalizeWords(s)) == CapitalizeWords(s)
  {
    var r := CapitalizeWords(s);
    CapitalizeWordsAt(s);
    forall i | 0 <= i < |s| ensures LowerStr(r)[i] == LowerStr(s)[i] {
      LowerFacts(s[i]);
    }
    assert LowerStr(r) == LowerStr(s);
  }

  /** `\w` is ASCII only, so a letter after an accented letter starts a new word. */
  lemma CapitalizeWordsSplitsAtAccents()
    ensures CapitalizeWords("\U{00E9}vry") == "\U{00E9}Vry"
  {
    assert LowerStr("\U{00E9}vry") == "\U{00E9}vry";
    assert CapitalizeFrom("y", true) == "y";
    assert CapitalizeFrom("ry", true) == "ry";
    assert CapitalizeFrom("vry", false) == "Vry";
  }

  lemma LowerExample()
    ensures LowerStr("le MANS") == "le mans"
  {
  }

  lemma CapitalizeSecondWord()
    ensures CapitalizeFrom(" mans", true) == " Mans"
  {
    assert CapitalizeFrom("ns", true) == "ns";
    assert CapitalizeFrom("ans", true) == "ans";
    assert CapitalizeFrom("mans", false) == "Mans";
  }

  lemma CapitalizeRestOfFirstWord()
    ensures CapitalizeFrom("e mans", true) == "e Mans"
  {
    CapitalizeSecondWord();
    assert "e mans"[1..] == " mans";
  }

  lemma CapitalizeWordsExample()
    ensures CapitalizeWords("le MANS") == "Le Mans"
  {
    LowerExample();
    CapitalizeRestOfFirstWord();
    assert "le mans"[1..] == "e mans";
  }

  // ---------------------------------------------------------------------
  // Whitespace collapse
  // ---------------------------------------------------------------------

  /** `.replace(/\s+/g, ' ')`: every maximal run of whitespace becomes one space. */
  function CollapseSpaces(s: string): (r: string)
    ensures s == [] <==> r == []
    ensures s != [] && !IsSpace(s[0]) ==> r[0] == s[0]
    ensures s != [] && IsSpace(s[0]) ==> r[0] == ' '
    decreases |s|
  {
    if s == [] then []
    else if IsSpace(s[0]) then [' '] + CollapseSpaces(TrimStart(s))
    else [s[0]] + CollapseSpaces(s[1..])
  }

  /** Every whitespace character is a plain space and no two are adjacent. */
  predicate IsTidy(s: string) {
    && (forall i :: 0 <= i < |s| && IsSpace(s[i]) ==> s[i] == ' ')
    && (forall i :: 0 <= i < |s| - 1 ==> !(IsSpace(s[i]) && IsSpace(s[i + 1])))
  }

  lemma {:induction false} CollapseSpacesTidy(s: string)
    ensures IsTidy(CollapseSpaces(s))
    decreases |s|
  {
    if s != [] {
      var r := CollapseSpaces(s);
      if IsSpace(s[0]) {
        var rest := TrimStart(s);
        CollapseSpacesTidy(rest);
        assert r[1..] == CollapseSpaces(rest);
      } else {
        CollapseSpacesTidy(s[1..]);
        assert r[1..] == CollapseSpaces(s[1..]);
      }
    }
  }

  lemma {:induction false} DropSpacesOfTrimStart(s: string)
    ensures DropSpaces(TrimStart(s)) == DropSpaces(s)
  {
    if s != [] && IsSpace(s[0]) {
      DropSpacesOfTrimStart(s[1..]);
    }
  }

  /** Collapsing whitespace keeps every other character, in order. */
  lemma {:induction false} CollapseSpacesKeepsText(s: string)
    ensures DropSpaces(CollapseSpaces(s)) == DropSpaces(s)
    decreases |s|
  {
    if s != [] {
      var r := CollapseSpaces(s);
      if IsSpace(s[0]) {
        CollapseSpacesKeepsText(TrimStart(s));
        DropSpacesOfTrimStart(s);
        assert r[1..] == CollapseSpaces(TrimStart(s));
      } else {
        CollapseSpacesKeepsText(s[1..]);
        assert r[1..] == CollapseSpaces(s[1..]);
      }
    }
  }

  lemma {:induction false} TrimStartOfRun(w: string)
    requires forall i :: 0 <= i < |w| ==> IsSpace(w[i])
    ensures TrimStart(w) == []
  {
    if w != [] {
      TrimStartOfRun(w[1..]);
    }
  }

  /** A whitespace run, however long, becomes one plain space. */
  lemma CollapseSpacesOfRun(w: string)
    requires w != [] && forall i :: 0 <= i < |w| ==> IsSpace(w[i])
    ensures CollapseSpaces(w) == " "
  {
    TrimStartOfRun(w);
  }

  /** A non-whitespace character is kept as it is. */
  lemma CollapseSpacesOfChar(c: char)
    requires !IsSpace(c)
    ensures CollapseSpaces([c]) == [c]
  {
    assert [c][1..] == [];
  }

  /** Trimming the front of a string that has a non-whitespace character
      does not reach past it. */
  lemma {:induction false} TrimStartConcat(a: string, b: string)
    requires TrimStart(a) != []
    ensures TrimStart(a + b) == TrimStart(a) + b
  {
    assert (a + b)[0] == a[0];
    if IsSpace(a[0]) {
      assert (a + b)[1..] == a[1..] + b;
      TrimStartConcat(a[1..], b);
    }
  }

  /** Trimming the front of an all-whitespace string followed by a string
      that does not start with whitespace leaves the latter. */
  lemma {:induction false} TrimStartPastRun(a: string, b: string)
    requires TrimStart(a) == [] && (b == [] || !IsSpace(b[0]))
    ensures TrimStart(a + b) == b
  {
    if a == [] {
      assert a + b == b;
    } else {
      assert (a + b)[0] == a[0];
      assert (a + b)[1..] == a[1..] + b;
      TrimStartPastRun(a[1..], b);
    }
  }

  /** Cutting `a + b` between `a` and `b` does not split a whitespace run. */
  predicate OutsideRun(a: string, b: string) {
    a == [] || b == [] || !IsSpace(a[|a| - 1]) || !IsSpace(b[0])
  }

  /** Collapsing works run by run: a string cut anywhere but inside a
      whitespace run collapses as its two halves do. With
      `CollapseSpacesOfRun` and `CollapseSpacesOfChar` this fixes the result
      of every string, cut into its maximal runs and its other characters. */
  lemma {:induction false} CollapseSpacesConcat(a: string, b: string)
    requires OutsideRun(a, b)
    ensures CollapseSpaces(a + b) == CollapseSpaces(a) + CollapseSpaces(b)
    decreases |a|
  {
    if a == [] {
      assert a + b == b;
    } else {
      var rest, lead := CollapseStep(a, b);
      CollapseSpacesConcat(rest, b);
      assert lead + CollapseSpaces(rest + b) == (lead + CollapseSpaces(rest)) + CollapseSpaces(b);
    }
  }

  /** One step of `CollapseSpacesConcat`: both sides start with the same
      character followed by the collapse of a shorter rest of `a`, still
      cut outside a run. */
  lemma CollapseStep(a: string, b: string) returns (rest: string, lead: string)
    requires a != [] && OutsideRun(a, b)
    ensures |rest| < |a| && OutsideRun(rest, b)
    ensures CollapseSpaces(a) == lead + CollapseSpaces(rest)
    ensures CollapseSpaces(a + b) == lead + CollapseSpaces(rest + b)
  {
    if IsSpace(a[0]) {
      rest := CollapseAfterRun(a, b);
      lead := [' '];
    } else {
      assert (a + b)[0] == a[0];
      assert (a + b)[1..] == a[1..] + b;
      rest, lead := a[1..], [a[0]];
    }
  }

  /** The step of `CollapseSpacesConcat` for a leading whitespace run: both
      sides start with one space followed by the collapse of what is left
      once the run is trimmed. */
  lemma CollapseAfterRun(a: string, b: string) returns (rest: string)
    requires a != [] && IsSpace(a[0]) && OutsideRun(a, b)
    ensures rest == TrimStart(a) && |rest| < |a| && OutsideRun(rest, b)
    ensures CollapseSpaces(a) == [' '] + CollapseSpaces(rest)
    ensures CollapseSpaces(a + b) == [' '] + CollapseSpaces(rest + b)
  {
    rest := TrimStart(a);
    TrimStartDrops(a);
    assert (a + b)[0] == a[0];
    assert |TrimStart(a[1..])| <= |a| - 1;
    if rest == [] {
      assert IsSpace(a[|a| - 1]);
      TrimStartPastRun(a, b);
      assert rest + b == b;
    } else {
      TrimStartConcat(a, b);
      assert rest[|rest| - 1] == a[|a| - 1];
    }
  }

  /** An interior space is kept: `'a b'` is unchanged. */
  lemma CollapseSpacesExample()
    ensures CollapseSpaces("a b") == "a b"
  {
    assert TrimStart(" b") == "b";
    assert CollapseSpaces("b") == "b";
  }

  /** `.replace(/\s+/g, ' ').trim()` */
  function Tidy(s: string): (r: string)
    ensures r == [] || (!IsSpace(r[0]) && !IsSpace(r[|r| - 1]))
  {
    Trim(CollapseSpaces(s))
  }

  lemma TidySlice(c: string, lo: int, hi: int)
    requires 0 <= lo <= hi <= |c| && IsTidy(c)
    ensures IsTidy(c[lo..hi])
  {
    var r := c[lo..hi];
    forall i | 0 <= i < |r| - 1 ensures !(IsSpace(r[i]) && IsSpace(r[i + 1])) {
      assert r[i] == c[lo + i] && r[i + 1] == c[lo + i + 1];
    }
  }

  /** After substitution the name has no whitespace at either end, no
      whitespace but plain spaces, and no two spaces in a row. */
  lemma TidyMeaning(s: string)
    ensures var r := Tidy(s);
      && (r == [] || (!IsSpace(r[0]) && !IsSpace(r[|r| - 1])))
      && IsTidy(r)
  {
    var c := CollapseSpaces(s);
    CollapseSpacesTidy(s);
    var lo := TrimSlice(c);
    TidySlice(c, lo, lo + |Tidy(s)|);
  }

  // ---------------------------------------------------------------------
  // optimizeSeo
  // ---------------------------------------------------------------------

  datatype SeoOptions = SeoOptions(
    template: string,
    includeCity: bool,
    includePostalCode: bool,
    includeStreet: bool,
    removeSpecial: bool,
    capitalize: bool)

  const CityToken := "{Ville}"
  const PostalCodeToken := "{CP}"
  const StreetToken := "{Adresse}"

  /** `String(item[key] || '')`, as `join` and the template literal use it. */
  function FieldText(item: Record, key: string): string {
    ToStr(OrBlank(Get(item, key)))
  }

  /** The three substitutions, in order, followed by the whitespace tidy-up. */
  function SubstitutedName(item: Record, o: SeoOptions): string {
    var n1 := ReplaceToken(o.template, CityToken, FieldText(item, GmbConverter.LocalityKey), o.includeCity);
    var n2 := ReplaceToken(n1, PostalCodeToken, FieldText(item, GmbConverter.PostalCodeKey), o.includePostalCode);
    var n3 := ReplaceToken(n2, StreetToken, FieldText(item, GmbConverter.Address1Key), o.includeStreet);
    Tidy(n3)
  }

  /** The new business name of one item: the substituted name, then the
      optional filtering and capitalisation. */
  function OptimizedName(item: Record, o: SeoOptions): string {
    var n := SubstitutedName(item, o);
    var n' := if o.removeSpecial then RemoveSpecialChars(n) else n;
    if o.capitalize then CapitalizeWords(n') else n'
  }

  /** The callback of `optimizeSeo` for one item. */
  function OptimizeItem(item: Record, o: SeoOptions): (r: Record)
    ensures forall k :: k != GmbConverter.NameKey ==> Get(r, k) == Get(item, k)
    ensures Trim(o.template) == "" ==> r == item
    ensures Trim(o.template) != "" ==> Get(r, GmbConverter.NameKey) == Str(OptimizedName(item, o))
  {
    if Trim(o.template) == "" then item
    else item[GmbConverter.NameKey := Str(OptimizedName(item, o))]
  }

  /** `optimizeSeo` */
  function OptimizeSeo(data: seq<Record>, o: SeoOptions): (r: seq<Record>)
    ensures |r| == |data|
    ensures forall i :: 0 <= i < |data| ==> r[i] == OptimizeItem(data[i], o)
  {
    seq(|data|, i requires 0 <= i < |data| => OptimizeItem(data[i], o))
  }

  /** A blank template leaves every item as it was. */
  lemma BlankTemplateChangesNothing(data: seq<Record>, o: SeoOptions)
    requires Trim(o.template) == ""
    ensures OptimizeSeo(data, o) == data
  {
  }

  /** Only the business name is touched: every other key keeps its value,
      and with a non-blank template the name is the optimised name. */
  lemma OptimizeSeoOnlyRenames(data: seq<Record>, o: SeoOptions, i: int)
    requires 0 <= i < |data|
    ensures var item, out := data[i], OptimizeSeo(data, o)[i];
      && out.Keys == (if Trim(o.template) == "" then item.Keys else item.Keys + {GmbConverter.NameKey})
      && (forall k :: k != GmbConverter.NameKey ==> Get(out, k) == Get(item, k))
      && (Trim(o.template) != "" ==> out[GmbConverter.NameKey] == Str(OptimizedName(item, o)))
  {
  }

  lemma FieldTextAfterRename(item: Record, key: string, name: Cell)
    requires key != GmbConverter.NameKey
    ensures FieldText(item[GmbConverter.NameKey := name], key) == FieldText(item, key)
  {
  }

  /** The name is rebuilt only from the template and the city, postal code
      and street, which the callback leaves alone. */
  lemma OptimizeItemIdempotent(item: Record, o: SeoOptions)
    ensures OptimizeItem(OptimizeItem(item, o), o) == OptimizeItem(item, o)
  {
    if Trim(o.template) != "" {
      var name := Str(OptimizedName(item, o));
      FieldTextAfterRename(item, GmbConverter.LocalityKey, name);
      FieldTextAfterRename(item, GmbConverter.PostalCodeKey, name);
      FieldTextAfterRename(item, GmbConverter.Address1Key, name);
      assert OptimizedName(item[GmbConverter.NameKey := name], o) == OptimizedName(item, o);
    }
  }

  /** Optimising an already optimised list with the same options changes nothing. */
  lemma OptimizeSeoIdempotent(data: seq<Record>, o: SeoOptions)
    ensures OptimizeSeo(OptimizeSeo(data, o), o) == OptimizeSeo(data, o)
  {
    forall i | 0 <= i < |data|
      ensures OptimizeItem(OptimizeItem(data[i], o), o) == OptimizeItem(data[i], o)
    {
      OptimizeItemIdempotent(data[i], o);
    }
  }
}
