/** The quality gate: `looksLikeInstruction` and `isBadLocalResponse`, the
    heuristics that reject a local-model reply which is empty, too short,
    punctuation only, a leaked instruction template, a repetition loop or a
    bare list of numbers. */
module QualityGate {
  import opened Text
  import opened Sequences
  import Sanitizer

  /** Phrases that mark instruction-template or system text. */
  const InstructionIndicators: seq<string> := [
    "use the following skills",
    "follow the on-screen instructions",
    "write down one goal",
    "write down three tasks",
    "create a short list of tasks",
    "create a task list",
    "you are helping someone",
    "you are a",
    "system:",
    "assistant:",
    "as an ai assistant",
    "follow these rules",
    "gate rules"
  ]

  /** `phrases.some((p) => t.includes(p))`. */
  function AnyContained(t: string, phrases: seq<string>): (r: bool)
    ensures r <==> exists k :: 0 <= k < |phrases| && Contains(t, phrases[k])
  {
    if phrases == [] then false
    else Contains(t, phrases[0]) || AnyContained(t, phrases[1..])
  }

  /** `looksLikeInstruction(text)`: some indicator occurs in the lower-cased
      text. The early exit for an empty text changes nothing, since no
      indicator is empty. */
  function LooksLikeInstruction(text: string): (r: bool)
    ensures r <==> exists k :: 0 <= k < |InstructionIndicators| && Contains(Lower(text), InstructionIndicators[k])
  {
    if text == "" then
      assert forall k :: 0 <= k < |InstructionIndicators| ==> !StartsWith("", InstructionIndicators[k]);
      false
    else AnyContained(Lower(text), InstructionIndicators)
  }

  /** `/^[\s\.\,]+$/`: non-empty and made of white space, periods and commas. */
  predicate OnlyPunctuation(t: string) {
    t != [] && forall i :: 0 <= i < |t| ==> IsJsSpace(t[i]) || t[i] == '.' || t[i] == ','
  }

  /** `split(/\r?\n/).map((l) => l.trim()).filter(Boolean)`. */
  function NonBlankLines(t: string): seq<string> {
    DropEmpty(Sanitizer.TrimmedLines(t))
  }

  /** The `freq` object: each line's tally, counted line by line. */
  function FrequenciesFrom(lines: seq<string>, freq: map<string, nat>): map<string, nat>
    decreases |lines|
  {
    if lines == [] then freq
    else FrequenciesFrom(lines[1..], freq[lines[0] := Sanitizer.Tally(freq, lines[0]) + 1])
  }

  /** `Math.max(...Object.values(freq))`: the largest tally of a line. */
  function MaxTally(lines: seq<string>, freq: map<string, nat>): nat {
    if lines == [] then 0 else Max(Sanitizer.Tally(freq, lines[0]), MaxTally(lines[1..], freq))
  }

  /** Reference: some line occurs three or more times. */
  predicate HasTripledLine(lines: seq<string>) {
    exists k :: 0 <= k < |lines| && multiset(lines)[lines[k]] >= 3
  }

  /** `/^(\d+\.\s*){3,}$/`: the whole text is three or more numbered markers
      and nothing else. */
  predicate OnlyMarkers(t: string) {
    var chain := Sanitizer.MarkerChain(t, 0);
    chain.0 >= 3 && chain.1 == |t|
  }

  lemma {:induction false} FrequenciesCount(done: seq<string>, rest: seq<string>, whole: seq<string>, freq: map<string, nat>)
    requires whole == done + rest
    requires forall l :: Sanitizer.Tally(freq, l) == multiset(done)[l]
    ensures forall l :: Sanitizer.Tally(FrequenciesFrom(rest, freq), l) == multiset(whole)[l]
    decreases |rest|
  {
    if rest == [] {
      assert whole == done;
    } else {
      var l0 := rest[0];
      var freq' := freq[l0 := Sanitizer.Tally(freq, l0) + 1];
      AppendRegroup(done, l0, rest[1..], rest);
      assert forall l :: Sanitizer.Tally(freq', l) == multiset(done + [l0])[l] by {
        TallyStep(done, l0, freq);
      }
      FrequenciesCount(done + [l0], rest[1..], whole, freq');
    }
  }

  /** Counting one more line bumps its tally and no other. */
  lemma TallyStep(done: seq<string>, l0: string, freq: map<string, nat>)
    requires forall l :: Sanitizer.Tally(freq, l) == multiset(done)[l]
    ensures forall l :: Sanitizer.Tally(freq[l0 := Sanitizer.Tally(freq, l0) + 1], l) == multiset(done + [l0])[l]
  {
    assert multiset(done + [l0]) == multiset(done) + multiset{l0};
  }

  lemma {:induction false} MaxTallyAtLeastThree(lines: seq<string>, freq: map<string, nat>)
    ensures MaxTally(lines, freq) >= 3 <==> exists k :: 0 <= k < |lines| && Sanitizer.Tally(freq, lines[k]) >= 3
  {
    if lines != [] {
      var rest := lines[1..];
      MaxTallyAtLeastThree(rest, freq);
      if MaxTally(rest, freq) >= 3 {
        var k :| 0 <= k < |rest| && Sanitizer.Tally(freq, rest[k]) >= 3;
        assert lines[k + 1] == rest[k];
      }
      if exists k :: 0 <= k < |lines| && Sanitizer.Tally(freq, lines[k]) >= 3 {
        var k :| 0 <= k < |lines| && Sanitizer.Tally(freq, lines[k]) >= 3;
        if k > 0 {
          assert rest[k - 1] == lines[k];
        }
      }
    }
  }

  /** The tally-and-maximum computation finds a line occurring three or
      more times exactly when there is one. */
  lemma MaxRepeatFindsTripledLine(lines: seq<string>)
    ensures MaxTally(lines, FrequenciesFrom(lines, map[])) >= 3 <==> HasTripledLine(lines)
  {
    var freq := FrequenciesFrom(lines, map[]);
    assert lines == [] + lines;
    FrequenciesCount([], lines, lines, map[]);
    MaxTallyAtLeastThree(lines, freq);
  }

  /** `isBadLocalResponse(text)`: true exactly when, for the trimmed text,
      one of the six rejection rules fires. */
  function IsBadLocalResponse(text: string): (bad: bool)
    ensures bad <==>
      var t := Trim(text);
      t == "" || |Words(t)| < 6 || OnlyPunctuation(t) || LooksLikeInstruction(t)
      || HasTripledLine(NonBlankLines(t)) || OnlyMarkers(t)
  {
    var trimmed := Trim(text);
    if trimmed == "" then true
    else if |Words(trimmed)| < 6 then true
    else if OnlyPunctuation(trimmed) then true
    else if LooksLikeInstruction(trimmed) then true
    else
      var lines := NonBlankLines(trimmed);
      if |lines| > 0 && (MaxRepeatFindsTripledLine(lines); MaxTally(lines, FrequenciesFrom(lines, map[])) >= 3) then true
      else
        assert lines == [] ==> !HasTripledLine(lines);
        MaxRepeatFindsTripledLine(lines);
        OnlyMarkers(trimmed)
  }

  /** A non-empty phrase that starts and ends with a non-space character. */
  predicate SolidPhrase(p: string) {
    p != [] && !IsJsSpace(p[0]) && !IsJsSpace(p[|p| - 1])
  }

  /** An occurrence of a solid phrase lies inside the white-space frame. */
  lemma OccursInsideFrame(s: string, r: string, k: int, p: string, i: int)
    requires SpaceFramed(s, r, k) && SolidPhrase(p) && OccursAt(s, p, i)
    ensures OccursAt(r, p, i - k)
  {
    assert s[i] == p[0] by { assert s[i..i + |p|][0] == s[i]; }
    assert s[i + |p| - 1] == p[|p| - 1] by { assert s[i..i + |p|][|p| - 1] == s[i + |p| - 1]; }
    assert k <= i;
    assert i + |p| <= k + |r|;
    var inR := r[i - k..i - k + |p|];
    var inS := s[i..i + |p|];
    forall m | 0 <= m < |p|
      ensures inR[m] == inS[m]
    {
      assert inR[m] == s[k..k + |r|][i - k + m];
    }
    assert inR == inS;
  }

  /** Lower-casing keeps white space where it is. */
  lemma LowerFrame(s: string, r: string, k: int)
    requires SpaceFramed(s, r, k)
    ensures SpaceFramed(Lower(s), Lower(r), k)
  {
    var ls := Lower(s);
    forall i | 0 <= i < |s| && IsJsSpace(s[i])
      ensures IsJsSpace(ls[i])
    {
      assert !('A' <= s[i] <= 'Z');
    }
    assert Lower(r) == ls[k..k + |r|];
  }

  lemma IndicatorsSolid(j: nat)
    requires j < |InstructionIndicators|
    ensures SolidPhrase(InstructionIndicators[j])
  {
    var p := InstructionIndicators[j];
    assert p[0] in "ufwcysag";
    assert p[|p| - 1] in "sntmeoal:";
  }

  /** A reply that mentions any instruction phrase, in any letter case, is
      rejected. */
  lemma LeakPhraseRejected(text: string, j: nat)
    requires j < |InstructionIndicators|
    requires Contains(Lower(text), InstructionIndicators[j])
    ensures IsBadLocalResponse(text)
  {
    var p := InstructionIndicators[j];
    IndicatorsSolid(j);
    var r := Trim(text);
    var k :| SpaceFramed(text, r, k);
    LowerFrame(text, r, k);
    ContainsIffOccurs(Lower(text), p);
    var i :| OccursAt(Lower(text), p, i);
    OccursInsideFrame(Lower(text), Lower(r), k, p, i);
    ContainsIffOccurs(Lower(r), p);
  }

  /** `toLowerCase()` turns the Kelvin sign into 'k', so an indicator
      spelled with it is still found. */
  lemma KelvinSignIndicator()
    ensures LooksLikeInstruction("create a tas\U{212A} list")
  {
    var t := "create a tas\U{212A} list";
    assert Lower(t) == "create a task list";
    assert InstructionIndicators[5] == "create a task list";
    ContainsSelf("create a task list");
  }

  /** A reply of fewer than six words is rejected, whatever it says. */
  lemma ShortReplyRejected(text: string)
    requires |Words(Trim(text))| < 6
    ensures IsBadLocalResponse(text)
  {
  }

  /* ------------------------------------------- the tally as written */

  /** The `freq` object exactly as the source fills it: a plain object
      literal, so a line that names an inherited member of
      `Object.prototype` starts from that member rather than from 0. */
  function FrequenciesAsWritten(lines: seq<string>, freq: map<string, Sanitizer.JsTally>): map<string, Sanitizer.JsTally>
    decreases |lines|
  {
    if lines == [] then freq
    else
      var l := lines[0];
      var c := Sanitizer.IncrementAsWritten(Sanitizer.LookupAsWritten(freq, l));
      FrequenciesAsWritten(lines[1..], Sanitizer.StoreAsWritten(freq, l, c))
  }

  /** `lines.length > 0` and `Math.max(...Object.values(freq)) >= 3` as
      written: a non-numeric own value makes the maximum NaN, and an
      object without own values gives -Infinity; neither reaches 3. */
  predicate RepeatFiresAsWritten(lines: seq<string>) {
    var f := FrequenciesAsWritten(lines, map[]);
    && lines != []
    && (forall key | key in f :: f[key].Num?)
    && (exists key | key in f :: f[key].Num? && f[key].n >= 3)
  }

  /** `isBadLocalResponse` with the repeat check as written. */
  predicate IsBadLocalResponseAsWritten(text: string) {
    var t := Trim(text);
    t == "" || |Words(t)| < 6 || OnlyPunctuation(t) || LooksLikeInstruction(t)
    || RepeatFiresAsWritten(NonBlankLines(t)) || OnlyMarkers(t)
  }

  lemma {:induction false} InheritedTallyStaysNonNumeric(lines: seq<string>, freq: map<string, Sanitizer.JsTally>, key: string)
    requires key in Sanitizer.InheritedKeys && key != "__proto__"
    requires key in freq ==> freq[key] == Sanitizer.NonNumeric
    ensures key in FrequenciesAsWritten(lines, freq) ==> FrequenciesAsWritten(lines, freq)[key] == Sanitizer.NonNumeric
    ensures key in lines || key in freq ==> key in FrequenciesAsWritten(lines, freq)
    decreases |lines|
  {
    if lines != [] {
      var l := lines[0];
      var c := Sanitizer.IncrementAsWritten(Sanitizer.LookupAsWritten(freq, l));
      var freq' := Sanitizer.StoreAsWritten(freq, l, c);
      InheritedTallyStaysNonNumeric(lines[1..], freq', key);
      if key in lines && key !in lines[1..] {
        assert l == key;
      }
    }
  }

  /** As written, one line naming an inherited member (`constructor`,
      `toString`, ...) switches the repeat check off for the whole reply. */
  lemma InheritedLineDisablesRepeatCheck(lines: seq<string>, key: string)
    requires key in Sanitizer.InheritedKeys && key != "__proto__"
    requires key in lines
    ensures !RepeatFiresAsWritten(lines)
  {
    InheritedTallyStaysNonNumeric(lines, map[], key);
  }

  /** The concrete input: three copies of a line followed by `toString`.
      The intended check sees the tripled line; the check as written does
      not. */
  lemma ToStringLineHidesRepeats()
    ensures HasTripledLine(["x", "x", "x", "toString"])
    ensures !RepeatFiresAsWritten(["x", "x", "x", "toString"])
  {
    var lines := ["x", "x", "x", "toString"];
    assert multiset(lines)[lines[0]] == 3;
    InheritedLineDisablesRepeatCheck(lines, "toString");
  }

  /** The intended tallies as the object holds them: every value a number. */
  function Numeric(freq: map<string, nat>): map<string, Sanitizer.JsTally> {
    map key | key in freq :: Sanitizer.Num(freq[key])
  }

  /** Where no line names an inherited member, the object as written holds
      exactly the intended tallies. */
  lemma {:induction false} FrequenciesAgree(lines: seq<string>, freq: map<string, nat>)
    requires forall k :: 0 <= k < |lines| ==> lines[k] !in Sanitizer.InheritedKeys
    ensures FrequenciesAsWritten(lines, Numeric(freq)) == Numeric(FrequenciesFrom(lines, freq))
    decreases |lines|
  {
    if lines != [] {
      var l := lines[0];
      var t := Sanitizer.Tally(freq, l) + 1;
      var c := Sanitizer.IncrementAsWritten(Sanitizer.LookupAsWritten(Numeric(freq), l));
      assert c == Sanitizer.Num(t);
      assert Sanitizer.StoreAsWritten(Numeric(freq), l, c) == Numeric(freq[l := t]) by {
        assert "__proto__" in Sanitizer.InheritedKeys;
      }
      FrequenciesAgree(lines[1..], freq[l := t]);
    }
  }

  /** Where no line names an inherited member, the repeat check as written
      fires exactly when some line occurs three or more times. */
  lemma RepeatAgrees(lines: seq<string>)
    requires forall k :: 0 <= k < |lines| ==> lines[k] !in Sanitizer.InheritedKeys
    ensures RepeatFiresAsWritten(lines) <==> HasTripledLine(lines)
  {
    var freq := FrequenciesFrom(lines, map[]);
    assert Numeric(map[]) == map[];
    FrequenciesAgree(lines, map[]);
    assert lines == [] + lines;
    FrequenciesCount([], lines, lines, map[]);
    var f := FrequenciesAsWritten(lines, map[]);
    if HasTripledLine(lines) {
      var k :| 0 <= k < |lines| && multiset(lines)[lines[k]] >= 3;
      assert Sanitizer.Tally(freq, lines[k]) >= 3;
      assert lines[k] in f && f[lines[k]].n >= 3;
    }
    if RepeatFiresAsWritten(lines) {
      var key :| key in f && f[key].Num? && f[key].n >= 3;
      assert multiset(lines)[key] >= 3;
      assert key in multiset(lines);
      var k :| 0 <= k < |lines| && lines[k] == key;
    }
  }

  /** Where no line of the reply names an inherited member, the gate as
      written and the intended gate agree. */
  lemma IsBadLocalResponseAgrees(text: string)
    requires forall k :: 0 <= k < |NonBlankLines(Trim(text))| ==> NonBlankLines(Trim(text))[k] !in Sanitizer.InheritedKeys
    ensures IsBadLocalResponseAsWritten(text) == IsBadLocalResponse(text)
  {
    RepeatAgrees(NonBlankLines(Trim(text)));
  }
}

