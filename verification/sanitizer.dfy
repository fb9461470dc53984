/** The response sanitiser `cleanAIText`: it removes leaked template
    fragments and placeholder tokens, trims every line and drops blank ones,
    keeps each distinct line at most twice, rewrites runs of numbered markers,
    collapses newline runs and trims the result. */
module Sanitizer {
  import opened Values
  import opened Text
  import opened Sequences

  /* ------------------------------------------ leaked-instruction patterns */

  /** What a leak pattern consumes after its phrase: nothing, an optional
      period (`\.?`), or everything up to the next period or newline
      (`[^.\n]*`). */
  datatype Tail = NoTail | OptionalPeriod | UpToStop

  /** A case-insensitive global regular expression of the form phrase + tail.
      A pattern with an optional character (`on-?screen`) lists both
      spellings, the one with the character first, as the regular expression
      tries them. Every spelling is lower case. */
  datatype LeakPattern = LeakPattern(spellings: seq<string>, tail: Tail)

  /** The removal list, in the order it is applied. */
  const LeakPatterns: seq<LeakPattern> := [
    LeakPattern(["use the smarttask ai"], UpToStop),
    LeakPattern(["use the following skills"], UpToStop),
    LeakPattern(["follow the on-screen instructions", "follow the onscreen instructions"], UpToStop),
    LeakPattern(["write down one goal and one reason it matters"], OptionalPeriod),
    LeakPattern(["write down three tasks"], UpToStop),
    LeakPattern(["create a short list of tasks and a list of goals"], OptionalPeriod),
    LeakPattern(["create a task list and set a time frame"], OptionalPeriod),
    LeakPattern(["(empty)"], NoTail),
    LeakPattern(["<pad>"], NoTail),
    LeakPattern(["</s>"], NoTail)
  ]

  /** The lower-case `phrase` occurs at position `i` of `s` up to ASCII case.
      Under the `i` flag a non-ASCII character never matches an ASCII one,
      so ASCII folding is exactly the regular expression's comparison. */
  predicate PhraseAt(s: string, i: nat, phrase: string) {
    i + |phrase| <= |s| && forall k :: 0 <= k < |phrase| ==> FoldChar(s[i + k]) == phrase[k]
  }

  /** Length of the run of characters other than '.' and '\n' from `i`. */
  function StopRun(s: string, i: nat): (n: nat)
    requires i <= |s|
    ensures i + n <= |s|
    ensures forall k :: i <= k < i + n ==> s[k] != '.' && s[k] != '\n'
    ensures i + n == |s| || s[i + n] == '.' || s[i + n] == '\n'
    decreases |s| - i
  {
    if i < |s| && s[i] != '.' && s[i] != '\n' then 1 + StopRun(s, i + 1) else 0
  }

  function TailLength(tail: Tail, s: string, i: nat): (n: nat)
    requires i <= |s|
    ensures i + n <= |s|
  {
    match tail
    case NoTail => 0
    case OptionalPeriod => if i < |s| && s[i] == '.' then 1 else 0
    case UpToStop => StopRun(s, i)
  }

  /** Length of the match of the pattern at position `i`, 0 when there is
      none (every spelling is non-empty, so a match is never empty). */
  function MatchAt(spellings: seq<string>, tail: Tail, s: string, i: nat): (n: nat)
    requires i <= |s|
    ensures i + n <= |s|
  {
    if spellings == [] then 0
    else if spellings[0] != "" && PhraseAt(s, i, spellings[0]) then
      |spellings[0]| + TailLength(tail, s, i + |spellings[0]|)
    else MatchAt(spellings[1..], tail, s, i)
  }

  /** `s.replace(re, "")` for a global pattern, scanning from position `i`:
      the leftmost match is removed and the scan resumes right after it. */
  function RemoveMatchesFrom(p: LeakPattern, s: string, i: nat): (r: string)
    requires i <= |s|
    ensures |r| <= |s| - i
    decreases |s| - i
  {
    if i == |s| then []
    else
      var n := MatchAt(p.spellings, p.tail, s, i);
      if n > 0 then RemoveMatchesFrom(p, s, i + n)
      else [s[i]] + RemoveMatchesFrom(p, s, i + 1)
  }

  /** Where a pattern matches nowhere, removing it changes nothing. */
  lemma {:induction false} RemoveWithoutMatch(p: LeakPattern, s: string, i: nat)
    requires i <= |s|
    requires forall j :: i <= j < |s| ==> MatchAt(p.spellings, p.tail, s, j) == 0
    ensures RemoveMatchesFrom(p, s, i) == s[i..]
    decreases |s| - i
  {
    if i < |s| {
      RemoveWithoutMatch(p, s, i + 1);
      assert s[i..] == [s[i]] + s[i + 1..];
    }
  }

  /** `badPatterns.forEach((re) => { cleaned = cleaned.replace(re, ""); })`. */
  function RemovePatterns(ps: seq<LeakPattern>, s: string): (r: string)
    ensures |r| <= |s|
  {
    if ps == [] then s else RemovePatterns(ps[1..], RemoveMatchesFrom(ps[0], s, 0))
  }

  /** Removal is one left-to-right pass, so it can splice a new occurrence
      together: removing `<pad>` from `<p<pad>ad>` leaves `<pad>`. This is
      why the sanitiser is not idempotent. */
  lemma RemovalCanSpliceNewMatch(s: string)
    requires s == "<p<pad>ad>"
    ensures RemoveMatchesFrom(LeakPatterns[8], s, 0) == "<pad>"
  {
    assert LeakPatterns[8] == PadPattern;
    SpliceTail(s);
    assert PhraseAt(s, 2, "<pad>");
    SpliceMiddle(s);
    SpliceHead(s);
    assert [s[0]] + ([s[1]] + s[7..]) == "<pad>";
  }

  const PadPattern: LeakPattern := LeakPattern(["<pad>"], NoTail)

  /** One step of removing `<pad>`: skip a match or keep one character. */
  lemma PadStep(s: string, i: nat)
    requires i < |s|
    ensures RemoveMatchesFrom(PadPattern, s, i) ==
              if PhraseAt(s, i, "<pad>") then RemoveMatchesFrom(PadPattern, s, i + 5)
              else [s[i]] + RemoveMatchesFrom(PadPattern, s, i + 1)
  {
    var sp := PadPattern.spellings;
    assert sp[0] == "<pad>" && sp[1..] == [];
    assert MatchAt(sp[1..], NoTail, s, i) == 0;
  }

  /** Too close to the end for the phrase, the last three characters stay. */
  lemma SpliceTail(s: string)
    requires |s| == 10
    ensures RemoveMatchesFrom(PadPattern, s, 7) == s[7..]
  {
    assert RemoveMatchesFrom(PadPattern, s, 10) == "";
    PadStep(s, 9);
    PadStep(s, 8);
    PadStep(s, 7);
    assert [s[7]] + ([s[8]] + ([s[9]] + "")) == s[7..];
  }

  lemma SpliceMiddle(s: string)
    requires |s| >= 7 && PhraseAt(s, 2, "<pad>")
    ensures RemoveMatchesFrom(PadPattern, s, 2) == RemoveMatchesFrom(PadPattern, s, 7)
  {
    PadStep(s, 2);
  }

  lemma SpliceHead(s: string)
    requires |s| >= 6 && s[1] == 'p' && s[2] == '<'
    ensures RemoveMatchesFrom(PadPattern, s, 0) == [s[0]] + ([s[1]] + RemoveMatchesFrom(PadPattern, s, 2))
  {
    NoPadAt(s, 0, 2);
    NoPadAt(s, 1, 0);
    PadStep(s, 0);
    PadStep(s, 1);
  }

  /** A mismatch at offset `k` rules out the phrase at `i`. */
  lemma NoPadAt(s: string, i: nat, k: nat)
    requires i + 5 <= |s| && k < 5 && s[i + k] != "<pad>"[k] && !('A' <= s[i + k] <= 'Z')
    ensures !PhraseAt(s, i, "<pad>")
  {
    assert FoldChar(s[i + k]) == s[i + k];
  }

  /* ------------------------------------------------------- line dedupe */

  /** The text's lines, each trimmed: `split(/\r?\n/).map((l) => l.trim())`.
      Splitting on '\n' alone gives the same trimmed lines, because a '\r'
      before a newline ends its line and is trimmed away with it. */
  function TrimmedLines(s: string): seq<string> {
    TrimAll(Split(s, {'\n'}))
  }

  /** `counts[l] || 0` for a tally kept in a map. */
  function Tally(counts: map<string, nat>, l: string): nat {
    if l in counts then counts[l] else 0
  }

  /** The dedupe loop: blank lines are skipped, `counts` tallies the lines
      seen, and a line is kept while its tally is at most 2. */
  function DedupeLoop(lines: seq<string>, counts: map<string, nat>, kept: seq<string>): seq<string>
    decreases |lines|
  {
    if lines == [] then kept
    else
      var l := lines[0];
      if l == "" then DedupeLoop(lines[1..], counts, kept)
      else
        var c := Tally(counts, l) + 1;
        DedupeLoop(lines[1..], counts[l := c], if c <= 2 then kept + [l] else kept)
  }

  function Dedupe(lines: seq<string>): seq<string> {
    DedupeLoop(lines, map[], [])
  }

  /** Reference: position `i` survives when its line is non-blank and fewer
      than two earlier positions hold the same line. */
  predicate KeptAt(lines: seq<string>, i: nat)
    requires i < |lines|
  {
    lines[i] != "" && multiset(lines[..i])[lines[i]] < 2
  }

  /** Reference: the lines at the surviving positions, in order. */
  function FirstTwo(lines: seq<string>): (r: seq<string>)
    ensures forall k :: 0 <= k < |r| ==> r[k] != "" && r[k] in lines
  {
    if lines == [] then []
    else
      var n := |lines| - 1;
      FirstTwo(lines[..n]) + (if KeptAt(lines, n) then [lines[n]] else [])
  }

  /** `counts` holds the tallies of the non-blank lines of `done`. */
  ghost predicate Tallies(counts: map<string, nat>, done: seq<string>) {
    forall l :: l != "" ==> Tally(counts, l) == multiset(done)[l]
  }

  lemma {:induction false} DedupeLoopFirstTwo(done: seq<string>, rest: seq<string>, whole: seq<string>, counts: map<string, nat>, kept: seq<string>)
    requires whole == done + rest
    requires Tallies(counts, done)
    requires kept == FirstTwo(done)
    ensures DedupeLoop(rest, counts, kept) == FirstTwo(whole)
    decreases |rest|
  {
    if rest == [] {
      assert whole == done;
    } else {
      var l := rest[0];
      AppendRegroup(done, l, rest[1..], rest);
      if l == "" {
        BlankLineStep(done, counts, kept);
        DedupeLoopFirstTwo(done + [l], rest[1..], whole, counts, kept);
      } else {
        var c := Tally(counts, l) + 1;
        LineStep(done, l, counts, kept);
        DedupeLoopFirstTwo(done + [l], rest[1..], whole, counts[l := c], if c <= 2 then kept + [l] else kept);
        DedupeLoopCounts(rest, counts, kept);
      }
    }
  }

  /** One turn of the loop on a non-blank line. */
  lemma DedupeLoopCounts(lines: seq<string>, counts: map<string, nat>, kept: seq<string>)
    requires lines != [] && lines[0] != ""
    ensures var c := Tally(counts, lines[0]) + 1;
            DedupeLoop(lines, counts, kept) == DedupeLoop(lines[1..], counts[lines[0] := c], if c <= 2 then kept + [lines[0]] else kept)
  {
  }

  /** A blank line changes neither the tallies nor the survivors. */
  lemma BlankLineStep(done: seq<string>, counts: map<string, nat>, kept: seq<string>)
    requires Tallies(counts, done)
    requires kept == FirstTwo(done)
    ensures Tallies(counts, done + [""]) && kept == FirstTwo(done + [""])
  {
    var d := done + [""];
    assert d[..|done|] == done;
    assert multiset(d) == multiset(done) + multiset{""};
    assert !KeptAt(d, |done|);
  }

  /** A non-blank line bumps its tally and survives while the tally is at
      most two. */
  lemma LineStep(done: seq<string>, l: string, counts: map<string, nat>, kept: seq<string>)
    requires l != ""
    requires Tallies(counts, done)
    requires kept == FirstTwo(done)
    ensures var c := Tally(counts, l) + 1;
            Tallies(counts[l := c], done + [l]) && (if c <= 2 then kept + [l] else kept) == FirstTwo(done + [l])
  {
    var d := done + [l];
    var c := Tally(counts, l) + 1;
    assert d[..|done|] == done;
    assert Tallies(counts[l := c], d) by {
      assert multiset(d) == multiset(done) + multiset{l};
    }
    assert KeptAt(d, |done|) <==> c <= 2 by {
      assert multiset(d[..|done|])[l] == Tally(counts, l);
    }
  }

  /** The counting loop keeps exactly the first two occurrences of every
      non-blank line. */
  lemma DedupeIsFirstTwo(lines: seq<string>)
    ensures Dedupe(lines) == FirstTwo(lines)
  {
    assert lines == [] + lines;
    DedupeLoopFirstTwo([], lines, lines, map[], []);
  }

  /** Each non-blank line survives min(2, its count) times; blank ones never. */
  lemma {:induction false} FirstTwoCounts(lines: seq<string>, l: string)
    ensures multiset(FirstTwo(lines))[l] == if l == "" then 0 else Min(2, multiset(lines)[l])
  {
    if lines != [] {
      var n := |lines| - 1;
      assert lines == lines[..n] + [lines[n]];
      FirstTwoCounts(lines[..n], l);
    }
  }

  /** The surviving lines keep their original relative order. */
  lemma {:induction false} FirstTwoInOrder(lines: seq<string>)
    ensures IsSubsequence(FirstTwo(lines), lines)
  {
    if lines != [] {
      var n := |lines| - 1;
      var a := FirstTwo(lines[..n]);
      FirstTwoInOrder(lines[..n]);
      assert lines[..|lines| - 1] == lines[..n];
      if KeptAt(lines, n) {
        var r := a + [lines[n]];
        assert r[..|r| - 1] == a;
        assert r[|r| - 1] == lines[|lines| - 1];
        assert IsSubsequence(r, lines);
      } else {
        assert FirstTwo(lines) == a;
        assert IsSubsequence(a, lines);
      }
    }
  }

  /* --------------------------------------- the dedupe loop as written */

  /** Members that every object created as `{}` inherits. */
  const InheritedKeys: set<string> := {
    "__proto__", "constructor", "hasOwnProperty", "isPrototypeOf",
    "propertyIsEnumerable", "toLocaleString", "toString", "valueOf",
    "__defineGetter__", "__defineSetter__", "__lookupGetter__", "__lookupSetter__"
  }

  /** A value of `counts[l]` in the JavaScript object: a number, or something
      non-numeric (an inherited member, or the string `member + 1` makes). */
  datatype JsTally = Num(n: nat) | NonNumeric

  /** `counts[l]` on the object: own entries first, then inherited members. */
  function LookupAsWritten(counts: map<string, JsTally>, l: string): JsTally {
    if l in counts then counts[l] else if l in InheritedKeys then NonNumeric else Num(0)
  }

  /** `(counts[l] || 0) + 1`: an inherited member concatenates with 1. */
  function IncrementAsWritten(t: JsTally): JsTally {
    match t
    case Num(n) => Num(n + 1)
    case NonNumeric => NonNumeric
  }

  /** `counts[l] = v`: assigning a non-object to `__proto__` is ignored. */
  function StoreAsWritten(counts: map<string, JsTally>, l: string, v: JsTally): map<string, JsTally> {
    if l == "__proto__" then counts else counts[l := v]
  }

  /** `counts[l] <= 2`: a non-numeric string compares as NaN, never <= 2. */
  predicate AtMostTwo(t: JsTally) {
    t.Num? && t.n <= 2
  }

  function DedupeAsWrittenLoop(lines: seq<string>, counts: map<string, JsTally>, kept: seq<string>): seq<string>
    decreases |lines|
  {
    if lines == [] then kept
    else
      var l := lines[0];
      if l == "" then DedupeAsWrittenLoop(lines[1..], counts, kept)
      else
        var c := IncrementAsWritten(LookupAsWritten(counts, l));
        DedupeAsWrittenLoop(lines[1..], StoreAsWritten(counts, l, c), if AtMostTwo(c) then kept + [l] else kept)
  }

  /** The dedupe loop exactly as the source writes it, tally object included. */
  function DedupeAsWritten(lines: seq<string>): seq<string> {
    DedupeAsWrittenLoop(lines, map[], [])
  }

  lemma {:induction false} AsWrittenLoopDropsInherited(lines: seq<string>, counts: map<string, JsTally>, kept: seq<string>, key: string)
    requires key in InheritedKeys && key !in kept
    requires key in counts ==> counts[key] == NonNumeric
    ensures key !in DedupeAsWrittenLoop(lines, counts, kept)
    decreases |lines|
  {
    if lines != [] {
      var l := lines[0];
      if l == "" {
        AsWrittenLoopDropsInherited(lines[1..], counts, kept, key);
      } else {
        var c := IncrementAsWritten(LookupAsWritten(counts, l));
        AsWrittenLoopDropsInherited(lines[1..], StoreAsWritten(counts, l, c), if AtMostTwo(c) then kept + [l] else kept, key);
      }
    }
  }

  /** As written, a line that names an inherited member (`constructor`,
      `toString`, `__proto__`, ...) never survives, not even once. */
  lemma InheritedKeyLinesDropped(lines: seq<string>, key: string)
    requires key in InheritedKeys
    ensures key !in DedupeAsWritten(lines)
  {
    AsWrittenLoopDropsInherited(lines, map[], [], key);
  }

  /** The concrete input: a reply whose only line is `constructor` comes out
      empty as written, while the intended dedupe keeps it. */
  lemma ConstructorLineLost()
    ensures DedupeAsWritten(["constructor"]) == []
    ensures Dedupe(["constructor"]) == ["constructor"]
  {
    InheritedKeyLinesDropped(["constructor"], "constructor");
  }

  /* ------------------------------ the dedupe as written, characterised */

  /** The lines that name no inherited member, in order. */
  function WithoutInherited(lines: seq<string>): (r: seq<string>)
    ensures forall k :: 0 <= k < |r| ==> r[k] in lines && r[k] !in InheritedKeys
  {
    if lines == [] then []
    else
      var n := |lines| - 1;
      WithoutInherited(lines[..n]) + (if lines[n] in InheritedKeys then [] else [lines[n]])
  }

  lemma WithoutInheritedSnoc(done: seq<string>, l: string)
    ensures WithoutInherited(done + [l]) == WithoutInherited(done) + (if l in InheritedKeys then [] else [l])
  {
    assert (done + [l])[..|done|] == done;
  }

  /** Every line that names no inherited member is kept as often as it
      occurs; the others are gone. */
  lemma {:induction false} WithoutInheritedCounts(lines: seq<string>, l: string)
    ensures multiset(WithoutInherited(lines))[l] == if l in InheritedKeys then 0 else multiset(lines)[l]
  {
    if lines != [] {
      var n := |lines| - 1;
      assert lines == lines[..n] + [lines[n]];
      WithoutInheritedCounts(lines[..n], l);
    }
  }

  lemma {:induction false} WithoutInheritedInOrder(lines: seq<string>)
    ensures IsSubsequence(WithoutInherited(lines), lines)
  {
    if lines != [] {
      var n := |lines| - 1;
      var a := WithoutInherited(lines[..n]);
      WithoutInheritedInOrder(lines[..n]);
      assert lines[..|lines| - 1] == lines[..n];
      if lines[n] !in InheritedKeys {
        var r := a + [lines[n]];
        assert r[..|r| - 1] == a;
        assert IsSubsequence(r, lines);
      } else {
        assert WithoutInherited(lines) == a;
        assert IsSubsequence(a, lines);
      }
    }
  }

  /** What the filter lets through are lines of the input, none of them
      inherited. */
  lemma {:induction false} WithoutInheritedMembers(lines: seq<string>)
    ensures forall k :: 0 <= k < |WithoutInherited(lines)| ==>
              WithoutInherited(lines)[k] in lines && WithoutInherited(lines)[k] !in InheritedKeys
  {
    if lines != [] {
      var n := |lines| - 1;
      var a := WithoutInherited(lines[..n]);
      WithoutInheritedMembers(lines[..n]);
      var r := WithoutInherited(lines);
      assert r == a + (if lines[n] in InheritedKeys then [] else [lines[n]]);
      forall k | 0 <= k < |r|
        ensures r[k] in lines && r[k] !in InheritedKeys
      {
        if k < |a| {
          assert r[k] == a[k] && a[k] in lines[..n];
        }
      }
    }
  }

  /** With no inherited name among the lines, nothing is removed. */
  lemma {:induction false} WithoutInheritedNone(lines: seq<string>)
    requires forall k :: 0 <= k < |lines| ==> lines[k] !in InheritedKeys
    ensures WithoutInherited(lines) == lines
  {
    if lines != [] {
      var n := |lines| - 1;
      WithoutInheritedNone(lines[..n]);
      assert lines == lines[..n] + [lines[n]];
    }
  }

  /** The tally object as written agrees with the intended tallies on every
      name that is not inherited, and reads as non-numeric under an
      inherited one. */
  ghost predicate TalliesAgree(jsCounts: map<string, JsTally>, counts: map<string, nat>) {
    forall l {:trigger LookupAsWritten(jsCounts, l)} ::
      LookupAsWritten(jsCounts, l) == if l in InheritedKeys then NonNumeric else Num(Tally(counts, l))
  }


  /** One turn of the loop as written on a non-blank line. */
  lemma AsWrittenLoopStep(lines: seq<string>, counts: map<string, JsTally>, kept: seq<string>)
    requires lines != [] && lines[0] != ""
    ensures var c := IncrementAsWritten(LookupAsWritten(counts, lines[0]));
            DedupeAsWrittenLoop(lines, counts, kept) ==
            DedupeAsWrittenLoop(lines[1..], StoreAsWritten(counts, lines[0], c), if AtMostTwo(c) then kept + [lines[0]] else kept)
  {
  }

  /** A blank line is skipped by the loop as written. */
  lemma AsWrittenBlankStep(lines: seq<string>, counts: map<string, JsTally>, kept: seq<string>)
    requires lines != [] && lines[0] == ""
    ensures DedupeAsWrittenLoop(lines, counts, kept) == DedupeAsWrittenLoop(lines[1..], counts, kept)
  {
  }

  /** An inherited name tallies to something non-numeric and is not kept. */
  lemma InheritedLineStep(jsCounts: map<string, JsTally>, counts: map<string, nat>, l: string)
    requires TalliesAgree(jsCounts, counts) && l in InheritedKeys
    ensures var c := IncrementAsWritten(LookupAsWritten(jsCounts, l));
            c == NonNumeric && TalliesAgree(StoreAsWritten(jsCounts, l, c), counts)
  {
    assert LookupAsWritten(jsCounts, l) == NonNumeric;
    var jsCounts' := StoreAsWritten(jsCounts, l, NonNumeric);
    forall l': string
      ensures LookupAsWritten(jsCounts', l') == if l' in InheritedKeys then NonNumeric else Num(Tally(counts, l'))
    {
      if l' != l {
        assert LookupAsWritten(jsCounts', l') == LookupAsWritten(jsCounts, l');
      }
    }
  }

  /** Any other name tallies as the intended loop does. */
  lemma OrdinaryLineStep(jsCounts: map<string, JsTally>, counts: map<string, nat>, l: string)
    requires TalliesAgree(jsCounts, counts) && l !in InheritedKeys
    ensures var t := Tally(counts, l) + 1;
            var c := IncrementAsWritten(LookupAsWritten(jsCounts, l));
            c == Num(t) && StoreAsWritten(jsCounts, l, c) == jsCounts[l := c]
            && TalliesAgree(jsCounts[l := c], counts[l := t])
  {
    var t := Tally(counts, l) + 1;
    assert LookupAsWritten(jsCounts, l) == Num(Tally(counts, l));
    var jsCounts', counts' := jsCounts[l := Num(t)], counts[l := t];
    forall l': string
      ensures LookupAsWritten(jsCounts', l') == if l' in InheritedKeys then NonNumeric else Num(Tally(counts', l'))
    {
      if l' != l {
        assert LookupAsWritten(jsCounts', l') == LookupAsWritten(jsCounts, l');
      }
    }
  }

  /** The filter taken from the front. */
  lemma {:induction false} WithoutInheritedCons(l: string, rest: seq<string>)
    ensures WithoutInherited([l] + rest) == (if l in InheritedKeys then [] else [l]) + WithoutInherited(rest)
    decreases |rest|
  {
    if rest != [] {
      var n := |rest| - 1;
      assert ([l] + rest)[..|rest|] == [l] + rest[..n];
      WithoutInheritedCons(l, rest[..n]);
    } else {
      assert ([l] + rest)[..0] == [];
    }
  }

  /** A blank line is skipped by the intended loop. */
  lemma DedupeLoopBlank(lines: seq<string>, counts: map<string, nat>, kept: seq<string>)
    requires lines != [] && lines[0] == ""
    ensures DedupeLoop(lines, counts, kept) == DedupeLoop(lines[1..], counts, kept)
  {
  }

  /** One turn of the simulation, given the rest of the run. */
  lemma FilteredTurn(lines: seq<string>, filtered: seq<string>, f: seq<string>,
                     jsCounts: map<string, JsTally>, counts: map<string, nat>, kept: seq<string>,
                     jsCounts': map<string, JsTally>, counts': map<string, nat>, kept': seq<string>)
    requires lines != [] && filtered == (if lines[0] in InheritedKeys then [] else [lines[0]]) + f
    requires lines[0] == "" ==> jsCounts' == jsCounts && counts' == counts && kept' == kept
    requires lines[0] != "" ==>
               var c := IncrementAsWritten(LookupAsWritten(jsCounts, lines[0]));
               jsCounts' == StoreAsWritten(jsCounts, lines[0], c) && kept' == (if AtMostTwo(c) then kept + [lines[0]] else kept)
    requires lines[0] in InheritedKeys ==> counts' == counts && kept' == kept
    requires lines[0] != "" && lines[0] !in InheritedKeys ==>
               var t := Tally(counts, lines[0]) + 1;
               counts' == counts[lines[0] := t] && kept' == (if t <= 2 then kept + [lines[0]] else kept)
    requires DedupeAsWrittenLoop(lines[1..], jsCounts', kept') == DedupeLoop(f, counts', kept')
    ensures DedupeAsWrittenLoop(lines, jsCounts, kept) == DedupeLoop(filtered, counts, kept)
  {
    var l := lines[0];
    if l == "" {
      AsWrittenBlankStep(lines, jsCounts, kept);
      DedupeLoopBlank(filtered, counts, kept);
      assert filtered[1..] == f;
    } else if l in InheritedKeys {
      AsWrittenLoopStep(lines, jsCounts, kept);
      assert filtered == f;
    } else {
      AsWrittenLoopStep(lines, jsCounts, kept);
      DedupeLoopCounts(filtered, counts, kept);
      assert filtered[1..] == f;
    }
  }

  /** Run on any lines, the loop as written is the intended loop run on
      `filtered`, the lines the filter lets through. */
  lemma {:induction false} AsWrittenLoopFiltered(lines: seq<string>, filtered: seq<string>,
                                                 jsCounts: map<string, JsTally>, counts: map<string, nat>, kept: seq<string>)
    requires filtered == WithoutInherited(lines)
    requires TalliesAgree(jsCounts, counts)
    ensures DedupeAsWrittenLoop(lines, jsCounts, kept) == DedupeLoop(filtered, counts, kept)
    decreases |lines|
  {
    if lines == [] {
      assert filtered == [];
    } else {
      var l, rest := lines[0], lines[1..];
      var f := WithoutInherited(rest);
      assert filtered == (if l in InheritedKeys then [] else [l]) + f by {
        assert lines == [l] + rest;
        WithoutInheritedCons(l, rest);
      }
      if l == "" {
        AsWrittenLoopFiltered(rest, f, jsCounts, counts, kept);
        FilteredTurn(lines, filtered, f, jsCounts, counts, kept, jsCounts, counts, kept);
      } else if l in InheritedKeys {
        var c := IncrementAsWritten(LookupAsWritten(jsCounts, l));
        InheritedLineStep(jsCounts, counts, l);
        AsWrittenLoopFiltered(rest, f, StoreAsWritten(jsCounts, l, c), counts, kept);
        FilteredTurn(lines, filtered, f, jsCounts, counts, kept, StoreAsWritten(jsCounts, l, c), counts, kept);
      } else {
        var t := Tally(counts, l) + 1;
        var kept' := if t <= 2 then kept + [l] else kept;
        OrdinaryLineStep(jsCounts, counts, l);
        AsWrittenLoopFiltered(rest, f, jsCounts[l := Num(t)], counts[l := t], kept');
        FilteredTurn(lines, filtered, f, jsCounts, counts, kept, jsCounts[l := Num(t)], counts[l := t], kept');
      }
    }
  }

  /** As written, the loop keeps the first two occurrences of every
      non-blank line that names no inherited member, and nothing else. */
  lemma DedupeAsWrittenIsFirstTwo(lines: seq<string>)
    ensures DedupeAsWritten(lines) == FirstTwo(WithoutInherited(lines))
  {
    AsWrittenLoopFiltered(lines, WithoutInherited(lines), map[], map[], []);
    DedupeIsFirstTwo(WithoutInherited(lines));
  }

  /** Where no line names an inherited member, the loop as written and the
      intended one agree. */
  lemma DedupeAsWrittenAgrees(lines: seq<string>)
    requires forall k :: 0 <= k < |lines| ==> lines[k] !in InheritedKeys
    ensures DedupeAsWritten(lines) == Dedupe(lines)
  {
    DedupeAsWrittenIsFirstTwo(lines);
    WithoutInheritedNone(lines);
    DedupeIsFirstTwo(lines);
  }

  /* ---------------------------------------------------- numbered runs */

  function DigitRun(s: string, i: nat): (n: nat)
    requires i <= |s|
    ensures i + n <= |s|
    decreases |s| - i
  {
    if i < |s| && IsAsciiDigit(s[i]) then 1 + DigitRun(s, i + 1) else 0
  }

  function SpaceRun(s: string, i: nat): (n: nat)
    requires i <= |s|
    ensures i + n <= |s|
    decreases |s| - i
  {
    if i < |s| && IsJsSpace(s[i]) then 1 + SpaceRun(s, i + 1) else 0
  }

  /** One `\d+\.\s*` item at `i`: its length, 0 when there is none. The
      digit run is taken whole, since a shorter one is followed by a digit
      rather than the period. */
  function MarkerAt(s: string, i: nat): (n: nat)
    requires i <= |s|
    ensures i + n <= |s|
  {
    var d := DigitRun(s, i);
    if d > 0 && i + d < |s| && s[i + d] == '.' then d + 1 + SpaceRun(s, i + d + 1) else 0
  }

  /** The markers that follow one another from `i`: how many, and their
      total length. */
  function MarkerChain(s: string, i: nat): (r: (nat, nat))
    requires i <= |s|
    ensures i + r.1 <= |s|
    decreases |s| - i
  {
    var m := MarkerAt(s, i);
    if m == 0 then (0, 0)
    else
      var rest := MarkerChain(s, i + m);
      (rest.0 + 1, rest.1 + m)
  }

  /** Length of the match of `(\b\d+\.\s*){2,}` at `i`, 0 when there is
      none. Only the first repetition's `\b` can fail: every later one
      follows a period or white space. */
  function RunMatchAt(s: string, i: nat): (n: nat)
    requires i <= |s|
    ensures i + n <= |s|
  {
    if i > 0 && IsWordChar(s[i - 1]) then 0
    else
      var chain := MarkerChain(s, i);
      if chain.0 >= 2 then chain.1 else 0
  }

  /** `m.split(/\d\./)` from position `q`, the current piece starting at `p`. */
  function SplitDigitPeriodFrom(m: string, p: nat, q: nat): (pieces: seq<string>)
    requires p <= q <= |m|
    ensures forall k :: 0 <= k < |pieces| ==> |pieces[k]| <= |m|
    decreases |m| - q
  {
    if q + 1 >= |m| then [m[p..]]
    else if IsAsciiDigit(m[q]) && m[q + 1] == '.' then [m[p..q]] + SplitDigitPeriodFrom(m, q + 2, q + 2)
    else SplitDigitPeriodFrom(m, p, q + 1)
  }

  /** `pieces.filter(Boolean)[0] || ""`. */
  function FirstNonEmpty(pieces: seq<string>): (r: string)
    ensures r == "" || r in pieces
  {
    if pieces == [] then ""
    else if pieces[0] != "" then pieces[0]
    else FirstNonEmpty(pieces[1..])
  }

  /** The replacement for one run: `m.split(/\d\./).filter(Boolean)[0] || ""`. */
  function RunReplacement(m: string): (r: string)
    ensures |r| <= |m|
  {
    FirstNonEmpty(SplitDigitPeriodFrom(m, 0, 0))
  }

  /** `s.replace(/(\b\d+\.\s*){2,}/g, ...)` from position `i`. */
  function RewriteRunsFrom(s: string, i: nat): (r: string)
    requires i <= |s|
    ensures |r| <= |s| - i
    decreases |s| - i
  {
    if i == |s| then []
    else
      var n := RunMatchAt(s, i);
      if n > 0 then RunReplacement(s[i..i + n]) + RewriteRunsFrom(s, i + n)
      else [s[i]] + RewriteRunsFrom(s, i + 1)
  }

  function CollapseNumberedRuns(s: string): (r: string)
    ensures |r| <= |s|
  {
    RewriteRunsFrom(s, 0)
  }

  /* -------------------------------------------------- newline runs */

  function NewlineRun(s: string, i: nat): (n: nat)
    requires i <= |s|
    ensures i + n <= |s|
    ensures forall k :: i <= k < i + n ==> s[k] == '\n'
    ensures i + n == |s| || s[i + n] != '\n'
    decreases |s| - i
  {
    if i < |s| && s[i] == '\n' then 1 + NewlineRun(s, i + 1) else 0
  }

  /** `s.replace(/\n{3,}/g, "\n\n")` from position `i`. */
  function CollapseNewlinesFrom(s: string, i: nat): (r: string)
    requires i <= |s|
    ensures |r| <= |s| - i
    decreases |s| - i
  {
    if i == |s| then []
    else
      var n := NewlineRun(s, i);
      if n >= 3 then "\n\n" + CollapseNewlinesFrom(s, i + n)
      else [s[i]] + CollapseNewlinesFrom(s, i + 1)
  }

  /** No three newlines in a row. */
  predicate NoNewlineTriple(r: string) {
    forall k :: 0 <= k && k + 2 < |r| ==> !(r[k] == '\n' && r[k + 1] == '\n' && r[k + 2] == '\n')
  }

  /** `r` starts with exactly `m` newlines. */
  predicate LeadsWith(r: string, m: nat) {
    m <= |r| && (forall k :: 0 <= k < m ==> r[k] == '\n') && (m == |r| || r[m] != '\n')
  }

  /** After the collapse no run of three newlines is left, and a run at the
      front comes out shortened to at most two. */
  lemma {:induction false} CollapseLeavesNoTriple(s: string, i: nat)
    requires i <= |s|
    ensures NoNewlineTriple(CollapseNewlinesFrom(s, i))
    ensures LeadsWith(CollapseNewlinesFrom(s, i), Min(NewlineRun(s, i), 2))
    decreases |s| - i
  {
    if i < |s| {
      var n := NewlineRun(s, i);
      if n >= 3 {
        var t := CollapseNewlinesFrom(s, i + n);
        CollapseLeavesNoTriple(s, i + n);
        assert NewlineRun(s, i + n) == 0;
        PrependNewline('\n', t, 0);
        PrependNewline('\n', ['\n'] + t, 1);
        assert "\n\n" + t == ['\n'] + (['\n'] + t);
      } else {
        CollapseLeavesNoTriple(s, i + 1);
        if s[i] == '\n' {
          assert NewlineRun(s, i + 1) == n - 1;
          PrependNewline(s[i], CollapseNewlinesFrom(s, i + 1), n - 1);
        } else {
          PrependNewline(s[i], CollapseNewlinesFrom(s, i + 1), Min(NewlineRun(s, i + 1), 2));
        }
      }
    }
  }

  /** Putting one character in front keeps the text free of triples as long
      as a newline goes in front of at most one newline. */
  lemma PrependNewline(c: char, t: string, m: nat)
    requires NoNewlineTriple(t) && LeadsWith(t, m) && m <= 2
    requires c == '\n' ==> m <= 1
    ensures NoNewlineTriple([c] + t)
    ensures LeadsWith([c] + t, if c == '\n' then m + 1 else 0)
  {
    var r := [c] + t;
    forall k | 0 <= k && k + 2 < |r|
      ensures !(r[k] == '\n' && r[k + 1] == '\n' && r[k + 2] == '\n')
    {
      if k > 0 {
        assert r[k] == t[k - 1] && r[k + 1] == t[k] && r[k + 2] == t[k + 1];
      }
    }
  }

  /** Where no run of three newlines starts, the collapse changes nothing. */
  lemma {:induction false} CollapseWithoutTriple(s: string, i: nat)
    requires i <= |s|
    requires forall j :: i <= j < |s| ==> NewlineRun(s, j) < 3
    ensures CollapseNewlinesFrom(s, i) == s[i..]
    decreases |s| - i
  {
    if i < |s| {
      CollapseWithoutTriple(s, i + 1);
      assert s[i..] == [s[i]] + s[i + 1..];
    }
  }

  /** Where no run of markers starts, the rewrite changes nothing. */
  lemma {:induction false} RewriteWithoutRun(s: string, i: nat)
    requires i <= |s|
    requires forall j :: i <= j < |s| ==> RunMatchAt(s, j) == 0
    ensures RewriteRunsFrom(s, i) == s[i..]
    decreases |s| - i
  {
    if i < |s| {
      RewriteWithoutRun(s, i + 1);
      assert s[i..] == [s[i]] + s[i + 1..];
    }
  }

  /** A reply that is nothing but repeated markers `1. 1. 1.` is rewritten
      to the single space between the first two, which the final trim then
      removes. */
  lemma RepeatedMarkersCollapse(s: string)
    requires s == "1. 1. 1."
    ensures CollapseNumberedRuns(s) == " "
  {
    assert ThreeMarkers(s);
    MarkerChainOfThree(s);
    assert RunMatchAt(s, 0) == 8;
    assert RewriteRunsFrom(s, 8) == [];
    assert s[0..8] == s;
    PiecesOfThree(s);
    assert FirstNonEmpty(["", [s[2]], [s[5]], ""]) == [s[2]];
  }

  /** `s` is `1. 1. 1.`, character by character. */
  predicate ThreeMarkers(s: string) {
    && |s| == 8
    && s[0] == '1' && s[1] == '.' && s[2] == ' '
    && s[3] == '1' && s[4] == '.' && s[5] == ' '
    && s[6] == '1' && s[7] == '.'
  }

  lemma MarkerChainOfThree(s: string)
    requires ThreeMarkers(s)
    ensures MarkerChain(s, 0) == (3, 8)
  {
    assert DigitRun(s, 8) == 0 && SpaceRun(s, 8) == 0 && MarkerAt(s, 8) == 0;
    assert DigitRun(s, 6) == 1 && MarkerAt(s, 6) == 2;
    assert SpaceRun(s, 5) == 1 && DigitRun(s, 3) == 1 && MarkerAt(s, 3) == 3;
    assert SpaceRun(s, 2) == 1 && DigitRun(s, 0) == 1 && MarkerAt(s, 0) == 3;
    assert MarkerChain(s, 8) == (0, 0);
    assert MarkerChain(s, 6) == (1, 2);
    assert MarkerChain(s, 3) == (2, 5);
  }

  lemma PiecesOfThree(s: string)
    requires ThreeMarkers(s)
    ensures SplitDigitPeriodFrom(s, 0, 0) == ["", [s[2]], [s[5]], ""]
  {
    assert SplitDigitPeriodFrom(s, 8, 8) == [""];
    assert SplitDigitPeriodFrom(s, 5, 6) == [s[5..6]] + SplitDigitPeriodFrom(s, 8, 8);
    assert SplitDigitPeriodFrom(s, 5, 5) == SplitDigitPeriodFrom(s, 5, 6);
    assert SplitDigitPeriodFrom(s, 2, 3) == [s[2..3]] + SplitDigitPeriodFrom(s, 5, 5);
    assert SplitDigitPeriodFrom(s, 2, 2) == SplitDigitPeriodFrom(s, 2, 3);
    assert SplitDigitPeriodFrom(s, 0, 0) == [s[0..0]] + SplitDigitPeriodFrom(s, 2, 2);
    assert s[2..3] == [s[2]] && s[5..6] == [s[5]];
  }

  /* ---------------------------------------------------- cleanAIText */

  /** The deduplicated lines: trimmed, non-blank, each at most twice. */
  function CleanLines(s: string): seq<string> {
    Dedupe(TrimmedLines(s))
  }

  /** The steps after the dedupe: join with newlines, rewrite runs of list
      markers, collapse runs of blank lines, trim. */
  function Tidy(lines: seq<string>): (r: string)
    ensures IsTrimmed(r)
  {
    var rewritten := CollapseNumberedRuns(Join(lines, "\n"));
    Trim(Trim(CollapseNewlinesFrom(rewritten, 0)))
  }

  /** `cleanAIText(text)`, with the intended dedupe. */
  function CleanAIText(text: Json): (r: string)
    ensures !text.JStr? || text.s == "" ==> r == ""
    ensures IsTrimmed(r)
  {
    if !Truthy(text) || !text.JStr? then ""
    else Tidy(CleanLines(RemovePatterns(LeakPatterns, text.s)))
  }

  /** The dedupe step with the tally object as written. */
  function CleanLinesAsWritten(s: string): seq<string> {
    DedupeAsWritten(TrimmedLines(s))
  }

  /** `cleanAIText(text)` exactly as written, tally object included. */
  function CleanAITextAsWritten(text: Json): (r: string)
    ensures !text.JStr? || text.s == "" ==> r == ""
    ensures IsTrimmed(r)
  {
    if !Truthy(text) || !text.JStr? then ""
    else Tidy(CleanLinesAsWritten(RemovePatterns(LeakPatterns, text.s)))
  }

  /** No line of `s` names an inherited member. */
  predicate NoInheritedLine(s: string) {
    forall k :: 0 <= k < |TrimmedLines(s)| ==> TrimmedLines(s)[k] !in InheritedKeys
  }

  lemma CleanLinesAgree(s: string)
    requires NoInheritedLine(s)
    ensures CleanLinesAsWritten(s) == CleanLines(s)
  {
    DedupeAsWrittenAgrees(TrimmedLines(s));
  }

  /** Where no line of the text names an inherited member, `cleanAIText` as
      written and the intended one give the same text. */
  lemma CleanAITextAgrees(text: Json)
    requires text.JStr? ==> NoInheritedLine(RemovePatterns(LeakPatterns, text.s))
    ensures CleanAITextAsWritten(text) == CleanAIText(text)
  {
    if text.JStr? {
      CleanLinesAgree(RemovePatterns(LeakPatterns, text.s));
    }
  }

  /** After the dedupe step as written every line is trimmed, non-blank,
      free of newlines and names no inherited member; each other distinct
      line occurs min(2, n) times where it occurred n times; the lines keep
      their order; and joining them with newlines is undone by splitting. */
  lemma CleanLinesAsWrittenShape(s: string)
    ensures forall k :: 0 <= k < |CleanLinesAsWritten(s)| ==>
              var l := CleanLinesAsWritten(s)[k];
              l != "" && IsTrimmed(l) && '\n' !in l && l !in InheritedKeys
    ensures forall l :: l != "" ==>
              multiset(CleanLinesAsWritten(s))[l] == if l in InheritedKeys then 0 else Min(2, multiset(TrimmedLines(s))[l])
    ensures IsSubsequence(CleanLinesAsWritten(s), TrimmedLines(s))
    ensures |CleanLinesAsWritten(s)| >= 1 ==> Split(Join(CleanLinesAsWritten(s), "\n"), {'\n'}) == CleanLinesAsWritten(s)
  {
    AsWrittenLinesClean(s);
    AsWrittenLinesCounts(s);
    AsWrittenLinesInOrder(s);
    if |CleanLinesAsWritten(s)| >= 1 {
      SplitJoin(CleanLinesAsWritten(s), '\n');
    }
  }

  lemma AsWrittenLinesClean(s: string)
    ensures forall k :: 0 <= k < |CleanLinesAsWritten(s)| ==>
              var l := CleanLinesAsWritten(s)[k];
              l != "" && IsTrimmed(l) && '\n' !in l && l !in InheritedKeys
  {
    var lines := TrimmedLines(s);
    var passed := WithoutInherited(lines);
    assert forall k :: 0 <= k < |lines| ==> IsTrimmed(lines[k]) && '\n' !in lines[k] by {
      LinesClean(Split(s, {'\n'}), lines);
    }
    assert forall k :: 0 <= k < |passed| ==> IsTrimmed(passed[k]) && '\n' !in passed[k] && passed[k] !in InheritedKeys by {
      WithoutInheritedMembers(lines);
    }
    assert CleanLinesAsWritten(s) == FirstTwo(passed) by {
      DedupeAsWrittenIsFirstTwo(lines);
    }
    SurvivorsClean(passed, CleanLinesAsWritten(s));
  }

  lemma AsWrittenLinesCounts(s: string)
    ensures forall l :: l != "" ==>
              multiset(CleanLinesAsWritten(s))[l] == if l in InheritedKeys then 0 else Min(2, multiset(TrimmedLines(s))[l])
  {
    var lines := TrimmedLines(s);
    DedupeAsWrittenIsFirstTwo(lines);
    forall l | l != ""
      ensures multiset(FirstTwo(WithoutInherited(lines)))[l] == if l in InheritedKeys then 0 else Min(2, multiset(lines)[l])
    {
      FirstTwoCounts(WithoutInherited(lines), l);
      WithoutInheritedCounts(lines, l);
    }
  }

  lemma AsWrittenLinesInOrder(s: string)
    ensures IsSubsequence(CleanLinesAsWritten(s), TrimmedLines(s))
  {
    var lines := TrimmedLines(s);
    DedupeAsWrittenIsFirstTwo(lines);
    FirstTwoInOrder(WithoutInherited(lines));
    WithoutInheritedInOrder(lines);
    SubsequenceTrans(FirstTwo(WithoutInherited(lines)), WithoutInherited(lines), lines);
  }

  /** After the dedupe step every line is trimmed, non-blank and free of
      newlines; each distinct line occurs min(2, n) times where it occurred
      n times; the lines keep their order; and joining them with newlines is
      undone by splitting on newlines. */
  lemma CleanLinesShape(s: string)
    ensures forall k :: 0 <= k < |CleanLines(s)| ==>
              CleanLines(s)[k] != "" && IsTrimmed(CleanLines(s)[k]) && '\n' !in CleanLines(s)[k]
    ensures forall l :: l != "" ==> multiset(CleanLines(s))[l] == Min(2, multiset(TrimmedLines(s))[l])
    ensures IsSubsequence(CleanLines(s), TrimmedLines(s))
    ensures |CleanLines(s)| >= 1 ==> Split(Join(CleanLines(s), "\n"), {'\n'}) == CleanLines(s)
  {
    CleanLinesAreClean(s);
    CleanLinesCounts(s);
    CleanLinesInOrder(s);
    CleanLinesRejoin(s);
  }

  lemma CleanLinesAreClean(s: string)
    ensures forall k :: 0 <= k < |CleanLines(s)| ==>
              CleanLines(s)[k] != "" && IsTrimmed(CleanLines(s)[k]) && '\n' !in CleanLines(s)[k]
  {
    var lines := TrimmedLines(s);
    assert forall k :: 0 <= k < |lines| ==> IsTrimmed(lines[k]) && '\n' !in lines[k] by {
      LinesClean(Split(s, {'\n'}), lines);
    }
    assert CleanLines(s) == FirstTwo(lines) by {
      DedupeIsFirstTwo(lines);
    }
    SurvivorsClean(lines, CleanLines(s));
  }

  /** Trimming pieces that hold no newline gives trimmed lines without one. */
  lemma LinesClean(pieces: seq<string>, lines: seq<string>)
    requires forall k :: 0 <= k < |pieces| ==> forall c :: c in pieces[k] ==> c !in {'\n'}
    requires |lines| == |pieces| && forall k :: 0 <= k < |pieces| ==> lines[k] == Trim(pieces[k])
    ensures forall k :: 0 <= k < |lines| ==> IsTrimmed(lines[k]) && '\n' !in lines[k]
  {
    forall k | 0 <= k < |lines|
      ensures IsTrimmed(lines[k]) && '\n' !in lines[k]
    {
      TrimKeepsOut(pieces[k], '\n');
    }
  }

  /** The survivors are some of the lines, none of them blank. */
  lemma SurvivorsClean(lines: seq<string>, kept: seq<string>)
    requires forall k :: 0 <= k < |lines| ==> IsTrimmed(lines[k]) && '\n' !in lines[k]
    requires kept == FirstTwo(lines)
    ensures forall k :: 0 <= k < |kept| ==> kept[k] != "" && IsTrimmed(kept[k]) && '\n' !in kept[k]
  {
    forall k | 0 <= k < |kept|
      ensures kept[k] != "" && IsTrimmed(kept[k]) && '\n' !in kept[k]
    {
      var j :| 0 <= j < |lines| && lines[j] == kept[k];
    }
  }

  lemma CleanLinesCounts(s: string)
    ensures forall l :: l != "" ==> multiset(CleanLines(s))[l] == Min(2, multiset(TrimmedLines(s))[l])
  {
    var lines := TrimmedLines(s);
    DedupeIsFirstTwo(lines);
    forall l | l != ""
      ensures multiset(FirstTwo(lines))[l] == Min(2, multiset(lines)[l])
    {
      FirstTwoCounts(lines, l);
    }
  }

  lemma CleanLinesInOrder(s: string)
    ensures IsSubsequence(CleanLines(s), TrimmedLines(s))
  {
    DedupeIsFirstTwo(TrimmedLines(s));
    FirstTwoInOrder(TrimmedLines(s));
  }

  lemma CleanLinesRejoin(s: string)
    ensures |CleanLines(s)| >= 1 ==> Split(Join(CleanLines(s), "\n"), {'\n'}) == CleanLines(s)
  {
    CleanLinesAreClean(s);
    if |CleanLines(s)| >= 1 {
      SplitJoin(CleanLines(s), '\n');
    }
  }
}
