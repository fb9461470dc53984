/** The `task_reorder` reconciler of the `/suggest` route: it reads the
    model's answer as a list of task titles, matches each to a task, and
    answers with the task identifiers in the model's order followed by the
    unmatched ones in their original order. */
module Reorder {
  import opened Values
  import opened Text
  import opened Sequences
  import opened PromptBuilder

  /** The route's answer: an identifier order, and whether it is just the
      original order. A task without `_id` contributes `None`. */
  datatype Reordered = Reordered(order: seq<Option<string>>, fallback: bool)

  /** `found._id.toString()` (or the same call in the final filter) on a
      task without an identifier throws. */
  datatype ReorderError = MissingId

  /** `split(/[\n,]+/).map((t) => t.trim()).filter(Boolean)`: the titles
      the model proposed. Splitting at single separators and dropping empty
      pieces gives the same titles as splitting at runs. */
  function Candidates(text: string): (c: seq<string>)
    ensures forall k :: 0 <= k < |c| ==> c[k] != "" && IsTrimmed(c[k]) && '\n' !in c[k] && ',' !in c[k]
  {
    var pieces := Split(text, {'\n', ','});
    var trimmed := TrimAll(pieces);
    TrimmedPiecesClean(pieces, trimmed);
    var c := DropEmpty(trimmed);
    KeptPiecesClean(trimmed, c);
    c
  }

  lemma TrimmedPiecesClean(pieces: seq<string>, trimmed: seq<string>)
    requires forall k :: 0 <= k < |pieces| ==> forall ch :: ch in pieces[k] ==> ch !in {'\n', ','}
    requires |trimmed| == |pieces| && forall k :: 0 <= k < |pieces| ==> trimmed[k] == Trim(pieces[k])
    ensures forall k :: 0 <= k < |trimmed| ==> IsTrimmed(trimmed[k]) && '\n' !in trimmed[k] && ',' !in trimmed[k]
  {
    forall k | 0 <= k < |pieces|
      ensures '\n' !in trimmed[k] && ',' !in trimmed[k]
    {
      TrimKeepsOut(pieces[k], '\n');
      TrimKeepsOut(pieces[k], ',');
    }
  }

  lemma KeptPiecesClean(trimmed: seq<string>, c: seq<string>)
    requires forall k :: 0 <= k < |trimmed| ==> IsTrimmed(trimmed[k]) && '\n' !in trimmed[k] && ',' !in trimmed[k]
    requires forall x :: x in c <==> x in trimmed && x != ""
    ensures forall k :: 0 <= k < |c| ==> c[k] != "" && IsTrimmed(c[k]) && '\n' !in c[k] && ',' !in c[k]
  {
    forall k | 0 <= k < |c|
      ensures c[k] != "" && IsTrimmed(c[k]) && '\n' !in c[k] && ',' !in c[k]
    {
      assert c[k] in trimmed;
    }
  }

  /** `(t.title || t.name || "").trim().toLowerCase()`. */
  function TaskKey(t: Item): string {
    Lower(Trim(Label(t, "")))
  }

  /** A task as the matching loop sees it: its identifier and its key. */
  datatype Entry = Entry(id: Option<string>, key: string)

  function Entries(tasks: seq<Item>): (entries: seq<Entry>)
    ensures |entries| == |tasks|
    ensures forall i :: 0 <= i < |tasks| ==> entries[i].id == tasks[i].id
  {
    seq(|tasks|, i requires 0 <= i < |tasks| => Entry(tasks[i].id, TaskKey(tasks[i])))
  }

  /** The identifiers of the entries, in order. */
  function Ids(entries: seq<Entry>): (ids: seq<Option<string>>)
    ensures |ids| == |entries|
    ensures forall i :: 0 <= i < |entries| ==> ids[i] == entries[i].id
  {
    seq(|entries|, i requires 0 <= i < |entries| => entries[i].id)
  }

  /** `tasks.map((t) => t._id)`: the identifiers of the tasks' entries. */
  function CurrentIds(tasks: seq<Item>): (ids: seq<Option<string>>)
    ensures |ids| == |tasks|
    ensures forall i :: 0 <= i < |tasks| ==> ids[i] == tasks[i].id
  {
    Ids(Entries(tasks))
  }

  /** The matching rule: a task with a non-blank title matches a lower-cased
      candidate equal to its title, containing it, or contained in it. */
  predicate TitlesMatch(key: string, aiTitle: string) {
    key != "" && (key == aiTitle || Contains(aiTitle, key) || Contains(key, aiTitle))
  }

  /** `tasks.find(...)`, as the index of the first matching task. */
  function FirstMatch(entries: seq<Entry>, aiTitle: string): (r: Option<nat>)
    ensures r.Some? ==> r.value < |entries| && TitlesMatch(entries[r.value].key, aiTitle)
    ensures r.Some? ==> forall k :: 0 <= k < r.value ==> !TitlesMatch(entries[k].key, aiTitle)
    ensures r.None? ==> forall k :: 0 <= k < |entries| ==> !TitlesMatch(entries[k].key, aiTitle)
  {
    if entries == [] then None
    else if TitlesMatch(entries[0].key, aiTitle) then Some(0)
    else
      match FirstMatch(entries[1..], aiTitle)
      case None => None
      case Some(i) => Some(i + 1)
  }

  /** The `forEach` over the candidates: each candidate's first matching
      task is appended unless its identifier is already used; a candidate
      with no match, or whose first match is used, is dropped. */
  function MatchFrom(entries: seq<Entry>, cands: seq<string>, matched: seq<Option<string>>): (r: Result<seq<Option<string>>, ReorderError>)
    ensures r.Err? ==> exists i :: 0 <= i < |entries| && entries[i].id.None?
    decreases |cands|
  {
    if cands == [] then Ok(matched)
    else
      match FirstMatch(entries, Lower(cands[0]))
      case None => MatchFrom(entries, cands[1..], matched)
      case Some(i) =>
        if entries[i].id.None? then Err(MissingId)
        else if entries[i].id in matched then MatchFrom(entries, cands[1..], matched)
        else MatchFrom(entries, cands[1..], matched + [entries[i].id])
  }

  /** `tasks.filter((t) => !usedIds.has(t._id.toString()))`, as identifiers;
      it throws at the first task without an identifier. */
  function Unmatched(entries: seq<Entry>, matched: seq<Option<string>>): (r: Result<seq<Option<string>>, ReorderError>)
    ensures r.Err? <==> exists i :: 0 <= i < |entries| && entries[i].id.None?
    ensures r.Ok? ==> IsSubsequence(r.value, Ids(entries))
    ensures r.Ok? ==> forall x :: multiset(r.value)[x] == if x in matched then 0 else multiset(Ids(entries))[x]
  {
    if entries == [] then Ok([])
    else
      var init := entries[..|entries| - 1];
      var last := entries[|entries| - 1];
      UnmatchedStep(entries, init, last);
      match Unmatched(init, matched)
      case Err(e) => Err(e)
      case Ok(rest) =>
        if last.id.None? then Err(MissingId)
        else if last.id in matched then
          SkipUsed(rest, Ids(init), last.id, matched);
          Ok(rest)
        else
          KeepUnused(rest, Ids(init), last.id, matched);
          Ok(rest + [last.id])
  }

  lemma UnmatchedStep(entries: seq<Entry>, init: seq<Entry>, last: Entry)
    requires entries != [] && init == entries[..|entries| - 1] && last == entries[|entries| - 1]
    ensures Ids(entries) == Ids(init) + [last.id]
    ensures (exists i :: 0 <= i < |entries| && entries[i].id.None?) <==>
              (exists i :: 0 <= i < |init| && init[i].id.None?) || last.id.None?
  {
    assert entries == init + [last];
    assert forall i :: 0 <= i < |init| ==> init[i] == entries[i];
  }

  /** A used identifier at the end of the list is left out. */
  lemma SkipUsed<T>(rest: seq<T>, ids: seq<T>, y: T, matched: seq<T>)
    requires IsSubsequence(rest, ids)
    requires forall x :: multiset(rest)[x] == if x in matched then 0 else multiset(ids)[x]
    requires y in matched
    ensures IsSubsequence(rest, ids + [y])
    ensures forall x :: multiset(rest)[x] == if x in matched then 0 else multiset(ids + [y])[x]
  {
    assert (ids + [y])[..|ids|] == ids;
  }

  /** An unused identifier at the end of the list is kept at the end. */
  lemma KeepUnused<T>(rest: seq<T>, ids: seq<T>, y: T, matched: seq<T>)
    requires IsSubsequence(rest, ids)
    requires forall x :: multiset(rest)[x] == if x in matched then 0 else multiset(ids)[x]
    requires y !in matched
    ensures IsSubsequence(rest + [y], ids + [y])
    ensures forall x :: multiset(rest + [y])[x] == if x in matched then 0 else multiset(ids + [y])[x]
  {
    assert (rest + [y])[..|rest|] == rest;
    assert (ids + [y])[..|ids|] == ids;
  }

  /** The reconciler: the original order as a fallback when the answer is
      empty or yields no order at all; otherwise the matched identifiers
      followed by the unmatched ones. */
  function Reconcile(tasks: seq<Item>, aiText: string): (r: Result<Reordered, ReorderError>)
    ensures r.Ok? && r.value.fallback ==> r.value.order == CurrentIds(tasks)
    ensures aiText == "" ==> r == Ok(Reordered(CurrentIds(tasks), true))
  {
    var currentIds := CurrentIds(tasks);
    var entries := Entries(tasks);
    if aiText == "" then Ok(Reordered(currentIds, true))
    else
      match MatchFrom(entries, Candidates(aiText), [])
      case Err(e) => Err(e)
      case Ok(matched) =>
        match Unmatched(entries, matched)
        case Err(e) => Err(e)
        case Ok(rest) =>
          var order := matched + rest;
          if order == [] then Ok(Reordered(currentIds, true))
          else Ok(Reordered(order, false))
  }

  /* ------------------------------------------------------ properties */

  /** The identifier of each candidate's first matching task, candidate by
      candidate; candidates without a match contribute nothing. */
  function Targets(entries: seq<Entry>, cands: seq<string>): seq<Option<string>>
    decreases |cands|
  {
    if cands == [] then []
    else
      (match FirstMatch(entries, Lower(cands[0]))
       case None => []
       case Some(i) => [entries[i].id])
      + Targets(entries, cands[1..])
  }

  predicate AllIdsPresent(tasks: seq<Item>) {
    forall i :: 0 <= i < |tasks| ==> tasks[i].id.Some?
  }

  predicate Identified(entries: seq<Entry>) {
    forall i :: 0 <= i < |entries| ==> entries[i].id.Some?
  }

  lemma EntriesKeepIds(tasks: seq<Item>)
    ensures AllIdsPresent(tasks) <==> Identified(Entries(tasks))
    ensures Ids(Entries(tasks)) == CurrentIds(tasks)
  {
  }

  lemma {:induction false} TargetsAreIds(entries: seq<Entry>, cands: seq<string>)
    ensures forall k :: 0 <= k < |Targets(entries, cands)| ==> Targets(entries, cands)[k] in Ids(entries)
    decreases |cands|
  {
    if cands != [] {
      TargetsAreIds(entries, cands[1..]);
      var t := Targets(entries, cands);
      var t' := Targets(entries, cands[1..]);
      var fm := FirstMatch(entries, Lower(cands[0]));
      if fm.None? {
        assert t == t';
      } else {
        var i := fm.value;
        assert t == [entries[i].id] + t';
        assert Ids(entries)[i] == entries[i].id;
        forall k | 0 <= k < |t|
          ensures t[k] in Ids(entries)
        {
          if k > 0 {
            assert t[k] == t'[k - 1];
          }
        }
      }
    }
  }

  /** With every identifier present, the matching loop collects the
      distinct first-match identifiers, in the order their candidates
      appear. */
  lemma {:induction false} MatchFromIsDistinct(entries: seq<Entry>, cands: seq<string>, seen: seq<Option<string>>)
    requires Identified(entries)
    ensures MatchFrom(entries, cands, Distinct(seen)) == Ok(Distinct(seen + Targets(entries, cands)))
    decreases |cands|
  {
    if cands == [] {
      assert seen + [] == seen;
    } else {
      var rest := cands[1..];
      match FirstMatch(entries, Lower(cands[0]))
      case None =>
        MatchFromIsDistinct(entries, rest, seen);
        NoneStepCloses(entries, cands, seen);
      case Some(i) =>
        var x := entries[i].id;
        MatchFromIsDistinct(entries, rest, seen + [x]);
        SomeStepCloses(entries, cands, seen, i);
    }
  }

  lemma NoneStepCloses(entries: seq<Entry>, cands: seq<string>, seen: seq<Option<string>>)
    requires cands != [] && FirstMatch(entries, Lower(cands[0])).None?
    requires MatchFrom(entries, cands[1..], Distinct(seen)) == Ok(Distinct(seen + Targets(entries, cands[1..])))
    ensures MatchFrom(entries, cands, Distinct(seen)) == Ok(Distinct(seen + Targets(entries, cands)))
  {
    MatchStepNone(entries, cands);
  }

  lemma SomeStepCloses(entries: seq<Entry>, cands: seq<string>, seen: seq<Option<string>>, i: nat)
    requires cands != [] && FirstMatch(entries, Lower(cands[0])) == Some(i)
    requires i < |entries| && entries[i].id.Some?
    requires MatchFrom(entries, cands[1..], Distinct(seen + [entries[i].id])) ==
               Ok(Distinct(seen + [entries[i].id] + Targets(entries, cands[1..])))
    ensures MatchFrom(entries, cands, Distinct(seen)) == Ok(Distinct(seen + Targets(entries, cands)))
  {
    var x := entries[i].id;
    var tail := Targets(entries, cands[1..]);
    MatchStepDistinct(entries, cands, seen, i);
    MatchStepSome(entries, cands, Distinct(seen), i);
    AppendRegroup(seen, x, tail, Targets(entries, cands));
  }

  lemma MatchStepDistinct(entries: seq<Entry>, cands: seq<string>, seen: seq<Option<string>>, i: nat)
    requires cands != [] && FirstMatch(entries, Lower(cands[0])) == Some(i)
    requires i < |entries| && entries[i].id.Some?
    ensures MatchFrom(entries, cands, Distinct(seen)) == MatchFrom(entries, cands[1..], Distinct(seen + [entries[i].id]))
  {
    MatchStepSome(entries, cands, Distinct(seen), i);
    DistinctSnoc(seen, entries[i].id);
  }

  /** A candidate without a match is skipped by the loop and by the
      targets alike. */
  lemma MatchStepNone(entries: seq<Entry>, cands: seq<string>)
    requires cands != [] && FirstMatch(entries, Lower(cands[0])).None?
    ensures forall m :: MatchFrom(entries, cands, m) == MatchFrom(entries, cands[1..], m)
    ensures Targets(entries, cands) == Targets(entries, cands[1..])
  {
  }

  /** A candidate whose first match has an identifier adds it unless it is
      already there. */
  lemma MatchStepSome(entries: seq<Entry>, cands: seq<string>, matched: seq<Option<string>>, i: nat)
    requires cands != [] && FirstMatch(entries, Lower(cands[0])) == Some(i)
    requires i < |entries| && entries[i].id.Some?
    ensures MatchFrom(entries, cands, matched) ==
              MatchFrom(entries, cands[1..], if entries[i].id in matched then matched else matched + [entries[i].id])
    ensures Targets(entries, cands) == [entries[i].id] + Targets(entries, cands[1..])
  {
  }

  /** The matched part of the order is the distinct first-match
      identifiers of the candidates. */
  lemma MatchedPrefix(tasks: seq<Item>, aiText: string)
    requires AllIdsPresent(tasks)
    ensures var entries := Entries(tasks);
            var cands := Candidates(aiText);
            MatchFrom(entries, cands, []) == Ok(Distinct(Targets(entries, cands)))
  {
    var entries := Entries(tasks);
    var cands := Candidates(aiText);
    EntriesKeepIds(tasks);
    MatchFromIsDistinct(entries, cands, []);
    assert [] + Targets(entries, cands) == Targets(entries, cands);
  }

  /** The reconciler throws exactly when the answer is non-empty and some
      task lacks an identifier. */
  lemma ErrorIffMissingId(tasks: seq<Item>, aiText: string)
    ensures Reconcile(tasks, aiText).Err? <==> aiText != "" && !AllIdsPresent(tasks)
  {
    var entries := Entries(tasks);
    assert AllIdsPresent(tasks) <==> !exists i :: 0 <= i < |entries| && entries[i].id.None? by {
      EntriesKeepIds(tasks);
      IdentifiedIffNoneMissing(entries);
    }
    if aiText != "" {
      ErrorIffEntryMissing(tasks, aiText);
    }
  }

  /** With a non-empty answer, the reconciler throws exactly when some
      entry has no identifier. */
  lemma ErrorIffEntryMissing(tasks: seq<Item>, aiText: string)
    requires aiText != ""
    ensures Reconcile(tasks, aiText).Err? <==> exists i :: 0 <= i < |Entries(tasks)| && Entries(tasks)[i].id.None?
  {
    ErrorCases(tasks, aiText);
  }

  /** With a non-empty answer, the reconciler throws when matching does or,
      after it, when the leftover pass does. */
  lemma ErrorCases(tasks: seq<Item>, aiText: string)
    requires aiText != ""
    ensures var m := MatchFrom(Entries(tasks), Candidates(aiText), []);
            Reconcile(tasks, aiText).Err? <==> m.Err? || Unmatched(Entries(tasks), m.value).Err?
  {
  }

  lemma IdentifiedIffNoneMissing(entries: seq<Entry>)
    ensures Identified(entries) <==> !exists i :: 0 <= i < |entries| && entries[i].id.None?
  {
  }

  lemma {:induction false} NoMatchesWithoutTasks(cands: seq<string>, matched: seq<Option<string>>)
    ensures MatchFrom([], cands, matched) == Ok(matched)
    decreases |cands|
  {
    if cands != [] {
      NoMatchesWithoutTasks(cands[1..], matched);
    }
  }

  /** Without tasks the answer is the (empty) original order, whatever the
      model said. */
  lemma NoTasksFallsBack(aiText: string)
    ensures Reconcile([], aiText) == Ok(Reordered([], true))
  {
    var none: seq<Item> := [];
    if aiText != "" {
      assert Entries(none) == [];
      assert MatchFrom(Entries(none), Candidates(aiText), []) == Ok([]) by {
        NoMatchesWithoutTasks(Candidates(aiText), []);
      }
      assert Unmatched(Entries(none), []) == Ok([]);
      ReconcileEmpty(none, aiText);
    }
  }

  /** When neither pass yields an identifier, the original order comes back
      as a fallback. */
  lemma ReconcileEmpty(tasks: seq<Item>, aiText: string)
    requires aiText != ""
    requires MatchFrom(Entries(tasks), Candidates(aiText), []) == Ok([])
    requires Unmatched(Entries(tasks), []) == Ok([])
    ensures Reconcile(tasks, aiText) == Ok(Reordered(CurrentIds(tasks), true))
  {
  }

  /** Distinct elements of `ids`, followed by the rest of `ids` in any
      order, are a permutation of `ids`. */
  lemma PermutationOfParts(ids: seq<Option<string>>, matched: seq<Option<string>>, rest: seq<Option<string>>)
    requires NoDuplicates(ids) && NoDuplicates(matched)
    requires forall k :: 0 <= k < |matched| ==> matched[k] in ids
    requires forall x :: multiset(rest)[x] == if x in matched then 0 else multiset(ids)[x]
    ensures multiset(matched + rest) == multiset(ids)
  {
    forall x
      ensures multiset(matched + rest)[x] == multiset(ids)[x]
    {
      NoDuplicatesCount(matched, x);
      NoDuplicatesCount(ids, x);
    }
  }

  /** With distinct identifiers on every task and a non-empty answer, the
      result is never the fallback; it is a permutation of the original
      order whose matched part is the distinct first-match identifiers in
      candidate order and whose rest keeps the original order. */
  lemma ReorderIsPermutation(tasks: seq<Item>, aiText: string)
    requires aiText != "" && tasks != []
    requires AllIdsPresent(tasks) && NoDuplicates(CurrentIds(tasks))
    ensures Reconcile(tasks, aiText).Ok?
    ensures var r := Reconcile(tasks, aiText).value;
            var matched := Distinct(Targets(Entries(tasks), Candidates(aiText)));
            && !r.fallback
            && multiset(r.order) == multiset(CurrentIds(tasks))
            && |matched| <= |r.order| && r.order[..|matched|] == matched
            && IsSubsequence(r.order[|matched|..], CurrentIds(tasks))
  {
    var matched, rest := ReorderSplits(tasks, aiText);
    OrderParts(CurrentIds(tasks), matched, rest);
  }

  /** With every identifier present, the reconciler puts the distinct
      matches first and the unmatched identifiers after them. */
  lemma ReorderSplits(tasks: seq<Item>, aiText: string) returns (matched: seq<Option<string>>, rest: seq<Option<string>>)
    requires aiText != "" && tasks != []
    requires AllIdsPresent(tasks)
    ensures matched == Distinct(Targets(Entries(tasks), Candidates(aiText)))
    ensures Reconcile(tasks, aiText) == Ok(Reordered(matched + rest, false))
    ensures NoDuplicates(matched)
    ensures forall k :: 0 <= k < |matched| ==> matched[k] in CurrentIds(tasks)
    ensures IsSubsequence(rest, CurrentIds(tasks))
    ensures forall x :: multiset(rest)[x] == if x in matched then 0 else multiset(CurrentIds(tasks))[x]
  {
    var entries := Entries(tasks);
    var cands := Candidates(aiText);
    EntriesKeepIds(tasks);
    var ids := CurrentIds(tasks);
    var targets := Targets(entries, cands);
    matched := Distinct(targets);
    DistinctNoDuplicates(targets);
    MatchedPrefix(tasks, aiText);
    TargetsAreIds(entries, cands);
    MatchedAreIds(ids, targets, matched);
    rest := UnmatchedOfIdentified(tasks, matched);
    PartsNonEmpty(ids, matched, rest);
    ReconcileShape(tasks, aiText, matched, rest);
  }

  /** With every identifier present, the leftover pass succeeds. */
  lemma UnmatchedOfIdentified(tasks: seq<Item>, matched: seq<Option<string>>) returns (rest: seq<Option<string>>)
    requires AllIdsPresent(tasks)
    ensures Unmatched(Entries(tasks), matched) == Ok(rest)
    ensures IsSubsequence(rest, CurrentIds(tasks))
    ensures forall x :: multiset(rest)[x] == if x in matched then 0 else multiset(CurrentIds(tasks))[x]
  {
    var entries := Entries(tasks);
    EntriesKeepIds(tasks);
    IdentifiedIffNoneMissing(entries);
    rest := Unmatched(entries, matched).value;
  }

  /** Every distinct target is one of the identifiers. */
  lemma MatchedAreIds(ids: seq<Option<string>>, targets: seq<Option<string>>, matched: seq<Option<string>>)
    requires forall j :: 0 <= j < |targets| ==> targets[j] in ids
    requires forall k :: 0 <= k < |matched| ==> matched[k] in targets
    ensures forall k :: 0 <= k < |matched| ==> matched[k] in ids
  {
    forall k | 0 <= k < |matched|
      ensures matched[k] in ids
    {
      var j :| 0 <= j < |targets| && targets[j] == matched[k];
    }
  }

  /** The matched identifiers followed by the rest: a permutation of the
      identifiers, non-empty when they are, with both parts recoverable. */
  lemma OrderParts(ids: seq<Option<string>>, matched: seq<Option<string>>, rest: seq<Option<string>>)
    requires ids != []
    requires NoDuplicates(ids) && NoDuplicates(matched)
    requires forall k :: 0 <= k < |matched| ==> matched[k] in ids
    requires forall x :: multiset(rest)[x] == if x in matched then 0 else multiset(ids)[x]
    ensures multiset(matched + rest) == multiset(ids)
    ensures matched + rest != []
    ensures (matched + rest)[..|matched|] == matched && (matched + rest)[|matched|..] == rest
  {
    PermutationOfParts(ids, matched, rest);
    assert ids[0] in multiset(ids);
  }

  /** Some identifier is either matched or left over, so the order is not empty. */
  lemma PartsNonEmpty(ids: seq<Option<string>>, matched: seq<Option<string>>, rest: seq<Option<string>>)
    requires ids != []
    requires forall x :: multiset(rest)[x] == if x in matched then 0 else multiset(ids)[x]
    ensures matched + rest != []
  {
    assert ids[0] in multiset(ids);
    assert multiset(rest)[ids[0]] == if ids[0] in matched then 0 else multiset(ids)[ids[0]];
  }

  lemma ReconcileShape(tasks: seq<Item>, aiText: string, matched: seq<Option<string>>, rest: seq<Option<string>>)
    requires aiText != ""
    requires MatchFrom(Entries(tasks), Candidates(aiText), []) == Ok(matched)
    requires Unmatched(Entries(tasks), matched) == Ok(rest)
    requires matched + rest != []
    ensures Reconcile(tasks, aiText) == Ok(Reordered(matched + rest, false))
  {
  }

  /* ------------------------------------------------- two-task swap */

  lemma {:induction false} SplitWithoutSeparators(a: string)
    requires forall k :: 0 <= k < |a| ==> a[k] != '\n' && a[k] != ','
    ensures Split(a, {'\n', ','}) == [a]
  {
    if a != [] {
      SplitWithoutSeparators(a[1..]);
      assert [a[0]] + a[1..] == a;
    }
  }

  lemma {:induction false} SplitAtNewline(a: string, b: string)
    requires forall k :: 0 <= k < |a| ==> a[k] != '\n' && a[k] != ','
    ensures Split(a + ['\n'] + b, {'\n', ','}) == [a] + Split(b, {'\n', ','})
  {
    var s := a + ['\n'] + b;
    if a == [] {
      assert s[1..] == b;
    } else {
      assert s[1..] == a[1..] + ['\n'] + b;
      SplitAtNewline(a[1..], b);
      assert [a[0]] + a[1..] == a;
    }
  }

  /** A title the model can echo back as one candidate: non-empty, already
      trimmed, without line breaks or commas. */
  predicate PlainTitle(a: string) {
    a != "" && IsTrimmed(a) && forall k :: 0 <= k < |a| ==> a[k] != '\n' && a[k] != ','
  }

  /** Two plain titles on two lines are read back as exactly those two
      candidates. */
  lemma TwoLineCandidates(a: string, b: string)
    requires PlainTitle(a) && PlainTitle(b)
    ensures Candidates(a + "\n" + b) == [a, b]
  {
    SplitWithoutSeparators(b);
    SplitAtNewline(a, b);
    assert a + "\n" + b == a + ['\n'] + b;
    assert Split(a + "\n" + b, {'\n', ','}) == [a, b];
    TrimFixesTrimmed(a);
    TrimFixesTrimmed(b);
    assert TrimAll([a, b]) == [a, b];
    assert [a, b][1..] == [b];
    assert [b][1..] == [];
    assert DropEmpty([b]) == [b] + DropEmpty([]);
    assert DropEmpty([a, b]) == [a] + DropEmpty([b]);
  }

  /** The key of a task whose title is plain is its lower-cased title. */
  lemma PlainTitleKey(t: Item)
    requires t.title.Some? && PlainTitle(t.title.value)
    ensures TaskKey(t) == Lower(t.title.value) && TaskKey(t) != ""
  {
    TrimFixesTrimmed(t.title.value);
  }

  lemma EntriesOfPair(t0: Item, t1: Item)
    ensures Entries([t0, t1]) == [Entry(t0.id, TaskKey(t0)), Entry(t1.id, TaskKey(t1))]
  {
    var tasks := [t0, t1];
    assert tasks[1..] == [t1] && [t1][1..] == [];
  }

  lemma SwapTargets(entries: seq<Entry>, a: string, b: string, idA: string, idB: string)
    requires Lower(a) != "" && Lower(b) != "" && !TitlesMatch(Lower(a), Lower(b))
    requires entries == [Entry(Some(idA), Lower(a)), Entry(Some(idB), Lower(b))]
    ensures Targets(entries, [b, a]) == [Some(idB), Some(idA)]
  {
    assert entries[1..] == [entries[1]];
    assert TitlesMatch(Lower(b), Lower(b)) && TitlesMatch(Lower(a), Lower(a));
    assert FirstMatch(entries[1..], Lower(b)) == Some(0);
    assert FirstMatch(entries, Lower(b)) == Some(1);
    assert FirstMatch(entries, Lower(a)) == Some(0);
    assert [b, a][1..] == [a] && [a][1..] == [];
    assert Targets(entries, [a]) == [Some(idA)] + Targets(entries, []);
    assert Targets(entries, [b, a]) == [Some(idB)] + Targets(entries, [a]);
  }

  lemma DistinctPair<T>(x: T, y: T)
    requires x != y
    ensures Distinct([x, y]) == [x, y]
  {
    assert [x, y][..1] == [x];
    assert [x][..0] == [];
    assert Distinct([x]) == [x];
    assert y !in [x];
  }

  /** When every identifier is used, nothing is left to append. */
  lemma NothingUnmatched(entries: seq<Entry>, matched: seq<Option<string>>)
    requires Identified(entries)
    requires forall i :: 0 <= i < |entries| ==> entries[i].id in matched
    ensures Unmatched(entries, matched) == Ok([])
  {
    var u := Unmatched(entries, matched);
    forall x
      ensures multiset(u.value)[x] == 0
    {
      if x !in matched {
        forall i | 0 <= i < |entries|
          ensures Ids(entries)[i] != x
        {
          assert entries[i].id in matched;
        }
        assert x !in Ids(entries);
      }
    }
    assert multiset(u.value) == multiset{};
  }

  /** Two tasks read back in the order second, first. */
  lemma SwapMatched(entries: seq<Entry>, a: string, b: string, idA: string, idB: string)
    requires Lower(a) != "" && Lower(b) != "" && !TitlesMatch(Lower(a), Lower(b)) && idA != idB
    requires entries == [Entry(Some(idA), Lower(a)), Entry(Some(idB), Lower(b))]
    ensures MatchFrom(entries, [b, a], []) == Ok([Some(idB), Some(idA)])
  {
    SwapTargets(entries, a, b, idA, idB);
    MatchFromIsDistinct(entries, [b, a], []);
    var none: seq<Option<string>> := [];
    assert Distinct(none) == [];
    assert [] + [Some(idB), Some(idA)] == [Some(idB), Some(idA)];
    DistinctPair(Some(idB), Some(idA));
  }

  lemma SwapParts(tasks: seq<Item>, a: string, b: string, idA: string, idB: string)
    requires PlainTitle(a) && PlainTitle(b) && idA != idB
    requires !TitlesMatch(Lower(a), Lower(b))
    requires tasks == [Item(Some(idA), Some(a), None, None), Item(Some(idB), Some(b), None, None)]
    ensures MatchFrom(Entries(tasks), Candidates(b + "\n" + a), []) == Ok([Some(idB), Some(idA)])
  {
    var entries := SwapEntries(tasks, a, b, idA, idB);
    TwoLineCandidates(b, a);
    SwapMatched(entries, a, b, idA, idB);
  }

  lemma SwapLeavesNothing(tasks: seq<Item>, a: string, b: string, idA: string, idB: string)
    requires PlainTitle(a) && PlainTitle(b)
    requires tasks == [Item(Some(idA), Some(a), None, None), Item(Some(idB), Some(b), None, None)]
    ensures Unmatched(Entries(tasks), [Some(idB), Some(idA)]) == Ok([])
  {
    var entries := SwapEntries(tasks, a, b, idA, idB);
    PairAllUsed(entries, idA, idB);
    NothingUnmatched(entries, [Some(idB), Some(idA)]);
  }

  lemma PairAllUsed(entries: seq<Entry>, idA: string, idB: string)
    requires |entries| == 2 && entries[0].id == Some(idA) && entries[1].id == Some(idB)
    ensures Identified(entries)
    ensures forall i :: 0 <= i < |entries| ==> entries[i].id in [Some(idB), Some(idA)]
  {
  }

  lemma SwapEntries(tasks: seq<Item>, a: string, b: string, idA: string, idB: string) returns (entries: seq<Entry>)
    requires PlainTitle(a) && PlainTitle(b)
    requires tasks == [Item(Some(idA), Some(a), None, None), Item(Some(idB), Some(b), None, None)]
    ensures entries == Entries(tasks) == [Entry(Some(idA), Lower(a)), Entry(Some(idB), Lower(b))]
    ensures Lower(a) != "" && Lower(b) != ""
  {
    EntriesOfPair(tasks[0], tasks[1]);
    PlainTitleKey(tasks[0]);
    PlainTitleKey(tasks[1]);
    entries := Entries(tasks);
  }

  /** Two tasks with distinct identifiers and plain titles, neither of
      which matches the other: answering with the second title and then the
      first swaps the identifiers, and it is not a fallback. */
  lemma SwapTwoTasks(a: string, b: string, idA: string, idB: string)
    requires PlainTitle(a) && PlainTitle(b) && idA != idB
    requires !TitlesMatch(Lower(a), Lower(b))
    ensures var tasks := [Item(Some(idA), Some(a), None, None), Item(Some(idB), Some(b), None, None)];
            Reconcile(tasks, b + "\n" + a) == Ok(Reordered([Some(idB), Some(idA)], false))
  {
    var tasks := [Item(Some(idA), Some(a), None, None), Item(Some(idB), Some(b), None, None)];
    SwapParts(tasks, a, b, idA, idB);
    SwapLeavesNothing(tasks, a, b, idA, idB);
    ReconcileShape(tasks, b + "\n" + a, [Some(idB), Some(idA)], []);
    assert [Some(idB), Some(idA)] + [] == [Some(idB), Some(idA)];
  }

  /** A candidate that matches no task leaves the matched identifiers as
      they were. */
  lemma UnmatchedCandidateDropped(entries: seq<Entry>, c: string, cands: seq<string>)
    requires forall k :: 0 <= k < |entries| ==> !TitlesMatch(entries[k].key, Lower(c))
    ensures Targets(entries, [c] + cands) == Targets(entries, cands)
  {
    assert ([c] + cands)[1..] == cands;
  }
}
