/** The prompt builder of the `/suggest` route: from the request's mode,
    task or habit list, single task, free prompt and journal text it builds
    the one instruction string sent to the models. */
module PromptBuilder {
  import opened Values
  import opened Text

  /** A task or habit as the request carries it. A field that is missing
      or empty is `None` or `Some("")`; both are falsy. */
  datatype Item = Item(id: Option<string>, title: Option<string>, name: Option<string>, description: Option<string>)

  /** The fields of the `/suggest` request body the route reads. */
  datatype SuggestRequest = SuggestRequest(
    mode: Option<string>,
    tasks: seq<Item>,
    task: Option<Item>,
    prompt: Option<string>,
    journal: Option<string>)

  const TaskImprovementIntro: string :=
    "Improve each task below. For each task provide:\n"
    + "- One clearer, concise rewritten task (one line).\n"
    + "- Two concrete next actions that can be done today (two short bullet lines).\n\n"
    + "Format example:\n"
    + "Task: <original task>\n"
    + "Improved: <one-line improved task>\n"
    + "Next actions:\n"
    + "- <action 1>\n"
    + "- <action 2>\n\n"
    + "Tasks:\n"

  const TaskReorderIntro: string :=
    "Reorder the following task titles from highest to lowest priority. "
    + "Return ONLY the task titles, one per line, with no extra text or numbering. "
    + "If a title is ambiguous, keep the original text exactly as shown.\n\n"

  const TaskBreakdownIntro: string :=
    "Break this task into 4-8 short, actionable steps (numbered). Each step should be a single short sentence.\n\n"

  const HabitCoachIntro: string :=
    "For each habit below, give 1\U{2013}2 short, practical improvement tips (each tip one line):\n\n"

  const HabitRoutineIntro: string :=
    "Create a simple weekly routine using these habits. Provide a few bullet points describing what to do on different days (keep concise):\n\n"

  const HabitDisciplineIntro: string :=
    "Give realistic discipline and motivation tips to help someone stay consistent. Keep suggestions short and encouraging:\n\n"

  const JournalSummaryIntro: string :=
    "Summarize this journal entry in 3\U{2013}6 concise bullet points focusing on key events and feelings:\n\n"

  const JournalExtractIntro: string :=
    "From the journal entry below, extract any tasks or action items as a bullet list (one action per line):\n\n"

  const JournalMoodIntro: string :=
    "Analyze the emotional tone of this journal entry in 2\U{2013}3 short sentences and give 2 simple, practical coping or reflection suggestions:\n\n"

  const GeneralTasksIntro: string := "A user has the following tasks:\n"
  const GeneralRequestHeading: string := "\n\nUser request:\n"
  const GeneralTasksOutro: string :=
    "\n\nPrioritize what they should focus on today and give a short reason for each top priority (1-3 items). Then provide 2 concrete next steps."

  const GeneralIntro: string :=
    "Answer the following request in a concise, practical way. Use short paragraphs or bullet points.\n\n"
    + "Request:\n"

  const DefaultIntro: string := "Answer the following request in a concise, practical way:\n\n"
  const DefaultRequest: string := "Give a helpful response."

  /** The modes with a template of their own. */
  const KnownModes: set<string> := {
    "task_improvement", "task_reorder", "task_breakdown",
    "habit_coach", "habit_routine", "habit_discipline",
    "journal_summary", "journal_extract", "journal_mood", "general"
  }

  /* ------------------------------------------------------ item lines */

  /** `t.title || t.name || placeholder`. */
  function Label(t: Item, placeholder: string): string {
    OrElse(t.title, OrElse(t.name, placeholder))
  }

  /** `t.description ? " — " + t.description : ""`. */
  function DescriptionSuffix(t: Item): string {
    if t.description.Some? && t.description.value != "" then " \U{2014} " + t.description.value else ""
  }

  /** The `n. ` that opens line `n` of a numbered list. */
  function Marker(n: nat): string {
    NatToString(n) + ". "
  }

  /** The task lines of `task_improvement`: the label trimmed, the
      placeholder `Task n`, the description after a dash. */
  function ImprovementLines(tasks: seq<Item>): seq<string> {
    seq(|tasks|, i requires 0 <= i < |tasks| => ImprovementLine(tasks[i], i + 1))
  }

  /** Line `n` of that listing. */
  function ImprovementLine(t: Item, n: nat): string {
    Marker(n) + Trim(Label(t, "Task " + NatToString(n))) + DescriptionSuffix(t)
  }

  /** The task lines of `general`: as above, but the label is not trimmed. */
  function GeneralLines(tasks: seq<Item>): seq<string> {
    seq(|tasks|, i requires 0 <= i < |tasks| =>
      Marker(i + 1) + Label(tasks[i], "Task " + NatToString(i + 1)) + DescriptionSuffix(tasks[i]))
  }

  /** The habit lines: no description, and the placeholder `Habit`. */
  function HabitLines(tasks: seq<Item>): seq<string> {
    seq(|tasks|, i requires 0 <= i < |tasks| => Marker(i + 1) + Label(tasks[i], "Habit"))
  }

  /** The titles `task_reorder` lists: each label trimmed, blanks dropped. */
  function ReorderTitles(tasks: seq<Item>): (titles: seq<string>)
    ensures forall k :: 0 <= k < |titles| ==> titles[k] != "" && IsTrimmed(titles[k])
  {
    var trimmed := seq(|tasks|, i requires 0 <= i < |tasks| => Trim(Label(tasks[i], "")));
    var titles := DropEmpty(trimmed);
    assert forall k :: 0 <= k < |titles| ==> titles[k] in trimmed;
    titles
  }

  /* ------------------------------------------------------ the prompt */

  /** The text that opens the prompt of a recognised mode. */
  function Intro(mode: string, hasTasks: bool): string {
    match mode
    case "task_improvement" => TaskImprovementIntro
    case "task_reorder" => TaskReorderIntro
    case "task_breakdown" => TaskBreakdownIntro
    case "habit_coach" => HabitCoachIntro
    case "habit_routine" => HabitRoutineIntro
    case "habit_discipline" => HabitDisciplineIntro
    case "journal_summary" => JournalSummaryIntro
    case "journal_extract" => JournalExtractIntro
    case "journal_mood" => JournalMoodIntro
    case _ => if hasTasks then GeneralTasksIntro else GeneralIntro
  }

  /** What follows the opening text of a recognised mode: the numbered
      list, the titles, the single task's title or the journal text. */
  function Body(mode: string, req: SuggestRequest): string {
    var tasks := req.tasks;
    match mode
    case "task_improvement" => Join(ImprovementLines(tasks), "\n")
    case "task_reorder" => Join(ReorderTitles(tasks), "\n")
    case "task_breakdown" => if req.task.Some? then Trim(Label(req.task.value, "")) else ""
    case "habit_coach" => Join(HabitLines(tasks), "\n")
    case "habit_routine" => Join(HabitLines(tasks), "\n")
    case "habit_discipline" => Join(HabitLines(tasks), "\n")
    case "journal_summary" => OrElse(req.journal, "")
    case "journal_extract" => OrElse(req.journal, "")
    case "journal_mood" => OrElse(req.journal, "")
    case _ =>
      if |tasks| > 0 then
        Join(GeneralLines(tasks), "\n") + GeneralRequestHeading + OrElse(req.prompt, "") + GeneralTasksOutro
      else OrElse(req.prompt, "")
  }

  lemma IntroNonEmpty(mode: string, hasTasks: bool)
    ensures Intro(mode, hasTasks) != ""
  {
  }

  /** The prompt of a mode, `""` for a mode the route does not know. */
  function ModePrompt(req: SuggestRequest): string {
    if req.mode.Some? && req.mode.value in KnownModes then
      Intro(req.mode.value, |req.tasks| > 0) + Body(req.mode.value, req)
    else ""
  }

  /** The route's `fullPrompt`: the mode's prompt, or the default wrapper
      around the free prompt when the mode gave nothing. A recognised mode
      always starts with its own text, so the default never replaces it;
      any other mode gets exactly the default. */
  function BuildPrompt(req: SuggestRequest): (r: string)
    ensures r != ""
    ensures req.mode.Some? && req.mode.value in KnownModes ==>
              StartsWith(r, Intro(req.mode.value, |req.tasks| > 0))
    ensures req.mode.None? || req.mode.value !in KnownModes ==>
              r == DefaultIntro + OrElse(req.prompt, DefaultRequest)
  {
    var p := ModePrompt(req);
    if req.mode.Some? && req.mode.value in KnownModes then
      var intro := Intro(req.mode.value, |req.tasks| > 0);
      IntroNonEmpty(req.mode.value, |req.tasks| > 0);
      assert (intro + Body(req.mode.value, req))[..|intro|] == intro;
      assert p != "";
      p
    else
      assert p == "";
      DefaultIntro + OrElse(req.prompt, DefaultRequest)
  }

  /* ------------------------------------------------------ properties */

  /** A breakdown request whose task has a non-empty title asks about that
      title, trimmed, whatever the task's name says. */
  lemma BreakdownUsesTitle(req: SuggestRequest, title: string)
    requires req.mode == Some("task_breakdown")
    requires req.task.Some? && req.task.value.title == Some(title) && title != ""
    ensures BuildPrompt(req) == TaskBreakdownIntro + Trim(title)
  {
    BreakdownPrompt(req);
  }

  lemma BreakdownPrompt(req: SuggestRequest)
    requires req.mode == Some("task_breakdown") && req.task.Some?
    ensures BuildPrompt(req) == TaskBreakdownIntro + Trim(Label(req.task.value, ""))
  {
    TaskModePrompts(req);
  }

  /** A list item without title and name is numbered and named by its
      position in task modes and called `Habit` in habit modes. */
  lemma PlaceholderLines(tasks: seq<Item>, i: nat)
    requires i < |tasks|
    requires OrElse(tasks[i].title, "") == "" && OrElse(tasks[i].name, "") == ""
    ensures ImprovementLines(tasks)[i] == Marker(i + 1) + "Task " + NatToString(i + 1) + DescriptionSuffix(tasks[i])
    ensures GeneralLines(tasks)[i] == Marker(i + 1) + "Task " + NatToString(i + 1) + DescriptionSuffix(tasks[i])
    ensures HabitLines(tasks)[i] == Marker(i + 1) + "Habit"
  {
    ImprovementLinesAt(tasks);
    PlaceholderLabel(tasks[i], "Task " + NatToString(i + 1));
    PlaceholderTrimmed(i + 1);
  }

  lemma PlaceholderLabel(t: Item, placeholder: string)
    requires OrElse(t.title, "") == "" && OrElse(t.name, "") == ""
    ensures Label(t, placeholder) == placeholder
  {
  }

  /** `Task n` has no white space at either end, so trimming keeps it. */
  lemma PlaceholderTrimmed(n: nat)
    ensures Trim("Task " + NatToString(n)) == "Task " + NatToString(n)
  {
    var digits := NatToString(n);
    var p := "Task " + digits;
    assert p[0] == 'T' && p[|p| - 1] == digits[|digits| - 1];
    assert IsTrimmed(p);
    TrimFixesTrimmed(p);
  }

  /** Line `i` of a numbered list opens with the decimal numeral of `i + 1`,
      which reads back as `i + 1`, followed by ". ". */
  lemma NumberedLine(tasks: seq<Item>, i: nat)
    requires i < |tasks|
    ensures var line := HabitLines(tasks)[i];
            var n := NatToString(i + 1);
            StartsWith(line, n + ". ") && ParseDecimal(n) == i + 1
  {
    DecimalRoundTrip(i + 1);
    var line := HabitLines(tasks)[i];
    var n := NatToString(i + 1);
    assert line == n + ". " + Label(tasks[i], "Habit");
    assert line[..|n + ". "|] == n + ". ";
  }

  /** No field of the item holds a line break. */
  predicate SingleLineItem(t: Item) {
    && (t.title.Some? ==> '\n' !in t.title.value)
    && (t.name.Some? ==> '\n' !in t.name.value)
    && (t.description.Some? ==> '\n' !in t.description.value)
  }

  lemma NoNewlineInNumeral(n: nat)
    ensures '\n' !in NatToString(n)
  {
    var s := NatToString(n);
    forall k | 0 <= k < |s|
      ensures s[k] != '\n'
    {
      assert IsAsciiDigit(s[k]);
    }
  }

  lemma NoNewlineInLabel(t: Item, placeholder: string)
    requires SingleLineItem(t) && '\n' !in placeholder
    ensures '\n' !in Label(t, placeholder)
  {
  }

  /** The prompt of each task mode: its instruction followed by the
      numbered task lines, the bare titles, or the single task's title. */
  lemma TaskModePrompts(req: SuggestRequest)
    ensures req.mode == Some("task_improvement") ==>
              BuildPrompt(req) == TaskImprovementIntro + Join(ImprovementLines(req.tasks), "\n")
    ensures req.mode == Some("task_reorder") ==>
              BuildPrompt(req) == TaskReorderIntro + Join(ReorderTitles(req.tasks), "\n")
    ensures req.mode == Some("task_breakdown") ==>
              BuildPrompt(req) == TaskBreakdownIntro + (if req.task.Some? then Trim(Label(req.task.value, "")) else "")
  {
  }

  /** The three habit modes share the numbered habit lines. */
  lemma HabitModePrompts(req: SuggestRequest)
    ensures req.mode == Some("habit_coach") ==> BuildPrompt(req) == HabitCoachIntro + Join(HabitLines(req.tasks), "\n")
    ensures req.mode == Some("habit_routine") ==> BuildPrompt(req) == HabitRoutineIntro + Join(HabitLines(req.tasks), "\n")
    ensures req.mode == Some("habit_discipline") ==> BuildPrompt(req) == HabitDisciplineIntro + Join(HabitLines(req.tasks), "\n")
  {
  }

  /** The three journal modes append the journal text, or nothing. */
  lemma JournalModePrompts(req: SuggestRequest)
    ensures req.mode == Some("journal_summary") ==> BuildPrompt(req) == JournalSummaryIntro + OrElse(req.journal, "")
    ensures req.mode == Some("journal_extract") ==> BuildPrompt(req) == JournalExtractIntro + OrElse(req.journal, "")
    ensures req.mode == Some("journal_mood") ==> BuildPrompt(req) == JournalMoodIntro + OrElse(req.journal, "")
  {
  }

  /** `general` with tasks lists them between its opening and the user's
      request, then asks for priorities. */
  lemma GeneralTasksPrompt(req: SuggestRequest)
    requires req.mode == Some("general") && |req.tasks| > 0
    ensures BuildPrompt(req) == GeneralTasksIntro + (Join(GeneralLines(req.tasks), "\n") + GeneralRequestHeading
                                                     + OrElse(req.prompt, "") + GeneralTasksOutro)
  {
    assert Intro("general", true) == GeneralTasksIntro;
  }

  /** `general` without tasks wraps the user's request alone. */
  lemma GeneralPrompt(req: SuggestRequest)
    requires req.mode == Some("general") && |req.tasks| == 0
    ensures BuildPrompt(req) == GeneralIntro + OrElse(req.prompt, "")
  {
  }

  /** An opening followed by newline-free lines joined with newlines splits
      back into those lines once the opening is cut off. */
  lemma ListingAfter(intro: string, lines: seq<string>, p: string)
    requires p == intro + Join(lines, "\n") && |lines| > 0
    requires forall k :: 0 <= k < |lines| ==> '\n' !in lines[k]
    ensures StartsWith(p, intro) && Split(p[|intro|..], {'\n'}) == lines
  {
    assert p[|intro|..] == Join(lines, "\n");
    assert p[..|intro|] == intro;
    SplitJoin(lines, '\n');
  }

  /** A line of the improvement listing holds no line break when its item
      holds none. */
  lemma ImprovementLineClean(t: Item, n: nat)
    requires SingleLineItem(t)
    ensures '\n' !in ImprovementLine(t, n)
  {
    NumberingClean(n);
    TitleClean(t, "Task " + NatToString(n));
    SuffixClean(t);
    NotInThree('\n', Marker(n), Trim(Label(t, "Task " + NatToString(n))), DescriptionSuffix(t));
  }

  lemma NumberingClean(n: nat)
    ensures '\n' !in Marker(n) && '\n' !in "Task " + NatToString(n)
  {
    NoNewlineInNumeral(n);
  }

  lemma TitleClean(t: Item, placeholder: string)
    requires SingleLineItem(t) && '\n' !in placeholder
    ensures '\n' !in Trim(Label(t, placeholder))
  {
    NoNewlineInLabel(t, placeholder);
    TrimKeepsOut(Label(t, placeholder), '\n');
  }

  lemma SuffixClean(t: Item)
    requires SingleLineItem(t)
    ensures '\n' !in DescriptionSuffix(t)
  {
  }

  lemma NotInThree(c: char, a: string, b: string, d: string)
    requires c !in a && c !in b && c !in d
    ensures c !in a + b + d
  {
  }

  /** Line `i` of the improvement listing is the line of item `i`,
      numbered from one. */
  lemma ImprovementLinesAt(tasks: seq<Item>)
    ensures |ImprovementLines(tasks)| == |tasks|
    ensures forall i :: 0 <= i < |tasks| ==> ImprovementLines(tasks)[i] == ImprovementLine(tasks[i], i + 1)
  {
  }

  lemma ImprovementLinesClean(tasks: seq<Item>)
    requires forall i :: 0 <= i < |tasks| ==> SingleLineItem(tasks[i])
    ensures forall i :: 0 <= i < |ImprovementLines(tasks)| ==> '\n' !in ImprovementLines(tasks)[i]
  {
    ImprovementLinesAt(tasks);
    forall i | 0 <= i < |tasks|
      ensures '\n' !in ImprovementLines(tasks)[i]
    {
      ImprovementLineClean(tasks[i], i + 1);
    }
  }

  /** With single-line items, the `task_improvement` prompt is its
      instruction followed by one line per task, in order: the task's
      number, its trimmed title (or `Task n`), and its description after a
      dash. */
  lemma ImprovementListingSplits(req: SuggestRequest)
    requires req.mode == Some("task_improvement") && |req.tasks| > 0
    requires forall i :: 0 <= i < |req.tasks| ==> SingleLineItem(req.tasks[i])
    ensures StartsWith(BuildPrompt(req), TaskImprovementIntro)
    ensures var listing := Split(BuildPrompt(req)[|TaskImprovementIntro|..], {'\n'});
            |listing| == |req.tasks|
            && forall i :: 0 <= i < |req.tasks| ==>
                 listing[i] == ImprovementLine(req.tasks[i], i + 1)
  {
    TaskModePrompts(req);
    ImprovementLinesAt(req.tasks);
    ImprovementLinesClean(req.tasks);
    ListingAfter(TaskImprovementIntro, ImprovementLines(req.tasks), BuildPrompt(req));
  }

  /** With single-line items and some non-blank title, the `task_reorder`
      prompt is its instruction followed by the trimmed, non-blank titles,
      one per line, and nothing else. */
  lemma ReorderListingSplits(req: SuggestRequest)
    requires req.mode == Some("task_reorder")
    requires forall i :: 0 <= i < |req.tasks| ==> SingleLineItem(req.tasks[i])
    requires ReorderTitles(req.tasks) != []
    ensures StartsWith(BuildPrompt(req), TaskReorderIntro)
    ensures Split(BuildPrompt(req)[|TaskReorderIntro|..], {'\n'}) == ReorderTitles(req.tasks)
  {
    TaskModePrompts(req);
    ReorderTitlesClean(req.tasks);
    ListingAfter(TaskReorderIntro, ReorderTitles(req.tasks), BuildPrompt(req));
  }

  /** With single-line items, no title holds a line break. */
  lemma ReorderTitlesClean(tasks: seq<Item>)
    requires forall i :: 0 <= i < |tasks| ==> SingleLineItem(tasks[i])
    ensures forall k :: 0 <= k < |ReorderTitles(tasks)| ==> '\n' !in ReorderTitles(tasks)[k]
  {
    var titles := ReorderTitles(tasks);
    var trimmed := seq(|tasks|, i requires 0 <= i < |tasks| => Trim(Label(tasks[i], "")));
    forall i | 0 <= i < |tasks|
      ensures '\n' !in trimmed[i]
    {
      NoNewlineInLabel(tasks[i], "");
      TrimKeepsOut(Label(tasks[i], ""), '\n');
    }
    forall k | 0 <= k < |titles|
      ensures '\n' !in titles[k]
    {
      assert titles[k] in trimmed;
    }
  }
}
