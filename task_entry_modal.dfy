/**
  The new-session dialog (src/components/TaskEntryModal.tsx): the list of
  past tasks suggested while typing, plain submission, and the AI-assisted
  start with its fallback.
 */
module TaskEntryModal {
  import opened JsText
  import opened Types
  import Ai
  import Dashboard

  // ----- suggestions -----

  /** Where a title first appears in the task list; titles that do not appear
      rank after every position. */
  function TitleRank(tasks: seq<Task>, title: string): nat
  {
    match FindTitle(tasks, title)
    case Some(k) => k
    case None => |tasks|
  }

  /** The titles of `tasks[..n]` as `new Set(...)` iterates them: each title
      once, in the order of its first appearance. */
  function UniqueTitlesUpTo(tasks: seq<Task>, n: nat): (r: seq<string>)
    requires n <= |tasks|
    ensures forall i :: 0 <= i < |r| ==> TitleRank(tasks, r[i]) < n
    ensures forall i, j :: 0 <= i < j < |r| ==> TitleRank(tasks, r[i]) < TitleRank(tasks, r[j])
    ensures forall k :: 0 <= k < n ==> tasks[k].title in r
  {
    if n == 0 then []
    else
      var rest := UniqueTitlesUpTo(tasks, n - 1);
      if TitleRank(tasks, tasks[n - 1].title) == n - 1 then rest + [tasks[n - 1].title] else rest
  }

  /** `Array.from(new Set(tasks.map(t => t.title)))`. */
  function UniqueTitles(tasks: seq<Task>): (r: seq<string>)
    ensures forall i :: 0 <= i < |r| ==> TitleRank(tasks, r[i]) < |tasks|
    ensures forall i, j :: 0 <= i < j < |r| ==> TitleRank(tasks, r[i]) < TitleRank(tasks, r[j])
    ensures forall k :: 0 <= k < |tasks| ==> tasks[k].title in r
  {
    UniqueTitlesUpTo(tasks, |tasks|)
  }

  /** `tasks.find(t => t.title === title)!` for a title that occurs. */
  function FirstWithTitle(tasks: seq<Task>, title: string): (t: Task)
    requires TitleRank(tasks, title) < |tasks|
    ensures t.title == title && TitleRank(tasks, title) < |tasks| && t == tasks[TitleRank(tasks, title)]
  {
    tasks[TitleRank(tasks, title)]
  }

  /** `.map(title => tasks.find(...)!)` over the unique titles. */
  function Representatives(tasks: seq<Task>): (r: seq<Task>)
    ensures forall i :: 0 <= i < |r| ==> TitleRank(tasks, r[i].title) < |tasks| && r[i] == FirstWithTitle(tasks, r[i].title)
    ensures forall i, j :: 0 <= i < j < |r| ==> TitleRank(tasks, r[i].title) < TitleRank(tasks, r[j].title)
    ensures forall k :: 0 <= k < |tasks| ==> FirstWithTitle(tasks, tasks[k].title) in r
  {
    var titles := UniqueTitles(tasks);
    var r := seq(|titles|, i requires 0 <= i < |titles| => FirstWithTitle(tasks, titles[i]));
    assert forall k :: 0 <= k < |tasks| ==> FirstWithTitle(tasks, tasks[k].title) in r by {
      forall k | 0 <= k < |tasks| ensures FirstWithTitle(tasks, tasks[k].title) in r {
        var i :| 0 <= i < |titles| && titles[i] == tasks[k].title;
        assert r[i] == FirstWithTitle(tasks, tasks[k].title);
      }
    }
    r
  }

  /** `t.title.toLowerCase().includes(input.toLowerCase())`. */
  predicate Matches(t: Task, input: string)
  {
    Includes(ToLower(t.title), ToLower(input))
  }

  /** `.filter(t => Matches(t, input))`. */
  function Matching(cands: seq<Task>, input: string): (r: seq<Task>)
    ensures |r| <= |cands|
    ensures forall i :: 0 <= i < |r| ==> r[i] in cands && Matches(r[i], input)
    ensures forall t :: t in cands && Matches(t, input) ==> t in r
  {
    if cands == [] then []
    else
      var last := cands[|cands| - 1];
      assert cands == cands[..|cands| - 1] + [last];
      Matching(cands[..|cands| - 1], input) + (if Matches(last, input) then [last] else [])
  }

  /** Tasks listed in strictly increasing order of where their titles first appear. */
  predicate InFirstAppearanceOrder(tasks: seq<Task>, cs: seq<Task>)
  {
    forall i, j :: 0 <= i < j < |cs| ==> TitleRank(tasks, cs[i].title) < TitleRank(tasks, cs[j].title)
  }

  /** Filtering keeps the first-appearance order. */
  lemma {:induction false} MatchingKeepsOrder(tasks: seq<Task>, cands: seq<Task>, input: string)
    requires InFirstAppearanceOrder(tasks, cands)
    ensures InFirstAppearanceOrder(tasks, Matching(cands, input))
  {
    if cands != [] {
      var front := cands[..|cands| - 1];
      var last := cands[|cands| - 1];
      MatchingKeepsOrder(tasks, front, input);
      var m := Matching(front, input);
      forall i | 0 <= i < |m| ensures TitleRank(tasks, m[i].title) < TitleRank(tasks, last.title) {
        var p :| 0 <= p < |front| && front[p] == m[i];
        assert cands[p] == m[i];
      }
    }
  }

  /** `.slice(0, 5)`. */
  function TakeFive(s: seq<Task>): (r: seq<Task>)
    ensures |r| == if |s| <= 5 then |s| else 5
    ensures r == s[..|r|]
  {
    if |s| <= 5 then s else s[..5]
  }

  /** The suggestion list: empty for a blank input, else the pipeline. */
  function Suggestions(tasks: seq<Task>, input: string): (r: seq<Task>)
    ensures Trim(input) == "" ==> r == []
    ensures |r| <= 5
  {
    if Trim(input) != "" then TakeFive(Matching(Representatives(tasks), input)) else []
  }

  /** Each suggestion is the first task carrying its title, and its title
      contains the input, both compared as ASCII lower case. */
  lemma SuggestionsAreFirstMatches(tasks: seq<Task>, input: string, i: nat)
    requires i < |Suggestions(tasks, input)|
    ensures var r := Suggestions(tasks, input);
      TitleRank(tasks, r[i].title) < |tasks| && r[i] == FirstWithTitle(tasks, r[i].title)
    ensures Contains(ToLower(Suggestions(tasks, input)[i].title), ToLower(input))
  {
    var m := Matching(Representatives(tasks), input);
    assert Suggestions(tasks, input)[i] == m[i];
  }

  /** Suggestions follow the order in which their titles first appear, so no
      title is suggested twice. */
  lemma SuggestionsInFirstAppearanceOrder(tasks: seq<Task>, input: string)
    ensures InFirstAppearanceOrder(tasks, Suggestions(tasks, input))
    ensures var r := Suggestions(tasks, input);
      forall i, j :: 0 <= i < j < |r| ==> r[i].title != r[j].title
  {
    if Trim(input) != "" {
      var reps := Representatives(tasks);
      MatchingKeepsOrder(tasks, reps, input);
      var m := Matching(reps, input);
      var r := TakeFive(m);
      assert forall i :: 0 <= i < |r| ==> r[i] == m[i];
    }
  }

  /** When fewer than five are shown for a non-blank input, every task whose
      title matches has the first task carrying that title among them. */
  lemma SuggestionsCompleteBelowFive(tasks: seq<Task>, input: string, k: nat)
    requires Trim(input) != "" && |Suggestions(tasks, input)| < 5
    requires k < |tasks| && Matches(tasks[k], input)
    ensures FirstWithTitle(tasks, tasks[k].title) in Suggestions(tasks, input)
  {
    var m := Matching(Representatives(tasks), input);
    assert Suggestions(tasks, input) == m;
    var f := FirstWithTitle(tasks, tasks[k].title);
    assert f.title == tasks[k].title;
  }

  // ----- starting a session -----

  /** The arguments `onStart` is called with. */
  datatype StartCall = StartCall(title: string, plan: Option<string>)

  /** `handleSubmit`: start with the input as typed, when it is not blank. */
  function Submit(input: string): Option<StartCall>
  {
    if Trim(input) != "" then Some(StartCall(input, None)) else None
  }

  /** Submission happens exactly when the input has a non-white-space
      character, and passes the input untrimmed. */
  lemma SubmitIffNotBlank(input: string)
    ensures Submit(input).Some? <==> exists i :: 0 <= i < |input| && !IsSpace(input[i])
    ensures Submit(input).Some? ==> Submit(input).value.title == input
  {
    TrimEmptyIffBlank(input);
  }

  /** Clicking a suggestion starts its title, with no plan. */
  function PickSuggestion(t: Task): (c: StartCall)
    ensures c.title == t.title && c.plan == None
  {
    StartCall(t.title, None)
  }

  /** Starting a picked suggestion reuses the very task it shows: no task is
      added, that task becomes the target, and it is set in progress. */
  lemma PickedSuggestionReusesTask(tasks: seq<Task>, input: string, i: nat, active: Option<string>, newId: string)
    requires i < |Suggestions(tasks, input)|
    ensures var s := Suggestions(tasks, input)[i];
      var c := PickSuggestion(s);
      var r := Dashboard.StartedTasks(tasks, active, c.title, c.plan, newId);
      var k := TitleRank(tasks, s.title);
      k < |tasks| && tasks[k] == s && |r| == |tasks|
      && Dashboard.StartTarget(tasks, c.title, newId) == s.id
      && r[k] == s.(status := Some(InProgress))
  {
    SuggestionsAreFirstMatches(tasks, input, i);
    var s := Suggestions(tasks, input)[i];
    var k := TitleRank(tasks, s.title);
    assert FindTitle(tasks, s.title) == Some(k);
    Dashboard.StartReusesFirstMatch(tasks, active, s.title, None, newId, k);
  }

  /** How the task analysis ended: a result whose title is given, or an exception. */
  datatype AnalysisOutcome = Analyzed(title: string) | Failed

  /** `handleAIAssist`: nothing for a blank input or a missing or empty key;
      otherwise start with the analysed title, or with the input after a
      failure. The result object has no `plan` property, so the plan passed
      is always undefined. */
  function AIAssist(input: string, aiConfig: Option<AIConfig>, outcome: AnalysisOutcome): (c: Option<StartCall>)
  {
    if Trim(input) == "" || aiConfig.None? || aiConfig.value.apiKey == "" then None
    else match outcome
      case Analyzed(title) => Some(StartCall(title, None))
      case Failed => Some(StartCall(input, None))
  }

  /** The assisted start never carries a plan; after a failure it starts the
      input as typed; it runs only when the analysis would send a request
      rather than return its offline result. */
  lemma AIAssistSpec(input: string, aiConfig: Option<AIConfig>, outcome: AnalysisOutcome, env: Ai.Env)
    ensures var c := AIAssist(input, aiConfig, outcome);
      (c.Some? ==> c.value.plan == None)
      && (c.Some? <==> Trim(input) != "" && aiConfig.Some? && aiConfig.value.apiKey != "")
      && (c.Some? && outcome == Failed ==> c.value.title == input)
      && (c.Some? ==> Ai.AnalyzeTaskInput(input, aiConfig.value, env).Send?)
  {
  }
}
