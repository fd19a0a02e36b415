/**
  The deterministic part of the AI helper (src/utils/ai.ts): how the
  endpoint, key and model are resolved from the user's configuration and the
  build environment, the request each call would send, the offline results
  returned when there is no key, and the text summary of a day's data.

  The network exchange itself is not modelled: a call either yields its
  offline result (`Mock`) or the request it would send (`Send`).
 */
module Ai {
  import opened JsText
  import opened Types
  import TaskList

  /** The build environment: `VITE_AI_BASE_URL`, `VITE_AI_API_KEY`,
      `VITE_AI_MODEL` (each possibly undefined) and the `DEV` flag. */
  datatype Env = Env(baseUrl: Option<string>, apiKey: Option<string>, model: Option<string>, dev: bool)

  const DefaultBaseUrl := "https://api.openai.com/v1"
  const DefaultModel := "gpt-4o-mini"
  const ProxyHost := "chat.ecnu.edu.cn"
  const ProxyPath := "/api/v1"

  /** What a call sends: the endpoint, the key put after `Bearer `, the model
      and the user message. */
  datatype Request = Request(url: string, authorization: string, model: string, userContent: string)

  /** A call's outcome before any network traffic. */
  datatype Outcome<T> = Mock(value: T) | Send(request: Request)

  /** `config.baseUrl || env || default`, then the development proxy rewrite. */
  function ResolveBaseUrl(config: AIConfig, env: Env): (url: string)
    ensures var chosen := OrElse(config.baseUrl, OrElse(env.baseUrl, DefaultBaseUrl));
      url == (if env.dev && Contains(chosen, ProxyHost) then ProxyPath else chosen)
  {
    var chosen := OrElse(config.baseUrl, OrElse(env.baseUrl, DefaultBaseUrl));
    if env.dev && Includes(chosen, ProxyHost) then ProxyPath else chosen
  }

  /** `config.apiKey || env`; an undefined result is written "" (both are falsy). */
  function ResolveKey(config: AIConfig, env: Env): string
  {
    if config.apiKey != "" then config.apiKey else OrElse(env.apiKey, "")
  }

  /** `config.model || env || 'gpt-4o-mini'`, used by the reply and the analysis. */
  function ResolveModel(config: AIConfig, env: Env): string
  {
    OrElse(config.model, OrElse(env.model, DefaultModel))
  }

  /** The plan request's model: `env || 'gpt-4o-mini'`, the configuration's model unused. */
  function PlanModel(env: Env): string
  {
    OrElse(env.model, DefaultModel)
  }

  function RequestTo(config: AIConfig, env: Env, model: string, content: string): Request
  {
    Request(ResolveBaseUrl(config, env) + "/chat/completions", "Bearer " + ResolveKey(config, env), model, content)
  }

  /** `generateAIResponse` up to the network. */
  function GenerateAIResponse(prompt: string, config: AIConfig, env: Env): Outcome<string>
  {
    if ResolveKey(config, env) == "" then
      Mock("Mock response for: \"" + Prefix(prompt, 20) + "...\" (No API Key)")
    else
      Send(RequestTo(config, env, ResolveModel(config, env), prompt))
  }

  /** The three steps of the offline plan. */
  function MockPlan(taskTitle: string): seq<string>
  {
    ["规划任务 \"" + taskTitle + "\"", "开始执行", "复盘总结"]
  }

  /** `generateTaskPlan` up to the network. */
  function GenerateTaskPlan(taskTitle: string, config: AIConfig, env: Env): Outcome<seq<string>>
  {
    if ResolveKey(config, env) == "" then Mock(MockPlan(taskTitle))
    else Send(RequestTo(config, env, PlanModel(env), "Task: " + taskTitle))
  }

  datatype Analysis = Analysis(title: string, subtasks: seq<string>)

  /** The offline title: the input, cut to 20 characters and marked with "..." when longer. */
  function MockTitle(input: string): string
  {
    if |input| > 20 then input[..20] + "..." else input
  }

  function MockAnalysis(input: string): Analysis
  {
    Analysis(MockTitle(input), ["Analyze \"" + input + "\"", "Break down tasks", "Start execution"])
  }

  /** `analyzeTaskInput` up to the network. */
  function AnalyzeTaskInput(input: string, config: AIConfig, env: Env): Outcome<Analysis>
  {
    if ResolveKey(config, env) == "" then Mock(MockAnalysis(input))
    else Send(RequestTo(config, env, ResolveModel(config, env), input))
  }

  // ----- properties of the resolution and the calls -----

  /** A key is found exactly when the configuration's key or the environment's is non-empty. */
  lemma KeyPresentIff(config: AIConfig, env: Env)
    ensures ResolveKey(config, env) != "" <==> config.apiKey != "" || Truthy(env.apiKey)
    ensures config.apiKey != "" ==> ResolveKey(config, env) == config.apiKey
  {
  }

  /** Each call returns its offline result exactly when no key is found from
      either source, and otherwise sends to `<baseUrl>/chat/completions` with
      the key as bearer token. */
  lemma MockIffNoKey(prompt: string, config: AIConfig, env: Env)
    ensures var noKey := config.apiKey == "" && !Truthy(env.apiKey);
      (GenerateAIResponse(prompt, config, env).Mock? <==> noKey)
      && (GenerateTaskPlan(prompt, config, env).Mock? <==> noKey)
      && (AnalyzeTaskInput(prompt, config, env).Mock? <==> noKey)
    ensures var o := AnalyzeTaskInput(prompt, config, env);
      o.Send? ==>
        o.request.url == ResolveBaseUrl(config, env) + "/chat/completions"
        && o.request.authorization == "Bearer " + ResolveKey(config, env)
        && ResolveKey(config, env) != ""
        && o.request.userContent == prompt
  {
    KeyPresentIff(config, env);
  }

  /** The base URL is the first non-empty of configuration, environment and
      the OpenAI default; it is replaced by the proxy path exactly in a
      development build when it mentions the proxied host. */
  lemma BaseUrlOrder(config: AIConfig, env: Env)
    ensures !env.dev && Truthy(config.baseUrl) ==> ResolveBaseUrl(config, env) == config.baseUrl.value
    ensures !env.dev && !Truthy(config.baseUrl) && Truthy(env.baseUrl) ==> ResolveBaseUrl(config, env) == env.baseUrl.value
    ensures !Truthy(config.baseUrl) && !Truthy(env.baseUrl) ==> ResolveBaseUrl(config, env) == DefaultBaseUrl
    ensures env.dev && Truthy(config.baseUrl) ==>
      (ResolveBaseUrl(config, env) == ProxyPath <==> Contains(config.baseUrl.value, ProxyHost) || config.baseUrl.value == ProxyPath)
  {
    if env.dev && Truthy(config.baseUrl) && config.baseUrl.value == ProxyPath {
      assert !OccursAt(ProxyPath, ProxyHost, 0);
    }
    assert !Contains(DefaultBaseUrl, ProxyHost) by {
      forall i ensures !OccursAt(DefaultBaseUrl, ProxyHost, i) {
        if 0 <= i <= |DefaultBaseUrl| - |ProxyHost| {
          assert ProxyHost[8] == 'u';
          assert DefaultBaseUrl[i + 8] != 'u';
          assert DefaultBaseUrl[i..i + |ProxyHost|][8] != ProxyHost[8];
        }
      }
    }
  }

  /** The plan ignores the configured model; the reply and the analysis use
      it whenever it is non-empty. */
  lemma ModelChoice(title: string, config: AIConfig, env: Env, model: string)
    requires ResolveKey(config, env) != ""
    ensures GenerateTaskPlan(title, config.(model := Some(model)), env) == GenerateTaskPlan(title, config, env)
    ensures GenerateTaskPlan(title, config, env).request.model == OrElse(env.model, DefaultModel)
    ensures model != "" ==> AnalyzeTaskInput(title, config.(model := Some(model)), env).request.model == model
    ensures model != "" ==> GenerateAIResponse(title, config.(model := Some(model)), env).request.model == model
  {
  }

  /** The offline title is the input itself up to 20 characters; a longer
      input is cut to its first 20 characters followed by "...". */
  lemma MockTitleSpec(input: string)
    ensures |input| <= 20 ==> MockTitle(input) == input
    ensures |input| > 20 ==>
      |MockTitle(input)| == 23 && MockTitle(input)[..20] == input[..20] && MockTitle(input)[20..] == "..."
  {
  }

  /** The offline plan and analysis have three steps each, and the first step
      quotes the title or the input. */
  lemma MockStepsQuoteTheirInput(title: string, input: string)
    ensures |MockPlan(title)| == 3 && Contains(MockPlan(title)[0], title)
    ensures |MockAnalysis(input).subtasks| == 3 && Contains(MockAnalysis(input).subtasks[0], input)
  {
    var p := MockPlan(title)[0];
    assert OccursAt(p, title, 6);
    var a := MockAnalysis(input).subtasks[0];
    assert OccursAt(a, input, 9);
  }

  // ----- the day summary -----

  /** The titles of the tasks whose `completed` flag is `completed`, in stored order. */
  function TitlesWhere(tasks: seq<Task>, completed: bool): (r: seq<string>)
    ensures |r| <= |tasks|
    ensures forall k :: 0 <= k < |tasks| && tasks[k].completed == completed ==> tasks[k].title in r
  {
    if tasks == [] then []
    else
      var n := |tasks| - 1;
      TitlesWhere(tasks[..n], completed) + (if tasks[n].completed == completed then [tasks[n].title] else [])
  }

  /** Collecting titles distributes over concatenation, so they come out in stored order. */
  lemma {:induction false} TitlesWhereAppend(a: seq<Task>, b: seq<Task>, completed: bool)
    ensures TitlesWhere(a + b, completed) == TitlesWhere(a, completed) + TitlesWhere(b, completed)
    decreases |b|
  {
    if b == [] {
      assert a + b == a;
    } else {
      var ab := a + b;
      var n := |b| - 1;
      assert ab[..|ab| - 1] == a + b[..n];
      assert ab[|ab| - 1] == b[n];
      var t := if b[n].completed == completed then [b[n].title] else [];
      assert TitlesWhere(ab, completed) == TitlesWhere(a + b[..n], completed) + t;
      assert TitlesWhere(b, completed) == TitlesWhere(b[..n], completed) + t;
      TitlesWhereAppend(a, b[..n], completed);
    }
  }

  /** The titles collected are those of the tasks the list's filter keeps,
      one for one. */
  lemma {:induction false} TitlesWhereIsVisible(tasks: seq<Task>, completed: bool)
    ensures var r := TitlesWhere(tasks, completed);
      var v := TaskList.Visible(tasks, completed);
      |r| == |v| && forall i :: 0 <= i < |r| ==> r[i] == v[i].title
  {
    if tasks != [] {
      TitlesWhereIsVisible(tasks[..|tasks| - 1], completed);
    }
  }

  /** The listed titles are exactly those of the tasks with the flag, in
      stored order. */
  lemma TitlesWhereInStoredOrder(tasks: seq<Task>, completed: bool)
    ensures var r := TitlesWhere(tasks, completed);
      var ps := TaskList.Positions(tasks, completed);
      |r| == |ps| && forall i :: 0 <= i < |r| ==> r[i] == tasks[ps[i]].title
  {
    TitlesWhereIsVisible(tasks, completed);
    TaskList.VisibleIsPositions(tasks, completed);
  }

  /** `list.join(', ') || 'None'`. */
  function ListText(titles: seq<string>): string
  {
    if JoinComma(titles) != "" then JoinComma(titles) else "None"
  }

  /** "None" appears for an empty list, and also for a list holding one empty
      title; otherwise the joined titles appear. */
  lemma ListTextSpec(titles: seq<string>)
    ensures ListText(titles) == "None" <==> titles == [] || (|titles| == 1 && titles[0] in {"", "None"})
    ensures titles != [] && !(|titles| == 1 && titles[0] == "") ==> ListText(titles) == JoinComma(titles)
  {
    JoinCommaEmpty(titles);
    if |titles| >= 2 {
      var joined := JoinComma(titles);
      var j := |titles[0]|;
      assert joined == titles[0] + ", " + JoinComma(titles[1..]);
      if j < 4 {
        assert joined[j] == ',';
        assert "None"[j] != ',';
      } else {
        assert |joined| > 4;
      }
    }
  }

  /** `formatDataForAI`. `today` is the UTC date the function reads from the
      clock, and `minutesText(s)` stands for `(s / 60).toFixed(1)` of the day's
      total seconds. */
  function FormatDataForAI(sessions: seq<Session>, tasks: seq<Task>, today: string, minutesText: int -> string): string
  {
    "\n    Date: " + today
    + "\n    Total Focus Time Today: " + minutesText(SecondsOn(sessions, today)) + " minutes."
    + "\n    Completed Tasks: " + ListText(TitlesWhere(tasks, true)) + "."
    + "\n    Ongoing Tasks: " + ListText(TitlesWhere(tasks, false)) + "."
    + "\n    \n    Please analyze my productivity today.\n  "
  }

  /** Sessions from other dates do not change the summary. */
  lemma SummaryIgnoresOtherDates(sessions: seq<Session>, more: seq<Session>, tasks: seq<Task>, today: string, minutesText: int -> string)
    requires forall i :: 0 <= i < |more| ==> more[i].date != today
    ensures FormatDataForAI(sessions + more, tasks, today, minutesText) == FormatDataForAI(sessions, tasks, today, minutesText)
  {
    SecondsOnIgnoresOtherDates(sessions, more, today);
  }

  /** With no tasks, both lists read "None". */
  lemma SummaryWithoutTasks(sessions: seq<Session>, today: string, minutesText: int -> string)
    ensures FormatDataForAI(sessions, [], today, minutesText) ==
      "\n    Date: " + today
      + "\n    Total Focus Time Today: " + minutesText(SecondsOn(sessions, today)) + " minutes."
      + "\n    Completed Tasks: None."
      + "\n    Ongoing Tasks: None."
      + "\n    \n    Please analyze my productivity today.\n  "
  {
  }
}
