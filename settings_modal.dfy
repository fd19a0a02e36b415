/**
  The settings dialog (src/components/SettingsModal.tsx). The dialog keeps a
  local copy of the configuration, edits it field by field, and hands it to
  the dashboard on save. The dashboard mounts the dialog once and only
  toggles `isOpen`, so the local copy outlives a close.

  The dialog's state is a value, and each handler is a function from the old
  state to the new one.
 */
module SettingsModal {
  import opened JsText
  import opened Types

  /** The four numeric inputs. */
  datatype Field = WorkDuration | BreakDuration | LongBreakDuration | LongBreakInterval

  /** The three AI inputs. */
  datatype AiField = ApiKey | BaseUrl | Model

  /** A value passed to `handleChange`: input text, or a number as is. */
  datatype FieldValue = Text(text: string) | Number(n: int)

  /** The local copy and whether the dialog is shown. */
  datatype SettingsState = SettingsState(local: AppConfig, isOpen: bool)

  /** `{ ...config, aiConfig: config.aiConfig || { apiKey: '', baseUrl: '' } }`. */
  function LocalCopy(config: AppConfig): AppConfig
  {
    config.(aiConfig := Some(if config.aiConfig.Some? then config.aiConfig.value else AIConfig("", Some(""), None)))
  }

  /** The local copy is the configuration itself when it has AI settings;
      otherwise it differs only in holding empty ones. */
  lemma LocalCopySpec(config: AppConfig)
    ensures LocalCopy(config).aiConfig.Some?
    ensures LocalCopy(config).(aiConfig := config.aiConfig) == config
    ensures config.aiConfig.Some? ==> LocalCopy(config) == config
    ensures config.aiConfig.None? ==> LocalCopy(config).aiConfig == Some(AIConfig("", Some(""), None))
  {
  }

  /** Mounting initialises the local copy from the configuration of that moment. */
  function Mount(config: AppConfig, isOpen: bool): SettingsState
  {
    SettingsState(LocalCopy(config), isOpen)
  }

  /** What the dialog shows: nothing when closed, else the local copy. */
  function Shown(s: SettingsState): Option<AppConfig>
  {
    if s.isOpen then Some(s.local) else None
  }

  function FieldOf(c: AppConfig, f: Field): int
  {
    match f
    case WorkDuration => c.workDuration
    case BreakDuration => c.breakDuration
    case LongBreakDuration => c.longBreakDuration
    case LongBreakInterval => c.longBreakInterval
  }

  /** `typeof value === 'string' ? parseInt(value) || 0 : value`. */
  function Coerce(v: FieldValue): int
  {
    match v
    case Text(t) => ParseIntOrZero(t)
    case Number(n) => n
  }

  /** `handleChange(key, value)`. */
  function HandleChange(s: SettingsState, f: Field, v: FieldValue): SettingsState
  {
    var c := s.local;
    var n := Coerce(v);
    s.(local := match f
      case WorkDuration => c.(workDuration := n)
      case BreakDuration => c.(breakDuration := n)
      case LongBreakDuration => c.(longBreakDuration := n)
      case LongBreakInterval => c.(longBreakInterval := n))
  }

  /** A numeric edit stores the parsed text (0 when it does not parse, the
      number itself for text a number wrote) in the named field and changes
      nothing else. */
  lemma HandleChangeSpec(s: SettingsState, f: Field, v: FieldValue)
    ensures var r := HandleChange(s, f, v);
      FieldOf(r.local, f) == Coerce(v)
      && (forall g :: g != f ==> FieldOf(r.local, g) == FieldOf(s.local, g))
      && r.local.language == s.local.language && r.local.aiConfig == s.local.aiConfig
      && r.isOpen == s.isOpen
    ensures v.Text? && ParseInt(v.text).None? ==> FieldOf(HandleChange(s, f, v).local, f) == 0
    ensures forall n :: v == Text(IntToString(n)) ==> FieldOf(HandleChange(s, f, v).local, f) == n
  {
    forall n | v == Text(IntToString(n)) ensures FieldOf(HandleChange(s, f, v).local, f) == n {
      ParseIntOfIntToString(n);
    }
  }

  /** `handleAIChange(key, value)`: the local copy always holds AI settings,
      which the `!` relies on. */
  function HandleAIChange(s: SettingsState, f: AiField, value: string): SettingsState
    requires s.local.aiConfig.Some?
  {
    var ai := s.local.aiConfig.value;
    s.(local := s.local.(aiConfig := Some(match f
      case ApiKey => ai.(apiKey := value)
      case BaseUrl => ai.(baseUrl := Some(value))
      case Model => ai.(model := Some(value)))))
  }

  /** An AI edit sets that one sub-field and leaves the rest of the copy as it was. */
  lemma HandleAIChangeSpec(s: SettingsState, f: AiField, value: string)
    requires s.local.aiConfig.Some?
    ensures var r := HandleAIChange(s, f, value);
      var ai := s.local.aiConfig.value;
      r.local.aiConfig.Some?
      && r.local.(aiConfig := s.local.aiConfig) == s.local
      && r.isOpen == s.isOpen
      && (f == ApiKey ==> r.local.aiConfig.value == ai.(apiKey := value))
      && (f == BaseUrl ==> r.local.aiConfig.value == ai.(baseUrl := Some(value)))
      && (f == Model ==> r.local.aiConfig.value == ai.(model := Some(value)))
  {
  }

  /** `handleLangChange(lang)`. */
  function HandleLangChange(s: SettingsState, lang: string): SettingsState
  {
    s.(local := s.local.(language := lang))
  }

  lemma HandleLangChangeSpec(s: SettingsState, lang: string)
    ensures HandleLangChange(s, lang).local.language == lang
    ensures HandleLangChange(s, lang).local.(language := s.local.language) == s.local
    ensures HandleLangChange(s, lang).isOpen == s.isOpen
  {
  }

  /** One user action on the dialog. */
  datatype Action = Change(f: Field, v: FieldValue) | AIChange(af: AiField, value: string) | Lang(lang: string)

  function Step(s: SettingsState, a: Action): SettingsState
    requires s.local.aiConfig.Some?
  {
    match a
    case Change(f, v) => HandleChange(s, f, v)
    case AIChange(af, value) => HandleAIChange(s, af, value)
    case Lang(lang) => HandleLangChange(s, lang)
  }

  /** Every action keeps AI settings in the local copy. */
  lemma StepKeepsAiConfig(s: SettingsState, a: Action)
    requires s.local.aiConfig.Some?
    ensures Step(s, a).local.aiConfig.Some?
  {
  }

  /** A run of actions from the mounted state. */
  function Steps(s: SettingsState, actions: seq<Action>): (r: SettingsState)
    requires s.local.aiConfig.Some?
    ensures r.local.aiConfig.Some?
    ensures r.isOpen == s.isOpen
    decreases |actions|
  {
    if actions == [] then s else Steps(Step(s, actions[0]), actions[1..])
  }

  /** `handleSave`: `onSave(localConfig)` then `onClose()`. The new state and
      the configuration handed to the dashboard. */
  function HandleSave(s: SettingsState): (SettingsState, AppConfig)
  {
    (s.(isOpen := false), s.local)
  }

  /** Save hands over the local copy unchanged and closes; the copy then
      equals its own local copy, so the dialog and the saved configuration
      agree when it is reopened. */
  lemma HandleSaveSpec(s: SettingsState)
    requires s.local.aiConfig.Some?
    ensures HandleSave(s).1 == s.local
    ensures !HandleSave(s).0.isOpen
    ensures LocalCopy(HandleSave(s).1) == HandleSave(s).0.local
  {
  }

  /** Opening the dialog again: the component stays mounted, so only
      `isOpen` changes. */
  function Reopen(s: SettingsState): SettingsState
  {
    s.(isOpen := true)
  }

  /** Cancel as written: `onClose()` only; the local copy keeps the edits. */
  function CancelAsWritten(s: SettingsState): SettingsState
  {
    s.(isOpen := false)
  }

  /** Cancel discarding the edits: the local copy is rebuilt from the current configuration. */
  function Cancel(s: SettingsState, config: AppConfig): SettingsState
  {
    Mount(config, false)
  }

  /** As written, typing 50 minutes of work, cancelling and reopening shows
      50 while the configuration still says 25; a save from there commits
      the cancelled edit. */
  lemma CancelKeepsEditsAsWritten()
    ensures var s := HandleChange(Mount(DefaultConfig, true), WorkDuration, Text("50"));
      var shown := Shown(Reopen(CancelAsWritten(s)));
      shown.Some? && shown.value.workDuration == 50 && DefaultConfig.workDuration == 25
      && HandleSave(Reopen(CancelAsWritten(s))).1.workDuration == 50
  {
    assert ParseInt("50") == Some(50) by {
      ParseIntOfIntToString(50);
      assert IntToString(50) == "50";
    }
  }

  /** With cancel discarding edits, whatever was typed, reopening shows the
      current configuration's local copy and saving it changes nothing. */
  lemma CancelDiscardsEdits(config: AppConfig, actions: seq<Action>)
    ensures var s := Steps(Mount(config, true), actions);
      Shown(Reopen(Cancel(s, config))) == Some(LocalCopy(config))
      && (config.aiConfig.Some? ==> HandleSave(Reopen(Cancel(s, config))).1 == config)
  {
  }
}
