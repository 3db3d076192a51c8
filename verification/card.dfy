/** The pure logic of the repository card (components/RepositoryCard.tsx): its
    own copies of the roast and status-colour tables, the language colour
    lookup, the progress input clamp, and the local state kept in step with the
    two annotation actions. */
module Card {
  import opened Common
  import opened Store
  import opened Motivation
  import Annotations
  import Text

  /** A JavaScript number as the card holds it: `undefined`, `NaN` (what
      `parseInt` gives for an empty or non-numeric field) or an integer. */
  datatype JsNumber = Undefined | NaN | Num(n: int)

  const FallbackColor: string := "#cccccc"

  /** The card's language colour table; a `null` language is looked up under the key "null". */
  const LanguageColors: map<string, string> := map[
    "JavaScript" := "#f1e05a", "TypeScript" := "#3178c6", "Python" := "#3572A5",
    "Java" := "#b07219", "Go" := "#00ADD8", "Rust" := "#dea584", "C" := "#555555",
    "C++" := "#f34b7d", "C#" := "#178600", "Ruby" := "#701516", "PHP" := "#4F5D95",
    "HTML" := "#e34c26", "CSS" := "#563d7c", "Shell" := "#89e051", "null" := FallbackColor]

  /** `languageColors[language] || "#cccccc"`: the table's colour for a listed
      language, the grey fallback otherwise; always one of the table's colours. */
  function LanguageColor(language: Option<string>): (c: string)
    ensures language.Some? && language.value in LanguageColors ==> c == LanguageColors[language.value]
    ensures language.None? || language.value !in LanguageColors ==> c == FallbackColor
    ensures c in LanguageColors.Values
  {
    var key := if language.Some? then language.value else "null";
    assert LanguageColors["null"] == FallbackColor;
    if key in LanguageColors && LanguageColors[key] != "" then LanguageColors[key] else FallbackColor
  }

  /** The card's own copy of the roast table. */
  function CardMotivationalRoast(days: int, progress: int): Roast {
    if days > 90 && progress < 30 then Dust
    else if days > 60 && progress < 50 then Milk
    else if days > 30 && progress < 70 then Excuse
    else if days > 14 then Coffee
    else Roll
  }

  /** The card's copy agrees with the shared helper on every input. */
  lemma CardRoastAgrees(days: int, progress: int)
    ensures CardMotivationalRoast(days, progress) == MotivationalRoast(days, progress)
  {
  }

  /** The roast the card shows: a missing activity count or progress counts as 0,
      so a card without an activity count is always "on a roll". */
  function CardRoast(lastActivity: Option<int>, progress: Option<int>): (r: Roast)
    ensures r == MotivationalRoast(OrZero(lastActivity), OrZero(progress))
    ensures lastActivity.None? ==> r == Roll
  {
    CardMotivationalRoast(OrZero(lastActivity), OrZero(progress))
  }

  /** The card's own status colour: the 60/30/14 thresholds on `lastActivity`,
      with a missing count giving green. */
  function CardStatusColor(lastActivity: Option<int>): (c: StatusColor)
    ensures forall progress :: c == GetStatusColor(OrZero(lastActivity), progress)
    ensures lastActivity.None? ==> c == Success
  {
    var known := lastActivity.Some? && lastActivity.value != 0;
    if known && lastActivity.value > 60 then Destructive
    else if known && lastActivity.value > 30 then Warning
    else if known && lastActivity.value > 14 then Info
    else Success
  }

  /** The progress field's change handler: a parsed value above 100 becomes 100,
      anything else (a negative value, `NaN`) is kept as parsed. */
  function ClampInput(parsed: JsNumber): (v: JsNumber)
    requires !parsed.Undefined?    // `parseInt` always gives a number
    ensures !v.Undefined?
    ensures v.Num? ==> v.n <= 100
    ensures parsed.Num? && parsed.n <= 100 ==> v == parsed
    ensures parsed.Num? && parsed.n > 100 ==> v == Num(100)
    ensures v.NaN? <==> parsed.NaN?
  {
    if parsed.Num? && parsed.n > 100 then Num(100) else parsed
  }

  lemma ClampIdempotent(parsed: JsNumber)
    requires !parsed.Undefined?
    ensures ClampInput(ClampInput(parsed)) == ClampInput(parsed)
  {
  }

  /** `progressValue || 0`: the value sent to the store; `undefined`, `NaN` and 0 all send 0. */
  function SavedValue(v: JsNumber): (sent: int)
    ensures v.Num? ==> sent == v.n
    ensures !v.Num? ==> sent == 0
  {
    match v
    case Num(n) => if n != 0 then n else 0
    case _ => 0
  }

  /** The card's local state. */
  datatype CardState = CardState(
    editing: bool,
    loading: bool,
    progressValue: JsNumber,     // the value in the edit field
    currentProgress: JsNumber,   // the value on the badge and the progress bar
    reminder: bool)

  /** The state a card starts in, from the props it was given. */
  function InitCard(progress: Option<int>, projectReminder: Option<bool>): (card: CardState)
    ensures !card.editing && !card.loading
    ensures card.progressValue == card.currentProgress
    ensures card.currentProgress.Num? <==> progress.Some?
    ensures progress.Some? ==> card.currentProgress == Num(progress.value)
    ensures progress.None? ==> card.currentProgress == JsNumber.Undefined
    ensures card.reminder <==> projectReminder == Some(true)
  {
    var p := if progress.Some? then Num(progress.value) else JsNumber.Undefined;
    CardState(false, false, p, p, OrFalse(projectReminder))
  }

  /** Typing into the progress field: only the field's value changes; the badge
      keeps showing the last saved value until a save succeeds. */
  function OnProgressInput(card: CardState, parsed: JsNumber): (card': CardState)
    requires !parsed.Undefined?
    ensures card'.progressValue == ClampInput(parsed)
    ensures card'.progressValue.Num? ==> card'.progressValue.n <= 100
    ensures card'.progressValue.NaN? <==> parsed.NaN?
    ensures card'.currentProgress == card.currentProgress && card'.reminder == card.reminder
    ensures card'.editing == card.editing && card'.loading == card.loading
  {
    card.(progressValue := ClampInput(parsed))
  }

  /** The card and the store after one user step. */
  datatype Step = Step(card: CardState, store: Projects)

  /** `handleProgressUpdate` as written: the display takes the field's value
      itself, even when the value stored was the `|| 0` fallback. */
  function SaveProgressAsWritten(card: CardState, repoId: int, store: Projects): (step: Step)
    // The store receives the `|| 0` value ...
    ensures var key := Text.IntToString(repoId);
      key in store ==> key in step.store && step.store[key].progress == SavedValue(card.progressValue)
    // ... while the badge takes the field's own value, whatever it was.
    ensures var key := Text.IntToString(repoId);
      key in store ==> step.card.currentProgress == card.progressValue
    ensures Text.IntToString(repoId) !in store ==> step.store == store && step.card.currentProgress == card.currentProgress
    // The store changes only through `updateProgress`.
    ensures var key := Text.IntToString(repoId);
      step.store == (if key in store then Annotations.UpdateProgress(store, key, SavedValue(card.progressValue)).value else store)
    ensures !step.card.editing && !step.card.loading
    ensures step.card.progressValue == card.progressValue && step.card.reminder == card.reminder
  {
    var idle := card.(editing := false, loading := false);
    match Annotations.UpdateProgress(store, Text.IntToString(repoId), SavedValue(card.progressValue))
    case Ok(store') => Step(idle.(currentProgress := card.progressValue), store')
    case Err(_) => Step(idle, store)
  }

  /** As written, clearing the field and saving stores 0 but shows `NaN`. */
  lemma SaveAsWrittenShowsNaN(card: CardState, repoId: int, store: Projects)
    requires card.progressValue == NaN
    requires Text.IntToString(repoId) in store
    ensures var step := SaveProgressAsWritten(card, repoId, store);
      && step.store[Text.IntToString(repoId)].progress == 0
      && step.card.currentProgress == NaN
  {
  }

  /** `handleProgressUpdate` as evidently intended: after a save the display
      shows the value that was stored. */
  function SaveProgress(card: CardState, repoId: int, store: Projects): (step: Step)
    // The store changes only through `updateProgress`, with the `|| 0` value.
    ensures var key := Text.IntToString(repoId);
      step.store == (if key in store then Annotations.UpdateProgress(store, key, SavedValue(card.progressValue)).value else store)
    // After a successful save the display agrees with the store ...
    ensures var key := Text.IntToString(repoId);
      key in store ==> step.card.currentProgress == Num(step.store[key].progress)
    // ... and after a failed one the display is unchanged.
    ensures Text.IntToString(repoId) !in store ==> step.card.currentProgress == card.currentProgress
    ensures !step.card.editing && !step.card.loading
    ensures step.card.reminder == card.reminder && step.card.progressValue == card.progressValue
  {
    var idle := card.(editing := false, loading := false);
    var sent := SavedValue(card.progressValue);
    match Annotations.UpdateProgress(store, Text.IntToString(repoId), sent)
    case Ok(store') => Step(idle.(currentProgress := Num(sent)), store')
    case Err(_) => Step(idle, store)
  }

  /** The two versions differ only where the field did not hold a non-zero number. */
  lemma SaveVersionsAgreeOnNumbers(card: CardState, repoId: int, store: Projects)
    requires card.progressValue.Num?
    ensures SaveProgress(card, repoId, store) == SaveProgressAsWritten(card, repoId, store)
  {
  }

  /** `handleSetReninder`: sends the local flag, then negates it locally. A
      failed call rejects before the local flag is touched. */
  function ToggleOnCard(card: CardState, repoId: int, store: Projects): (step: Step)
    ensures var key := Text.IntToString(repoId);
      key in store ==> (step.card.reminder == !card.reminder
        && step.store == Annotations.ToggleReminder(store, key, card.reminder).value)
    ensures Text.IntToString(repoId) !in store ==> step == Step(card, store)
    // Only the local flag changes on the card.
    ensures Text.IntToString(repoId) in store ==> step.card == card.(reminder := !card.reminder)
    ensures step.card.currentProgress == card.currentProgress
  {
    match Annotations.ToggleReminder(store, Text.IntToString(repoId), card.reminder)
    case Ok(store') => Step(card.(reminder := !card.reminder), store')
    case Err(_) => Step(card, store)
  }

  /** After a successful toggle the card's flag equals the stored flag, whatever
      either was before; when they were equal, both have flipped. */
  lemma ToggleKeepsCardInStep(card: CardState, repoId: int, store: Projects)
    requires Text.IntToString(repoId) in store
    ensures var key := Text.IntToString(repoId);
      var step := ToggleOnCard(card, repoId, store);
      && step.card.reminder == step.store[key].reminder
      && (card.reminder == store[key].reminder ==> step.store[key].reminder == !store[key].reminder)
  {
  }
}
