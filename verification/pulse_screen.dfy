/**
 * The pure logic of the Pulse screen: the comment preview, the placeholder
 * per mode, the share text, the storage key, and the mood/comment/submit
 * state machine whose `dirty` flag drives closing protection.
 */
module PulseScreen {
  import opened Wrappers
  import opened JsString
  import opened Json
  import opened Pulse
  import opened Storage
  import opened SeqFacts

  const PreviewLimit := 80
  const PreviewKeep := 77

  /** `getPreview`: the trimmed comment, cut to 77 characters plus "..." when longer than 80. */
  function GetPreview(comment: string): (r: string)
    ensures |r| <= PreviewLimit
    ensures |Trim(comment)| <= PreviewLimit ==> r == Trim(comment)
    ensures |Trim(comment)| > PreviewLimit ==>
              |r| == PreviewLimit && r[..PreviewKeep] == Trim(comment)[..PreviewKeep] && r[PreviewKeep..] == "..."
  {
    var trimmed := Trim(comment);
    if |trimmed| <= PreviewLimit then trimmed else trimmed[..PreviewKeep] + "..."
  }

  /** A preview is its own preview. */
  lemma PreviewIdempotent(comment: string)
    ensures GetPreview(GetPreview(comment)) == GetPreview(comment)
  {
    var t := Trim(comment);
    var p := GetPreview(comment);
    if |t| <= PreviewLimit {
      TrimIdempotent(comment);
    } else {
      assert p[0] == t[0] && p[|p| - 1] == '.';
      TrimOfTrimmed(p);
    }
  }

  const DefaultPlaceholder := "Опишите состояние команды."

  /** `getPlaceholder`: a fixed prompt for `daily`, `retro`, `incident`, the default prompt for anything else. */
  function GetPlaceholder(mode: string): (r: string)
    ensures r != DefaultPlaceholder <==> mode in {"daily", "retro", "incident"}
  {
    match mode
    case "daily" => "Что мешает сегодня?"
    case "retro" => "Что улучшить / что болит?"
    case "incident" => "Что нужно прямо сейчас? Нужна помощь?"
    case _ => DefaultPlaceholder
  }

  /** Each of the three named modes has its own prompt; the unknown mode gets the default one. */
  lemma PlaceholderPerMode(m1: PulseMode, m2: PulseMode)
    ensures GetPlaceholder(ModeName(m1)) == DefaultPlaceholder <==> m1 == Unknown
    ensures m1 != m2 && m1 != Unknown && m2 != Unknown ==> GetPlaceholder(ModeName(m1)) != GetPlaceholder(ModeName(m2))
  {
  }

  /** The mood emoji: `good` 🙂, `ok` 😐, anything else 😫. */
  function MoodEmoji(mood: string): (e: char)
    ensures e == '🙂' <==> mood == "good"
    ensures e == '😐' <==> mood == "ok"
    ensures e in {'🙂', '😐', '😫'}
  {
    if mood == "good" then '🙂' else if mood == "ok" then '😐' else '😫'
  }

  const SharePrefix := "Pulse: "
  const QuoteOpen := " — “"
  const QuoteClose := "” ("

  /** `buildShareText`: `Pulse: <emoji> <mood> — “<preview>” (<label>)`. */
  function BuildShareText(entry: PulseEntry, modeLabel: string): (r: string)
    ensures var p := GetPreview(entry.comment);
            var at := |SharePrefix| + |[MoodEmoji(entry.mood), ' ']| + |entry.mood| + |QuoteOpen|;
            && |r| == at + |p| + |QuoteClose| + |modeLabel| + |")"|
            && |r| <= at + PreviewLimit + |QuoteClose| + |modeLabel| + |")"|
            && r[..at] == SharePrefix + [MoodEmoji(entry.mood), ' '] + entry.mood + QuoteOpen
            && r[at..at + |p|] == p
            && r[at + |p|..] == QuoteClose + modeLabel + ")"
  {
    var p := GetPreview(entry.comment);
    var head := SharePrefix + [MoodEmoji(entry.mood), ' '] + entry.mood + QuoteOpen;
    var tail := QuoteClose + modeLabel + ")";
    SliceParts(head, p, tail);
    head + p + tail
  }

  /**
   * For one mood and one comment, the share text names the mode label it was
   * built with: different labels give different texts.
   */
  lemma ShareTextDeterminesLabel(entry: PulseEntry, label1: string, label2: string)
    ensures BuildShareText(entry, label1) == BuildShareText(entry, label2) <==> label1 == label2
  {
    var r1, r2 := BuildShareText(entry, label1), BuildShareText(entry, label2);
    if r1 == r2 {
      var cut := |SharePrefix| + 2 + |entry.mood| + |QuoteOpen| + |GetPreview(entry.comment)|;
      assert r1[cut..] == QuoteClose + label1 + ")" && r2[cut..] == QuoteClose + label2 + ")";
      assert label1 == (QuoteClose + label1 + ")")[|QuoteClose|..|QuoteClose| + |label1|];
      assert label2 == (QuoteClose + label2 + ")")[|QuoteClose|..|QuoteClose| + |label2|];
    }
  }

  /** The three moods get three different emoji. */
  lemma MoodEmojiDistinct(m1: Mood, m2: Mood)
    ensures m1 != m2 ==> MoodEmoji(MoodName(m1)) != MoodEmoji(MoodName(m2))
  {
  }

  /** `context.raw || 'default'`: the context written into an entry. */
  function EntryContext(context: PulseContext): string {
    if context.raw == "" then "default" else context.raw
  }

  /** `pulse:${context.raw || 'default'}`: the storage key of a context's history. */
  function StorageKey(context: PulseContext): (key: string)
    ensures StartsWith(key, "pulse:")
    ensures key[6..] == EntryContext(context)
  {
    "pulse:" + (if context.raw == "" then "default" else context.raw)
  }

  /** Two contexts share a history exactly when their entries would carry the same context. */
  lemma StorageKeyInjective(c1: PulseContext, c2: PulseContext)
    ensures StorageKey(c1) == StorageKey(c2) <==> EntryContext(c1) == EntryContext(c2)
  {
  }

  /** No parameter and the parameter `default` share one history. */
  lemma DefaultKeyShared()
    ensures StorageKey(ParseStartParam(None)) == StorageKey(ParseStartParam(Some("default")))
  {
    CleanParamKept("default");
  }

  /** The screen state; `entries` is the list on display. */
  datatype PulseState = PulseState(
    mood: Option<Mood>,
    comment: string,
    entries: seq<PulseEntry>,
    message: string,
    hasSubmitted: bool)

  const NoMoodMessage := "Выберите настроение."
  const ShortCommentMessage := "Комментарий должен быть не короче 3 символов."
  const ThanksMessage := "Спасибо, принято."
  const MinCommentLength := 3

  /** The state after mounting: nothing selected, the context's stored history loaded. */
  function Mount(store: Store, context: PulseContext, codec: JsonCodec): (s: PulseState)
    ensures s.entries == LoadEntries(store, StorageKey(context), codec)
    ensures s.mood == None && s.comment == "" && !s.hasSubmitted
  {
    PulseState(None, "", LoadEntries(store, StorageKey(context), codec), "", false)
  }

  /** `dirty`: an unsent comment, or a mood chosen since the last submit. */
  predicate Dirty(s: PulseState) {
    |Trim(s.comment)| > 0 || (s.mood.Some? && !s.hasSubmitted)
  }

  /**
   * Closing protection follows unsent input: a freshly mounted screen is
   * clean, and after an edit it is dirty exactly when the new comment is not
   * blank or a mood was chosen since the last submit.
   */
  lemma DirtyTracksUnsentInput(store: Store, context: PulseContext, codec: JsonCodec, s: PulseState, text: string)
    ensures !Dirty(Mount(store, context, codec))
    ensures Dirty(EditComment(s, text)) <==> |Trim(text)| > 0 || (s.mood.Some? && !s.hasSubmitted)
  {
    TrimEmptyIffAllWhitespace("");
  }

  /** `handleMoodSelect`: choosing a mood re-arms `dirty`. */
  function SelectMood(s: PulseState, m: Mood): (r: PulseState)
    ensures r.mood == Some(m) && !r.hasSubmitted && Dirty(r)
    ensures r.comment == s.comment && r.entries == s.entries && r.message == s.message
  {
    s.(mood := Some(m), hasSubmitted := false)
  }

  /** The textarea's `onChange`: only the comment changes. */
  function EditComment(s: PulseState, text: string): (r: PulseState)
    ensures r.comment == text
    ensures r.mood == s.mood && r.entries == s.entries && r.message == s.message && r.hasSubmitted == s.hasSubmitted
  {
    s.(comment := text)
  }

  /** The entry a valid submit stores (`buildId()` and `Date.now()` passed as `id` and `now`). */
  function NewEntry(context: PulseContext, mood: Mood, comment: string, id: string, now: real): (e: PulseEntry)
    ensures e.id == id && e.ts == now
    ensures e.context == EntryContext(context) && e.context != ""
    ensures e.mode == ModeName(context.mode) && e.mood == MoodName(mood)
    ensures e.comment == Trim(comment)
    ensures Trim(e.comment) == e.comment
  {
    var trimmed := Trim(comment);
    TrimIdempotent(comment);
    PulseEntry(id, now, EntryContext(context), ModeName(context.mode), MoodName(mood), trimmed)
  }

  /**
   * `handleSubmit`: without a mood, or with a trimmed comment shorter than 3,
   * only the message changes and nothing is stored. Otherwise the entry is
   * added under the context's key, the list shown becomes the stored list,
   * the comment is cleared and `hasSubmitted` set.
   */
  function Submit(s: PulseState, store: Store, context: PulseContext, id: string, now: real, codec: JsonCodec): (res: (PulseState, Store))
    ensures s.mood.None? ==> res == (s.(message := NoMoodMessage), store)
    ensures s.mood.Some? && |Trim(s.comment)| < MinCommentLength ==> res == (s.(message := ShortCommentMessage), store)
    ensures s.mood.Some? && |Trim(s.comment)| >= MinCommentLength ==>
              var added := AddEntry(store, StorageKey(context), NewEntry(context, s.mood.value, s.comment, id, now), codec);
              && res.1 == added.0
              && res.0.entries == added.1
              && res.0.entries[0].comment == Trim(s.comment)
              && res.0.entries[0].context == EntryContext(context)
              && res.0.entries[0].mode == ModeName(context.mode)
              && res.0.entries[0].mood == MoodName(s.mood.value)
              && res.0.comment == "" && res.0.hasSubmitted && res.0.mood == s.mood
              && res.0.message == ThanksMessage
              && !Dirty(res.0)
  {
    var s := s.(message := "");
    if s.mood.None? then (s.(message := NoMoodMessage), store)
    else
      var trimmedComment := Trim(s.comment);
      if |trimmedComment| < MinCommentLength then (s.(message := ShortCommentMessage), store)
      else
        var entry := NewEntry(context, s.mood.value, s.comment, id, now);
        var (store', updated) := AddEntry(store, StorageKey(context), entry, codec);
        (s.(entries := updated, comment := "", hasSubmitted := true, message := ThanksMessage), store')
  }

  /** The list on display equals what is stored under the context's key. */
  predicate Synced(s: PulseState, store: Store, context: PulseContext, codec: JsonCodec) {
    s.entries == LoadEntries(store, StorageKey(context), codec)
  }

  /**
   * Mounting, selecting a mood, editing and submitting all keep the list on
   * display in step with storage; a submit does so whenever the codec
   * carries the list it writes.
   */
  lemma TransitionsKeepSynced(s: PulseState, store: Store, context: PulseContext, m: Mood, text: string,
                              id: string, now: real, codec: JsonCodec)
    requires Synced(s, store, context, codec)
    ensures Synced(Mount(store, context, codec), store, context, codec)
    ensures Synced(SelectMood(s, m), store, context, codec)
    ensures Synced(EditComment(s, text), store, context, codec)
    ensures var res := Submit(s, store, context, id, now, codec);
            ListRoundTrips(codec, res.0.entries) ==> Synced(res.0, res.1, context, codec)
  {
    var res := Submit(s, store, context, id, now, codec);
    if s.mood.Some? && |Trim(s.comment)| >= MinCommentLength && ListRoundTrips(codec, res.0.entries) {
      LoadAfterAdd(store, StorageKey(context), NewEntry(context, s.mood.value, s.comment, id, now), codec);
    }
  }

  /** A stored entry lands under the key spelled from its own `context` field. */
  lemma EntryStoredUnderItsContext(context: PulseContext, mood: Mood, comment: string, id: string, now: real)
    ensures StorageKey(context) == "pulse:" + NewEntry(context, mood, comment, id, now).context
  {
  }

  /** A submit that stores nothing leaves the store as it was. */
  lemma RejectedSubmitStoresNothing(s: PulseState, store: Store, context: PulseContext, id: string, now: real, codec: JsonCodec)
    requires s.mood.None? || |Trim(s.comment)| < MinCommentLength
    ensures Submit(s, store, context, id, now, codec).1 == store
    ensures Submit(s, store, context, id, now, codec).0.entries == s.entries
    ensures Submit(s, store, context, id, now, codec).0.message in {NoMoodMessage, ShortCommentMessage}
  {
  }
}
