/**
 * The pure logic of the History screen: the storage key, the summary of
 * the five most recent entries, and clearing a context's history.
 */
module HistoryScreen {
  import opened Wrappers
  import opened JsString
  import opened Json
  import opened Pulse
  import opened Storage
  import PulseScreen

  /** The History screen spells the key `pulse:${context.raw || 'default'}` on its own. */
  function StorageKey(context: PulseContext): (key: string)
    ensures |key| > 6 && key[..6] == "pulse:"
    ensures context.raw != "" ==> key[6..] == context.raw
    ensures context.raw == "" ==> key[6..] == "default"
  {
    "pulse:" + (if context.raw == "" then "default" else context.raw)
  }

  /** Both screens read and write the same history for the same context. */
  lemma SameKeyAsPulseScreen(context: PulseContext)
    ensures StorageKey(context) == PulseScreen.StorageKey(context)
  {
  }

  /** How many of the recent entries carry each of the three moods. */
  datatype MoodCounts = MoodCounts(good: nat, ok: nat, bad: nat)

  function Total(c: MoodCounts): nat {
    c.good + c.ok + c.bad
  }

  /** `acc[entry.mood] += 1`: a mood outside the three leaves the three counters alone. */
  function Bump(acc: MoodCounts, mood: string): MoodCounts {
    if mood == "good" then acc.(good := acc.good + 1)
    else if mood == "ok" then acc.(ok := acc.ok + 1)
    else if mood == "bad" then acc.(bad := acc.bad + 1)
    else acc
  }

  /** Reference count: the number of entries whose mood is exactly `mood`. */
  function CountMood(entries: seq<PulseEntry>, mood: string): (n: nat)
    ensures n <= |entries|
  {
    if entries == [] then 0
    else (if entries[0].mood == mood then 1 else 0) + CountMood(entries[1..], mood)
  }

  /** Counting over an extended list adds the last entry's contribution. */
  lemma {:induction false} CountMoodSnoc(entries: seq<PulseEntry>, e: PulseEntry, mood: string)
    ensures CountMood(entries + [e], mood) == CountMood(entries, mood) + (if e.mood == mood then 1 else 0)
  {
    if entries != [] {
      assert (entries + [e])[1..] == entries[1..] + [e];
      CountMoodSnoc(entries[1..], e, mood);
    }
  }

  predicate AllMoodsKnown(entries: seq<PulseEntry>) {
    forall i :: 0 <= i < |entries| ==> entries[i].mood in {"good", "ok", "bad"}
  }

  /**
   * The three mood counts add up to at most the number of entries, and to
   * exactly that number when every mood is one of the three.
   */
  lemma {:induction false} CountsAddUp(entries: seq<PulseEntry>)
    ensures CountMood(entries, "good") + CountMood(entries, "ok") + CountMood(entries, "bad") <= |entries|
    ensures (CountMood(entries, "good") + CountMood(entries, "ok") + CountMood(entries, "bad") == |entries|)
              <==> AllMoodsKnown(entries)
  {
    if entries != [] {
      var rest := entries[1..];
      CountsAddUp(rest);
      if AllMoodsKnown(rest) && entries[0].mood in {"good", "ok", "bad"} {
        forall i | 0 <= i < |entries| ensures entries[i].mood in {"good", "ok", "bad"} {
          if i > 0 { assert entries[i] == rest[i - 1]; }
        }
      }
      if AllMoodsKnown(entries) {
        forall i | 0 <= i < |rest| ensures rest[i].mood in {"good", "ok", "bad"} {
          assert rest[i] == entries[i + 1];
        }
      }
    }
  }

  /**
   * The `reduce` of `buildSummary`, folding from the first entry to the last:
   * each counter is the number of entries with exactly that mood.
   */
  function Tally(entries: seq<PulseEntry>): (c: MoodCounts)
    ensures c.good == CountMood(entries, "good")
    ensures c.ok == CountMood(entries, "ok")
    ensures c.bad == CountMood(entries, "bad")
  {
    if entries == [] then MoodCounts(0, 0, 0)
    else
      var init := entries[..|entries| - 1];
      var last := entries[|entries| - 1];
      assert entries == init + [last];
      CountMoodSnoc(init, last, "good");
      CountMoodSnoc(init, last, "ok");
      CountMoodSnoc(init, last, "bad");
      Bump(Tally(init), last.mood)
  }

  /** The tally's counters add up to the number of entries exactly when every mood is one of the three. */
  lemma TallyTotal(entries: seq<PulseEntry>)
    ensures Total(Tally(entries)) <= |entries|
    ensures Total(Tally(entries)) == |entries| <==> AllMoodsKnown(entries)
  {
    CountsAddUp(entries);
  }

  const RecentCount := 5
  const EmptySummary := "Pulse: пока нет записей."

  function SummaryText(good: nat, ok: nat, bad: nat, n: nat): string {
    "Pulse: 🙂 " + NatToString(good) + ", 😐 " + NatToString(ok) + ", 😫 " + NatToString(bad)
      + " (последние " + NatToString(n) + ")"
  }

  function Recent(entries: seq<PulseEntry>): (recent: seq<PulseEntry>)
    ensures |recent| == if |entries| < RecentCount then |entries| else RecentCount
    ensures recent <= entries
  {
    if |entries| < RecentCount then entries else entries[..RecentCount]
  }

  /**
   * `buildSummary`: the fixed empty text when there are no entries, else the
   * per-mood counts among the first five entries and how many were looked at.
   */
  function BuildSummary(entries: seq<PulseEntry>): (r: string)
    ensures r == EmptySummary <==> entries == []
    ensures entries != [] ==>
              var recent := Recent(entries);
              r == SummaryText(CountMood(recent, "good"), CountMood(recent, "ok"), CountMood(recent, "bad"), |recent|)
  {
    var recent := Recent(entries);
    if |recent| == 0 then EmptySummary
    else
      var counts := Tally(recent);
      var r := SummaryText(counts.good, counts.ok, counts.bad, |recent|);
      assert r[7] == '🙂' && EmptySummary[7] == 'п';
      r
  }

  /** Entries beyond the fifth never change the summary. */
  lemma SummaryIgnoresOlder(entries: seq<PulseEntry>, older: seq<PulseEntry>)
    requires |entries| >= RecentCount
    ensures BuildSummary(entries + older) == BuildSummary(entries)
  {
    assert Recent(entries + older) == Recent(entries);
  }

  /** When every mood is one of the three, the counts in the summary add up to the number of entries summarised. */
  lemma SummaryCountsAddUp(entries: seq<PulseEntry>)
    requires AllMoodsKnown(Recent(entries))
    ensures var recent := Recent(entries);
            CountMood(recent, "good") + CountMood(recent, "ok") + CountMood(recent, "bad") == |recent|
  {
    CountsAddUp(Recent(entries));
  }

  /** A stored entry with a mood outside the three is counted nowhere. */
  lemma UnknownMoodCountedNowhere(e: PulseEntry)
    requires e.mood !in {"good", "ok", "bad"}
    ensures Total(Tally([e])) == 0
  {
    assert [e][..0] == [];
  }

  /** The screen state: the list on display and the status line. */
  datatype HistoryState = HistoryState(entries: seq<PulseEntry>, status: string)

  const ClearedStatus := "История очищена."

  /** The state after mounting: the context's stored history. */
  function Mount(store: Store, context: PulseContext, codec: JsonCodec): (s: HistoryState)
    ensures s.entries == LoadEntries(store, StorageKey(context), codec)
    ensures s.status == ""
  {
    HistoryState(LoadEntries(store, StorageKey(context), codec), "")
  }

  /** `handleClear`: the key is removed, the list emptied, and the status says so; every other key is kept. */
  function HandleClear(s: HistoryState, store: Store, context: PulseContext): (res: (HistoryState, Store))
    ensures res.0.entries == [] && res.0.status == ClearedStatus
    ensures StorageKey(context) !in res.1
    ensures forall k :: k in store && k != StorageKey(context) ==> k in res.1 && res.1[k] == store[k]
    ensures res.1.Keys <= store.Keys
  {
    (HistoryState([], ClearedStatus), ClearEntries(store, StorageKey(context)))
  }

  /** After clearing, the list shown agrees with what storage now holds, and other contexts keep theirs. */
  lemma ClearKeepsSynced(s: HistoryState, store: Store, context: PulseContext, other: PulseContext, codec: JsonCodec)
    ensures var res := HandleClear(s, store, context);
            res.0.entries == LoadEntries(res.1, StorageKey(context), codec)
    ensures StorageKey(other) != StorageKey(context) ==>
              LoadEntries(HandleClear(s, store, context).1, StorageKey(other), codec)
                == LoadEntries(store, StorageKey(other), codec)
  {
    LoadAfterClear(store, StorageKey(context), codec);
    if StorageKey(other) != StorageKey(context) {
      ClearKeepsOtherKeys(store, StorageKey(context), StorageKey(other), codec);
    }
  }

  /**
   * A submit on the Pulse screen is what the History screen then shows for
   * the same start parameter: the same list, headed by the new entry, when
   * the codec carries that list.
   */
  lemma HistorySeesSubmission(s: PulseScreen.PulseState, store: Store, startParam: Option<string>,
                              id: string, now: real, codec: JsonCodec)
    requires s.mood.Some? && |Trim(s.comment)| >= PulseScreen.MinCommentLength
    ensures var context := ParseStartParam(startParam);
            var res := PulseScreen.Submit(s, store, context, id, now, codec);
            && res.0.entries[0] == PulseScreen.NewEntry(context, s.mood.value, s.comment, id, now)
            && (ListRoundTrips(codec, res.0.entries) ==> Mount(res.1, context, codec).entries == res.0.entries)
  {
    var context := ParseStartParam(startParam);
    var entry := PulseScreen.NewEntry(context, s.mood.value, s.comment, id, now);
    SameKeyAsPulseScreen(context);
    if ListRoundTrips(codec, PulseScreen.Submit(s, store, context, id, now, codec).0.entries) {
      LoadAfterAdd(store, StorageKey(context), entry, codec);
    }
  }

}
