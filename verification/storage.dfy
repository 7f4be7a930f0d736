/**
 * The per-key history store over `window.localStorage`: a defensive loader
 * that keeps only well-formed records, a prepend-and-cap-at-20 insert, and
 * removal of a key. `localStorage` is a map from keys to stored text.
 */
module Storage {
  import opened Wrappers
  import opened Json
  import opened Pulse

  type Store = map<string, string>

  const MaxEntries := 20

  /** The entry a record denotes when `id`, `context`, `mode`, `mood`, `comment` are strings and `ts` a number. */
  function EntryFromJson(j: Json): (r: Option<PulseEntry>)
    ensures r.Some? <==>
              && j.JObject?
              && "id" in j.fields && j.fields["id"].JString?
              && "ts" in j.fields && j.fields["ts"].JNumber?
              && "context" in j.fields && j.fields["context"].JString?
              && "mode" in j.fields && j.fields["mode"].JString?
              && "mood" in j.fields && j.fields["mood"].JString?
              && "comment" in j.fields && j.fields["comment"].JString?
  {
    match j
    case JObject(f) =>
      if && "id" in f && f["id"].JString?
         && "ts" in f && f["ts"].JNumber?
         && "context" in f && f["context"].JString?
         && "mode" in f && f["mode"].JString?
         && "mood" in f && f["mood"].JString?
         && "comment" in f && f["comment"].JString?
      then Some(PulseEntry(f["id"].s, f["ts"].n, f["context"].s, f["mode"].s, f["mood"].s, f["comment"].s))
      else None
    case _ => None
  }

  /** The record `JSON.stringify` writes for an entry. */
  function EntryToJson(e: PulseEntry): Json {
    JObject(map[
      "id" := JString(e.id),
      "ts" := JNumber(e.ts),
      "context" := JString(e.context),
      "mode" := JString(e.mode),
      "mood" := JString(e.mood),
      "comment" := JString(e.comment)])
  }

  /** A written record reads back as the same entry. */
  lemma EntryRoundTrip(e: PulseEntry)
    ensures EntryFromJson(EntryToJson(e)) == Some(e)
  {
  }

  function EntriesToJson(entries: seq<PulseEntry>): (items: seq<Json>)
    ensures |items| == |entries|
    ensures forall i :: 0 <= i < |entries| ==> items[i] == EntryToJson(entries[i])
  {
    seq(|entries|, i requires 0 <= i < |entries| => EntryToJson(entries[i]))
  }

  /** `data.filter(isPulseEntry)`: the well-formed records, in their original order. */
  function FilterEntries(items: seq<Json>): (r: seq<PulseEntry>)
    ensures |r| <= |items|
    ensures forall e :: e in r ==> exists i :: 0 <= i < |items| && EntryFromJson(items[i]) == Some(e)
  {
    if items == [] then []
    else
      var rest := FilterEntries(items[1..]);
      assert forall e :: e in rest ==> exists i :: 0 <= i < |items| && EntryFromJson(items[i]) == Some(e) by {
        forall e | e in rest
          ensures exists i :: 0 <= i < |items| && EntryFromJson(items[i]) == Some(e)
        {
          var k :| 0 <= k < |items[1..]| && EntryFromJson(items[1..][k]) == Some(e);
          assert items[k + 1] == items[1..][k];
        }
      }
      match EntryFromJson(items[0])
      case Some(e) => [e] + rest
      case None => rest
  }

  /** Every well-formed record is kept: the filter drops only malformed elements. */
  lemma {:induction false} FilterKeepsWellFormed(items: seq<Json>, i: nat)
    requires i < |items| && EntryFromJson(items[i]).Some?
    ensures EntryFromJson(items[i]).value in FilterEntries(items)
  {
    if i > 0 {
      FilterKeepsWellFormed(items[1..], i - 1);
      assert items[1..][i - 1] == items[i];
    }
  }

  /** Filtering distributes over concatenation. */
  lemma {:induction false} FilterEntriesAppend(a: seq<Json>, b: seq<Json>)
    ensures FilterEntries(a + b) == FilterEntries(a) + FilterEntries(b)
  {
    if a == [] {
      assert a + b == b;
    } else {
      assert (a + b)[0] == a[0];
      assert (a + b)[1..] == a[1..] + b;
      FilterEntriesAppend(a[1..], b);
    }
  }

  /** Filtering the records of written entries gives those entries back. */
  lemma {:induction false} FilterWrittenEntries(entries: seq<PulseEntry>)
    ensures FilterEntries(EntriesToJson(entries)) == entries
  {
    if entries != [] {
      var items := EntriesToJson(entries);
      assert items[1..] == EntriesToJson(entries[1..]);
      EntryRoundTrip(entries[0]);
      FilterWrittenEntries(entries[1..]);
    }
  }

  /**
   * `parseEntries`: [] for missing or empty text, for text `JSON.parse`
   * rejects and for JSON that is not an array; otherwise the well-formed records.
   */
  function ParseEntries(raw: Option<string>, codec: JsonCodec): (r: seq<PulseEntry>)
    ensures raw.GetOr("") == "" ==> r == []
    ensures raw.GetOr("") != "" && !(codec.parse(raw.value).Some? && codec.parse(raw.value).value.JArray?) ==> r == []
    ensures raw.GetOr("") != "" && codec.parse(raw.value).Some? && codec.parse(raw.value).value.JArray? ==>
              r == FilterEntries(codec.parse(raw.value).value.items)
  {
    if raw.None? || raw.value == "" then []
    else match codec.parse(raw.value)
      case None => []
      case Some(data) => if data.JArray? then FilterEntries(data.items) else []
  }

  /** `localStorage.getItem(key)`. */
  function GetItem(store: Store, key: string): Option<string> {
    if key in store then Some(store[key]) else None
  }

  /** `loadEntries(key)`. */
  function LoadEntries(store: Store, key: string, codec: JsonCodec): (r: seq<PulseEntry>)
    ensures key !in store ==> r == []
    ensures key in store && store[key] != "" && codec.parse(store[key]).Some? && codec.parse(store[key]).value.JArray? ==>
              forall i :: 0 <= i < |codec.parse(store[key]).value.items| &&
                          EntryFromJson(codec.parse(store[key]).value.items[i]).Some? ==>
                EntryFromJson(codec.parse(store[key]).value.items[i]).value in r
  {
    if key in store && store[key] != "" && codec.parse(store[key]).Some? && codec.parse(store[key]).value.JArray? then
      var items := codec.parse(store[key]).value.items;
      assert forall i :: 0 <= i < |items| && EntryFromJson(items[i]).Some? ==> EntryFromJson(items[i]).value in FilterEntries(items) by {
        forall i | 0 <= i < |items| && EntryFromJson(items[i]).Some?
          ensures EntryFromJson(items[i]).value in FilterEntries(items)
        {
          FilterKeepsWellFormed(items, i);
        }
      }
      ParseEntries(GetItem(store, key), codec)
    else
      ParseEntries(GetItem(store, key), codec)
  }

  /**
   * `addEntry(key, entry)`: the entry in front of the loaded list, cut to 20;
   * that list is written under `key` and returned. No other key changes.
   */
  function AddEntry(store: Store, key: string, entry: PulseEntry, codec: JsonCodec): (res: (Store, seq<PulseEntry>))
    ensures 1 <= |res.1| <= MaxEntries
    ensures res.1[0] == entry
    ensures |res.1| == if |LoadEntries(store, key, codec)| < MaxEntries then |LoadEntries(store, key, codec)| + 1 else MaxEntries
    ensures res.1[1..] == LoadEntries(store, key, codec)[..|res.1| - 1]
    ensures res.0.Keys == store.Keys + {key}
    ensures res.0[key] == codec.stringify(JArray(EntriesToJson(res.1)))
    ensures forall k :: k in store && k != key ==> res.0[k] == store[k]
  {
    var all := [entry] + LoadEntries(store, key, codec);
    var entries := if |all| <= MaxEntries then all else all[..MaxEntries];
    (store[key := codec.stringify(JArray(EntriesToJson(entries)))], entries)
  }

  /** `clearEntries(key)`: `localStorage.removeItem(key)`. */
  function ClearEntries(store: Store, key: string): (s: Store)
    ensures s.Keys == store.Keys - {key}
    ensures forall k :: k in s ==> s[k] == store[k]
  {
    store - {key}
  }

  /** The codec carries a list of entries, as `addEntry` writes it, through text. */
  predicate ListRoundTrips(codec: JsonCodec, entries: seq<PulseEntry>) {
    RoundTrips(codec, JArray(EntriesToJson(entries)))
  }

  /** Reading right after `addEntry` returns exactly the list it returned, when the codec carries that list. */
  lemma LoadAfterAdd(store: Store, key: string, entry: PulseEntry, codec: JsonCodec)
    requires ListRoundTrips(codec, AddEntry(store, key, entry, codec).1)
    ensures LoadEntries(AddEntry(store, key, entry, codec).0, key, codec) == AddEntry(store, key, entry, codec).1
  {
    var entries := AddEntry(store, key, entry, codec).1;
    var text := codec.stringify(JArray(EntriesToJson(entries)));
    assert codec.parse(text) == Some(JArray(EntriesToJson(entries)));
    FilterWrittenEntries(entries);
  }

  /** The first add into empty storage, under a codec that knows the written list, reads back as that one entry. */
  lemma FirstAddReadsBack(key: string, entry: PulseEntry)
    ensures var codec := OneValueCodec(JArray(EntriesToJson([entry])), "[…]");
            && ListRoundTrips(codec, AddEntry(map[], key, entry, codec).1)
            && LoadEntries(AddEntry(map[], key, entry, codec).0, key, codec) == [entry]
  {
    var codec := OneValueCodec(JArray(EntriesToJson([entry])), "[…]");
    assert AddEntry(map[], key, entry, codec).1 == [entry];
    LoadAfterAdd(map[], key, entry, codec);
  }

  /** Reading right after `clearEntries` returns []. */
  lemma LoadAfterClear(store: Store, key: string, codec: JsonCodec)
    ensures LoadEntries(ClearEntries(store, key), key, codec) == []
  {
  }

  /** Adding under one key leaves what every other key loads unchanged. */
  lemma AddKeepsOtherKeys(store: Store, key: string, other: string, entry: PulseEntry, codec: JsonCodec)
    requires other != key
    ensures LoadEntries(AddEntry(store, key, entry, codec).0, other, codec) == LoadEntries(store, other, codec)
  {
    assert GetItem(AddEntry(store, key, entry, codec).0, other) == GetItem(store, other);
  }

  /** Clearing one key leaves what every other key loads unchanged. */
  lemma ClearKeepsOtherKeys(store: Store, key: string, other: string, codec: JsonCodec)
    requires other != key
    ensures LoadEntries(ClearEntries(store, key), other, codec) == LoadEntries(store, other, codec)
  {
    assert GetItem(ClearEntries(store, key), other) == GetItem(store, other);
  }

  /** A second add sees the first: the newest entry comes first, the one before it second. */
  lemma AddTwice(store: Store, key: string, e1: PulseEntry, e2: PulseEntry, codec: JsonCodec)
    requires ListRoundTrips(codec, AddEntry(store, key, e1, codec).1)
    ensures var s1 := AddEntry(store, key, e1, codec);
            var s2 := AddEntry(s1.0, key, e2, codec);
            |s2.1| >= 2 && s2.1[0] == e2 && s2.1[1] == e1
  {
    LoadAfterAdd(store, key, e1, codec);
  }
}
