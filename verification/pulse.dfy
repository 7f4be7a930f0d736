/**
 * The domain types of the mini-app and `parseStartParam`, the classifier
 * that turns a deep-link `start_param` into a mode, a label and details.
 */
module Pulse {
  import opened Wrappers
  import opened JsString

  datatype PulseMode = Daily | Retro | Incident | Unknown

  datatype Mood = Good | Ok | Bad

  /** The string literal a mode is written as. */
  function ModeName(m: PulseMode): string {
    match m
    case Daily => "daily"
    case Retro => "retro"
    case Incident => "incident"
    case Unknown => "unknown"
  }

  /** The string literal a mood is written as. */
  function MoodName(m: Mood): string {
    match m
    case Good => "good"
    case Ok => "ok"
    case Bad => "bad"
  }

  /** `PulseContext`; `details` is None where the source leaves it undefined. */
  datatype PulseContext = PulseContext(raw: string, mode: PulseMode, modeLabel: string, details: Option<string>)

  /**
   * `PulseEntry` as the storage loader accepts it: `mode` and `mood` are only
   * known to be strings, so they are kept as strings.
   */
  datatype PulseEntry = PulseEntry(id: string, ts: real, context: string, mode: string, mood: string, comment: string)

  const DailyPrefix := "daily_"
  const RetroPrefix := "retro_"
  const IncidentPrefix := "incident_"

  /** The label shown for each mode. */
  function Label(m: PulseMode): string {
    match m
    case Daily => "Daily check-in"
    case Retro => "Ретро"
    case Incident => "Инцидент"
    case Unknown => "Неизвестный режим"
  }

  /** `raw.replace(prefix, '').replace(/_/g, ' ')`. */
  function DetailsAfter(raw: string, prefix: string): string {
    ReplaceChar(ReplaceFirst(raw, prefix, ""), '_', ' ')
  }

  /** Replacing a prefix the string starts with leaves the remainder after it. */
  lemma ReplaceLeadingPrefix(s: string, p: string)
    requires StartsWith(s, p)
    ensures ReplaceFirst(s, p, "") == s[|p|..]
  {
  }

  /** No string starts with two of the three prefixes. */
  lemma PrefixesExclusive(s: string)
    ensures !(StartsWith(s, DailyPrefix) && StartsWith(s, RetroPrefix))
    ensures !(StartsWith(s, DailyPrefix) && StartsWith(s, IncidentPrefix))
    ensures !(StartsWith(s, RetroPrefix) && StartsWith(s, IncidentPrefix))
  {
    if StartsWith(s, DailyPrefix) { assert s[0] == 'd'; }
    if StartsWith(s, RetroPrefix) { assert s[0] == 'r'; }
    if StartsWith(s, IncidentPrefix) { assert s[0] == 'i'; }
  }

  /**
   * `parseStartParam`: trims the parameter (absent counts as empty), then tries
   * the prefixes `daily_`, `retro_`, `incident_` in that order. `retro_` always
   * carries details (possibly empty); `incident_` carries them only when non-empty.
   */
  function ParseStartParam(rawParam: Option<string>): (c: PulseContext)
    ensures c.raw == Trim(rawParam.GetOr(""))
    ensures c.modeLabel == Label(c.mode)
    ensures c.mode == Daily <==> StartsWith(c.raw, DailyPrefix)
    ensures c.mode == Retro <==> StartsWith(c.raw, RetroPrefix)
    ensures c.mode == Incident <==> StartsWith(c.raw, IncidentPrefix)
    ensures c.details.Some? <==> c.mode == Retro || (c.mode == Incident && |c.raw| > |IncidentPrefix|)
    ensures c.mode == Retro ==> c.details == Some(ReplaceChar(c.raw[|RetroPrefix|..], '_', ' '))
    ensures c.mode == Incident && |c.raw| > |IncidentPrefix| ==>
              c.details == Some(ReplaceChar(c.raw[|IncidentPrefix|..], '_', ' '))
  {
    var raw := Trim(rawParam.GetOr(""));
    PrefixesExclusive(raw);
    if raw == "" then
      PulseContext("", Unknown, "Неизвестный режим", None)
    else if StartsWith(raw, DailyPrefix) then
      PulseContext(raw, Daily, "Daily check-in", None)
    else if StartsWith(raw, RetroPrefix) then
      ReplaceLeadingPrefix(raw, RetroPrefix);
      PulseContext(raw, Retro, "Ретро", Some(DetailsAfter(raw, RetroPrefix)))
    else if StartsWith(raw, IncidentPrefix) then
      ReplaceLeadingPrefix(raw, IncidentPrefix);
      var details := DetailsAfter(raw, IncidentPrefix);
      PulseContext(raw, Incident, "Инцидент", if details == "" then None else Some(details))
    else
      PulseContext(raw, Unknown, "Неизвестный режим", None)
  }

  /** The prefix rules in priority order, as an explicit table. */
  const Rules: seq<(string, PulseMode)> := [(DailyPrefix, Daily), (RetroPrefix, Retro), (IncidentPrefix, Incident)]

  /** Reference classifier: the mode of the first rule whose prefix `raw` starts with, else Unknown. */
  function FirstMatch(raw: string, rules: seq<(string, PulseMode)>): PulseMode {
    if rules == [] then Unknown
    else if StartsWith(raw, rules[0].0) then rules[0].1
    else FirstMatch(raw, rules[1..])
  }

  /** One step of the table lookup: the rule at `i` decides, or the lookup moves on. */
  lemma FirstMatchStep(raw: string, rules: seq<(string, PulseMode)>, i: nat)
    requires i < |rules|
    ensures FirstMatch(raw, rules[i..]) ==
              if StartsWith(raw, rules[i].0) then rules[i].1 else FirstMatch(raw, rules[i + 1..])
  {
    assert rules[i..][0] == rules[i] && rules[i..][1..] == rules[i + 1..];
  }

  /** The lookup in a three-rule table, spelled out. */
  lemma FirstMatchOfThree(raw: string, rules: seq<(string, PulseMode)>)
    requires |rules| == 3
    ensures FirstMatch(raw, rules) ==
              if StartsWith(raw, rules[0].0) then rules[0].1
              else if StartsWith(raw, rules[1].0) then rules[1].1
              else if StartsWith(raw, rules[2].0) then rules[2].1
              else Unknown
  {
    FirstMatchStep(raw, rules, 0);
    FirstMatchStep(raw, rules, 1);
    FirstMatchStep(raw, rules, 2);
    assert rules[0..] == rules && rules[3..] == [];
  }

  /** `parseStartParam` chooses its mode exactly as the ordered rule table does. */
  lemma ModeFollowsRuleTable(rawParam: Option<string>)
    ensures ParseStartParam(rawParam).mode == FirstMatch(ParseStartParam(rawParam).raw, Rules)
  {
    var c := ParseStartParam(rawParam);
    PrefixesExclusive(c.raw);
    FirstMatchOfThree(c.raw, Rules);
  }

  /** Parsing the returned `raw` again gives the same context. */
  lemma ParseStable(rawParam: Option<string>)
    ensures ParseStartParam(Some(ParseStartParam(rawParam).raw)) == ParseStartParam(rawParam)
  {
    TrimIdempotent(rawParam.GetOr(""));
  }

  /** Absent or whitespace-only input gives the empty, unknown context. */
  lemma BlankParamIsUnknown(rawParam: Option<string>)
    requires forall i :: 0 <= i < |rawParam.GetOr("")| ==> IsWhitespace(rawParam.GetOr("")[i])
    ensures ParseStartParam(rawParam) == PulseContext("", Unknown, "Неизвестный режим", None)
  {
    TrimEmptyIffAllWhitespace(rawParam.GetOr(""));
  }

  /** A parameter without surrounding white space is kept as `raw` unchanged. */
  lemma CleanParamKept(s: string)
    requires s != [] && !IsWhitespace(s[0]) && !IsWhitespace(s[|s| - 1])
    ensures ParseStartParam(Some(s)).raw == s
  {
    TrimOfTrimmed(s);
  }

  /** The daily case of the module's own test file. */
  lemma ParseDailyExample()
    ensures ParseStartParam(Some("daily_today")).mode == Daily
    ensures ParseStartParam(Some("daily_today")).modeLabel == "Daily check-in"
    ensures ParseStartParam(Some("daily_today")).details == None
  {
    var s := "daily_today";
    assert s[..|DailyPrefix|] == DailyPrefix;
    CleanParamKept(s);
  }

  /** A `retro_` parameter that does not end in white space is kept as `raw` unchanged. */
  lemma RetroParamKept(s: string, rest: string)
    requires s == RetroPrefix + rest && (rest == [] || !IsWhitespace(rest[|rest| - 1]))
    ensures ParseStartParam(Some(s)).raw == s
  {
    assert s[0] == RetroPrefix[0];
    assert !IsWhitespace(s[|s| - 1]) by {
      if rest == [] {
        assert s[|s| - 1] == RetroPrefix[|RetroPrefix| - 1];
      } else {
        assert s[|s| - 1] == rest[|rest| - 1];
      }
    }
    CleanParamKept(s);
  }

  /**
   * A `retro_` parameter whose remainder has no `_` and does not end in white
   * space carries that remainder as details; a bare `retro_` carries "".
   */
  lemma RetroParamDetails(s: string, rest: string)
    requires s == RetroPrefix + rest && (rest == [] || !IsWhitespace(rest[|rest| - 1]))
    requires forall i :: 0 <= i < |rest| ==> rest[i] != '_'
    ensures ParseStartParam(Some(s)).mode == Retro
    ensures ParseStartParam(Some(s)).details == Some(rest)
  {
    var c := ParseStartParam(Some(s));
    RetroParamKept(s, rest);
    assert c.raw[..|RetroPrefix|] == RetroPrefix && c.raw[|RetroPrefix|..] == rest;
    ReplaceCharAbsent(rest, '_', ' ');
  }

  /** A clean `incident_` parameter whose remainder is non-empty and has no `_` carries that remainder as details. */
  lemma IncidentParamDetails(s: string, rest: string)
    requires s == IncidentPrefix + rest && rest != [] && !IsWhitespace(rest[|rest| - 1])
    requires forall i :: 0 <= i < |rest| ==> rest[i] != '_'
    ensures ParseStartParam(Some(s)).mode == Incident
    ensures ParseStartParam(Some(s)).details == Some(rest)
  {
    assert s[..|IncidentPrefix|] == IncidentPrefix && s[|IncidentPrefix|..] == rest;
    CleanParamKept(s);
    ReplaceCharAbsent(rest, '_', ' ');
  }

  /** The retro case of the module's own test file. */
  lemma ParseRetroExample()
    ensures ParseStartParam(Some("retro_sprint12")).mode == Retro
    ensures ParseStartParam(Some("retro_sprint12")).details == Some("sprint12")
  {
    var rest := "sprint12";
    assert "retro_sprint12" == RetroPrefix + rest;
    RetroParamDetails("retro_sprint12", rest);
  }

  /** The incident case of the module's own test file. */
  lemma ParseIncidentExample()
    ensures ParseStartParam(Some("incident_INC-481")).mode == Incident
    ensures ParseStartParam(Some("incident_INC-481")).details == Some("INC-481")
  {
    var rest := "INC-481";
    assert "incident_INC-481" == IncidentPrefix + rest;
    IncidentParamDetails("incident_INC-481", rest);
  }
}
