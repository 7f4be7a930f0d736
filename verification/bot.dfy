/**
 * The companion bot's pure logic: `sanitizePayload`, `makeStartAppLink`
 * and the keyword choice of the `message_created` handler.
 */
module Bot {
  import opened Wrappers
  import opened JsString
  import opened Pulse

  /** The characters `/[^A-Za-z0-9_-]/g` leaves in place. */
  predicate IsPayloadChar(c: char) {
    ('A' <= c <= 'Z') || ('a' <= c <= 'z') || ('0' <= c <= '9') || c == '_' || c == '-'
  }

  predicate IsCleanPayload(s: string) {
    forall i :: 0 <= i < |s| ==> IsPayloadChar(s[i])
  }

  const MaxPayloadLength := 512
  const FallbackPayload := "daily"

  /** `raw.replace(/[^A-Za-z0-9_-]/g, '')`: the allowed characters of `raw`, in order. */
  function KeepPayloadChars(raw: string): (r: string)
    ensures |r| <= |raw|
    ensures IsCleanPayload(r)
  {
    if raw == [] then []
    else (if IsPayloadChar(raw[0]) then [raw[0]] else []) + KeepPayloadChars(raw[1..])
  }

  /** Filtering distributes over concatenation: each part keeps its own allowed characters. */
  lemma {:induction false} KeepPayloadCharsAppend(a: string, b: string)
    ensures KeepPayloadChars(a + b) == KeepPayloadChars(a) + KeepPayloadChars(b)
  {
    if a != [] {
      assert (a + b)[1..] == a[1..] + b;
      KeepPayloadCharsAppend(a[1..], b);
    } else {
      assert a + b == b;
    }
  }

  /** Filtering leaves a string made only of allowed characters unchanged. */
  lemma {:induction false} KeepPayloadCharsClean(s: string)
    requires IsCleanPayload(s)
    ensures KeepPayloadChars(s) == s
  {
    if s != [] {
      KeepPayloadCharsClean(s[1..]);
    }
  }

  /**
   * `sanitizePayload`: the first (at most 512) allowed characters of `raw`,
   * or "daily" when `raw` has none.
   */
  function SanitizePayload(raw: string): (r: string)
    ensures 0 < |r| <= MaxPayloadLength
    ensures IsCleanPayload(r)
    ensures KeepPayloadChars(raw) == [] ==> r == FallbackPayload
    ensures KeepPayloadChars(raw) != [] ==>
              && |r| == (if |KeepPayloadChars(raw)| < MaxPayloadLength then |KeepPayloadChars(raw)| else MaxPayloadLength)
              && r == KeepPayloadChars(raw)[..|r|]
  {
    var kept := KeepPayloadChars(raw);
    var cleaned := if |kept| <= MaxPayloadLength then kept else kept[..MaxPayloadLength];
    if cleaned == [] then FallbackPayload else cleaned
  }

  /** An allowed, non-empty payload of at most 512 characters is returned unchanged. */
  lemma SanitizeCleanUnchanged(s: string)
    requires s != [] && |s| <= MaxPayloadLength && IsCleanPayload(s)
    ensures SanitizePayload(s) == s
  {
    KeepPayloadCharsClean(s);
  }

  /** Sanitizing twice is sanitizing once. */
  lemma SanitizeIdempotent(raw: string)
    ensures SanitizePayload(SanitizePayload(raw)) == SanitizePayload(raw)
  {
    SanitizeCleanUnchanged(SanitizePayload(raw));
  }

  /** A clean prefix that fits in 512 characters survives sanitizing, whatever follows it. */
  lemma SanitizeKeepsCleanPrefix(prefix: string, rest: string)
    requires prefix != [] && |prefix| <= MaxPayloadLength && IsCleanPayload(prefix)
    ensures StartsWith(SanitizePayload(prefix + rest), prefix)
  {
    KeepPayloadCharsAppend(prefix, rest);
    KeepPayloadCharsClean(prefix);
  }

  /** Filtering a suffix: its first character, if allowed, then the filtered rest. */
  lemma KeepPayloadCharsStep(s: string, i: nat)
    requires i < |s|
    ensures KeepPayloadChars(s[i..]) == (if IsPayloadChar(s[i]) then [s[i]] else []) + KeepPayloadChars(s[i + 1..])
  {
    assert s[i..][1..] == s[i + 1..];
  }

  /**
   * Spaces and punctuation are dropped: `a b/c` becomes `abc`. The text is a
   * parameter fixed by the requires, because a literal argument in the ensures
   * makes the solver unroll the filter over it far past the resource limit.
   */
  lemma SanitizeDropsPunctuation(spaced: string)
    requires spaced == "a b/c"
    ensures SanitizePayload(spaced) == "abc"
  {
    KeepPayloadCharsStep(spaced, 4);
    KeepPayloadCharsStep(spaced, 3);
    KeepPayloadCharsStep(spaced, 2);
    KeepPayloadCharsStep(spaced, 1);
    KeepPayloadCharsStep(spaced, 0);
    assert spaced[5..] == [] && spaced[0..] == spaced;
  }

  /** An input with no allowed character falls back to `daily`. */
  lemma SanitizeFallback(raw: string)
    requires forall i :: 0 <= i < |raw| ==> !IsPayloadChar(raw[i])
    ensures SanitizePayload(raw) == FallbackPayload
  {
    if KeepPayloadChars(raw) != [] {
      var c := KeepPayloadChars(raw)[0];
      KeepPayloadCharsFromRaw(raw, c);
    }
  }

  /** Every kept character occurs in the input. */
  lemma {:induction false} KeepPayloadCharsFromRaw(raw: string, c: char)
    requires c in KeepPayloadChars(raw)
    ensures exists i :: 0 <= i < |raw| && raw[i] == c && IsPayloadChar(c)
  {
    if raw != [] {
      var rest := KeepPayloadChars(raw[1..]);
      if IsPayloadChar(raw[0]) && c == raw[0] {
        assert raw[0] == c;
      } else {
        assert c in rest;
        KeepPayloadCharsFromRaw(raw[1..], c);
        var i :| 0 <= i < |raw[1..]| && raw[1..][i] == c && IsPayloadChar(c);
        assert raw[i + 1] == c;
      }
    }
  }

  /** A clean input longer than 512 characters is cut to its first 512. */
  lemma SanitizeCutsLong(long: string)
    requires |long| > MaxPayloadLength && IsCleanPayload(long)
    ensures SanitizePayload(long) == long[..MaxPayloadLength]
  {
    KeepPayloadCharsClean(long);
  }

  /** `https://max.ru/${botName}?startapp`. */
  function LinkBase(botName: string): string {
    "https://max.ru/" + botName + "?startapp"
  }

  /**
   * `makeStartAppLink`: without a payload (absent or empty) the bare
   * `?startapp` link, otherwise `?startapp=` and the sanitized payload.
   */
  function MakeStartAppLink(botName: string, payload: Option<string>): (link: string)
    ensures payload.GetOr("") == "" ==> link == LinkBase(botName)
    ensures payload.GetOr("") != "" ==>
              StartsWith(link, LinkBase(botName) + "=") && link[|LinkBase(botName)| + 1..] == SanitizePayload(payload.value)
  {
    if payload.None? || payload.value == "" then LinkBase(botName)
    else LinkBase(botName) + "=" + SanitizePayload(payload.value)
  }

  /** Reads the `startapp` value back from a link: None for the bare link. */
  function StartAppValue(botName: string, link: string): Option<string> {
    if StartsWith(link, LinkBase(botName) + "=") then Some(link[|LinkBase(botName)| + 1..]) else None
  }

  /** Reading a built link gives the sanitized payload back, or nothing when none was given. */
  lemma StartAppLinkRoundTrip(botName: string, payload: Option<string>)
    ensures StartAppValue(botName, MakeStartAppLink(botName, payload)) ==
              if payload.GetOr("") == "" then None else Some(SanitizePayload(payload.value))
  {
  }

  /** Which reply `message_created` sends. */
  datatype Route = ModeHint(mode: PulseMode) | Menu

  /**
   * The keyword choice on the lower-cased message text (absent text counts as
   * empty): `daily` wins over `retro`, which wins over `incident`; otherwise the menu.
   */
  function ChooseRoute(text: Option<string>): (r: Route)
    ensures var t := ToLowerAscii(text.GetOr(""));
            && (r == ModeHint(Daily) <==> Includes(t, "daily"))
            && (r == ModeHint(Retro) <==> !Includes(t, "daily") && Includes(t, "retro"))
            && (r == ModeHint(Incident) <==> !Includes(t, "daily") && !Includes(t, "retro") && Includes(t, "incident"))
            && (r == Menu <==> !Includes(t, "daily") && !Includes(t, "retro") && !Includes(t, "incident"))
            && r != ModeHint(Unknown)
  {
    var t := ToLowerAscii(text.GetOr(""));
    if Includes(t, "daily") then ModeHint(Daily)
    else if Includes(t, "retro") then ModeHint(Retro)
    else if Includes(t, "incident") then ModeHint(Incident)
    else Menu
  }

  /** The button label, payload and hint text of each mode hint. */
  datatype Hint = Hint(buttonLabel: string, payload: string, text: string)

  function HintFor(mode: PulseMode): (h: Hint)
    requires mode != Unknown
    ensures IsCleanPayload(h.payload) && 0 < |h.payload| <= MaxPayloadLength
  {
    match mode
    case Daily => Hint("Daily", "daily_today", "Открываю режим Daily. Нажмите кнопку ниже.")
    case Retro => Hint("Retro", "retro_sprint12", "Открываю режим Retro. Нажмите кнопку ниже.")
    case Incident => Hint("Incident", "incident_INC-481", "Открываю режим Incident. Нажмите кнопку ниже.")
  }

  /** A clean payload is classified the same before and after sanitizing, with itself as `raw`. */
  lemma CleanPayloadKeepsContext(p: string)
    requires p != [] && |p| <= MaxPayloadLength && IsCleanPayload(p)
    ensures ParseStartParam(Some(SanitizePayload(p))) == ParseStartParam(Some(p))
    ensures ParseStartParam(Some(p)).raw == p
  {
    SanitizeCleanUnchanged(p);
    assert !IsWhitespace(p[0]) && !IsWhitespace(p[|p| - 1]);
    TrimOfTrimmed(p);
  }

  lemma DailyHintOpensDaily()
    ensures ParseStartParam(Some(SanitizePayload(HintFor(Daily).payload))).mode == Daily
  {
    var p := HintFor(Daily).payload;
    assert IsCleanPayload(p);
    CleanPayloadKeepsContext(p);
    ParseDailyExample();
  }

  lemma RetroHintOpensRetro()
    ensures ParseStartParam(Some(SanitizePayload(HintFor(Retro).payload))).mode == Retro
  {
    var p := HintFor(Retro).payload;
    assert IsCleanPayload(p);
    CleanPayloadKeepsContext(p);
    ParseRetroExample();
  }

  lemma IncidentHintOpensIncident()
    ensures ParseStartParam(Some(SanitizePayload(HintFor(Incident).payload))).mode == Incident
  {
    var p := HintFor(Incident).payload;
    assert IsCleanPayload(p);
    CleanPayloadKeepsContext(p);
    ParseIncidentExample();
  }

  /** Each hint's link opens the mini-app in the mode the message asked for. */
  lemma HintLinkOpensMode(text: Option<string>)
    requires ChooseRoute(text).ModeHint?
    ensures ParseStartParam(Some(SanitizePayload(HintFor(ChooseRoute(text).mode).payload))).mode == ChooseRoute(text).mode
  {
    var mode := ChooseRoute(text).mode;
    var p := HintFor(mode).payload;
    if mode == Daily {
      DailyHintOpensDaily();
    } else if mode == Retro {
      RetroHintOpensRetro();
    } else {
      IncidentHintOpensIncident();
    }
  }
}
