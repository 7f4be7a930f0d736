/**
 * The launch-payload check of the validation server (`validateInitData`):
 * empty-input guards, `hash` extraction, the sorted data-check string, the
 * two-stage HMAC key, the length-guarded constant-time comparison, the
 * `auth_date` unit heuristic, the 24-hour expiry and the soft-failing
 * extraction of the embedded fields.
 */
module InitData {
  import opened Wrappers
  import opened Json
  import opened Hex
  import opened StringOrder
  import opened SeqFacts

  /** The name/value pairs of a `URLSearchParams`, in order, duplicates kept. */
  type Params = seq<(string, string)>

  /**
   * The platform services the check calls. None of them is implemented here:
   * - `decodeUriComponent`: None where `decodeURIComponent` throws a URIError;
   * - `searchParams`: the pairs `new URLSearchParams(s)` parses (its own percent- and `+`-decoding included);
   * - `utf8`: the bytes HMAC's `update` hashes for a string;
   * - `hmacSha256(key, message)`: the HMAC-SHA256 digest;
   * - `finiteNumber`: `Number(s)` when `Number.isFinite` holds of it, None otherwise;
   * - `parseJson`: `JSON.parse`, None where it throws.
   */
  datatype Primitives = Primitives(
    decodeUriComponent: string -> Option<string>,
    searchParams: string -> Params,
    utf8: string -> seq<byte>,
    hmacSha256: (seq<byte>, seq<byte>) -> seq<byte>,
    finiteNumber: string -> Option<real>,
    parseJson: string -> Option<Json>)

  /** The `data` record of a successful check; an absent field is None. */
  datatype LaunchData = LaunchData(
    user: Option<Json>,
    chat: Option<Json>,
    startParam: Option<string>,
    queryId: Option<string>,
    authDate: real)

  /** `ValidationResult`: `{ok: false, reason}` or `{ok: true, data}`, never both. */
  datatype ValidationResult = Rejected(reason: string) | Verified(data: LaunchData)

  /** What a call does: returns a result, or lets the URIError of `decodeURIComponent` escape. */
  datatype Outcome = Returns(result: ValidationResult) | ThrowsUriError

  const InitDataMissing := "initData missing"
  const BotTokenMissing := "bot token missing"
  const HashMissing := "hash missing"
  const HashMismatch := "hash mismatch"
  const AuthDateMissing := "auth_date missing"
  const AuthDateExpired := "auth_date expired"

  /** The constant HMAC key of the first derivation stage. */
  const WebAppData := "WebAppData"

  /** Values above this are already milliseconds; others are seconds. */
  const MillisThreshold: real := 1000000000000.0

  /** 24 hours in milliseconds. */
  const DayMillis: int := 24 * 60 * 60 * 1000

  /** `params.get(name)`: the value of the FIRST pair with that name. */
  function GetParam(params: Params, name: string): (r: Option<string>)
    ensures r.None? <==> forall i :: 0 <= i < |params| ==> params[i].0 != name
    ensures r.Some? ==> exists i :: 0 <= i < |params| && params[i] == (name, r.value)
                                    && forall j :: 0 <= j < i ==> params[j].0 != name
  {
    if params == [] then None
    else if params[0].0 == name then
      assert params[0] == (name, params[0].1);
      Some(params[0].1)
    else
      var r := GetParam(params[1..], name);
      if r.Some? then
        var i :| 0 <= i < |params[1..]| && params[1..][i] == (name, r.value)
                 && forall j :: 0 <= j < i ==> params[1..][j].0 != name;
        assert params[i + 1] == (name, r.value);
        assert forall j :: 0 <= j < i + 1 ==> params[j].0 != name by {
          forall j | 0 <= j < i + 1
            ensures params[j].0 != name
          {
            if j > 0 { assert params[j] == params[1..][j - 1]; }
          }
        }
        r
      else
        r
  }

  /** `params.delete(name)`: every pair with that name is removed, the rest keep their order. */
  function DeleteParam(params: Params, name: string): (r: Params)
    ensures |r| <= |params|
    ensures forall i :: 0 <= i < |r| ==> r[i].0 != name
    ensures forall i :: 0 <= i < |r| ==> r[i] in params
  {
    if params == [] then []
    else (if params[0].0 == name then [] else [params[0]]) + DeleteParam(params[1..], name)
  }

  /** Deletion keeps every other pair as often as it occurred and no pair with the deleted name. */
  lemma {:induction false} DeleteParamCount(params: Params, name: string, p: (string, string))
    ensures multiset(DeleteParam(params, name))[p] == if p.0 == name then 0 else multiset(params)[p]
  {
    if params != [] {
      var x := params[0];
      var rest := DeleteParam(params[1..], name);
      DeleteParamCount(params[1..], name, p);
      assert params == [x] + params[1..];
      MultisetConsCount(x, params[1..], p);
      if x.0 == name {
        assert DeleteParam(params, name) == rest;
      } else {
        assert DeleteParam(params, name) == [x] + rest;
        MultisetConsCount(x, rest, p);
      }
    }
  }

  /** Deleting one name does not change what `get` returns for another. */
  lemma {:induction false} GetAfterDelete(params: Params, name: string, other: string)
    requires other != name
    ensures GetParam(DeleteParam(params, name), other) == GetParam(params, other)
  {
    if params != [] {
      GetAfterDelete(params[1..], name, other);
      var rest := DeleteParam(params[1..], name);
      if params[0].0 == name {
        assert DeleteParam(params, name) == rest;
      } else {
        assert DeleteParam(params, name) == [params[0]] + rest;
        assert ([params[0]] + rest)[1..] == rest;
      }
    }
  }

  /** Deleting a name that no pair carries changes nothing. */
  lemma {:induction false} DeleteAbsent(params: Params, name: string)
    requires forall i :: 0 <= i < |params| ==> params[i].0 != name
    ensures DeleteParam(params, name) == params
  {
    if params != [] {
      DeleteAbsent(params[1..], name);
      assert params == [params[0]] + params[1..];
    }
  }

  /** One line of the data-check string: `${key}=${value}`. */
  function Render(p: (string, string)): string {
    p.0 + "=" + p.1
  }

  function DataCheckLines(params: Params): (lines: seq<string>)
    ensures |lines| == |params|
    ensures forall i :: 0 <= i < |params| ==> lines[i] == Render(params[i])
  {
    seq(|params|, i requires 0 <= i < |params| => Render(params[i]))
  }

  /** The signed message: every remaining pair rendered `key=value`, sorted, joined by newlines. */
  /** Every line of the sorted data-check list is the rendering of some pair. */
  lemma SortedLineFromPair(rest: Params, k: nat)
    requires k < |Sort(DataCheckLines(rest))|
    ensures exists j :: 0 <= j < |rest| && Sort(DataCheckLines(rest))[k] == rest[j].0 + "=" + rest[j].1
  {
    var lines := DataCheckLines(rest);
    assert Sort(lines)[k] in multiset(lines);
    var j :| 0 <= j < |lines| && lines[j] == Sort(lines)[k];
    assert lines[j] == Render(rest[j]);
  }

  function DataCheckString(rest: Params): (r: string)
    ensures rest == [] ==> r == ""
    ensures rest != [] ==> '=' in r
  {
    var sorted := Sort(DataCheckLines(rest));
    if rest == [] then "" else
      assert |multiset(sorted)| == |rest|;
      SortedLineFromPair(rest, 0);
      var j :| 0 <= j < |rest| && sorted[0] == rest[j].0 + "=" + rest[j].1;
      assert sorted[0][|rest[j].0|] == '=';
      Join(sorted, "\n")
  }

  /**
   * When no name or value holds a newline, the data-check string lists the
   * sorted `key=value` lines and nothing else: splitting it at newlines gives
   * them back.
   */
  lemma DataCheckStringLines(rest: Params)
    requires rest != []
    requires forall i :: 0 <= i < |rest| ==> '\n' !in rest[i].0 && '\n' !in rest[i].1
    ensures Split(DataCheckString(rest), '\n') == Sort(DataCheckLines(rest))
  {
    var lines := DataCheckLines(rest);
    var sorted := Sort(lines);
    forall k | 0 <= k < |sorted|
      ensures '\n' !in sorted[k]
    {
      SortedLineFromPair(rest, k);
    }
    assert |multiset(sorted)| == |lines| > 0;
    assert "\n" == ['\n'];
    SplitJoin(sorted, '\n');
  }

  lemma DataCheckLinesRemoveAt(b: Params, i: nat)
    requires i < |b|
    ensures DataCheckLines(b[..i] + b[i + 1..]) == DataCheckLines(b)[..i] + DataCheckLines(b)[i + 1..]
  {
    var b' := b[..i] + b[i + 1..];
    var lb := DataCheckLines(b);
    forall k | 0 <= k < |b'|
      ensures DataCheckLines(b')[k] == (lb[..i] + lb[i + 1..])[k]
    {
      if k < i {
        assert b'[k] == b[k];
      } else {
        assert b'[k] == b[k + 1];
      }
    }
  }

  /** Removing the pair at `i` removes its line from the multiset of lines. */
  lemma DataCheckLinesWithout(b: Params, i: nat)
    requires i < |b|
    ensures multiset(DataCheckLines(b)) == multiset(DataCheckLines(b[..i] + b[i + 1..])) + multiset{Render(b[i])}
  {
    var lb := DataCheckLines(b);
    DataCheckLinesRemoveAt(b, i);
    assert lb == lb[..i] + [lb[i]] + lb[i + 1..];
    assert lb[i] == Render(b[i]);
  }

  /** The lines of a non-empty list: the first pair's line, then the rest's. */
  lemma DataCheckLinesCons(a: Params)
    requires a != []
    ensures multiset(DataCheckLines(a)) == multiset{Render(a[0])} + multiset(DataCheckLines(a[1..]))
  {
    assert DataCheckLines(a) == [Render(a[0])] + DataCheckLines(a[1..]);
  }

  /** Rendering pairs line by line carries a permutation of the pairs to a permutation of the lines. */
  lemma {:induction false} DataCheckLinesPermutation(a: Params, b: Params)
    requires multiset(a) == multiset(b)
    ensures multiset(DataCheckLines(a)) == multiset(DataCheckLines(b))
    decreases |a|
  {
    if a == [] {
      assert |b| == |multiset(b)| == 0;
    } else {
      assert a[0] in multiset(b);
      var i :| 0 <= i < |b| && b[i] == a[0];
      PermutationWithout(a, b, i);
      DataCheckLinesPermutation(a[1..], b[..i] + b[i + 1..]);
      DataCheckLinesWithout(b, i);
      DataCheckLinesCons(a);
    }
  }

  /** The data-check string does not depend on the order of the pairs. */
  lemma DataCheckStringPermutation(a: Params, b: Params)
    requires multiset(a) == multiset(b)
    ensures DataCheckString(a) == DataCheckString(b)
  {
    DataCheckLinesPermutation(a, b);
    SortPermutationInvariant(DataCheckLines(a), DataCheckLines(b));
  }

  /** A line rendered from the pairs left after a deletion comes from a pair of the input with another name. */
  lemma LineFromPayloadPair(params: Params, name: string, l: string)
    requires l in DataCheckLines(DeleteParam(params, name))
    ensures exists i :: 0 <= i < |params| && params[i].0 != name && l == Render(params[i])
  {
    var rest := DeleteParam(params, name);
    var lines := DataCheckLines(rest);
    var k :| 0 <= k < |lines| && lines[k] == l;
    var p := rest[k];
    assert p in multiset(rest);
    DeleteParamCount(params, name, p);
    var i :| 0 <= i < |params| && params[i] == p;
  }

  /**
   * The signed lines are exactly the non-`hash` pairs, rendered, with every
   * duplicate kept; no `hash` pair contributes a line.
   */
  lemma DataCheckLinesOfPayload(params: Params)
    ensures multiset(Sort(DataCheckLines(DeleteParam(params, "hash"))))
            == multiset(DataCheckLines(DeleteParam(params, "hash")))
    ensures forall l :: l in Sort(DataCheckLines(DeleteParam(params, "hash"))) ==>
              exists i :: 0 <= i < |params| && params[i].0 != "hash" && l == Render(params[i])
  {
    var lines := DataCheckLines(DeleteParam(params, "hash"));
    forall l | l in Sort(lines)
      ensures exists i :: 0 <= i < |params| && params[i].0 != "hash" && l == Render(params[i])
    {
      assert l in multiset(Sort(lines));
      assert l in multiset(lines);
      LineFromPayloadPair(params, "hash", l);
    }
  }

  /** Reordering the payload's pairs leaves the data-check string unchanged. */
  lemma PayloadPermutation(a: Params, b: Params)
    requires multiset(a) == multiset(b)
    ensures DataCheckString(DeleteParam(a, "hash")) == DataCheckString(DeleteParam(b, "hash"))
  {
    var ra := DeleteParam(a, "hash");
    var rb := DeleteParam(b, "hash");
    forall p
      ensures multiset(ra)[p] == multiset(rb)[p]
    {
      DeleteParamCount(a, "hash", p);
      DeleteParamCount(b, "hash", p);
    }
    assert multiset(ra) == multiset(rb);
    DataCheckStringPermutation(ra, rb);
  }

  /** `secretKey`: HMAC-SHA256 keyed with "WebAppData" over the bot token. */
  function SecretKey(botToken: string, prim: Primitives): seq<byte> {
    prim.hmacSha256(prim.utf8(WebAppData), prim.utf8(botToken))
  }

  /** The digest the payload must carry: HMAC-SHA256 keyed with the secret key over the data-check string. */
  function ExpectedDigest(rest: Params, botToken: string, prim: Primitives): seq<byte> {
    prim.hmacSha256(SecretKey(botToken, prim), prim.utf8(DataCheckString(rest)))
  }

  /** `computedHash`: the expected digest in lower-case hex. */
  function ComputedHash(rest: Params, botToken: string, prim: Primitives): (hash: string)
    ensures |hash| == 2 * |ExpectedDigest(rest, botToken, prim)|
    ensures HexDecode(hash) == ExpectedDigest(rest, botToken, prim)
  {
    HexRoundTrip(ExpectedDigest(rest, botToken, prim));
    HexEncode(ExpectedDigest(rest, botToken, prim))
  }

  /**
   * `parseAuthDate`: absent, empty or non-finite gives None; a value above
   * 1e12 is taken as milliseconds, any other as seconds and scaled by 1000.
   */
  function ParseAuthDate(raw: Option<string>, prim: Primitives): (r: Option<real>)
    ensures r.Some? <==> raw.Some? && raw.value != "" && prim.finiteNumber(raw.value).Some?
    ensures r.Some? ==> var v := prim.finiteNumber(raw.value).value;
                        (v > MillisThreshold ==> r.value == v) && (v <= MillisThreshold ==> r.value == v * 1000.0)
  {
    if raw.None? || raw.value == "" then None
    else match prim.finiteNumber(raw.value)
      case None => None
      case Some(value) => Some(if value > MillisThreshold then value else value * 1000.0)
  }

  /** A timestamp given in seconds after 2001-09-09 and the same instant in milliseconds parse alike. */
  lemma AuthDateUnitsAgree(secs: string, millis: string, prim: Primitives)
    requires secs != "" && millis != ""
    requires prim.finiteNumber(secs).Some? && prim.finiteNumber(millis).Some?
    requires 1000000000.0 < prim.finiteNumber(secs).value <= MillisThreshold
    requires prim.finiteNumber(millis).value == prim.finiteNumber(secs).value * 1000.0
    ensures ParseAuthDate(Some(secs), prim) == ParseAuthDate(Some(millis), prim)
  {
    var v := prim.finiteNumber(secs).value;
    assert v * 1000.0 > MillisThreshold;
  }

  /** The age rule: older than 24 hours (strictly) is expired; future-dated payloads never are. */
  predicate Expired(now: int, authMillis: real) {
    now as real - authMillis > DayMillis as real
  }

  /** An expired date stays expired: at any later time, and so does every older date. */
  lemma ExpiredStaysExpired(now: int, later: int, authMillis: real, older: real)
    requires Expired(now, authMillis) && now <= later && older <= authMillis
    ensures Expired(later, older)
  {
  }

  /** `getJson(key)`: absent or empty gives None, and so does text `JSON.parse` rejects. */
  function GetJson(rest: Params, key: string, prim: Primitives): (r: Option<Json>)
    ensures r.None? <==> GetParam(rest, key).GetOr("") == "" || prim.parseJson(GetParam(rest, key).value).None?
    ensures r.Some? ==> r == prim.parseJson(GetParam(rest, key).value)
  {
    var raw := GetParam(rest, key);
    if raw.None? || raw.value == "" then None else prim.parseJson(raw.value)
  }

  /** The supplied hash: the first `hash` pair's value, or "" when there is none. */
  function SuppliedHash(params: Params): string {
    GetParam(params, "hash").GetOr("")
  }

  predicate SignatureMatches(params: Params, botToken: string, prim: Primitives) {
    ConstantTimeEqual(ComputedHash(DeleteParam(params, "hash"), botToken, prim), SuppliedHash(params))
  }

  function AuthMillis(params: Params, prim: Primitives): Option<real> {
    ParseAuthDate(GetParam(DeleteParam(params, "hash"), "auth_date"), prim)
  }

  /** `!authDateValue`: the parsed value is null or 0. */
  predicate AuthDateAbsent(params: Params, prim: Primitives) {
    AuthMillis(params, prim).GetOr(0.0) == 0.0
  }

  /**
   * Steps after URL decoding, in the source's order: hash presence, signature,
   * auth_date presence, expiry, then field extraction. Each reason is returned
   * exactly when every earlier step passed and its own step failed.
   */
  function CheckParams(params: Params, botToken: string, now: int, prim: Primitives): (v: ValidationResult)
    ensures v == Rejected(HashMissing) <==> SuppliedHash(params) == ""
    ensures v == Rejected(HashMismatch) <==>
              SuppliedHash(params) != "" && !SignatureMatches(params, botToken, prim)
    ensures v == Rejected(AuthDateMissing) <==>
              SuppliedHash(params) != "" && SignatureMatches(params, botToken, prim) && AuthDateAbsent(params, prim)
    ensures v == Rejected(AuthDateExpired) <==>
              SuppliedHash(params) != "" && SignatureMatches(params, botToken, prim) && !AuthDateAbsent(params, prim)
              && Expired(now, AuthMillis(params, prim).value)
    ensures v.Verified? <==>
              SuppliedHash(params) != "" && SignatureMatches(params, botToken, prim) && !AuthDateAbsent(params, prim)
              && !Expired(now, AuthMillis(params, prim).value)
    ensures v.Verified? ==>
              && Some(v.data.authDate) == ParseAuthDate(GetParam(params, "auth_date"), prim)
              && v.data.authDate != 0.0
              && v.data.startParam == GetParam(params, "start_param")
              && v.data.queryId == GetParam(params, "query_id")
              && v.data.user == GetJson(params, "user", prim)
              && v.data.chat == GetJson(params, "chat", prim)
  {
    var hash := GetParam(params, "hash");
    if hash.None? || hash.value == "" then Rejected(HashMissing)
    else
      var rest := DeleteParam(params, "hash");
      var computedHash := ComputedHash(rest, botToken, prim);
      if !ConstantTimeEqual(computedHash, hash.value) then Rejected(HashMismatch)
      else
        var authDateValue := ParseAuthDate(GetParam(rest, "auth_date"), prim);
        if authDateValue.None? || authDateValue.value == 0.0 then Rejected(AuthDateMissing)
        else if Expired(now, authDateValue.value) then Rejected(AuthDateExpired)
        else
          GetAfterDelete(params, "hash", "auth_date");
          GetAfterDelete(params, "hash", "start_param");
          GetAfterDelete(params, "hash", "query_id");
          GetAfterDelete(params, "hash", "user");
          GetAfterDelete(params, "hash", "chat");
          Verified(LaunchData(
            user := GetJson(rest, "user", prim),
            chat := GetJson(rest, "chat", prim),
            startParam := GetParam(rest, "start_param"),
            queryId := GetParam(rest, "query_id"),
            authDate := authDateValue.value))
  }

  /**
   * `validateInitData(initDataRaw, botToken)` with `Date.now()` passed as `now`.
   * The two guards come first, in that order; a URIError from decoding escapes.
   */
  function ValidateInitData(initDataRaw: string, botToken: string, now: int, prim: Primitives): (r: Outcome)
    ensures initDataRaw == "" ==> r == Returns(Rejected(InitDataMissing))
    ensures initDataRaw != "" && botToken == "" ==> r == Returns(Rejected(BotTokenMissing))
    ensures r.ThrowsUriError? <==>
              initDataRaw != "" && botToken != "" && prim.decodeUriComponent(initDataRaw).None?
    ensures initDataRaw != "" && botToken != "" && prim.decodeUriComponent(initDataRaw).Some? ==>
              r == Returns(CheckParams(prim.searchParams(prim.decodeUriComponent(initDataRaw).value), botToken, now, prim))
    ensures r.Returns? && r.result.Rejected? ==>
              r.result.reason in {InitDataMissing, BotTokenMissing, HashMissing, HashMismatch, AuthDateMissing, AuthDateExpired}
  {
    if initDataRaw == "" then Returns(Rejected(InitDataMissing))
    else if botToken == "" then Returns(Rejected(BotTokenMissing))
    else match prim.decodeUriComponent(initDataRaw)
      case None => ThrowsUriError
      case Some(decoded) => Returns(CheckParams(prim.searchParams(decoded), botToken, now, prim))
  }

  /**
   * Acceptance implies authenticity: the supplied hash decodes to the HMAC,
   * under the key derived from the bot token, of the data-check string of the
   * other pairs; and the accepted `auth_date` is non-zero and at most 24 hours old.
   */
  lemma VerifiedIsAuthentic(params: Params, botToken: string, now: int, prim: Primitives)
    requires CheckParams(params, botToken, now, prim).Verified?
    ensures HexDecode(SuppliedHash(params)) == ExpectedDigest(DeleteParam(params, "hash"), botToken, prim)
    ensures var authDate := CheckParams(params, botToken, now, prim).data.authDate;
            authDate != 0.0 && now as real - authDate <= DayMillis as real
  {
    MatchesDigestIffDecodes(ExpectedDigest(DeleteParam(params, "hash"), botToken, prim), SuppliedHash(params));
  }

  /** A payload: the given pairs with the `hash` pair appended. */
  function WithHash(pairs: Params, hash: string): Params {
    pairs + [("hash", hash)]
  }

  /** The `hash` value a signer computes for pairs that carry no `hash` pair of their own. */
  function Sign(pairs: Params, botToken: string, prim: Primitives): string {
    ComputedHash(pairs, botToken, prim)
  }

  /** `get` looks past a prefix that does not carry the name. */
  lemma {:induction false} GetParamSkipsPrefix(pairs: Params, extra: Params, name: string)
    requires forall i :: 0 <= i < |pairs| ==> pairs[i].0 != name
    ensures GetParam(pairs + extra, name) == GetParam(extra, name)
  {
    if pairs != [] {
      assert (pairs + extra)[1..] == pairs[1..] + extra;
      GetParamSkipsPrefix(pairs[1..], extra, name);
    } else {
      assert pairs + extra == extra;
    }
  }

  /** `delete` works pair by pair, so it distributes over concatenation. */
  lemma {:induction false} DeleteParamAppend(a: Params, b: Params, name: string)
    ensures DeleteParam(a + b, name) == DeleteParam(a, name) + DeleteParam(b, name)
  {
    if a != [] {
      var head: Params := if a[0].0 == name then [] else [a[0]];
      assert (a + b)[0] == a[0];
      assert (a + b)[1..] == a[1..] + b;
      assert DeleteParam(a + b, name) == head + DeleteParam(a[1..] + b, name);
      DeleteParamAppend(a[1..], b, name);
      assert DeleteParam(a, name) == head + DeleteParam(a[1..], name);
    } else {
      assert a + b == b;
    }
  }

  lemma HashOfSignedPayload(pairs: Params, hash: string)
    requires forall i :: 0 <= i < |pairs| ==> pairs[i].0 != "hash"
    ensures GetParam(WithHash(pairs, hash), "hash") == Some(hash)
    ensures DeleteParam(WithHash(pairs, hash), "hash") == pairs
  {
    var tail: Params := [("hash", hash)];
    GetParamSkipsPrefix(pairs, tail, "hash");
    DeleteParamAppend(pairs, tail, "hash");
    DeleteAbsent(pairs, "hash");
    assert DeleteParam(tail, "hash") == [];
    assert pairs + [] == pairs;
  }

  /**
   * Signing then checking succeeds: pairs signed with the bot token's derived
   * key, with a non-zero `auth_date` at most 24 hours old (or in the future), verify,
   * and the returned `auth_date` is the parsed milliseconds value.
   */
  lemma SignedPayloadVerified(pairs: Params, botToken: string, now: int, prim: Primitives)
    requires forall i :: 0 <= i < |pairs| ==> pairs[i].0 != "hash"
    requires ExpectedDigest(pairs, botToken, prim) != []
    requires ParseAuthDate(GetParam(pairs, "auth_date"), prim).GetOr(0.0) != 0.0
    requires !Expired(now, ParseAuthDate(GetParam(pairs, "auth_date"), prim).value)
    ensures CheckParams(WithHash(pairs, Sign(pairs, botToken, prim)), botToken, now, prim).Verified?
    ensures Some(CheckParams(WithHash(pairs, Sign(pairs, botToken, prim)), botToken, now, prim).data.authDate)
            == ParseAuthDate(GetParam(pairs, "auth_date"), prim)
  {
    HashOfSignedPayload(pairs, Sign(pairs, botToken, prim));
  }

  /**
   * Tamper sensitivity: a hash computed for some pairs does not verify other
   * pairs whose data-check string has a different HMAC under the same key.
   */
  lemma TamperedPayloadRejected(original: Params, tampered: Params, botToken: string, now: int, prim: Primitives)
    requires forall i :: 0 <= i < |tampered| ==> tampered[i].0 != "hash"
    requires ExpectedDigest(original, botToken, prim) != []
    requires ExpectedDigest(tampered, botToken, prim) != ExpectedDigest(original, botToken, prim)
    ensures CheckParams(WithHash(tampered, Sign(original, botToken, prim)), botToken, now, prim)
            == Rejected(HashMismatch)
  {
    var hash := Sign(original, botToken, prim);
    HashOfSignedPayload(tampered, hash);
    MatchesDigestIffDecodes(ExpectedDigest(tampered, botToken, prim), hash);
    HexRoundTrip(ExpectedDigest(original, botToken, prim));
  }

  /**
   * The expiry boundary is inclusive: with a valid signature, an `auth_date`
   * exactly 24 hours old verifies, one millisecond older is expired, and any
   * future date verifies.
   */
  lemma ExpiryBoundary(params: Params, botToken: string, now: int, prim: Primitives)
    requires SuppliedHash(params) != "" && SignatureMatches(params, botToken, prim)
    requires !AuthDateAbsent(params, prim)
    ensures now as real - AuthMillis(params, prim).value == DayMillis as real ==>
              CheckParams(params, botToken, now, prim).Verified?
    ensures now as real - AuthMillis(params, prim).value == (DayMillis + 1) as real ==>
              CheckParams(params, botToken, now, prim) == Rejected(AuthDateExpired)
    ensures now as real < AuthMillis(params, prim).value ==>
              CheckParams(params, botToken, now, prim).Verified?
  {
  }

  /**
   * The hash comparison works on decoded bytes, so a correct hex digest
   * followed by text that decodes to nothing (starting with a non-hex
   * character, or one lone digit) still passes the signature step.
   */
  lemma HashWithTrailingTextMatches(pairs: Params, suffix: string, botToken: string, prim: Primitives)
    requires forall i :: 0 <= i < |pairs| ==> pairs[i].0 != "hash"
    requires HexDecode(suffix) == []
    ensures SignatureMatches(WithHash(pairs, Sign(pairs, botToken, prim) + suffix), botToken, prim)
  {
    var d := ExpectedDigest(pairs, botToken, prim);
    HashOfSignedPayload(pairs, Sign(pairs, botToken, prim) + suffix);
    HexDecodeAppend(d, suffix);
    HexRoundTrip(d);
    assert d + [] == d;
  }

  /**
   * The data-check string does not separate keys from values: a key holding
   * `=` and a value holding `=` can render to the same line, so two different
   * payloads share one signature.
   */
  lemma DataCheckStringAmbiguous()
    ensures DataCheckString([("a=b", "c")]) == DataCheckString([("a", "b=c")])
  {
  }
}
