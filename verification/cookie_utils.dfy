/**
 * `getOrCreateUserId`: read the `santa_user_id` cookie from the `Cookie`
 * request header (section 4.2.1 of RFC 6265), or issue a new identifier with
 * a `Set-Cookie` header (section 4.1.1 of RFC 6265).
 *
 * The fresh identifier (`generateUserId`, built from the clock and a random
 * number) is a parameter.
 */
module CookieUtils {
  import opened Wrappers
  import opened JsStrings
  import opened UriCodec

  const COOKIE_NAME: string := "santa_user_id"

  /** `Max-Age` of the issued cookie: one year, `60 * 60 * 24 * 365` seconds. */
  const MAX_AGE_SECONDS: int := 60 * 60 * 24 * 365

  /** A trimmed piece split at its first `=`: its name and value, when both are non-empty. */
  function SplitPair(t: string): (r: Option<(string, string)>)
    ensures r.Some? ==> r.value.0 + ['='] + r.value.1 == t && r.value.0 != [] && r.value.1 != [] && '=' !in r.value.0
    ensures r.None? <==> ('=' !in t || t[0] == '=' || IndexOf(t, '=') == |t| - 1)
  {
    var equalIndex := IndexOf(t, '=');
    if equalIndex > 0 then
      var key := t[..equalIndex];
      var value := t[equalIndex + 1..];
      if value != [] then
        assert key + ['='] + value == t;
        Some((key, value))
      else None
    else None
  }

  /**
   * One `;`-separated piece of the header, trimmed and split at its first `=`:
   * its name and its still-encoded value, when both are non-empty.
   */
  function Pair(piece: string): (r: Option<(string, string)>)
  {
    SplitPair(Trim(piece))
  }

  /** The name and encoded value of each piece, in order. */
  function Pairs(pieces: seq<string>): (r: seq<Option<(string, string)>>)
    ensures |r| == |pieces|
    ensures forall i :: 0 <= i < |pieces| ==> r[i] == Pair(pieces[i])
  {
    seq(|pieces|, i requires 0 <= i < |pieces| => Pair(pieces[i]))
  }

  /**
   * The `reduce` over the pieces' pairs: each contributing piece sets its name
   * to its decoded value, later pieces overwriting earlier ones; a value that
   * does not decode throws.
   */
  function Fold(pairs: seq<Option<(string, string)>>, acc: map<string, string>): (r: Result<map<string, string>>)
    ensures r.Err? ==> r.message == URI_MALFORMED
    ensures r.Ok? ==> acc.Keys <= r.value.Keys
    decreases |pairs|
  {
    if pairs == [] then Ok(acc)
    else
      var pair := pairs[0];
      if pair.None? then Fold(pairs[1..], acc)
      else
        var decoded := Decode(pair.value.1);
        if decoded.None? then Err(URI_MALFORMED)
        else Fold(pairs[1..], acc[pair.value.0 := decoded.value])
  }

  /** The cookies of a request: none without a `Cookie` header. */
  function ParseCookies(header: Option<string>): Result<map<string, string>> {
    if header.None? then Ok(map[]) else Fold(Pairs(Split(header.value, ';')), map[])
  }

  /** The still-encoded value of the last contributing pair named `name`. */
  function LastValue(pairs: seq<Option<(string, string)>>, name: string): Option<string>
    decreases |pairs|
  {
    if pairs == [] then None
    else
      var later := LastValue(pairs[1..], name);
      if later.Some? then later
      else if pairs[0].Some? && pairs[0].value.0 == name then Some(pairs[0].value.1)
      else None
  }

  /** A contributing pair whose value does not decode. */
  predicate Malformed(pair: Option<(string, string)>) {
    pair.Some? && Decode(pair.value.1).None?
  }

  /** Some contributing pair has a value that does not decode. */
  predicate SomeValueMalformed(pairs: seq<Option<(string, string)>>)
    decreases |pairs|
  {
    pairs != [] && (Malformed(pairs[0]) || SomeValueMalformed(pairs[1..]))
  }

  /** The fold throws exactly when some contributing value is malformed. */
  lemma {:induction false} FoldThrows(pairs: seq<Option<(string, string)>>, acc: map<string, string>)
    ensures Fold(pairs, acc).Err? <==> SomeValueMalformed(pairs)
    decreases |pairs|
  {
    if pairs != [] {
      var pair := pairs[0];
      if pair.None? {
        FoldThrows(pairs[1..], acc);
      } else if !Malformed(pair) {
        FoldThrows(pairs[1..], acc[pair.value.0 := Decode(pair.value.1).value]);
      }
    }
  }

  /**
   * What a successful fold holds for one name: the decoded value of the last
   * pair with that name (a later duplicate overwrites an earlier one), or the
   * accumulator's entry when no pair has it.
   */
  lemma {:induction false} FoldValue(pairs: seq<Option<(string, string)>>, acc: map<string, string>, name: string)
    requires Fold(pairs, acc).Ok?
    ensures var m := Fold(pairs, acc).value;
      && (name in m <==> name in acc || LastValue(pairs, name).Some?)
      && (LastValue(pairs, name).Some? ==> Decode(LastValue(pairs, name).value) == Some(m[name]))
      && (LastValue(pairs, name).None? && name in acc ==> m[name] == acc[name])
    decreases |pairs|
  {
    if pairs != [] {
      var pair := pairs[0];
      if pair.None? {
        FoldValue(pairs[1..], acc, name);
      } else {
        FoldValue(pairs[1..], acc[pair.value.0 := Decode(pair.value.1).value], name);
      }
    }
  }

  /** The outcome of `getOrCreateUserId`: the identifier, and the `Set-Cookie` value if one was written. */
  datatype UserIdOutcome = UserIdOutcome(userId: string, setCookie: Option<string>)

  /** `santa_user_id=<encoded identifier>`: the pair the cookie carries. */
  function NameValue(userId: string): string {
    COOKIE_NAME + "=" + Encode(userId)
  }

  /**
   * The cookie's options in order: the pair, `HttpOnly`, `SameSite=Strict`,
   * `Path=/`, the one-year `Max-Age`, and `Secure` only when `NODE_ENV` is
   * `production`.
   */
  function CookieOptions(userId: string, nodeEnv: Option<string>): seq<string> {
    [NameValue(userId), "HttpOnly", "SameSite=Strict", "Path=/", "Max-Age=31536000"]
      + (if nodeEnv == Some("production") then ["Secure"] else [])
  }

  /** The `Set-Cookie` value for a new identifier: the options joined by `; `. */
  function SetCookieValue(userId: string, nodeEnv: Option<string>): string {
    JoinWith(CookieOptions(userId, nodeEnv), "; ")
  }

  /**
   * `getOrCreateUserId`: the decoded `santa_user_id` cookie when it is
   * non-empty, with no header written; otherwise `generatedId`, with one
   * `Set-Cookie`. Parsing throws (a malformed escape in any cookie) before
   * anything is written.
   */
  function GetOrCreateUserId(cookieHeader: Option<string>, generatedId: string, nodeEnv: Option<string>): (r: Result<UserIdOutcome>)
    ensures ParseCookies(cookieHeader).Err? <==> r.Err?
    ensures r.Err? ==> r.message == URI_MALFORMED
    ensures r.Ok? ==> var cookies := ParseCookies(cookieHeader).value;
      if COOKIE_NAME in cookies && cookies[COOKIE_NAME] != []
      then r.value == UserIdOutcome(cookies[COOKIE_NAME], None)
      else r.value == UserIdOutcome(generatedId, Some(SetCookieValue(generatedId, nodeEnv)))
  {
    var parsed := ParseCookies(cookieHeader);
    if parsed.Err? then Err(parsed.message)
    else
      var cookies := parsed.value;
      if COOKIE_NAME in cookies && cookies[COOKIE_NAME] != [] then Ok(UserIdOutcome(cookies[COOKIE_NAME], None))
      else Ok(UserIdOutcome(generatedId, Some(SetCookieValue(generatedId, nodeEnv))))
  }

  /** A missing `Cookie` header parses to no cookies. */
  lemma NoHeaderNoCookies()
    ensures ParseCookies(None) == Ok(map[])
  {
  }

  /** What the rest of the module needs to know about the cookie's name. */
  lemma CookieNameFacts()
    ensures |COOKIE_NAME| == 13 && COOKIE_NAME[0] == 's'
    ensures '=' !in COOKIE_NAME && ';' !in COOKIE_NAME
  {
  }

  /** `Secure` is among the options exactly in production; the `Max-Age` is `MAX_AGE_SECONDS`. */
  lemma SecureOnlyInProduction(userId: string, nodeEnv: Option<string>)
    ensures "Secure" in CookieOptions(userId, nodeEnv) <==> nodeEnv == Some("production")
    ensures CookieOptions(userId, nodeEnv)[..5] == [NameValue(userId), "HttpOnly", "SameSite=Strict", "Path=/", "Max-Age=31536000"]
    ensures MAX_AGE_SECONDS == 31536000
  {
    var options := CookieOptions(userId, nodeEnv);
    CookieNameFacts();
    assert |NameValue(userId)| >= 14;
    assert "Secure" != "HttpOnly" && "Secure" != "SameSite=Strict" && "Secure" != "Path=/";
    assert "Secure" != "Max-Age=31536000";
    if nodeEnv == Some("production") {
      assert options[5] == "Secure";
    } else {
      assert options == options[..5];
    }
  }

  /** The name=value pair at the head of the issued cookie: what the browser sends back. */
  function IssuedPair(setCookie: string): string {
    FirstField(setCookie, ';')
  }

  /** The pair contains no `;`, so it is a cookie header of one piece. */
  lemma NameValueHasNoSemicolon(userId: string)
    ensures ';' !in NameValue(userId)
    ensures Split(NameValue(userId), ';') == [NameValue(userId)]
  {
    CookieNameFacts();
    assert ';' !in COOKIE_NAME + "=";
    SplitFree(NameValue(userId), ';');
  }

  /** The issued cookie's text before its first `;` is the pair. */
  lemma IssuedPairIsNameValue(userId: string, nodeEnv: Option<string>)
    ensures IssuedPair(SetCookieValue(userId, nodeEnv)) == NameValue(userId)
  {
    var options := CookieOptions(userId, nodeEnv);
    var rest := "; " + JoinWith(options[1..], "; ");
    assert SetCookieValue(userId, nodeEnv) == NameValue(userId) + rest;
    NameValueHasNoSemicolon(userId);
    FirstFieldOfConcat(NameValue(userId), rest, ';');
  }

  /** A name without `=` and a non-empty value, joined by `=`, split back into the two. */
  lemma SplitPairOfNameValue(name: string, value: string)
    requires name != [] && '=' !in name && value != []
    ensures SplitPair(name + "=" + value) == Some((name, value))
  {
    var t := name + "=" + value;
    assert t[|name|] == '=';
    assert t[..|name|] == name;
    assert IndexOf(t, '=') == |name|;
    assert t[|name| + 1..] == value;
  }

  /** The pair has no surrounding white space to trim. */
  lemma NameValueIsTrimmed(userId: string)
    requires userId != []
    ensures Trim(NameValue(userId)) == NameValue(userId)
  {
    NameValueEnds(userId);
  }

  /** The pair starts with the cookie's name and ends with an unreserved character. */
  lemma NameValueEnds(userId: string)
    requires userId != []
    ensures var pair := NameValue(userId);
      pair != [] && !IsTrimmable(pair[0]) && !IsTrimmable(pair[|pair| - 1])
  {
    EncodeEndsUnreserved(userId);
    PairEnds(Encode(userId));
  }

  /** `santa_user_id=` followed by text ending in an unreserved character. */
  lemma PairEnds(enc: string)
    requires enc != [] && Unreserved(enc[|enc| - 1])
    ensures var pair := COOKIE_NAME + "=" + enc;
      !IsTrimmable(pair[0]) && !IsTrimmable(pair[|pair| - 1])
  {
    var pair := COOKIE_NAME + "=" + enc;
    assert pair[0] == COOKIE_NAME[0] == 's';
    assert pair[|pair| - 1] == enc[|enc| - 1];
    UnreservedIsNotTrimmable(enc[|enc| - 1]);
  }

  lemma UnreservedIsNotTrimmable(c: char)
    requires Unreserved(c)
    ensures !IsTrimmable(c)
  {
  }

  /** A header holding just the pair yields the cookie's name and the encoded identifier. */
  lemma NameValueParses(userId: string)
    requires userId != []
    ensures Split(NameValue(userId), ';') == [NameValue(userId)]
    ensures Pair(NameValue(userId)) == Some((COOKIE_NAME, Encode(userId)))
  {
    NameValueHasNoSemicolon(userId);
    NameValueIsTrimmed(userId);
    CookieNameFacts();
    SplitPairOfNameValue(COOKIE_NAME, Encode(userId));
  }

  /** A single contributing pair whose value decodes gives that one cookie. */
  lemma FoldOne(name: string, encoded: string, value: string)
    requires Decode(encoded) == Some(value)
    ensures Fold([Some((name, encoded))], map[]) == Ok(map[name := value])
  {
    assert [Some((name, encoded))][1..] == [];
  }

  /** The issued pair, as a whole header, is one piece naming the cookie with the encoded identifier. */
  lemma IssuedPairs(userId: string)
    requires userId != []
    ensures Pairs(Split(NameValue(userId), ';')) == [Some((COOKIE_NAME, Encode(userId)))]
  {
    NameValueParses(userId);
  }

  /**
   * Round trip: a browser that sends back the issued pair gets the same
   * identifier from the next `getOrCreateUserId`, and no new cookie.
   */
  lemma IssuedCookieRoundTrip(userId: string, nodeEnv: Option<string>, nextGenerated: string, nextEnv: Option<string>)
    requires userId != []
    ensures var pair := IssuedPair(SetCookieValue(userId, nodeEnv));
      GetOrCreateUserId(Some(pair), nextGenerated, nextEnv) == Ok(UserIdOutcome(userId, None))
  {
    var pair := NameValue(userId);
    IssuedPairIsNameValue(userId, nodeEnv);
    IssuedPairs(userId);
    DecodeEncode(userId);
    FoldOne(COOKIE_NAME, Encode(userId), userId);
    assert ParseCookies(Some(pair)) == Ok(map[COOKIE_NAME := userId]);
  }
}
