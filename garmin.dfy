/** `POST /api/garmin`: reuse the stored Garmin session or log in, keep the session tokens
    encrypted in a one-row table, and upsert the activities that carry a VO2-max value.
    AES-256-GCM itself is foreign: the cipher's output bytes and the decipher are parameters;
    what is modelled is the key-length check and the `iv:authTag:data` hex framing. */
module GarminRoute {
  import opened Wrappers
  import opened Values
  import opened Text
  import opened Casing
  import opened Auth
  import opened Store

  type Byte = x: nat | x < 256

  const KeyLength := 32
  const IvLength := 12
  const KeyError := "Encryption key must be 32 bytes (64 hex characters)"
  const FormatError := "Invalid encrypted token format"

  // ---------------------------------------------------------------------------------------
  // Hex

  /** `buffer.toString("hex")`: two lower-case digits per byte. */
  function ToHex(bytes: seq<Byte>): (r: string)
    ensures |r| == 2 * |bytes|
    ensures forall i :: 0 <= i < |r| ==> IsDigitChar(r[i])
  {
    if bytes == [] then []
    else [DigitChar(bytes[0] / 16), DigitChar(bytes[0] % 16)] + ToHex(bytes[1..])
  }

  /** `Buffer.from(s, "hex")`: pairs of hex digits, up to the first pair that is not one. */
  function HexDecode(s: string): (r: seq<Byte>)
    ensures |r| <= |s| / 2
    decreases |s|
  {
    if |s| < 2 || !IsHexChar(s[0]) || !IsHexChar(s[1]) then []
    else [HexValue(s[0]) * 16 + HexValue(s[1])] + HexDecode(s[2..])
  }

  /** Hex encoding loses nothing. */
  lemma {:induction false} HexRoundTrip(bytes: seq<Byte>)
    ensures HexDecode(ToHex(bytes)) == bytes
  {
    if bytes != [] {
      var b := bytes[0];
      DigitRoundTrip(b / 16);
      DigitRoundTrip(b % 16);
      var s := ToHex(bytes);
      assert s[2..] == ToHex(bytes[1..]);
      HexRoundTrip(bytes[1..]);
    }
  }

  /** A string of hex digits decodes to half as many bytes; a 64-digit key is 32 bytes. */
  lemma {:induction false} HexDecodeLength(s: string)
    requires forall i :: 0 <= i < |s| ==> IsHexChar(s[i])
    ensures |HexDecode(s)| == |s| / 2
    decreases |s|
  {
    if |s| >= 2 {
      HexDecodeLength(s[2..]);
    }
  }

  // ---------------------------------------------------------------------------------------
  // Token framing

  /** `encryptToken`: the key must decode to 32 bytes; the result joins the hex IV, the hex
      authentication tag and the hex ciphertext with `:`. */
  function EncryptToken(keyHex: string, iv: seq<Byte>, tag: seq<Byte>, ciphertext: seq<Byte>): (r: Result<string>)
    ensures r.Err? <==> |HexDecode(keyHex)| != KeyLength
    ensures r.Err? ==> r.msg == KeyError
  {
    if |HexDecode(keyHex)| != KeyLength then Err(KeyError)
    else Ok(Join([ToHex(iv), ToHex(tag), ToHex(ciphertext)], [':']))
  }

  /** The framing half of `decryptToken`: the key check, then exactly three `:`-separated
      parts, of which the first two are decoded from hex. */
  function DecryptFrame(keyHex: string, token: string): (r: Result<(seq<Byte>, seq<Byte>, string)>)
    ensures |HexDecode(keyHex)| != KeyLength ==> r == Err(KeyError)
    ensures |HexDecode(keyHex)| == KeyLength ==> (r.Err? <==> Count(token, ':') != 2)
    ensures r.Err? ==> r.msg == KeyError || r.msg == FormatError
  {
    if |HexDecode(keyHex)| != KeyLength then Err(KeyError)
    else
      var parts := Split(token, ':');
      SplitParts(token, ':');
      if |parts| != 3 then Err(FormatError)
      else Ok((HexDecode(parts[0]), HexDecode(parts[1]), parts[2]))
  }

  /** `decryptToken`: the decipher (which may throw, on a wrong tag say) and the JSON parse are
      one foreign step. */
  function DecryptToken(keyHex: string, token: string, decipher: (seq<Byte>, seq<Byte>, string) -> Result<Json>): Result<Json> {
    match DecryptFrame(keyHex, token)
    case Err(msg) => Err(msg)
    case Ok((iv, tag, data)) => decipher(iv, tag, data)
  }

  /** Decrypting a token the route encrypted hands the decipher exactly the IV, the tag and
      the ciphertext's hex it was encrypted with. */
  lemma DecryptEncrypted(keyHex: string, iv: seq<Byte>, tag: seq<Byte>, ciphertext: seq<Byte>,
                         decipher: (seq<Byte>, seq<Byte>, string) -> Result<Json>)
    requires EncryptToken(keyHex, iv, tag, ciphertext).Ok?
    ensures DecryptToken(keyHex, EncryptToken(keyHex, iv, tag, ciphertext).value, decipher)
      == decipher(iv, tag, ToHex(ciphertext))
  {
    FrameRoundTrip(keyHex, iv, tag, ciphertext);
  }

  /** Hex has no `:`, so decrypting an encrypted token recovers exactly its IV, its tag and
      its ciphertext's hex, and a 12-byte IV comes back as 12 bytes. */
  lemma FrameRoundTrip(keyHex: string, iv: seq<Byte>, tag: seq<Byte>, ciphertext: seq<Byte>)
    requires EncryptToken(keyHex, iv, tag, ciphertext).Ok?
    ensures DecryptFrame(keyHex, EncryptToken(keyHex, iv, tag, ciphertext).value) == Ok((iv, tag, ToHex(ciphertext)))
  {
    var parts := [ToHex(iv), ToHex(tag), ToHex(ciphertext)];
    forall k | 0 <= k < 3 ensures ':' !in parts[k] {
      assert forall i :: 0 <= i < |parts[k]| ==> IsDigitChar(parts[k][i]);
    }
    SplitJoin(parts, ':');
    HexRoundTrip(iv);
    HexRoundTrip(tag);
  }

  // ---------------------------------------------------------------------------------------
  // The token table

  /** The one row `saveTokens` writes: fixed id 1, both encrypted tokens, the save time. */
  function TokenRecord(oauth1: string, oauth2: string, now: string): (r: seq<Field>)
    ensures |r| == 4 && r[0] == Field("id", JNum(1))
    ensures r[1].value == JStr(oauth1) && r[2].value == JStr(oauth2) && r[3].value == JStr(now)
  {
    [ Field("id", JNum(1)),
      Field("oauth1Token", JStr(oauth1)),
      Field("oauth2Token", JStr(oauth2)),
      Field("updatedAt", JStr(now)) ]
  }

  lemma TokenKeysClean(oauth1: string, oauth2: string, now: string)
    ensures DistinctKeys(TokenRecord(oauth1, oauth2, now))
    ensures forall j :: 0 <= j < 4 ==> '_' !in TokenRecord(oauth1, oauth2, now)[j].key
  {
    assert Keys(TokenRecord(oauth1, oauth2, now)) == ["id", "oauth1Token", "oauth2Token", "updatedAt"];
  }

  /** A saved token row lands under id 1. */
  lemma TokenIdColumn(oauth1: string, oauth2: string, now: string)
    ensures Column(KeysToSnakeCase(JObj(TokenRecord(oauth1, oauth2, now))).fields, "id") == JNum(1)
  {
    var record := TokenRecord(oauth1, oauth2, now);
    TokenKeysClean(oauth1, oauth2, now);
    SnakeColumn(record, 0);
    IdSnake(record[0].key);
  }

  /** Saving tokens keeps the table at one row, id 1, whatever it held under that id before. */
  lemma SavedTokensSingleton(rows: map<Json, Row>, oauth1: string, oauth2: string, now: string)
    requires rows.Keys <= {JNum(1)}
    ensures var after := UpsertAll(rows, SnakeRows([TokenRecord(oauth1, oauth2, now)]), "id");
      after.Keys == {JNum(1)} && after[JNum(1)] == SnakeRows([TokenRecord(oauth1, oauth2, now)])[0]
  {
    var batch := SnakeRows([TokenRecord(oauth1, oauth2, now)]);
    TokenIdColumn(oauth1, oauth2, now);
    UpsertOne(rows, batch, "id", JNum(1));
  }

  /** `randomBytes(IV_LENGTH)`: a GCM IV is 12 bytes. */
  type Iv = s: seq<Byte> | |s| == IvLength witness [0, 0, 0, 0, 0, 0, 0, 0, 0, 0, 0, 0]

  /** The cipher's output for one token: the random IV, the tag and the ciphertext. */
  datatype Sealed = Sealed(iv: Iv, tag: seq<Byte>, ciphertext: seq<Byte>)

  function Seal(keyHex: string, s: Sealed): Result<string> {
    EncryptToken(keyHex, s.iv, s.tag, s.ciphertext)
  }

  /** A sealed token's first part is the IV's 24 hex digits, and decrypting the token hands
      the decipher a 12-byte IV. */
  lemma SealedFrame(keyHex: string, s: Sealed)
    requires Seal(keyHex, s).Ok?
    ensures var parts := Split(Seal(keyHex, s).value, ':');
      |parts| == 3 && parts[0] == ToHex(s.iv) && |parts[0]| == 2 * IvLength
    ensures DecryptFrame(keyHex, Seal(keyHex, s).value).Ok?
      && |DecryptFrame(keyHex, Seal(keyHex, s).value).value.0| == IvLength
  {
    var parts := [ToHex(s.iv), ToHex(s.tag), ToHex(s.ciphertext)];
    forall k | 0 <= k < 3 ensures ':' !in parts[k] {
      assert forall i :: 0 <= i < |parts[k]| ==> IsDigitChar(parts[k][i]);
    }
    SplitJoin(parts, ':');
    FrameRoundTrip(keyHex, s.iv, s.tag, s.ciphertext);
  }

  /** `saveTokens`: encrypt both tokens, then upsert the row with id 1; every error throws. */
  method SaveTokens(tokens: KeyedTable, keyHex: string, sealed1: Sealed, sealed2: Sealed, now: string,
                    fault: Option<string>)
    returns (r: Result<()>)
    requires tokens.pk == "id"
    modifies tokens
    ensures Seal(keyHex, sealed1).Err? ==> r == Err(KeyError) && tokens.rows == old(tokens.rows)
    ensures Seal(keyHex, sealed1).Ok? && fault.Some? ==> r == Err(fault.value) && tokens.rows == old(tokens.rows)
    ensures Seal(keyHex, sealed1).Ok? && fault.None? ==>
      r == Ok(())
      && tokens.rows == UpsertAll(old(tokens.rows),
                                  SnakeRows([TokenRecord(Seal(keyHex, sealed1).value, Seal(keyHex, sealed2).value, now)]), "id")
  {
    var encrypted1 := Seal(keyHex, sealed1);
    if encrypted1.Err? {
      return Err(encrypted1.msg);
    }
    var encrypted2 := Seal(keyHex, sealed2);
    r := tokens.Upsert([TokenRecord(encrypted1.value, encrypted2.value, now)], fault);
  }

  const TokensSelect := "oauth1Token, oauth2Token"

  /** The message of the `TypeError` that `split` throws on a stored value that is not a
      string. */
  function SplitError(v: Json): string {
    if v.JNull? then "Cannot read properties of null (reading 'split')"
    else if v.JUndefined? then "Cannot read properties of undefined (reading 'split')"
    else "encryptedToken.split is not a function"
  }

  /** `decryptToken(stored as unknown as string)`: the key check comes first, then `split`,
      which throws for a value that is not a string. */
  function DecryptStored(keyHex: string, stored: Json, decipher: (seq<Byte>, seq<Byte>, string) -> Result<Json>): (r: Result<Json>)
    ensures stored.JStr? ==> r == DecryptToken(keyHex, stored.s, decipher)
    ensures |HexDecode(keyHex)| != KeyLength ==> r == Err(KeyError)
    ensures |HexDecode(keyHex)| == KeyLength && !stored.JStr? ==> r == Err(SplitError(stored))
  {
    if |HexDecode(keyHex)| != KeyLength then Err(KeyError)
    else match stored
      case JStr(s) => DecryptToken(keyHex, s, decipher)
      case _ => Err(SplitError(stored))
  }

  /** One token column of the row with id 1, read through the select list. */
  function StoredColumn(rows: map<Json, Row>, key: string): Json
    requires JNum(1) in rows
  {
    Get(View(rows[JNum(1)], TokensSelect), key)
  }

  /** `getStoredTokens`: the select error throws; no row means no tokens; otherwise the
      oauth1 token is decrypted, then the oauth2 token, and the first that is not a string or
      does not decrypt throws. The table only ever holds the row with id 1
      (`SavedTokensSingleton`), so the newest row is that one. */
  function StoredTokens(rows: map<Json, Row>, keyHex: string, decipher: (seq<Byte>, seq<Byte>, string) -> Result<Json>,
                        fault: Option<string>): (r: Result<Option<(Json, Json)>>)
    ensures fault.Some? ==> r == Err(fault.value)
    ensures fault.None? && JNum(1) !in rows ==> r == Ok(None)
    ensures fault.None? && JNum(1) in rows ==>
      var s1, s2 := StoredColumn(rows, "oauth1Token"), StoredColumn(rows, "oauth2Token");
      (r.Ok? <==> s1.JStr? && s2.JStr? && DecryptToken(keyHex, s1.s, decipher).Ok? && DecryptToken(keyHex, s2.s, decipher).Ok?)
      && (r.Ok? ==> s1.JStr? && s2.JStr?
                    && r.value == Some((DecryptToken(keyHex, s1.s, decipher).value, DecryptToken(keyHex, s2.s, decipher).value)))
      && (DecryptStored(keyHex, s1, decipher).Err? ==> r == Err(DecryptStored(keyHex, s1, decipher).msg))
      && (DecryptStored(keyHex, s1, decipher).Ok? && DecryptStored(keyHex, s2, decipher).Err? ==>
            r == Err(DecryptStored(keyHex, s2, decipher).msg))
  {
    if fault.Some? then Err(fault.value)
    else if JNum(1) !in rows then Ok(None)
    else
      match DecryptStored(keyHex, StoredColumn(rows, "oauth1Token"), decipher)
      case Err(msg) => Err(msg)
      case Ok(oauth1) =>
        match DecryptStored(keyHex, StoredColumn(rows, "oauth2Token"), decipher)
        case Err(msg) => Err(msg)
        case Ok(oauth2) => Ok(Some((oauth1, oauth2)))
  }

  /** The select list is `oauth1Token` and ` oauth2Token` joined by `,`; trimmed, the parts
      are the two token keys, so `PairSelects` applies to it. */
  lemma TokensSelectsPair(a: Json, b: Json)
    ensures Selects(TokensSelect, [Field("oauth1Token", a), Field("oauth2Token", b)])
  {
    var p, q, r := "oauth1Token", " oauth2Token", "oauth2Token";
    TokensColumns(TokensSelect);
    FirstTokenChars(p);
    FirstTokenTrimmed(p);
    SecondTokenChars(q);
    SecondTokenTrimmed(q);
    TokenKeysDiffer(p, r);
    PairSelects(p, q, Field(p, a), Field(r, b));
  }

  lemma TokensColumns(s: string)
    requires s == TokensSelect
    ensures s == "oauth1Token" + [','] + " oauth2Token"
  {
  }

  lemma FirstTokenChars(c: string)
    requires c == "oauth1Token"
    ensures ',' !in c && '_' !in c
  {
  }

  lemma FirstTokenTrimmed(c: string)
    requires c == "oauth1Token"
    ensures Trim(c) == c
  {
    TrimClean(c);
  }

  lemma SecondTokenChars(c: string)
    requires c == " oauth2Token"
    ensures ',' !in c && '_' !in c[1..]
  {
  }

  lemma SecondTokenTrimmed(c: string)
    requires c == " oauth2Token"
    ensures Trim(c) == c[1..] && c[1..] == "oauth2Token"
  {
    var rest := "oauth2Token";
    assert c == [' '] + rest;
    TrimLeadingSpace(' ', rest);
  }

  lemma TokenKeysDiffer(p: string, r: string)
    requires p == "oauth1Token" && r == "oauth2Token"
    ensures p != r
  {
    assert p[5] == '1' && r[5] == '2';
  }

  /** The saved row read back through the select list holds the two encrypted tokens. */
  lemma SavedColumns(rows: map<Json, Row>, oauth1: string, oauth2: string, now: string)
    ensures var after := UpsertAll(rows, SnakeRows([TokenRecord(oauth1, oauth2, now)]), "id");
      JNum(1) in after
      && StoredColumn(after, "oauth1Token") == JStr(oauth1) && StoredColumn(after, "oauth2Token") == JStr(oauth2)
  {
    var pair := [Field("oauth1Token", JStr(oauth1)), Field("oauth2Token", JStr(oauth2))];
    SavedRow(rows, oauth1, oauth2, now);
    TokenView(oauth1, oauth2, now);
    TokensSelectsPair(JStr(oauth1), JStr(oauth2));
    LookupAt(pair, 0);
    LookupAt(pair, 1);
  }

  /** The upsert leaves the saved row under id 1. */
  lemma SavedRow(rows: map<Json, Row>, oauth1: string, oauth2: string, now: string)
    ensures var after := UpsertAll(rows, SnakeRows([TokenRecord(oauth1, oauth2, now)]), "id");
      JNum(1) in after && after[JNum(1)] == KeysToSnakeCase(JObj(TokenRecord(oauth1, oauth2, now))).fields
  {
    var batch := SnakeRows([TokenRecord(oauth1, oauth2, now)]);
    TokenIdColumn(oauth1, oauth2, now);
    BatchLast(batch, "id", 0);
  }

  /** A save writes id 1 and no other row. */
  lemma SavedRowOnly(rows: map<Json, Row>, oauth1: string, oauth2: string, now: string)
    ensures var after := UpsertAll(rows, SnakeRows([TokenRecord(oauth1, oauth2, now)]), "id");
      JNum(1) in after && forall k :: k in rows && k != JNum(1) ==> k in after && after[k] == rows[k]
  {
    var batch := SnakeRows([TokenRecord(oauth1, oauth2, now)]);
    TokenIdColumn(oauth1, oauth2, now);
    assert batch == [batch[0]];
    UpsertSingle(rows, batch[0], "id");
  }

  /** The saved row read through the select list is the two encrypted tokens. */
  lemma TokenView(oauth1: string, oauth2: string, now: string)
    ensures View(KeysToSnakeCase(JObj(TokenRecord(oauth1, oauth2, now))).fields, TokensSelect)
      == JObj([Field("oauth1Token", JStr(oauth1)), Field("oauth2Token", JStr(oauth2))])
  {
    SavedTokenColumns(oauth1, oauth2, now);
    TokensSelectsPair(JStr(oauth1), JStr(oauth2));
    ViewPair(KeysToSnakeCase(JObj(TokenRecord(oauth1, oauth2, now))).fields, TokensSelect,
             "oauth1Token", "oauth2Token", JStr(oauth1), JStr(oauth2));
  }

  /** The saved row holds each encrypted token under its snake_case column. */
  lemma SavedTokenColumns(oauth1: string, oauth2: string, now: string)
    ensures var row := KeysToSnakeCase(JObj(TokenRecord(oauth1, oauth2, now))).fields;
      Column(row, ToSnakeCase("oauth1Token")) == JStr(oauth1) && Column(row, ToSnakeCase("oauth2Token")) == JStr(oauth2)
  {
    var record := TokenRecord(oauth1, oauth2, now);
    TokenKeysClean(oauth1, oauth2, now);
    SnakeColumn(record, 1);
    SnakeColumn(record, 2);
  }

  /** After a save, the next run's `getStoredTokens` hands the decipher exactly the IVs, tags
      and ciphertexts that were sealed, oauth1 first, and returns its results. */
  lemma StoredAfterSave(rows: map<Json, Row>, keyHex: string, sealed1: Sealed, sealed2: Sealed, now: string,
                        decipher: (seq<Byte>, seq<Byte>, string) -> Result<Json>)
    requires Seal(keyHex, sealed1).Ok?
    ensures Seal(keyHex, sealed2).Ok?
    ensures var after := UpsertAll(rows, SnakeRows([TokenRecord(Seal(keyHex, sealed1).value, Seal(keyHex, sealed2).value, now)]), "id");
      var d1 := decipher(sealed1.iv, sealed1.tag, ToHex(sealed1.ciphertext));
      var d2 := decipher(sealed2.iv, sealed2.tag, ToHex(sealed2.ciphertext));
      StoredTokens(after, keyHex, decipher, None)
        == (if d1.Err? then Err(d1.msg) else if d2.Err? then Err(d2.msg) else Ok(Some((d1.value, d2.value))))
  {
    var e1, e2 := Seal(keyHex, sealed1).value, Seal(keyHex, sealed2).value;
    SavedColumns(rows, e1, e2, now);
    DecryptEncrypted(keyHex, sealed1.iv, sealed1.tag, sealed1.ciphertext, decipher);
    DecryptEncrypted(keyHex, sealed2.iv, sealed2.tag, sealed2.ciphertext, decipher);
  }

  // ---------------------------------------------------------------------------------------
  // Activities

  /** The filter's test: a truthy `vO2MaxValue`. */
  predicate HasVo2Max(activity: Json) {
    Truthy(Get(activity, "vO2MaxValue"))
  }

  /** `activities.filter(activity => activity.vO2MaxValue)`. */
  function WithVo2Max(activities: seq<Json>): (r: seq<Json>)
    ensures |r| <= |activities|
    ensures forall a :: a in r <==> a in activities && HasVo2Max(a)
  {
    if activities == [] then []
    else (if HasVo2Max(activities[0]) then [activities[0]] else []) + WithVo2Max(activities[1..])
  }

  /** One `garmin` row per kept activity, keyed by its `activityId`. */
  function GarminRow(activity: Json): (r: seq<Field>)
    ensures |r| == 4 && r[0] == Field("id", ActivityId(activity))
    ensures r[1].value == Get(activity, "vO2MaxValue") && r[2].value == Get(activity, "startTimeLocal") && r[3].value == activity
  {
    [ Field("id", ActivityId(activity)),
      Field("vo2MaxValue", Get(activity, "vO2MaxValue")),
      Field("startTimeLocal", Get(activity, "startTimeLocal")),
      Field("payload", activity) ]
  }

  function GarminRows(activities: seq<Json>): (r: seq<seq<Field>>)
    ensures |r| == |activities| && forall i :: 0 <= i < |activities| ==> r[i] == GarminRow(activities[i])
  {
    seq(|activities|, i requires 0 <= i < |activities| => GarminRow(activities[i]))
  }

  lemma GarminKeysClean(activity: Json)
    ensures DistinctKeys(GarminRow(activity))
    ensures forall j :: 0 <= j < 4 ==> '_' !in GarminRow(activity)[j].key
  {
    assert Keys(GarminRow(activity)) == ["id", "vo2MaxValue", "startTimeLocal", "payload"];
  }

  /** An upsert of kept activities with distinct ids stores each one's row under its
      `activityId`, leaves every other id's row untouched, and repeating it changes nothing. */
  lemma GarminIngest(table: map<Json, Row>, kept: seq<Json>)
    requires DistinctIds(kept)
    ensures var rows := SnakeRows(GarminRows(kept));
      var after := UpsertAll(table, rows, "id");
      (forall i :: 0 <= i < |kept| ==> ActivityId(kept[i]) in after && after[ActivityId(kept[i])] == rows[i])
      && (forall k :: k in table && (forall i :: 0 <= i < |kept| ==> ActivityId(kept[i]) != k) ==>
            k in after && after[k] == table[k])
      && UpsertAll(after, rows, "id") == after
  {
    var rows := SnakeRows(GarminRows(kept));
    forall i | 0 <= i < |kept| ensures Column(rows[i], "id") == ActivityId(kept[i]) {
      GarminIdColumn(kept[i]);
    }
    UpsertAllSpec(table, rows, "id");
    UpsertAllIdempotent(table, rows, "id");
  }

  lemma GarminIdColumn(activity: Json)
    ensures Column(KeysToSnakeCase(JObj(GarminRow(activity))).fields, "id") == ActivityId(activity)
  {
    var record := GarminRow(activity);
    GarminKeysClean(activity);
    SnakeColumn(record, 0);
    IdSnake(record[0].key);
  }

  /** An activity's `activityId`. */
  function ActivityId(activity: Json): Json {
    Get(activity, "activityId")
  }

  /** No two activities share an `activityId`. */
  predicate DistinctIds(activities: seq<Json>) {
    forall i, j :: 0 <= i < j < |activities| ==> ActivityId(activities[i]) != ActivityId(activities[j])
  }

  /** No activity the filter keeps from the rest of a list with distinct ids shares the
      first activity's id. */
  lemma HeadIdFresh(activities: seq<Json>)
    requires |activities| > 0 && DistinctIds(activities)
    ensures forall x :: x in WithVo2Max(activities[1..]) ==> ActivityId(x) != ActivityId(activities[0])
  {
    forall x | x in WithVo2Max(activities[1..]) ensures ActivityId(x) != ActivityId(activities[0]) {
      var k :| 0 <= k < |activities[1..]| && activities[1..][k] == x;
      assert activities[k + 1] == x;
    }
  }

  /** Filtering keeps ids distinct. */
  lemma {:induction false} WithVo2MaxDistinct(activities: seq<Json>)
    requires DistinctIds(activities)
    ensures DistinctIds(WithVo2Max(activities))
  {
    if activities != [] {
      var tail := activities[1..];
      forall i, j | 0 <= i < j < |tail| ensures ActivityId(tail[i]) != ActivityId(tail[j]) {
        assert tail[i] == activities[i + 1] && tail[j] == activities[j + 1];
      }
      WithVo2MaxDistinct(tail);
      HeadIdFresh(activities);
      var rest := WithVo2Max(tail);
      var kept := WithVo2Max(activities);
      if HasVo2Max(activities[0]) {
        assert kept == [activities[0]] + rest;
        forall i, j | 0 <= i < j < |kept| ensures ActivityId(kept[i]) != ActivityId(kept[j]) {
          assert kept[j] == rest[j - 1] && rest[j - 1] in rest;
          if i > 0 {
            assert kept[i] == rest[i - 1];
          }
        }
      } else {
        assert kept == rest;
      }
    }
  }

  // ---------------------------------------------------------------------------------------
  // The route

  /** Everything Garmin, the cipher and the database answer during one run. `storedFetch` is
      the activities request made with stored tokens; `login` the retried login; `oauth1` and
      `oauth2` the client's tokens after it; `freshFetch` the activities request after it. */
  datatype Replies = Replies(
    keyHex: string,
    decipher: (seq<Byte>, seq<Byte>, string) -> Result<Json>,
    tokensSelectFault: Option<string>,
    storedFetch: Result<seq<Json>>,
    login: Result<()>,
    oauth1: Json,
    oauth2: Json,
    sealed1: Sealed,
    sealed2: Sealed,
    tokensUpsertFault: Option<string>,
    freshFetch: Result<seq<Json>>,
    activitiesFault: Option<string>)

  /** Whether a run logs in: the stored tokens load, and with them the activities request fails,
      or there are none. */
  predicate LogsIn(stored: Option<(Json, Json)>, replies: Replies) {
    stored.None? || replies.storedFetch.Err?
  }

  /** The activities a run ends up with, or the failure that ends it first. */
  function Fetched(stored: Option<(Json, Json)>, replies: Replies): Result<seq<Json>> {
    if !LogsIn(stored, replies) then replies.storedFetch
    else if replies.login.Err? then Err(replies.login.msg)
    else if Truthy(replies.oauth1) && Truthy(replies.oauth2) && Seal(replies.keyHex, replies.sealed1).Err? then Err(KeyError)
    else if Truthy(replies.oauth1) && Truthy(replies.oauth2) && replies.tokensUpsertFault.Some? then Err(replies.tokensUpsertFault.value)
    else replies.freshFetch
  }

  /** Whether a login writes the token table: it succeeds, leaves both tokens truthy, the key
      seals them and the upsert goes through. */
  predicate SavesTokens(replies: Replies) {
    replies.login.Ok? && Truthy(replies.oauth1) && Truthy(replies.oauth2)
    && Seal(replies.keyHex, replies.sealed1).Ok? && replies.tokensUpsertFault.None?
  }

  /** The token table after a login that saves: the one row of both sealed tokens upserted. */
  function SavedTokens(rows: map<Json, Row>, replies: Replies, now: string): (r: map<Json, Row>)
    requires Seal(replies.keyHex, replies.sealed1).Ok?
    ensures JNum(1) in r
    ensures forall k :: k in rows && k != JNum(1) ==> k in r && r[k] == rows[k]
  {
    var oauth1, oauth2 := Seal(replies.keyHex, replies.sealed1).value, Seal(replies.keyHex, replies.sealed2).value;
    SavedRowOnly(rows, oauth1, oauth2, now);
    UpsertAll(rows, SnakeRows([TokenRecord(oauth1, oauth2, now)]), "id")
  }

  /** The shared login step of both branches: log in, save the tokens when both are present,
      fetch again. */
  method LoginAndFetch(tokens: KeyedTable, replies: Replies, now: string) returns (activities: Result<seq<Json>>)
    requires tokens.pk == "id"
    modifies tokens
    ensures activities == Fetched(None, replies)
    ensures SavesTokens(replies) ==> tokens.rows == SavedTokens(old(tokens.rows), replies, now)
    ensures !SavesTokens(replies) ==> tokens.rows == old(tokens.rows)
  {
    if replies.login.Err? {
      return Err(replies.login.msg);
    }
    if Truthy(replies.oauth1) && Truthy(replies.oauth2) {
      var saved := SaveTokens(tokens, replies.keyHex, replies.sealed1, replies.sealed2, now, replies.tokensUpsertFault);
      if saved.Err? {
        return Err(saved.msg);
      }
    }
    activities := replies.freshFetch;
  }

  /** The activities a run ends up with, from the stored tokens when they load: the request
      with them first, and the login only when there are none or that request fails. */
  method FetchActivities(stored: Option<(Json, Json)>, replies: Replies, now: string, tokens: KeyedTable)
    returns (activities: Result<seq<Json>>, logins: nat)
    requires tokens.pk == "id"
    modifies tokens
    ensures activities == Fetched(stored, replies)
    ensures logins == (if LogsIn(stored, replies) then 1 else 0)
    ensures LogsIn(stored, replies) && SavesTokens(replies) ==> tokens.rows == SavedTokens(old(tokens.rows), replies, now)
    ensures !(LogsIn(stored, replies) && SavesTokens(replies)) ==> tokens.rows == old(tokens.rows)
  {
    logins := 0;
    if stored.Some? {
      activities := replies.storedFetch;
      if activities.Err? {
        logins := 1;
        activities := LoginAndFetch(tokens, replies, now);
      }
    } else {
      logins := 1;
      activities := LoginAndFetch(tokens, replies, now);
    }
  }

  /** Storing the fetched activities: nothing when there are none; otherwise the upsert of the
      ones with a VO2 max, which fails on a fault or on an `activityId` named twice. */
  method StoreActivities(activities: seq<Json>, fault: Option<string>, garmin: KeyedTable) returns (out: Outcome)
    requires garmin.pk == "id"
    modifies garmin
    ensures activities == [] ==> out == NoContent && garmin.rows == old(garmin.rows)
    ensures activities != [] ==>
      var kept := WithVo2Max(activities);
      (fault.Some? ==> out == Failed(fault.value) && garmin.rows == old(garmin.rows))
      && (fault.None? && !DistinctIds(kept) ==> out == Failed(ConflictTwice) && garmin.rows == old(garmin.rows))
      && (fault.None? && DistinctIds(kept) ==>
            out == NoContent && garmin.rows == UpsertAll(old(garmin.rows), SnakeRows(GarminRows(kept)), "id"))
  {
    if |activities| > 0 {
      GarminRowsDistinct(WithVo2Max(activities));
      var upserted := garmin.Upsert(GarminRows(WithVo2Max(activities)), fault);
      if upserted.Err? {
        return Failed(upserted.msg);
      }
    }
    out := NoContent;
  }

  /** The garmin rows of a batch repeat no key exactly when its activities repeat no id. */
  lemma GarminRowsDistinct(kept: seq<Json>)
    ensures KeysDistinct(SnakeRows(GarminRows(kept)), "id") <==> DistinctIds(kept)
  {
    var rows := SnakeRows(GarminRows(kept));
    forall i | 0 <= i < |kept| ensures Column(rows[i], "id") == ActivityId(kept[i]) {
      GarminIdColumn(kept[i]);
    }
  }

  /** The route. The 401 of the key check is discarded. It returns, besides the response, how
      many times it logged in. */
  method Post(keys: Secrets, authorization: Option<string>, replies: Replies, now: string,
              tokens: KeyedTable, garmin: KeyedTable)
    returns (out: Outcome, logins: nat)
    requires tokens.pk == "id" && garmin.pk == "id" && tokens != garmin
    modifies tokens, garmin
    ensures out != Unauthorized && logins <= 1
    ensures var stored := StoredTokens(old(tokens.rows), replies.keyHex, replies.decipher, replies.tokensSelectFault);
      (stored.Err? ==>
         out == Failed(stored.msg) && logins == 0 && tokens.rows == old(tokens.rows) && garmin.rows == old(garmin.rows))
      && (stored.Ok? ==>
            var fetched := Fetched(stored.value, replies);
            (logins == 1 <==> LogsIn(stored.value, replies))
            && (LogsIn(stored.value, replies) && SavesTokens(replies) ==>
                  tokens.rows == SavedTokens(old(tokens.rows), replies, now))
            && (!(LogsIn(stored.value, replies) && SavesTokens(replies)) ==> tokens.rows == old(tokens.rows))
            && (fetched.Err? ==> out == Failed(fetched.msg) && garmin.rows == old(garmin.rows))
            && (fetched.Ok? && fetched.value == [] ==> out == NoContent && garmin.rows == old(garmin.rows))
            && (fetched.Ok? && fetched.value != [] ==>
                  var kept := WithVo2Max(fetched.value);
                  (replies.activitiesFault.Some? ==> out == Failed(replies.activitiesFault.value) && garmin.rows == old(garmin.rows))
                  && (replies.activitiesFault.None? && !DistinctIds(kept) ==>
                        out == Failed(ConflictTwice) && garmin.rows == old(garmin.rows))
                  && (replies.activitiesFault.None? && DistinctIds(kept) ==>
                        out == NoContent && garmin.rows == UpsertAll(old(garmin.rows), SnakeRows(GarminRows(kept)), "id"))))
  {
    var _ := ValidatePresharedKey(keys, Cron, authorization);
    var stored := StoredTokens(tokens.rows, replies.keyHex, replies.decipher, replies.tokensSelectFault);
    if stored.Err? {
      return Failed(stored.msg), 0;
    }
    var activities;
    activities, logins := FetchActivities(stored.value, replies, now, tokens);
    if activities.Err? {
      return Failed(activities.msg), logins;
    }
    out := StoreActivities(activities.value, replies.activitiesFault, garmin);
  }
}
