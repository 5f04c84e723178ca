/**
 The keypair assertion: a JWS in compact serialization (section 7.1 of RFC 7515) signed with
 EdDSA (section 3.1 of RFC 8037), and its verifier. Ed25519 and JSON are parameters with
 their correctness as hypotheses; base64url, the dots and the clock arithmetic are concrete.
 */
module KeypairAuth {
  import opened Wrappers
  import opened Base64
  import opened Clock

  const ASSERTION_TTL: int := 60 * SECOND
  const MAX_CLOCK_SKEW: int := 30 * SECOND

  const PRIVATE_KEY_SIZE := 64
  const SEED_SIZE := 32
  const PUBLIC_KEY_SIZE := 32
  const SIGNATURE_SIZE := 64
  const NONCE_SIZE := 32

  datatype Header = Header(alg: Text, typ: Text)

  datatype Claims = Claims(iss: Text, sub: Text, aud: Text, iat: Int64, exp: Int64, nonce: Text)

  datatype AuthError =
    | BadPrivateKey | EmptyAudience | Malformed
    | BadHeader | UnsupportedAlg | BadPayload | BadSignatureEncoding | BadSignatureLength
    | BadPublicKey | BadSignature | AudienceMismatch | Expired | IssuedInFuture

  function Issuer(): Text { Chars("weft-app-osx") }
  function EdDSA(): Text { Chars("EdDSA") }
  function Jwt(): Text { Chars("JWT") }

  // ----- What is taken on trust -----

  /** `derive` makes a public key of a seed. Signing takes the 64 bytes of a private key as they are. */
  datatype Ed25519 = Ed25519(
    derive: Text -> Text,
    sign: (Text, Text) -> Text,
    verify: (Text, Text, Text) -> bool)
  {
    /** The private key of a seed: the seed, then its public key. */
    function FromSeed(seed: Text): Text {
      seed + derive(seed)
    }

    /** The two halves belong together, as in every generated key. */
    predicate ValidKey(priv: Text) {
      |priv| == PRIVATE_KEY_SIZE && priv == FromSeed(priv[..SEED_SIZE])
    }
  }

  /** What a private key says its public key is. Nobody checks that it belongs to the seed. */
  function Public(priv: Text): Text
    requires |priv| == PRIVATE_KEY_SIZE
  {
    priv[SEED_SIZE..]
  }

  /**
   Signatures have their size, and verification under a seed's public key accepts what the
   seed's private key signed. Nothing is assumed about keys whose halves do not belong
   together, or about forgeries.
   */
  ghost predicate Correct(ed: Ed25519) {
    && (forall priv: Text, m: Text {:trigger ed.sign(priv, m)} :: |priv| == PRIVATE_KEY_SIZE ==>
          |ed.sign(priv, m)| == SIGNATURE_SIZE)
    && (forall seed: Text :: |seed| == SEED_SIZE ==> |ed.derive(seed)| == PUBLIC_KEY_SIZE)
    && (forall seed: Text, m: Text {:trigger ed.sign(ed.FromSeed(seed), m)} :: |seed| == SEED_SIZE ==>
          ed.verify(ed.derive(seed), m, ed.sign(ed.FromSeed(seed), m)))
  }

  datatype Json = Json(
    marshalHeader: Header -> Text,
    unmarshalHeader: Text -> Option<Header>,
    marshalClaims: Claims -> Text,
    unmarshalClaims: Text -> Option<Claims>)

  predicate Continuation(s: Text, i: nat) {
    i < |s| && 0x80 <= s[i] < 0xC0
  }

  /** Well-formed UTF-8 (section 4 of RFC 3629). */
  predicate ValidUtf8(s: Text) {
    if s == [] then true
    else if s[0] < 0x80 then ValidUtf8(s[1..])
    else if 0xC2 <= s[0] < 0xE0 then Continuation(s, 1) && ValidUtf8(s[2..])
    else if 0xE0 <= s[0] < 0xF0 then
      && Continuation(s, 1) && Continuation(s, 2)
      && (s[0] == 0xE0 ==> s[1] >= 0xA0) && (s[0] == 0xED ==> s[1] < 0xA0)
      && ValidUtf8(s[3..])
    else if 0xF0 <= s[0] < 0xF5 then
      && Continuation(s, 1) && Continuation(s, 2) && Continuation(s, 3)
      && (s[0] == 0xF0 ==> s[1] >= 0x90) && (s[0] == 0xF4 ==> s[1] < 0x90)
      && ValidUtf8(s[4..])
    else false
  }

  /** What JSON can carry unchanged: well-formed text. */
  predicate Carried(c: Claims) {
    ValidUtf8(c.iss) && ValidUtf8(c.sub) && ValidUtf8(c.aud) && ValidUtf8(c.nonce)
  }

  ghost predicate Faithful(json: Json) {
    && (forall h: Header :: ValidUtf8(h.alg) && ValidUtf8(h.typ) ==>
          json.unmarshalHeader(json.marshalHeader(h)) == Some(h))
    && (forall c: Claims :: Carried(c) ==> json.unmarshalClaims(json.marshalClaims(c)) == Some(c))
  }

  // ----- Public keys -----

  function EncodePubKey(pub: Text): Text {
    Encode(StdEncoding, pub)
  }

  function DecodePubKey(s: Text): Result<Text, AuthError> {
    match Decode(StdEncoding, s)
    case None => Err(BadPublicKey)
    case Some(b) => if |b| != PUBLIC_KEY_SIZE then Err(BadPublicKey) else Ok(b)
  }

  /** A public key survives the allowlist exactly when it has the right size. */
  lemma PubKeyRoundTrip(pub: Text)
    ensures DecodePubKey(EncodePubKey(pub)) == if |pub| == PUBLIC_KEY_SIZE then Ok(pub) else Err(BadPublicKey)
  {
    RoundTrip(StdEncoding, pub);
  }

  /** A string read as a public key is the allowlist form of 32 bytes, up to what the decoder overlooks. */
  lemma DecodedPubKey(s: Text)
    ensures var r := DecodePubKey(s);
            && (r.Ok? ==> |r.value| == 32 && SameButLastBits(StdEncoding, SkipLineBreaks(s), EncodePubKey(r.value), r.value))
            && (r.Ok? <==> Decode(StdEncoding, s).Some? && |Decode(StdEncoding, s).value| == 32)
  {
    hide Decode, SkipLineBreaks, Encode;
    if DecodePubKey(s).Ok? {
      DecodedIsEncoded(StdEncoding, s);
    }
  }

  // ----- Dots -----

  /** The maximal dot-free pieces, in order. */
  function Split(s: Text): (parts: seq<Text>)
    ensures |parts| >= 1 && forall i :: 0 <= i < |parts| ==> DOT !in parts[i]
    ensures Join(parts) == s
  {
    if s == [] then [[]]
    else
      var rest := Split(s[1..]);
      if s[0] == DOT then
        assert ([[]] + rest)[1..] == rest;
        [[]] + rest
      else
        JoinPrepends(s[0], rest);
        [[s[0]] + rest[0]] + rest[1..]
  }

  function Join(parts: seq<Text>): Text {
    if parts == [] then []
    else if |parts| == 1 then parts[0]
    else parts[0] + [DOT] + Join(parts[1..])
  }

  lemma JoinPrepends(c: Byte, parts: seq<Text>)
    requires parts != []
    ensures Join([[c] + parts[0]] + parts[1..]) == [c] + Join(parts)
  {
    assert ([[c] + parts[0]] + parts[1..])[1..] == parts[1..];
  }

  lemma {:induction false} SplitAtDot(a: Text, rest: Text)
    requires DOT !in a
    ensures Split(a + [DOT] + rest) == [a] + Split(rest)
    ensures Split(a) == [a]
  {
    hide Join;
    if a == [] {
      assert ([] + [DOT] + rest)[1..] == rest;
    } else {
      SplitAtDot(a[1..], rest);
      assert (a + [DOT] + rest)[1..] == a[1..] + [DOT] + rest;
      assert [a[0]] + a[1..] == a;
    }
  }

  // ----- Sign and verify -----

  function ClaimsAt(priv: Text, audience: Text, now: int, nonce: Text): Claims
    requires |priv| == PRIVATE_KEY_SIZE
  {
    Claims(Issuer(), EncodePubKey(Public(priv)), audience,
           Unix(now), Unix(now + ASSERTION_TTL), Encode(RawUrlEncoding, nonce))
  }

  /** The first two segments of an assertion, which are what is signed. */
  function SigningInput(json: Json, claims: Claims): Text {
    Encode(RawUrlEncoding, json.marshalHeader(Header(EdDSA(), Jwt()))) + [DOT]
    + Encode(RawUrlEncoding, json.marshalClaims(claims))
  }

  /** `now` and the random nonce are inputs. */
  function SignAssertion(ed: Ed25519, json: Json, priv: Text, audience: Text, now: int, nonce: Text)
    : Result<Text, AuthError>
  {
    if |priv| != PRIVATE_KEY_SIZE then Err(BadPrivateKey)
    else if audience == [] then Err(EmptyAudience)
    else
      var signingInput := SigningInput(json, ClaimsAt(priv, audience, now, nonce));
      Ok(signingInput + [DOT] + Encode(RawUrlEncoding, ed.sign(priv, signingInput)))
  }

  /** The checks on the clock, the audience being right. */
  function CheckWindow(claims: Claims, now: int): (r: Result<Claims, AuthError>)
    ensures r.Ok? ==> r.value == claims
  {
    if claims.exp <= 0 || Instant(claims.exp) < now then Err(Expired)
    else if claims.iat > 0 && Instant(claims.iat) > now + MAX_CLOCK_SKEW then Err(IssuedInFuture)
    else Ok(claims)
  }

  function VerifyAssertion(ed: Ed25519, json: Json, jws: Text, allowed: Text, now: int): Result<Claims, AuthError> {
    if allowed == [] then Err(EmptyAudience)
    else
      var parts := Split(jws);
      if |parts| != 3 then Err(Malformed)
      else match Decode(RawUrlEncoding, parts[0])
        case None => Err(BadHeader)
        case Some(headerBytes) => match json.unmarshalHeader(headerBytes)
        case None => Err(BadHeader)
        case Some(header) =>
          if header.alg != EdDSA() then Err(UnsupportedAlg)
          else match Decode(RawUrlEncoding, parts[1])
            case None => Err(BadPayload)
            case Some(payloadBytes) => match json.unmarshalClaims(payloadBytes)
            case None => Err(BadPayload)
            case Some(claims) => VerifySignature(ed, parts, claims, allowed, now)
  }

  function VerifySignature(ed: Ed25519, parts: seq<Text>, claims: Claims, allowed: Text, now: int)
    : Result<Claims, AuthError>
    requires |parts| == 3
  {
    match Decode(RawUrlEncoding, parts[2])
    case None => Err(BadSignatureEncoding)
    case Some(sig) =>
      if |sig| != SIGNATURE_SIZE then Err(BadSignatureLength)
      else match DecodePubKey(claims.sub)
        case Err(e) => Err(e)
        case Ok(pub) =>
          if !ed.verify(pub, parts[0] + [DOT] + parts[1], sig) then Err(BadSignature)
          else if claims.aud != allowed then Err(AudienceMismatch)
          else CheckWindow(claims, now)
  }

  // ----- Round trip -----

  lemma {:induction false} AsciiIsUtf8(s: Text)
    requires forall i :: 0 <= i < |s| ==> s[i] < 0x80
    ensures ValidUtf8(s)
  {
    if s != [] {
      AsciiIsUtf8(s[1..]);
    }
  }

  lemma {:induction false} EncodedIsAscii(e: Encoding, bs: Text)
    ensures forall i :: 0 <= i < |Encode(e, bs)| ==> Encode(e, bs)[i] < 0x80
  {
    if |bs| >= 3 {
      EncodedIsAscii(e, bs[3..]);
    }
  }

  lemma SignedClaimsAreCarried(priv: Text, audience: Text, now: int, nonce: Text)
    requires |priv| == PRIVATE_KEY_SIZE && ValidUtf8(audience)
    ensures Carried(ClaimsAt(priv, audience, now, nonce))
    ensures ValidUtf8(EdDSA()) && ValidUtf8(Jwt())
  {
    hide ValidUtf8, Encode, Unix;
    var c := ClaimsAt(priv, audience, now, nonce);
    EncodedIsAscii(StdEncoding, Public(priv));
    EncodedIsAscii(RawUrlEncoding, nonce);
    AsciiIsUtf8(c.iss);
    AsciiIsUtf8(c.sub);
    AsciiIsUtf8(c.nonce);
    AsciiIsUtf8(EdDSA());
    AsciiIsUtf8(Jwt());
  }

  lemma SplitSigned(h: Text, p: Text, g: Text)
    requires DOT !in h && DOT !in p && DOT !in g
    ensures Split(h + [DOT] + p + [DOT] + g) == [h, p, g]
  {
    hide Split;
    SplitAtDot(h, p + [DOT] + g);
    SplitAtDot(p, g);
    SplitAtDot(g, []);
    assert h + [DOT] + (p + [DOT] + g) == h + [DOT] + p + [DOT] + g;
    assert [h] + ([p] + [g]) == [h, p, g];
  }

  /**
   Signing needs 64 bytes and an audience and nothing else. What `VerifyAssertion` makes of
   the outcome, at any clock and for any allowed audience: it is refused as badly signed
   exactly when Ed25519 refuses the signature under the key's second half, and otherwise
   judged by audience and clock alone.
   */
  lemma SignWithAnyKey(ed: Ed25519, json: Json, priv: Text, audience: Text, s: int, nonce: Text, allowed: Text, v: int)
    requires Correct(ed) && Faithful(json)
    requires |priv| == PRIVATE_KEY_SIZE && audience != [] && ValidUtf8(audience)
    ensures SignAssertion(ed, json, priv, audience, s, nonce).Ok?
    ensures var jws := SignAssertion(ed, json, priv, audience, s, nonce).value;
            var claims := ClaimsAt(priv, audience, s, nonce);
            var input := SigningInput(json, claims);
            VerifyAssertion(ed, json, jws, allowed, v) ==
              if allowed == [] then Err(EmptyAudience)
              else if !ed.verify(Public(priv), input, ed.sign(priv, input)) then Err(BadSignature)
              else if allowed != audience then Err(AudienceMismatch)
              else CheckWindow(claims, v)
  {
    hide Encode, Decode, Split, ValidUtf8, Issuer, EdDSA, Jwt, Unix, CheckWindow;
    var header, claims := Header(EdDSA(), Jwt()), ClaimsAt(priv, audience, s, nonce);
    var h, p := Encode(RawUrlEncoding, json.marshalHeader(header)), Encode(RawUrlEncoding, json.marshalClaims(claims));
    var sig := ed.sign(priv, h + [DOT] + p);
    var g := Encode(RawUrlEncoding, sig);
    SignedClaimsAreCarried(priv, audience, s, nonce);
    EncodedAlphabet(RawUrlEncoding, json.marshalHeader(header));
    EncodedAlphabet(RawUrlEncoding, json.marshalClaims(claims));
    EncodedAlphabet(RawUrlEncoding, sig);
    SplitSigned(h, p, g);
    RoundTrip(RawUrlEncoding, json.marshalHeader(header));
    RoundTrip(RawUrlEncoding, json.marshalClaims(claims));
    RoundTrip(RawUrlEncoding, sig);
    PubKeyRoundTrip(Public(priv));
  }

  /** What the claims of an assertion must say, read back by decoding. */
  predicate Says(c: Claims, priv: Text, audience: Text, s: int, nonce: Text)
    requires |priv| == PRIVATE_KEY_SIZE
  {
    && c.iss == ['w' as int, 'e' as int, 'f' as int, 't' as int, '-' as int, 'a' as int,
                 'p' as int, 'p' as int, '-' as int, 'o' as int, 's' as int, 'x' as int]
    && DecodePubKey(c.sub) == Ok(priv[32..])
    && c.aud == audience
    && Decode(RawUrlEncoding, c.nonce) == Some(nonce)
    && (Representable(s) && Representable(s + 60 * SECOND) ==>
          c.iat * SECOND <= s < (c.iat + 1) * SECOND && c.exp == c.iat + 60)
  }

  lemma ClaimsSay(priv: Text, audience: Text, s: int, nonce: Text)
    requires |priv| == PRIVATE_KEY_SIZE
    ensures Says(ClaimsAt(priv, audience, s, nonce), priv, audience, s, nonce)
  {
    hide Encode, Decode, DecodePubKey, EncodePubKey;
    PubKeyRoundTrip(priv[32..]);
    RoundTrip(RawUrlEncoding, nonce);
    LaterBySeconds(s, 60);
    assert s / SECOND * SECOND <= s < s / SECOND * SECOND + SECOND;
  }

  /**
   What an assertion says, read back from its three segments: a JWS header for EdDSA, claims
   for the key's second half, the audience, the clock and the nonce, and Ed25519's signature
   over the first two segments.
   */
  lemma AssertionSays(ed: Ed25519, json: Json, priv: Text, audience: Text, s: int, nonce: Text)
    returns (h: Text, p: Text, g: Text, c: Claims)
    requires Faithful(json) && |priv| == PRIVATE_KEY_SIZE && audience != [] && ValidUtf8(audience)
    ensures SignAssertion(ed, json, priv, audience, s, nonce) == Ok(h + [DOT] + p + [DOT] + g)
    ensures DOT !in h && DOT !in p && DOT !in g
    ensures Decode(RawUrlEncoding, h).Some?
            && json.unmarshalHeader(Decode(RawUrlEncoding, h).value)
               == Some(Header(['E' as int, 'd' as int, 'D' as int, 'S' as int, 'A' as int],
                              ['J' as int, 'W' as int, 'T' as int]))
    ensures Decode(RawUrlEncoding, p).Some? && json.unmarshalClaims(Decode(RawUrlEncoding, p).value) == Some(c)
    ensures Says(c, priv, audience, s, nonce)
    ensures Decode(RawUrlEncoding, g) == Some(ed.sign(priv, h + [DOT] + p))
  {
    hide Encode, Decode, ValidUtf8, Says, ClaimsAt;
    var header := Header(EdDSA(), Jwt());
    c := ClaimsAt(priv, audience, s, nonce);
    h, p := Encode(RawUrlEncoding, json.marshalHeader(header)), Encode(RawUrlEncoding, json.marshalClaims(c));
    g := Encode(RawUrlEncoding, ed.sign(priv, h + [DOT] + p));
    SignedClaimsAreCarried(priv, audience, s, nonce);
    ClaimsSay(priv, audience, s, nonce);
    EncodedAlphabet(RawUrlEncoding, json.marshalHeader(header));
    EncodedAlphabet(RawUrlEncoding, json.marshalClaims(c));
    EncodedAlphabet(RawUrlEncoding, ed.sign(priv, h + [DOT] + p));
    RoundTrip(RawUrlEncoding, json.marshalHeader(header));
    RoundTrip(RawUrlEncoding, json.marshalClaims(c));
    RoundTrip(RawUrlEncoding, ed.sign(priv, h + [DOT] + p));
    assert header.alg == ['E' as int, 'd' as int, 'D' as int, 'S' as int, 'A' as int];
    assert header.typ == ['J' as int, 'W' as int, 'T' as int];
  }

  /** Whatever comes back when a signed assertion verifies is what was signed. */
  lemma VerifiedSays(ed: Ed25519, json: Json, priv: Text, audience: Text, s: int, nonce: Text, allowed: Text, v: int)
    requires Faithful(json) && |priv| == PRIVATE_KEY_SIZE && audience != [] && ValidUtf8(audience)
    ensures SignAssertion(ed, json, priv, audience, s, nonce).Ok?
    ensures var r := VerifyAssertion(ed, json, SignAssertion(ed, json, priv, audience, s, nonce).value, allowed, v);
            r.Ok? ==> Says(r.value, priv, audience, s, nonce) && allowed == audience
  {
    hide SignAssertion, VerifyAssertion, Decode, ValidUtf8, Says, Faithful, InWindow;
    var h, p, g, c := AssertionSays(ed, json, priv, audience, s, nonce);
    var jws := h + [DOT] + p + [DOT] + g;
    if VerifyAssertion(ed, json, jws, allowed, v).Ok? {
      var h', p', g' := AcceptedIsSound(ed, json, jws, allowed, v);
      SplitSigned(h, p, g);
      SplitSigned(h', p', g');
      var parts: seq<Text>, parts': seq<Text> := [h, p, g], [h', p', g'];
      assert parts[1] == parts'[1];
      SaysAudience(c, priv, audience, s, nonce);
    }
  }

  lemma SaysAudience(c: Claims, priv: Text, audience: Text, s: int, nonce: Text)
    requires |priv| == PRIVATE_KEY_SIZE && Says(c, priv, audience, s, nonce)
    ensures c.aud == audience && Decode(RawUrlEncoding, c.nonce) == Some(nonce) && DecodePubKey(c.sub) == Ok(priv[32..])
  {
  }

  /** An assertion determines the nonce, the audience and the public key it was made with. */
  lemma AssertionsDiffer(ed: Ed25519, json: Json, priv: Text, audience: Text, s: int, nonce: Text,
                         priv': Text, audience': Text, s': int, nonce': Text)
    requires Faithful(json) && |priv| == PRIVATE_KEY_SIZE && |priv'| == PRIVATE_KEY_SIZE
    requires audience != [] && ValidUtf8(audience) && audience' != [] && ValidUtf8(audience')
    requires SignAssertion(ed, json, priv, audience, s, nonce) == SignAssertion(ed, json, priv', audience', s', nonce')
    ensures nonce == nonce' && audience == audience' && priv[32..] == priv'[32..]
  {
    hide SignAssertion, Decode, ValidUtf8, Says, Faithful, DecodePubKey;
    var h, p, g, c := AssertionSays(ed, json, priv, audience, s, nonce);
    var h', p', g', c' := AssertionSays(ed, json, priv', audience', s', nonce');
    SplitSigned(h, p, g);
    SplitSigned(h', p', g');
    var parts: seq<Text>, parts': seq<Text> := [h, p, g], [h', p', g'];
    assert parts[1] == parts'[1];
    SaysAudience(c, priv, audience, s, nonce);
    SaysAudience(c', priv', audience', s', nonce');
  }

  /** Signing refuses a key of the wrong size, then an empty audience, and nothing else. */
  lemma SigningRefuses(ed: Ed25519, json: Json, priv: Text, audience: Text, s: int, nonce: Text)
    ensures SignAssertion(ed, json, priv, audience, s, nonce).Err? <==> |priv| != 64 || |audience| == 0
  {
  }

  /** A scheme that is correct for every seed and refuses whatever a key with mismatched halves signs. */
  function Strict(): Ed25519 {
    Ed25519(
      seed => seed,
      (priv, m) => seq(SIGNATURE_SIZE, i => if |priv| == PRIVATE_KEY_SIZE && priv[..SEED_SIZE] == priv[SEED_SIZE..] then 1 else 0),
      (pub, m, sig) => sig != [] && sig[0] == 1)
  }

  /** What is assumed can be met, and does not make a key with mismatched halves usable: it signs, and is refused. */
  lemma HalvesMatter(json: Json, priv: Text, audience: Text, s: int, nonce: Text, v: int)
    requires Faithful(json) && |priv| == PRIVATE_KEY_SIZE && audience != [] && ValidUtf8(audience)
    ensures Correct(Strict())
    ensures var r := SignAssertion(Strict(), json, priv, audience, s, nonce);
            r.Ok? && (!Strict().ValidKey(priv) <==> VerifyAssertion(Strict(), json, r.value, audience, v) == Err(BadSignature))
  {
    hide SignAssertion, VerifyAssertion, SigningInput, ValidUtf8, Faithful, Unix, Instant, EncodePubKey, Encode, Issuer;
    StrictIsCorrect();
    SignWithAnyKey(Strict(), json, priv, audience, s, nonce, audience, v);
    var input := SigningInput(json, ClaimsAt(priv, audience, s, nonce));
    assert priv == priv[..SEED_SIZE] + priv[SEED_SIZE..];
    assert Strict().verify(Public(priv), input, Strict().sign(priv, input)) <==> Strict().ValidKey(priv);
  }

  lemma StrictIsCorrect()
    ensures Correct(Strict())
  {
    forall seed: Text, m: Text | |seed| == SEED_SIZE
      ensures Strict().verify(Strict().derive(seed), m, Strict().sign(Strict().FromSeed(seed), m))
    {
      var priv := Strict().FromSeed(seed);
      assert priv == seed + seed && priv[..SEED_SIZE] == seed == priv[SEED_SIZE..];
    }
  }

  /**
   For a key as generated and a non-empty well-formed audience, what `VerifyAssertion` says of
   a signed assertion, at any clock and for any allowed audience. With a positive issue time
   it is accepted for its audience exactly from 30 seconds before to 60 seconds after the
   whole second it was signed in, and what comes back is exactly what was signed.
   */
  lemma SignThenVerify(ed: Ed25519, json: Json, priv: Text, audience: Text, s: int, nonce: Text, allowed: Text, v: int)
    requires Correct(ed) && Faithful(json) && ed.ValidKey(priv)
    requires audience != [] && ValidUtf8(audience) && Representable(s) && Representable(s + ASSERTION_TTL)
    ensures SignAssertion(ed, json, priv, audience, s, nonce).Ok?
    ensures var jws := SignAssertion(ed, json, priv, audience, s, nonce).value;
            VerifyAssertion(ed, json, jws, allowed, v) ==
              if allowed == [] then Err(EmptyAudience)
              else if allowed != audience then Err(AudienceMismatch)
              else if Unix(s) + 60 <= 0 || v > (Unix(s) + 60) * SECOND then Err(Expired)
              else if Unix(s) > 0 && v < (Unix(s) - 30) * SECOND then Err(IssuedInFuture)
              else Ok(ClaimsAt(priv, audience, s, nonce))
  {
    hide SignAssertion, VerifyAssertion, SigningInput, ValidUtf8, Faithful, Wrap, Instant, EncodePubKey, Encode, Issuer;
    SignWithAnyKey(ed, json, priv, audience, s, nonce, allowed, v);
    var claims := ClaimsAt(priv, audience, s, nonce);
    var input := SigningInput(json, claims);
    var seed := priv[..SEED_SIZE];
    assert ed.verify(ed.derive(seed), input, ed.sign(ed.FromSeed(seed), input));
    assert Public(priv) == ed.derive(seed);
    LaterBySeconds(s, 60);
    InstantIsExact(claims.iat);
    InstantIsExact(claims.exp);
  }

  /**
   In clock terms, whole-second truncation included: verifying anywhere from 30 seconds before
   signing to 59 seconds after succeeds; more than 60 seconds after or 31 before fails.
   */
  lemma ValidityWindow(ed: Ed25519, json: Json, priv: Text, audience: Text, s: int, nonce: Text, v: int)
    requires Correct(ed) && Faithful(json) && ed.ValidKey(priv)
    requires audience != [] && ValidUtf8(audience) && Representable(s + ASSERTION_TTL) && s >= SECOND
    ensures SignAssertion(ed, json, priv, audience, s, nonce).Ok?
    ensures var r := VerifyAssertion(ed, json, SignAssertion(ed, json, priv, audience, s, nonce).value, audience, v);
            && (s - 30 * SECOND <= v <= s + 59 * SECOND ==> r == Ok(ClaimsAt(priv, audience, s, nonce)))
            && (v > s + 60 * SECOND ==> r == Err(Expired))
            && (v < s - 31 * SECOND ==> r == Err(IssuedInFuture))
  {
    hide ValidUtf8, SignAssertion, VerifyAssertion, ClaimsAt, Correct, Faithful, Wrap, Instant;
    LaterBySeconds(s, 60);
    SignThenVerify(ed, json, priv, audience, s, nonce, audience, v);
    assert s / SECOND * SECOND <= s < s / SECOND * SECOND + SECOND;
  }

  // ----- What acceptance means, for any input -----

  /**
   The window the clock checks keep, in true seconds. Where the library's count from year one
   wraps, an issue time is not recognised as being in the future and an expiry time reads as past.
   */
  predicate InWindow(c: Claims, v: int) {
    && c.exp > 0 && v <= c.exp * SECOND && !Wraps(c.exp)
    && (c.iat <= 0 || c.iat * SECOND <= v + MAX_CLOCK_SKEW || Wraps(c.iat))
  }

  /** The clock checks pass exactly inside that window. */
  lemma WindowIsExact(c: Claims, v: int)
    requires Representable(v)
    ensures CheckWindow(c, v).Ok? <==> InWindow(c, v)
  {
    hide Instant;
    InstantIsExact(c.exp);
    InstantIsExact(c.iat);
  }

  /** The latest issue time a claim can carry, 292 billion years ahead, passes as already issued. */
  lemma FarFutureIsAccepted(c: Claims, v: int)
    requires c.iat == MAX_INT64 && c.exp > 0 && !Wraps(c.exp) && 0 <= v <= c.exp * SECOND
    ensures CheckWindow(c, v) == Ok(c) && c.iat * SECOND > v + MAX_CLOCK_SKEW
  {
    WindowIsExact(c, v);
  }

  /**
   Three dot-free segments that name EdDSA, carry `c`, and are signed by the key in its own
   `sub` over exactly the first two; `c` is for the allowed audience.
   */
  predicate Genuine(ed: Ed25519, json: Json, h: Text, p: Text, g: Text, allowed: Text, c: Claims) {
    && DOT !in h && DOT !in p && DOT !in g
    && Decode(RawUrlEncoding, h).Some? && json.unmarshalHeader(Decode(RawUrlEncoding, h).value).Some?
    && json.unmarshalHeader(Decode(RawUrlEncoding, h).value).value.alg == EdDSA()
    && Decode(RawUrlEncoding, p).Some? && json.unmarshalClaims(Decode(RawUrlEncoding, p).value) == Some(c)
    && Decode(RawUrlEncoding, g).Some? && |Decode(RawUrlEncoding, g).value| == SIGNATURE_SIZE
    && DecodePubKey(c.sub).Ok?
    && ed.verify(DecodePubKey(c.sub).value, h + [DOT] + p, Decode(RawUrlEncoding, g).value)
    && c.aud == allowed != []
  }

  /** Whatever is accepted is genuine and inside its window. */
  lemma AcceptedIsSound(ed: Ed25519, json: Json, jws: Text, allowed: Text, v: int)
    returns (h: Text, p: Text, g: Text)
    requires VerifyAssertion(ed, json, jws, allowed, v).Ok?
    ensures jws == h + [DOT] + p + [DOT] + g
    ensures var c := VerifyAssertion(ed, json, jws, allowed, v).value;
            Genuine(ed, json, h, p, g, allowed, c) && (Representable(v) ==> InWindow(c, v))
  {
    hide Decode, Split, EdDSA, InWindow, CheckWindow;
    var parts := Split(jws);
    h, p, g := parts[0], parts[1], parts[2];
    assert parts == [h, p, g];
    JoinThree(h, p, g);
    if Representable(v) {
      WindowIsExact(VerifyAssertion(ed, json, jws, allowed, v).value, v);
    }
  }

  /** Whatever is genuine and inside its window is accepted, for exactly what it claims. */
  lemma GenuineIsAccepted(ed: Ed25519, json: Json, h: Text, p: Text, g: Text, allowed: Text, c: Claims, v: int)
    requires Genuine(ed, json, h, p, g, allowed, c) && Representable(v) && InWindow(c, v)
    ensures VerifyAssertion(ed, json, h + [DOT] + p + [DOT] + g, allowed, v) == Ok(c)
  {
    hide Decode, Split, EdDSA, InWindow, CheckWindow;
    SplitSigned(h, p, g);
    WindowIsExact(c, v);
  }

  lemma JoinThree(h: Text, p: Text, g: Text)
    ensures Join([h, p, g]) == h + [DOT] + p + [DOT] + g
  {
    assert [h, p, g][1..] == [p, g] && [p, g][1..] == [g];
    assert Join([p, g]) == p + [DOT] + g;
  }

  /** The clocks at which an assertion is accepted form an interval, and it always says the same. */
  lemma AcceptanceIsAnInterval(ed: Ed25519, json: Json, jws: Text, allowed: Text, v1: int, v2: int, v3: int)
    requires v1 <= v2 <= v3
    requires VerifyAssertion(ed, json, jws, allowed, v1).Ok? && VerifyAssertion(ed, json, jws, allowed, v3).Ok?
    ensures VerifyAssertion(ed, json, jws, allowed, v1) == VerifyAssertion(ed, json, jws, allowed, v2)
            == VerifyAssertion(ed, json, jws, allowed, v3)
  {
    hide Decode, Split, EdDSA, DecodePubKey;
  }
}
