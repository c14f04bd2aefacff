/**
 * The admin session token of lib/auth.ts: `user.issuedAt.sig`, where `sig`
 * is a keyed signature of `user.issuedAt` and the token expires seven days
 * after it was issued. The signing function (an HMAC-SHA256 hex digest) and
 * the clock are parameters, and so is the runtime's string-to-number
 * conversion.
 */
module Auth {
  import opened Js
  import opened Text

  /** Seven days in milliseconds: 7 * 24 * 60 * 60 * 1000. */
  const MaxAgeMs: real := 604800000.0

  datatype AdminSession = AdminSession(user: string, issuedAt: real)

  /**
   * What `verifySessionToken` does with a token: returns a session, returns
   * null, or lets the exception of `crypto.timingSafeEqual` escape.
   */
  datatype Verdict = Accepted(session: AdminSession) | Rejected | Threw

  // ---------------------------------------------------------------------------
  // Decimal timestamps

  function DigitChar(d: nat): (c: char)
    requires d < 10
    ensures '0' <= c <= '9'
    ensures c as int - '0' as int == d
  {
    "0123456789"[d]
  }

  /** `${n}` for the non-negative integer that `Date.now()` returns. */
  function Decimal(n: nat): (s: string)
    ensures |s| >= 1
    ensures forall i :: 0 <= i < |s| ==> '0' <= s[i] <= '9'
    ensures s[0] == '0' ==> n == 0
  {
    if n < 10 then [DigitChar(n)] else Decimal(n / 10) + [DigitChar(n % 10)]
  }

  /** The number a string of decimal digits denotes, most significant digit first. */
  function DigitsValue(s: string): nat
    requires forall i :: 0 <= i < |s| ==> '0' <= s[i] <= '9'
  {
    if s == [] then 0 else 10 * DigitsValue(s[..|s| - 1]) + (s[|s| - 1] as int - '0' as int)
  }

  /** The digits of `${n}` denote n: the timestamp survives its printing. */
  lemma {:induction false} DecimalValue(n: nat)
    ensures DigitsValue(Decimal(n)) == n
  {
    if n >= 10 {
      var s := Decimal(n);
      assert s[..|s| - 1] == Decimal(n / 10);
      DecimalValue(n / 10);
    }
  }

  /** A decimal timestamp contains no dot, so it never splits a token. */
  lemma DecimalHasNoDot(n: nat)
    ensures Free(Decimal(n), ".")
  {
    var s := Decimal(n);
    forall i | 0 <= i < |s| ensures !Occurs(s, ".", i) {
      assert s[i..i + 1] == [s[i]];
    }
  }

  // ---------------------------------------------------------------------------
  // Lengths as the runtime measures them

  /** `s.length`: UTF-16 code units, two for a character outside the basic plane. */
  function JsLength(s: string): nat
  {
    if s == [] then 0 else (if s[0] as int >= 0x10000 then 2 else 1) + JsLength(s[1..])
  }

  /** `Buffer.from(s).length`: the number of bytes of the UTF-8 encoding. */
  function Utf8Length(s: string): nat
  {
    if s == [] then 0
    else
      var c := s[0] as int;
      (if c < 0x80 then 1 else if c < 0x800 then 2 else if c < 0x10000 then 3 else 4)
      + Utf8Length(s[1..])
  }

  predicate IsAscii(s: string)
  {
    forall i :: 0 <= i < |s| ==> s[i] as int < 0x80
  }

  /** Both measures agree on ASCII text and disagree as soon as one character is not ASCII. */
  lemma {:induction false} AsciiLengths(s: string)
    ensures IsAscii(s) <==> Utf8Length(s) == JsLength(s)
  {
    if s != [] {
      AsciiLengths(s[1..]);
      Utf8AtLeastJs(s[1..]);
      assert forall i :: 1 <= i < |s| ==> s[i] == s[1..][i - 1];
    }
  }

  lemma {:induction false} Utf8AtLeastJs(s: string)
    ensures Utf8Length(s) >= JsLength(s)
  {
    if s != [] {
      Utf8AtLeastJs(s[1..]);
    }
  }

  // ---------------------------------------------------------------------------
  // Tokens

  /** `createSessionToken(user)`, issued at `issuedAt` = `Date.now()`. */
  function CreateSessionToken(sign: string -> string, user: string, issuedAt: nat): (token: string)
    ensures var stamp := Decimal(issuedAt);
            Free(user, ".") && Free(sign(user + "." + stamp), ".") ==>
              Split(token, ".") == [user, stamp, sign(user + "." + stamp)]
  {
    var payload := user + "." + Decimal(issuedAt);
    DecimalHasNoDot(issuedAt);
    TokenParts(user, Decimal(issuedAt), sign(payload));
    payload + "." + sign(payload)
  }

  /** Three dot-free pieces joined by dots split back into those pieces. */
  lemma TokenParts(user: string, stamp: string, sig: string)
    ensures Free(user, ".") && Free(stamp, ".") && Free(sig, ".") ==>
              Split(user + "." + stamp + "." + sig, ".") == [user, stamp, sig]
  {
    if Free(user, ".") && Free(stamp, ".") && Free(sig, ".") {
      var parts := [user, stamp, sig];
      JoinThree(user, stamp, sig);
      assert forall k :: 0 <= k < |parts| ==> Free(parts[k], ".");
      SplitJoin(parts, ".");
    }
  }

  lemma JoinThree(a: string, b: string, c: string)
    ensures Join([a, b, c], ".") == a + "." + b + "." + c
  {
    JoinJoin(b, [c], ".");
    JoinJoin(a, [b, c], ".");
    assert [a] + [b, c] == [a, b, c];
    assert [b] + [c] == [b, c];
  }

  /**
   * `verifySessionToken(token)` at time `now` = `Date.now()`, as written:
   * the JavaScript lengths of the expected and the given signature are
   * compared, then `timingSafeEqual` compares their UTF-8 bytes and throws
   * when the byte lengths differ.
   */
  function VerifySessionToken(sign: string -> string, strToNumber: string -> JsNum, now: real, token: string)
    : (v: Verdict)
    ensures |Split(token, ".")| != 3 ==> v == Rejected
    ensures v.Accepted? ==>
              var parts := Split(token, ".");
              && |parts| == 3
              && parts[0] == v.session.user
              && parts[2] == sign(parts[0] + "." + parts[1])
              && strToNumber(parts[1]) == Finite(v.session.issuedAt)
              && now - v.session.issuedAt <= MaxAgeMs
    ensures v.Threw? <==>
              var parts := Split(token, ".");
              && |parts| == 3
              && JsLength(sign(parts[0] + "." + parts[1])) == JsLength(parts[2])
              && Utf8Length(sign(parts[0] + "." + parts[1])) != Utf8Length(parts[2])
    ensures v.Threw? ==>
              var parts := Split(token, ".");
              |parts| == 3 && !(IsAscii(sign(parts[0] + "." + parts[1])) && IsAscii(parts[2]))
  {
    var parts := Split(token, ".");
    if |parts| != 3 then Rejected
    else
      var user, issuedAtStr, sig := parts[0], parts[1], parts[2];
      var expected := sign(user + "." + issuedAtStr);
      if JsLength(expected) != JsLength(sig) then Rejected
      else if Utf8Length(expected) != Utf8Length(sig) then
        AsciiLengths(expected);
        AsciiLengths(sig);
        Threw
      else if expected != sig then Rejected
      else
        match strToNumber(issuedAtStr)
        case Finite(issuedAt) =>
          if now - issuedAt > MaxAgeMs then Rejected else Accepted(AdminSession(user, issuedAt))
        case _ => Rejected
  }

  /**
   * The intended check: a signature is accepted only when it equals the
   * expected one, and a mismatch of any kind (including one that
   * `timingSafeEqual` would throw on) is a rejection.
   */
  function VerifySessionTokenChecked(sign: string -> string, strToNumber: string -> JsNum, now: real, token: string)
    : (r: Option<AdminSession>)
    ensures r.Some? <==> VerifySessionToken(sign, strToNumber, now, token).Accepted?
    ensures r.Some? ==> VerifySessionToken(sign, strToNumber, now, token) == Accepted(r.value)
  {
    var parts := Split(token, ".");
    if |parts| != 3 then None
    else
      var user, issuedAtStr, sig := parts[0], parts[1], parts[2];
      var expected := sign(user + "." + issuedAtStr);
      if Utf8Length(expected) != Utf8Length(sig) || expected != sig then None
      else
        match strToNumber(issuedAtStr)
        case Finite(issuedAt) =>
          if now - issuedAt > MaxAgeMs then None else Some(AdminSession(user, issuedAt))
        case _ => None
  }

  /**
   * `getAdminSession()`: no cookie, or an empty one, is no session; any other
   * cookie is a session exactly when its token verifies. The token goes
   * through the corrected check, so a token on which `verifySessionToken`
   * throws is no session here.
   */
  function GetAdminSession(sign: string -> string, strToNumber: string -> JsNum, now: real, cookie: Option<string>)
    : (r: Option<AdminSession>)
    ensures (cookie.None? || cookie == Some("")) ==> r.None?
    ensures r.Some? ==> VerifySessionToken(sign, strToNumber, now, cookie.value) == Accepted(r.value)
    ensures cookie.Some? && cookie.value != [] && VerifySessionToken(sign, strToNumber, now, cookie.value).Accepted? ==>
              r == Some(VerifySessionToken(sign, strToNumber, now, cookie.value).session)
    ensures cookie.Some? && cookie.value != [] && VerifySessionToken(sign, strToNumber, now, cookie.value).Threw? ==>
              r.None?
  {
    if cookie.None? || cookie.value == "" then None
    else VerifySessionTokenChecked(sign, strToNumber, now, cookie.value)
  }

  // ---------------------------------------------------------------------------
  // Properties

  /** Number of occurrences of a character. */
  function Count(s: string, c: char): nat
  {
    if s == [] then 0 else (if s[0] == c then 1 else 0) + Count(s[1..], c)
  }

  lemma {:induction false} CountAppend(a: string, b: string, c: char)
    ensures Count(a + b, c) == Count(a, c) + Count(b, c)
  {
    if a != [] {
      assert (a + b)[0] == a[0];
      assert (a + b)[1..] == a[1..] + b;
      CountAppend(a[1..], b, c);
    } else {
      assert a + b == b;
    }
  }

  lemma {:induction false} CountFree(s: string, c: char)
    requires Free(s, [c])
    ensures Count(s, c) == 0
  {
    if s != [] {
      assert s[0..1] == [s[0]];
      assert !Occurs(s, [c], 0);
      ShiftOccurs(s, [c]);
      forall i | 0 <= i <= |s| - 1 ensures !Occurs(s[1..], [c], i) {
        assert !Occurs(s, [c], i + 1);
      }
      CountFree(s[1..], c);
    }
  }

  /** Splitting on a character yields one more piece than there are occurrences of it. */
  lemma {:induction false} SplitCount(s: string, c: char)
    ensures |Split(s, [c])| == Count(s, c) + 1
    decreases |s|
  {
    match IndexOf(s, [c])
    case None =>
      CountFree(s, c);
    case Some(i) =>
      var rest := s[i + 1..];
      assert s == s[..i] + [c] + rest;
      assert Free(s[..i], [c]) by {
        forall j | 0 <= j <= i ensures !Occurs(s[..i], [c], j) {
          if j < i {
            assert s[..i][j..j + 1] == s[j..j + 1];
            assert !Occurs(s, [c], j);
          }
        }
      }
      CountFree(s[..i], c);
      CountAppend(s[..i] + [c], rest, c);
      CountAppend(s[..i], [c], c);
      SplitCount(rest, c);
  }

  /** Only a token split into exactly three pieces can be accepted. */
  lemma ThreePartsRequired(sign: string -> string, strToNumber: string -> JsNum, now: real, token: string)
    requires VerifySessionToken(sign, strToNumber, now, token).Accepted?
    ensures Count(token, '.') == 2
  {
    SplitCount(token, '.');
  }

  /** A user name with a dot produces a token that never verifies. */
  lemma DottedUserNeverVerifies(sign: string -> string, strToNumber: string -> JsNum, user: string, issuedAt: nat, now: real)
    requires Count(user, '.') > 0
    ensures !VerifySessionToken(sign, strToNumber, now, CreateSessionToken(sign, user, issuedAt)).Accepted?
  {
    var payload := user + "." + Decimal(issuedAt);
    var token := payload + "." + sign(payload);
    CountAppend(user, ".", '.');
    CountAppend(user + ".", Decimal(issuedAt), '.');
    CountAppend(payload, ".", '.');
    CountAppend(payload + ".", sign(payload), '.');
    SplitCount(token, '.');
  }

  /** A signature other than the payload's, of whatever length, is never accepted. */
  lemma WrongSignatureRejected(sign: string -> string, strToNumber: string -> JsNum, now: real, token: string)
    requires |Split(token, ".")| == 3
    requires var p := Split(token, "."); p[2] != sign(p[0] + "." + p[1])
    ensures !VerifySessionToken(sign, strToNumber, now, token).Accepted?
    ensures VerifySessionTokenChecked(sign, strToNumber, now, token).None?
  {
  }

  /** A well-signed token is accepted up to and including the instant it is seven days old. */
  lemma ExpiryBoundary(sign: string -> string, strToNumber: string -> JsNum, now: real, token: string, t: real)
    requires var p := Split(token, "."); |p| == 3 && p[2] == sign(p[0] + "." + p[1])
    requires strToNumber(Split(token, ".")[1]) == Finite(t)
    ensures VerifySessionToken(sign, strToNumber, now, token).Accepted? <==> now - t <= MaxAgeMs
  {
  }

  /**
   * Round trip: a token made for a user without a dot at time `t` verifies,
   * at any time at most seven days later, to that user and `t`.
   */
  lemma CreateThenVerify(sign: string -> string, strToNumber: string -> JsNum, user: string, t: nat, now: real)
    requires Free(user, ".")
    requires Free(sign(user + "." + Decimal(t)), ".")
    requires strToNumber(Decimal(t)) == Finite(t as real)
    requires now - t as real <= MaxAgeMs
    ensures VerifySessionToken(sign, strToNumber, now, CreateSessionToken(sign, user, t))
            == Accepted(AdminSession(user, t as real))
    ensures VerifySessionTokenChecked(sign, strToNumber, now, CreateSessionToken(sign, user, t))
            == Some(AdminSession(user, t as real))
  {
    DecimalHasNoDot(t);
  }

  /** The finding: a same-length signature with a non-ASCII character makes the check throw. */
  lemma NonAsciiSignatureThrows(strToNumber: string -> JsNum, now: real)
    ensures var sign := (payload: string) => "ab";
            VerifySessionToken(sign, strToNumber, now, "u.1.aé") == Threw
  {
    var sign := (payload: string) => "ab";
    var token := "u.1.aé";
    var parts := ["u", "1", "aé"];
    assert Split(token, ".") == parts by {
      ExampleTokenParts(token);
    }
    assert JsLength("ab") == JsLength("aé") == 2;
    assert Utf8Length("aé") == 3 && Utf8Length("ab") == 2;
  }

  lemma ExampleTokenParts(token: string)
    requires token == "u.1.aé"
    ensures Split(token, ".") == ["u", "1", "aé"]
  {
    var parts := ["u", "1", "aé"];
    assert Join(parts, ".") == token by {
      JoinJoin("1", ["aé"], ".");
      JoinJoin("u", ["1", "aé"], ".");
      assert ["u"] + ["1", "aé"] == parts;
      assert ["1"] + ["aé"] == ["1", "aé"];
    }
    CharFree("u", '.');
    CharFree("1", '.');
    CharFree("aé", '.');
    SplitJoin(parts, ".");
  }
}
