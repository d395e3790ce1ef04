/** Session tokens: user, expiry and signature, joined, then base64url. The
    signature function is any function from payloads to bytes. */
module Token {
  import opened Text
  import opened Int64
  import opened Encoding
  import CivilTime

  const SECOND := 1000000000

  // Times are nanoseconds since the year 1, as Go keeps them; their whole
  // seconds are an int64.
  const UNIX_EPOCH := 62135596800

  predicate IsTime(t: int) {
    Fits(t / SECOND)
  }

  function Unix(t: int): int {
    Wrap64(t / SECOND - UNIX_EPOCH)
  }

  function FromUnix(seconds: int): int {
    Wrap64(seconds + UNIX_EPOCH) * SECOND
  }

  /** Unix time begins with the year 1970. */
  lemma EpochIs()
    ensures CivilTime.Instant(CivilTime.Time(1970, 1, 1, 0, 0, 0, 0, 0)) -
            CivilTime.Instant(CivilTime.Time(1, 1, 1, 0, 0, 0, 0, 0)) == UNIX_EPOCH * SECOND
  {
    hide CivilTime.Instant;
    CivilTime.YearBegins(1970);
    CivilTime.YearBegins(1);
  }

  /** Cut to whole seconds; wrap-around on the way there is undone on the way back. */
  lemma UnixAndBack(t: int)
    requires -9223372036854775808 <= t / 1000000000 <= 9223372036854775807
    ensures IsTime(t)
    ensures Fits(Unix(t)) && FromUnix(Unix(t)) == t / SECOND * SECOND
  {
    var s := t / SECOND;
    assert Wrap64(s - UNIX_EPOCH) == if s - UNIX_EPOCH < -TWO63 then s - UNIX_EPOCH + 2 * TWO63 else s - UNIX_EPOCH;
  }

  datatype Refusal = NotBase64 | BadShape | BadExpiry | Expired | BadHex | BadSignature

  datatype Verdict = Granted(user: string) | Refused(why: Refusal)

  function Payload(user: string, expires: int): string {
    user + ['|'] + Print(Unix(expires))
  }

  lemma PayloadIsBytes(user: ByteString, expires: int)
    ensures IsBytes(Payload(user, expires)) && '|' !in Print(Unix(expires))
  {
    var x := Unix(expires);
    var digits := Decimal(if x < 0 then -x else x);
    forall i | 0 <= i < |digits| ensures digits[i] as int < 256 { assert digits[i] in digits && IsDigit(digits[i]); }
    assert forall c | c in Print(x) :: c in digits || c == '-';
  }

  function Create(sign: string -> ByteString, user: ByteString, expires: int): string {
    var payload := Payload(user, expires);
    PayloadIsBytes(user, expires);
    Encode(payload + ['|'] + EncodeHex(sign(payload)))
  }

  function Verify(sign: string -> ByteString, token: string, now: int): Verdict {
    var decoded := Decode(token);
    if decoded.None? then Refused(NotBase64)
    else
      var parts := Split(decoded.value, '|');
      if |parts| != 3 then Refused(BadShape)
      else
        var username, expires := TrimSpace(parts[0]), ParseInt(parts[1]);
        if expires.None? then Refused(BadExpiry)
        else if now > FromUnix(expires.value) then Refused(Expired)
        else
          var expected, provided := sign(parts[0] + ['|'] + parts[1]), DecodeHex(parts[2]);
          if provided.None? then Refused(BadHex)
          else if provided.value != expected then Refused(BadSignature)
          else Granted(Lower(username))
  }

  /** What a token decodes to. */
  lemma TokenParts(sign: string -> ByteString, user: ByteString, expires: int)
    ensures var payload := Payload(user, expires);
            var decoded := payload + ['|'] + EncodeHex(sign(payload));
            && Decode(Create(sign, user, expires)) == Some(decoded)
            && Split(decoded, '|') == Split(user, '|') + [Print(Unix(expires)), EncodeHex(sign(payload))]
  {
    var payload := Payload(user, expires);
    PayloadIsBytes(user, expires);
    DecodeOfEncode(payload + ['|'] + EncodeHex(sign(payload)));
    SplitConcat(payload, '|', EncodeHex(sign(payload)));
    SplitConcat(user, '|', Print(Unix(expires)));
    SplitWord(Print(Unix(expires)), '|');
    SplitWord(EncodeHex(sign(payload)), '|');
  }

  /** The whole fate of a freshly made token, for every user name, expiry and time. */
  lemma RoundTrip(sign: string -> ByteString, user: ByteString, expires: int, now: int)
    requires IsTime(expires)
    ensures Verify(sign, Create(sign, user, expires), now) ==
            if '|' in user then Refused(BadShape)
            else if now > expires / SECOND * SECOND then Refused(Expired)
            else Granted(Lower(TrimSpace(user)))
  {
    TokenParts(sign, user, expires);
    UnixAndBack(expires);
    if '|' in user {
      SplitMore(user, '|');
    } else {
      SplitWord(user, '|');
      ParseOfPrint(Unix(expires));
      DecodeOfEncodeHex(sign(Payload(user, expires)));
    }
  }

  /** A token is text for the user, the expiry in Unix seconds and the signature of
      both, in hexadecimal, with bars between. */
  lemma TokenIs(sign: string -> ByteString, user: ByteString, expires: int)
    ensures IsBytes(user + "|" + Print(Unix(expires)))
    ensures var signed := user + "|" + Print(Unix(expires));
            Decode(Create(sign, user, expires)) == Some(signed + "|" + EncodeHex(sign(signed)))
  {
    PayloadIsBytes(user, expires);
    TokenParts(sign, user, expires);
  }

  /** The user a request with this cookie is authenticated as. */
  function AuthenticatedUser(users: set<string>, sign: string -> ByteString, cookie: string, now: int): Option<string> {
    match Verify(sign, cookie, now)
    case Granted(user) => if user in users then Some(user) else None
    case Refused(_) => None
  }

  /** The cookie handed out at login lets its user in up to the expiry cut to whole
      seconds and not after, unless the name holds a '|': then it never does. */
  lemma LoginLasts(users: set<string>, sign: string -> ByteString, form: string, key: ByteString,
                   expires: int, now: int)
    requires key == Lower(TrimSpace(form)) && key in users && IsTime(expires)
    ensures AuthenticatedUser(users, sign, Create(sign, key, expires), now) == Some(key) <==>
            '|' !in key && now <= expires / SECOND * SECOND
    ensures AuthenticatedUser(users, sign, Create(sign, key, expires), now) in {Some(key), None}
  {
    RoundTrip(sign, key, expires, now);
    NormalNameIsFixed(form);
  }

  /** Different users or different whole seconds have different tokens. */
  lemma TokensDiffer(sign: string -> ByteString, u: ByteString, e: int, v: ByteString, f: int)
    requires IsTime(e) && IsTime(f) && '|' !in u && '|' !in v
    requires Create(sign, u, e) == Create(sign, v, f)
    ensures u == v && e / SECOND == f / SECOND
  {
    TokenParts(sign, u, e);
    TokenParts(sign, v, f);
    SplitWord(u, '|');
    SplitWord(v, '|');
    var parts := Split(Decode(Create(sign, u, e)).value, '|');
    assert parts[0] == u && parts[0] == v && parts[1] == Print(Unix(e)) && parts[1] == Print(Unix(f));
    UnixAndBack(e);
    UnixAndBack(f);
    ParseOfPrint(Unix(e));
    ParseOfPrint(Unix(f));
  }

  lemma JoinThree(a: string, b: string, c: string, sep: char)
    ensures Join([a, b, c], sep) == a + [sep] + b + [sep] + c
  {
    assert [a, b, c][1..] == [b, c] && [b, c][1..] == [c];
    assert Join([b, c], sep) == b + [sep] + c;
    assert a + [sep] + (b + [sep] + c) == a + [sep] + b + [sep] + c;
  }

  /** Any accepted token, however it was made, carries the signature of the user
      and expiry it is accepted for, and that expiry has not passed. */
  lemma AcceptedIsSigned(sign: string -> ByteString, token: string, now: int)
    returns (user: string, expires: string, signature: string)
    requires Verify(sign, token, now).Granted?
    ensures Decode(token) == Some(user + ['|'] + expires + ['|'] + signature)
    ensures Verify(sign, token, now) == Granted(Lower(TrimSpace(user)))
    ensures DecodeHex(signature) == Some(sign(user + ['|'] + expires))
    ensures ParseInt(expires).Some? && now <= FromUnix(ParseInt(expires).value)
  {
    var decoded := Decode(token).value;
    var parts := Split(decoded, '|');
    user, expires, signature := parts[0], parts[1], parts[2];
    SplitParts(decoded, '|');
    assert parts == [user, expires, signature];
    JoinThree(user, expires, signature, '|');
  }

  /** And whatever carries such a signature is accepted, up to the expiry. */
  lemma SignedIsAccepted(sign: string -> ByteString, token: string, user: string, expires: string, signature: string,
                         now: int)
    requires Decode(token) == Some(user + ['|'] + expires + ['|'] + signature)
    requires '|' !in user && '|' !in expires && '|' !in signature
    requires DecodeHex(signature) == Some(sign(user + ['|'] + expires))
    requires ParseInt(expires).Some? && now <= FromUnix(ParseInt(expires).value)
    ensures Verify(sign, token, now) == Granted(Lower(TrimSpace(user)))
  {
    var decoded := user + ['|'] + expires + ['|'] + signature;
    SplitConcat(user + ['|'] + expires, '|', signature);
    SplitConcat(user, '|', expires);
    SplitWord(user, '|');
    SplitWord(expires, '|');
    SplitWord(signature, '|');
    assert Split(decoded, '|') == [user, expires, signature];
  }

  /** For every cookie: it authenticates as a configured user exactly if it was
      granted for that user, and then it carries the signature of that user's name,
      up to case and white space, and of an expiry that has not passed. */
  lemma AuthenticatedIsSigned(users: set<string>, sign: string -> ByteString, cookie: string, now: int)
    returns (user: string, expires: string, signature: string)
    ensures var who := AuthenticatedUser(users, sign, cookie, now);
            && (forall name :: who == Some(name) <==> name in users && Verify(sign, cookie, now) == Granted(name))
            && (who.Some? ==>
                  && who.value == Lower(TrimSpace(user))
                  && Decode(cookie) == Some(user + ['|'] + expires + ['|'] + signature)
                  && DecodeHex(signature) == Some(sign(user + ['|'] + expires))
                  && ParseInt(expires).Some? && now <= FromUnix(ParseInt(expires).value))
  {
    user, expires, signature := "", "", "";
    if Verify(sign, cookie, now).Granted? { user, expires, signature := AcceptedIsSigned(sign, cookie, now); }
  }
}
