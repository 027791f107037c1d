/** A stand-in for the `jsonwebtoken` library as the backend uses it:
    `sign({username}, secret, {expiresIn: '24h'})` and `verify(token, secret)`.

    A token is four dot-separated fields: the escaped username, the issue
    time and the expiry (both whole seconds, as the library's `iat` and
    `exp` claims), and a keyed checksum of the first three fields.  The
    checksum stands for HMAC-SHA256 and the escaping for base64url; what the
    handlers depend on is only that verification with the signing secret
    returns the signed claims until the expiry passes, and nothing
    otherwise. */
module Jwt {
  import opened Wrappers
  import Text
  import Digest

  /** `expiresIn: '24h'`, in seconds. */
  const ExpiresInSeconds: nat := 86400

  /** The decoded payload: `{username, iat, exp}`. */
  datatype Claims = Claims(username: string, iat: nat, exp: nat)

  /** The library's clock: whole seconds of a millisecond timestamp. */
  function Seconds(ms: nat): nat {
    ms / 1000
  }

  predicate IsDigit(c: char) {
    '0' <= c <= '9'
  }

  function DigitChar(d: nat): (c: char)
    requires d < 10
    ensures IsDigit(c)
  {
    ('0' as int + d) as char
  }

  function DigitValue(c: char): nat
    requires IsDigit(c)
  {
    c as int - '0' as int
  }

  /** Decimal digits of `n`, most significant first, no leading zero. */
  function Digits(n: nat): (s: string)
    ensures |s| >= 1
    ensures forall i :: 0 <= i < |s| ==> IsDigit(s[i])
    decreases n
  {
    if n < 10 then [DigitChar(n)] else Digits(n / 10) + [DigitChar(n % 10)]
  }

  /** The number a non-empty string of decimal digits denotes. */
  function ParseNat(s: string): Option<nat>
    decreases |s|
  {
    if |s| == 0 || !IsDigit(s[|s| - 1]) then None
    else if |s| == 1 then Some(DigitValue(s[0]))
    else
      match ParseNat(s[..|s| - 1])
      case None => None
      case Some(high) => Some(high * 10 + DigitValue(s[|s| - 1]))
  }

  lemma {:induction false} ParseDigits(n: nat)
    ensures ParseNat(Digits(n)) == Some(n)
    decreases n
  {
    if n >= 10 {
      ParseDigits(n / 10);
      var s := Digits(n);
      assert s[..|s| - 1] == Digits(n / 10);
    }
  }

  /** The escaping that keeps a username free of '.' (the field separator)
      and ' ' (the separator of the Authorization header). */
  function EscapeChar(c: char): string {
    if c == '~' then "~~" else if c == '.' then "~d" else if c == ' ' then "~s" else [c]
  }

  function Escape(s: string): (r: string)
    ensures '.' !in r && ' ' !in r
    decreases |s|
  {
    if |s| == 0 then "" else EscapeChar(s[0]) + Escape(s[1..])
  }

  function Unescape(s: string): Option<string>
    decreases |s|
  {
    if |s| == 0 then Some("")
    else if s[0] != '~' then
      match Unescape(s[1..])
      case None => None
      case Some(rest) => Some([s[0]] + rest)
    else if |s| == 1 then None
    else
      var c := if s[1] == '~' then Some('~') else if s[1] == 'd' then Some('.')
               else if s[1] == 's' then Some(' ') else None;
      match (c, Unescape(s[2..]))
      case (Some(c), Some(rest)) => Some([c] + rest)
      case _ => None
  }

  lemma {:induction false} UnescapeEscape(s: string)
    ensures Unescape(Escape(s)) == Some(s)
    decreases |s|
  {
    if |s| > 0 {
      UnescapeEscape(s[1..]);
      var e := Escape(s);
      var head := EscapeChar(s[0]);
      assert e == head + Escape(s[1..]);
      assert e[|head|..] == Escape(s[1..]);
      assert [s[0]] + s[1..] == s;
    }
  }

  /** The signature of `signed` under `secret` (HMAC in the library). */
  function Mac(secret: string, signed: string): nat {
    Digest.Checksum(secret + "." + signed)
  }

  function PayloadFields(c: Claims): (fields: seq<string>)
    ensures |fields| == 3
  {
    [Escape(c.username), Digits(c.iat), Digits(c.exp)]
  }

  /** The claims `sign` puts in a token issued at `nowMs`. */
  function IssuedClaims(username: string, nowMs: nat): Claims {
    Claims(username, Seconds(nowMs), Seconds(nowMs) + ExpiresInSeconds)
  }

  /** `jwt.sign({ username }, secret, { expiresIn: '24h' })` at time `nowMs`. */
  function Sign(username: string, secret: string, nowMs: nat): string {
    var fields := PayloadFields(IssuedClaims(username, nowMs));
    Text.Join(fields + [Digits(Mac(secret, Text.Join(fields, '.')))], '.')
  }

  /** `jwt.verify(token, secret)` at time `nowMs`: the claims, or `None` for
      every kind of error (malformed, bad signature, expired) alike. */
  function Verify(token: string, secret: string, nowMs: nat): (r: Option<Claims>)
    ensures r.Some? ==> Seconds(nowMs) < r.value.exp
    ensures r.Some? ==>
              (|Text.Split(token, '.')| == 4
               && ParseNat(Text.Split(token, '.')[3])
                  == Some(Mac(secret, Text.Join(Text.Split(token, '.')[..3], '.'))))
  {
    var fields := Text.Split(token, '.');
    if |fields| != 4 then None
    else
      match (Unescape(fields[0]), ParseNat(fields[1]), ParseNat(fields[2]), ParseNat(fields[3]))
      case (Some(username), Some(iat), Some(exp), Some(signature)) =>
        if signature != Mac(secret, Text.Join(fields[..3], '.')) then None
        else if Seconds(nowMs) >= exp then None
        else Some(Claims(username, iat, exp))
      case _ => None
  }

  lemma SignedFields(username: string, secret: string, nowMs: nat)
    ensures var fields := PayloadFields(IssuedClaims(username, nowMs));
            Text.Split(Sign(username, secret, nowMs), '.')
              == fields + [Digits(Mac(secret, Text.Join(fields, '.')))]
  {
    var c := IssuedClaims(username, nowMs);
    var fields := PayloadFields(c);
    var all := fields + [Digits(Mac(secret, Text.Join(fields, '.')))];
    forall i | 0 <= i < |all| ensures '.' !in all[i] {
      if i == 1 || i == 2 || i == 3 {
        assert forall j :: 0 <= j < |all[i]| ==> IsDigit(all[i][j]);
      }
    }
    Text.SplitJoin(all, '.');
  }

  /** The round trip: a token verifies with the secret that signed it, giving
      back the username with `iat` and `exp` 24 hours apart, exactly while
      the current second is before the expiry. */
  lemma SignVerify(username: string, secret: string, issuedMs: nat, nowMs: nat)
    ensures Verify(Sign(username, secret, issuedMs), secret, nowMs)
            == if Seconds(nowMs) < Seconds(issuedMs) + ExpiresInSeconds
               then Some(IssuedClaims(username, issuedMs)) else None
  {
    var c := IssuedClaims(username, issuedMs);
    var fields := PayloadFields(c);
    var sig := Mac(secret, Text.Join(fields, '.'));
    SignedFields(username, secret, issuedMs);
    var split := Text.Split(Sign(username, secret, issuedMs), '.');
    assert split[..3] == fields;
    UnescapeEscape(username);
    ParseDigits(c.iat);
    ParseDigits(c.exp);
    ParseDigits(sig);
  }

  /** A token contains no space, so it survives being put after "Bearer "
      and split on spaces. */
  lemma SignHasNoSpace(username: string, secret: string, nowMs: nat)
    ensures ' ' !in Sign(username, secret, nowMs)
  {
    var fields := PayloadFields(IssuedClaims(username, nowMs));
    var all := fields + [Digits(Mac(secret, Text.Join(fields, '.')))];
    forall i | 0 <= i < |all| ensures ' ' !in all[i] {
      if i == 1 || i == 2 || i == 3 {
        assert forall j :: 0 <= j < |all[i]| ==> IsDigit(all[i][j]);
      }
    }
    Text.JoinAvoids(all, '.', ' ');
  }
}
