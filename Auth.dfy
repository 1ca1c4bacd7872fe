/**
 * backend/src/utils/auth.ts: the Bearer-header parser, the id format, and the
 * password-hash and token library calls. bcrypt and jsonwebtoken are not
 * modelled: a caller supplies them as the four functions of a Crypto value.
 */
module Auth {
  import opened Types
  import opened Js

  /** The claims a token carries. */
  datatype JwtPayload = JwtPayload(userId: string, username: string)

  /**
   * The library calls, uninterpreted: `hashPassword`, `comparePassword`,
   * `generateToken` and `verifyToken`. `verify` is total and returns None for
   * every token the library rejects, so verification never throws.
   */
  datatype Crypto = Crypto(
    hash: string -> string,
    compare: (string, string) -> bool,
    sign: JwtPayload -> string,
    verify: string -> Option<JwtPayload>)

  const BearerScheme: string := "Bearer"

  /**
   * `extractToken(authHeader)`: null for a missing or empty header, and
   * otherwise the second field when splitting on single spaces gives exactly
   * two fields and the first is exactly "Bearer".
   */
  function ExtractToken(authHeader: Option<string>): (r: Option<string>)
    ensures authHeader.None? || authHeader == Some("") ==> r.None?
    ensures r.Some? ==> authHeader == Some(BearerScheme + " " + r.value) && ' ' !in r.value
  {
    if authHeader.None? || authHeader.value == "" then None
    else
      var parts := Split(authHeader.value, ' ');
      if |parts| != 2 || parts[0] != BearerScheme then None
      else
        assert parts[1..] == [parts[1]];
        assert Join(parts, ' ') == parts[0] + [' '] + parts[1];
        Some(parts[1])
  }

  /** The header `"Bearer " + t` the clients send yields `t` back, for any token without a space. */
  lemma ExtractTokenRoundTrip(t: string)
    requires ' ' !in t
    ensures ExtractToken(Some(BearerScheme + " " + t)) == Some(t)
  {
    var parts := [BearerScheme, t];
    assert Join(parts, ' ') == BearerScheme + " " + t by {
      assert parts[1..] == [t];
    }
    SplitJoin(parts, ' ');
  }

  /** Whatever follows "Bearer " is either the token or no token at all. */
  lemma ExtractTokenAfterScheme(t: string)
    ensures ExtractToken(Some(BearerScheme + " " + t)) in {None, Some(t)}
  {
    var h := BearerScheme + " " + t;
    var r := ExtractToken(Some(h));
    if r.Some? {
      assert r.value == (BearerScheme + " " + r.value)[7..] == h[7..] == t;
    }
  }

  /** A header yields `t` exactly when it is `"Bearer " + t` and `t` has no space. */
  lemma ExtractTokenExactly(h: string, t: string)
    ensures ExtractToken(Some(h)) == Some(t) <==> h == BearerScheme + " " + t && ' ' !in t
  {
    if h == BearerScheme + " " + t && ' ' !in t {
      ExtractTokenRoundTrip(t);
    }
  }

  /** The scheme is matched case-sensitively. */
  lemma ExtractTokenSchemeCase()
    ensures ExtractToken(Some("bearer x")) == None
  {
  }

  /** A token with a space in it is rejected. */
  lemma ExtractTokenExtraField()
    ensures ExtractToken(Some("Bearer a b")) == None
  {
  }

  /** Two spaces after the scheme give three fields and no token. */
  lemma ExtractTokenDoubleSpace()
    ensures ExtractToken(Some("Bearer  x")) == None
  {
  }

  /** The bare scheme has one field and no token. */
  lemma ExtractTokenSchemeOnly()
    ensures ExtractToken(Some("Bearer")) == None
  {
  }

  /** An empty credential after the scheme is an empty token, not a missing one. */
  lemma ExtractTokenEmptyCredential()
    ensures ExtractToken(Some("Bearer ")) == Some("")
  {
    ExtractTokenRoundTrip("");
  }

  const DefaultIdPrefix: string := "id"

  /**
   * `generateId(prefix)`: `prefix-<Date.now()>-<up to 7 random base-36 characters>`.
   * `millis` is `Date.now()` and `random36` is the text of `Math.random().toString(36)`.
   */
  function GenerateId(prefix: string, millis: nat, random36: string): (id: string)
    ensures |id| > |prefix| + 1 && id[..|prefix| + 1] == prefix + "-"
    ensures var tail := random36[Min(2, |random36|)..Min(9, |random36|)];
      |tail| < |id| && id[|id| - |tail|..] == tail && id[|id| - |tail| - 1] == '-'
  {
    var tail := Substring(random36, 2, 9);
    var id := prefix + "-" + Decimal(millis) + "-" + tail;
    assert id[..|prefix| + 1] == prefix + "-";
    assert id[|id| - |tail|..] == tail;
    id
  }

  /** The position of the first '-' in `s`, or `|s|`. */
  function DashIndex(s: string): (i: nat)
    ensures i <= |s|
    decreases |s|
  {
    if |s| == 0 || s[0] == '-' then 0 else 1 + DashIndex(s[1..])
  }

  /** The first '-' after a run of digits is the one that ends the run. */
  lemma {:induction false} DashIndexAfterDigits(d: string, x: string)
    requires forall k :: 0 <= k < |d| ==> IsDigit(d[k])
    ensures DashIndex(d + "-" + x) == |d|
    decreases |d|
  {
    var s := d + "-" + x;
    if |d| > 0 {
      assert s[0] == d[0] && s[1..] == d[1..] + "-" + x;
      DashIndexAfterDigits(d[1..], x);
    }
  }

  lemma DigitsBeforeDash(d1: string, x1: string, d2: string, x2: string)
    requires forall k :: 0 <= k < |d1| ==> IsDigit(d1[k])
    requires forall k :: 0 <= k < |d2| ==> IsDigit(d2[k])
    requires d1 + "-" + x1 == d2 + "-" + x2
    ensures d1 == d2
  {
    var s := d1 + "-" + x1;
    DashIndexAfterDigits(d1, x1);
    DashIndexAfterDigits(d2, x2);
    assert d1 == s[..|d1|] == d2;
  }

  /** Ids generated with the same prefix in different milliseconds are different. */
  lemma GenerateIdDistinctMillis(prefix: string, m1: nat, r1: string, m2: nat, r2: string)
    requires m1 != m2
    ensures GenerateId(prefix, m1, r1) != GenerateId(prefix, m2, r2)
  {
    var p := prefix + "-";
    var t1 := Decimal(m1) + "-" + Substring(r1, 2, 9);
    var t2 := Decimal(m2) + "-" + Substring(r2, 2, 9);
    assert GenerateId(prefix, m1, r1) == p + t1;
    assert GenerateId(prefix, m2, r2) == p + t2;
    if p + t1 == p + t2 {
      assert t1 == (p + t1)[|p|..] == (p + t2)[|p|..] == t2;
      DigitsBeforeDash(Decimal(m1), Substring(r1, 2, 9), Decimal(m2), Substring(r2, 2, 9));
      DecimalRoundTrip(m1);
      DecimalRoundTrip(m2);
    }
  }
}
