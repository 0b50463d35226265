/**
 * Two helpers: fresh id generation over a random source, and the creation
 * time encoded in the leading hex digits of an object id.
 */
module Utils {
  import opened Wrappers

  /** `generateID`'s default id length. */
  const DefaultSize: nat := 5

  /**
   * `generateID(ids, size, {prefix})`, with the random ids `nanoid(size)`
   * would produce given in order as `draws`. The first attempt carries the
   * prefix; a clash retries without the options, so later attempts carry
   * none. The source retries for as long as it takes; the model stops when
   * the draws run out.
   */
  function GenerateId(ids: seq<string>, size: nat, prefix: Option<string>, draws: seq<string>): (r: Option<string>)
    requires forall i :: 0 <= i < |draws| ==> |draws[i]| == size
    ensures r.Some? ==> r.value !in ids
    ensures r.Some? ==> draws != [] && (r.value == prefix.GetOr("") + draws[0] || (r.value in draws[1..] && |r.value| == size))
    ensures draws != [] && prefix.GetOr("") + draws[0] !in ids ==> r == Some(prefix.GetOr("") + draws[0])
    ensures r.None? <==> draws == [] || (prefix.GetOr("") + draws[0] in ids && forall j :: 0 < j < |draws| ==> draws[j] in ids)
    decreases |draws|
  {
    if draws == [] then None
    else
      var id := prefix.GetOr("") + draws[0];
      if id in ids then
        var tail := draws[1..];
        var rest := GenerateId(ids, size, None, tail);
        assert rest.Some? ==> rest.value in tail by {
          if rest.Some? && rest.value != tail[0] {
            assert tail[1..] == draws[2..];
          }
        }
        assert rest.None? <==> forall j :: 0 < j < |draws| ==> draws[j] in ids by {
          if tail != [] {
            assert None.GetOr("") + tail[0] == tail[0];
          }
          assert forall j :: 0 < j < |draws| ==> draws[j] == tail[j - 1];
        }
        rest
      else Some(id)
  }

  /** A retry that succeeds returns the first draw, after the first, not already taken, unprefixed. */
  lemma {:induction false} RetryFindsFirstFree(ids: seq<string>, size: nat, prefix: Option<string>, draws: seq<string>, k: nat)
    requires forall i :: 0 <= i < |draws| ==> |draws[i]| == size
    requires 0 < k < |draws| && draws[k] !in ids
    requires prefix.GetOr("") + draws[0] in ids
    requires forall j :: 0 < j < k ==> draws[j] in ids
    ensures GenerateId(ids, size, prefix, draws) == Some(draws[k])
    decreases k
  {
    var tail := draws[1..];
    assert GenerateId(ids, size, prefix, draws) == GenerateId(ids, size, None, tail);
    if k > 1 {
      assert None.GetOr("") + tail[0] == draws[1];
      RetryFindsFirstFree(ids, size, None, tail, k - 1);
    } else {
      assert None.GetOr("") + tail[0] == draws[1];
    }
  }

  /** With the defaults, no ids taken and no prefix, the first draw is the id. */
  lemma DefaultsTakeFirstDraw(draws: seq<string>)
    requires draws != [] && forall i :: 0 <= i < |draws| ==> |draws[i]| == DefaultSize
    ensures GenerateId([], DefaultSize, None, draws) == Some(draws[0])
    ensures |draws[0]| == 5
  {
    assert None.GetOr("") + draws[0] == draws[0];
  }

  predicate IsHexDigit(c: char) {
    '0' <= c <= '9' || 'a' <= c <= 'f' || 'A' <= c <= 'F'
  }

  /** Every character is a hex digit. */
  predicate AllHex(s: string) {
    forall i :: 0 <= i < |s| ==> IsHexDigit(s[i])
  }

  function HexDigitValue(c: char): (d: nat)
    requires IsHexDigit(c)
    ensures d < 16
  {
    if '0' <= c <= '9' then c as nat - '0' as nat
    else if 'a' <= c <= 'f' then c as nat - 'a' as nat + 10
    else c as nat - 'A' as nat + 10
  }

  /** The value of a run of hex digits, most significant first. */
  function HexValue(s: string): nat
    requires AllHex(s)
  {
    if s == [] then 0
    else HexValue(s[..|s| - 1]) * 16 + HexDigitValue(s[|s| - 1])
  }

  function Pow16(n: nat): (p: nat)
    ensures p >= 1
  {
    if n == 0 then 1 else 16 * Pow16(n - 1)
  }

  /** n hex digits hold a value below 16^n. */
  lemma {:induction false} HexValueBound(s: string)
    requires AllHex(s)
    ensures HexValue(s) < Pow16(|s|)
  {
    if s != [] {
      var n := |s| - 1;
      HexValueBound(s[..n]);
      assert HexValue(s[..n]) <= Pow16(n) - 1;
      assert HexValue(s) <= (Pow16(n) - 1) * 16 + 15;
    }
  }

  /** The longest run of hex digits at the front of s. */
  function HexPrefix(s: string): (p: string)
    ensures |p| <= |s| && p == s[..|p|]
    ensures AllHex(p)
    ensures |p| < |s| ==> !IsHexDigit(s[|p|])
  {
    if s == [] || !IsHexDigit(s[0]) then []
    else
      var rest := HexPrefix(s[1..]);
      assert [s[0]] + rest == s[..|rest| + 1];
      [s[0]] + rest
  }

  /** The whitespace `parseInt` skips, as far as the model covers it. */
  predicate IsSpace(c: char) {
    c == ' ' || c == '\t' || c == '\n' || c == '\r' || c == '\U{000B}' || c == '\U{000C}'
  }

  function TrimStart(s: string): (t: string)
    ensures |t| <= |s| && t == s[|s| - |t|..]
    ensures t != [] ==> !IsSpace(t[0])
  {
    if s != [] && IsSpace(s[0]) then TrimStart(s[1..]) else s
  }

  /**
   * `parseInt(s, 16)`: leading whitespace skipped, an optional sign, an
   * optional `0x`, then the longest run of hex digits; `NaN` (here `None`)
   * when that run is empty.
   */
  function ParseIntHex(s: string): Option<int> {
    var t := TrimStart(s);
    var negative := t != [] && t[0] == '-';
    var digits := HexPrefix(StripHexMark(StripSign(t)));
    if digits == [] then None
    else Some(if negative then -(HexValue(digits) as int) else HexValue(digits))
  }

  /** The text after an optional leading sign. */
  function StripSign(t: string): string {
    if t != [] && (t[0] == '-' || t[0] == '+') then t[1..] else t
  }

  /** The text after an optional leading `0x` or `0X`. */
  function StripHexMark(u: string): string {
    if |u| >= 2 && u[0] == '0' && (u[1] == 'x' || u[1] == 'X') then u[2..] else u
  }

  /** Nothing is trimmed from a string that starts with no whitespace. */
  lemma NoSpaceToTrim(s: string)
    requires s != [] && !IsSpace(s[0])
    ensures TrimStart(s) == s
  {
  }

  lemma NoSignToStrip(t: string)
    requires t != [] && t[0] != '-' && t[0] != '+'
    ensures StripSign(t) == t
  {
  }

  lemma NoHexMarkToStrip(u: string)
    requires |u| >= 2 ==> u[1] != 'x' && u[1] != 'X'
    ensures StripHexMark(u) == u
  {
  }

  /** A string of hex digits is its own longest hex prefix. */
  lemma HexPrefixOfDigits(s: string)
    requires AllHex(s)
    ensures HexPrefix(s) == s
  {
  }

  /** A nonempty run of hex digits parses to its value, with no sign and no `0x` to skip. */
  lemma ParseHexDigits(s: string)
    requires s != [] && AllHex(s)
    ensures ParseIntHex(s) == Some(HexValue(s))
  {
    assert IsHexDigit(s[0]);
    NoSpaceToTrim(s);
    NoSignToStrip(s);
    if |s| >= 2 {
      assert IsHexDigit(s[1]);
    }
    NoHexMarkToStrip(s);
    HexPrefixOfDigits(s);
  }

  /** `objectId.substring(0, 8)`: the first eight characters, or all of a shorter id. */
  function Head8(objectId: string): (h: string)
    ensures |h| == if |objectId| < 8 then |objectId| else 8
  {
    if |objectId| < 8 then objectId else objectId[..8]
  }

  /** `objectId2Date`: the id's leading hex value in seconds, as milliseconds; `NaN` as `None`. */
  function ObjectIdToDate(objectId: string): (r: Option<int>) {
    match ParseIntHex(Head8(objectId))
    case None => None
    case Some(v) => Some(v * 1000)
  }

  /**
   * An object id whose first eight characters are hex digits dates to a
   * whole second, no earlier than 0 and no later than 0xFFFFFFFF seconds.
   */
  lemma ObjectIdDateRange(objectId: string)
    requires |objectId| >= 8 && AllHex(objectId[..8])
    ensures ObjectIdToDate(objectId).Some?
    ensures ObjectIdToDate(objectId).value % 1000 == 0
    ensures 0 <= ObjectIdToDate(objectId).value <= 0xFFFF_FFFF * 1000
    ensures ObjectIdToDate(objectId) == Some(HexValue(objectId[..8]) * 1000)
  {
    var h := objectId[..8];
    assert Head8(objectId) == h;
    ParseHexDigits(h);
    HexValueBound(h);
    assert Pow16(2) == 0x100;
    assert Pow16(4) == 0x1_0000 by {
      assert Pow16(3) == 0x1000;
    }
    assert Pow16(6) == 0x100_0000 by {
      assert Pow16(5) == 0x10_0000;
    }
    assert Pow16(8) == 0x1_0000_0000 by {
      assert Pow16(7) == 0x1000_0000;
    }
    var v := HexValue(h);
    assert ObjectIdToDate(objectId) == Some(v * 1000);
  }
}
