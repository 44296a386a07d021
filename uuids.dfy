/**
 * `uuid.UUID` values (github.com/google/uuid): a 128-bit number, its canonical
 * text `xxxxxxxx-xxxx-xxxx-xxxx-xxxxxxxxxxxx` (lower-case hex, what `String()`
 * and JSON encoding produce), `uuid.Parse` (`GoParse`: the canonical, braced,
 * URN and bare-hex forms) and Postgres's `uuid` input syntax (`PgParse`), which
 * reads the texts the handlers bind to a `guid = ?` condition.
 */
module Uuids {
  import opened Wrappers
  import Text

  type Uuid = nat

  /** `uuid.Nil`, the all-zero UUID. */
  const Nil: Uuid := 0

  function Pow16(n: nat): (r: nat)
    ensures r >= 1
  {
    if n == 0 then 1 else 16 * Pow16(n - 1)
  }

  /** A UUID is 16 bytes, so below 16^32. */
  predicate IsUuid(u: nat)
  {
    u < Pow16(32)
  }

  predicate IsHex(ch: char)
  {
    ('0' <= ch <= '9') || ('a' <= ch <= 'f') || ('A' <= ch <= 'F')
  }

  predicate AllHex(s: string)
  {
    forall i :: 0 <= i < |s| ==> IsHex(s[i])
  }

  function HexChar(d: nat): (ch: char)
    requires d < 16
    ensures IsHex(ch)
  {
    if d < 10 then ('0' as int + d) as char else ('a' as int + d - 10) as char
  }

  function HexVal(ch: char): (d: nat)
    requires IsHex(ch)
    ensures d < 16
  {
    if '0' <= ch <= '9' then ch as int - '0' as int
    else if 'a' <= ch <= 'f' then ch as int - 'a' as int + 10
    else ch as int - 'A' as int + 10
  }

  /** The low `width` hex digits of `n`, most significant first. */
  function HexDigits(n: nat, width: nat): (r: string)
    ensures |r| == width && AllHex(r)
  {
    if width == 0 then "" else HexDigits(n / 16, width - 1) + [HexChar(n % 16)]
  }

  /** The value of a string of hex digits, either case. */
  function HexValue(s: string): (r: nat)
    requires AllHex(s)
    ensures r < Pow16(|s|)
  {
    if |s| == 0 then 0
    else
      var high := HexValue(s[..|s| - 1]);
      assert high * 16 + HexVal(s[|s| - 1]) < Pow16(|s|) by {
        assert high <= Pow16(|s| - 1) - 1;
        assert high * 16 <= Pow16(|s|) - 16;
      }
      high * 16 + HexVal(s[|s| - 1])
  }

  /** Reading back the digits of a number that fits in `width` digits gives the number. */
  lemma {:induction false} HexValueOfDigits(n: nat, width: nat)
    requires n < Pow16(width)
    ensures HexValue(HexDigits(n, width)) == n
  {
    if width > 0 {
      var s := HexDigits(n, width);
      assert s[..|s| - 1] == HexDigits(n / 16, width - 1);
      HexValueOfDigits(n / 16, width - 1);
      assert HexVal(HexChar(n % 16)) == n % 16;
    }
  }

  /** The hex digits of a text in canonical form, dashes removed. */
  function Undashed(s: string): (h: string)
    requires |s| == 36
    ensures |h| == 32
  {
    seq(32, j requires 0 <= j < 32 => s[TextPos(j)])
  }

  /** The canonical text of 32 hex digits, dashes inserted. */
  function Dashed(h: string): (s: string)
    requires |h| == 32
    ensures |s| == 36
  {
    seq(36, i requires 0 <= i < 36 => if IsDashPos(i) then '-' else h[DigitAt(i)])
  }

  lemma UndashedDashed(h: string)
    requires |h| == 32
    ensures Undashed(Dashed(h)) == h
  {
    var s := Dashed(h);
    forall j | 0 <= j < 32
      ensures Undashed(s)[j] == h[j]
    {
      assert !IsDashPos(TextPos(j)) && DigitAt(TextPos(j)) == j;
    }
  }

  /** The positions of the four dashes in the 36-character text. */
  predicate IsDashPos(i: int)
  {
    i == 8 || i == 13 || i == 18 || i == 23
  }

  /** Where the `j`-th of the 32 hex digits stands in the text (groups of 8, 4, 4, 4, 12). */
  function TextPos(j: nat): nat
  {
    if j < 8 then j else if j < 12 then j + 1 else if j < 16 then j + 2 else if j < 20 then j + 3 else j + 4
  }

  /** Which hex digit stands at text position `i`, for `i` not a dash position. */
  function DigitAt(i: nat): nat
  {
    if i < 8 then i else if i < 13 then i - 1 else if i < 18 then i - 2 else if i < 23 then i - 3 else i - 4
  }

  /** `u.String()`: 8-4-4-4-12 lower-case hex digits. */
  function Format(u: Uuid): (s: string)
    ensures |s| == 36
  {
    Dashed(HexDigits(u, 32))
  }

  /** The 36-character case of `GoParse`: the canonical form, hex digits of either case; any other text is None here. */
  function Parse(s: string): (r: Option<Uuid>)
    ensures r.Some? ==> IsUuid(r.value)
  {
    if |s| == 36 && s[8] == '-' && s[13] == '-' && s[18] == '-' && s[23] == '-' then
      var h := Undashed(s);
      if AllHex(h) then Some(HexValue(h)) else None
    else None
  }

  /**
   * `uuid.Parse` of github.com/google/uuid: the 36-character form; the
   * 45-character form behind a `urn:uuid:` prefix of any case; a
   * 38-character form whose first and last characters are dropped unchecked
   * (meant for braces); or 32 hex digits without dashes. Anything else,
   * including every other length, is an error (None).
   */
  function GoParse(s: string): (r: Option<Uuid>)
    ensures r.Some? ==> IsUuid(r.value)
  {
    if |s| == 36 then Parse(s)
    else if |s| == 45 then (if Text.Lower(s[..9]) == "urn:uuid:" then Parse(s[9..]) else None)
    else if |s| == 38 then Parse(s[1..37])
    else if |s| == 32 then (if AllHex(s) then Some(HexValue(s)) else None)
    else None
  }

  /** Every UUID survives printing and parsing back. */
  lemma ParseFormat(u: Uuid)
    requires IsUuid(u)
    ensures Parse(Format(u)) == Some(u)
  {
    var h := HexDigits(u, 32);
    UndashedDashed(h);
    HexValueOfDigits(u, 32);
  }

  /** `uuid.Parse` reads back every text form of a UUID it accepts: canonical, braced, URN and bare hex. */
  lemma GoParseForms(u: Uuid, open: char, close: char)
    requires IsUuid(u)
    ensures GoParse(Format(u)) == Some(u)
    ensures GoParse([open] + Format(u) + [close]) == Some(u)
    ensures GoParse("urn:uuid:" + Format(u)) == Some(u)
    ensures GoParse("URN:UUID:" + Format(u)) == Some(u)
    ensures GoParse(HexDigits(u, 32)) == Some(u)
  {
    ParseFormat(u);
    GoParseBraced(u, open, close);
    assert Text.Lower("urn:uuid:") == "urn:uuid:";
    GoParseUrn(u, "urn:uuid:");
    assert Text.Lower("URN:UUID:") == "urn:uuid:";
    GoParseUrn(u, "URN:UUID:");
    HexValueOfDigits(u, 32);
  }

  /** The braces around a UUID are dropped unchecked. */
  lemma GoParseBraced(u: Uuid, open: char, close: char)
    requires IsUuid(u)
    ensures GoParse([open] + Format(u) + [close]) == Some(u)
  {
    ParseFormat(u);
    var f := Format(u);
    assert ([open] + f + [close])[1..37] == f;
  }

  /** The URN prefix is matched in any case. */
  lemma GoParseUrn(u: Uuid, prefix: string)
    requires IsUuid(u) && |prefix| == 9 && Text.Lower(prefix) == "urn:uuid:"
    ensures GoParse(prefix + Format(u)) == Some(u)
  {
    ParseFormat(u);
    var f := Format(u);
    assert (prefix + f)[9..] == f && (prefix + f)[..9] == prefix;
  }

  /** Every length other than 32, 36, 38 and 45 is rejected. */
  lemma GoParseLengths(s: string)
    requires GoParse(s).Some?
    ensures |s| in {32, 36, 38, 45}
  {
  }

  /**
   * Postgres's `uuid` input (`uuid_in`), which reads the text bound to
   * `guid = ?`: 32 hex digits of either case, a hyphen allowed after any
   * group of four digits but the last, the whole optionally in braces.
   * Anything else is a syntax error (None).
   */
  function PgParse(s: string): (r: Option<Uuid>)
    ensures r.Some? ==> IsUuid(r.value)
  {
    var body := if |s| >= 2 && s[0] == '{' && s[|s| - 1] == '}' then s[1..|s| - 1] else s;
    var h := PgDigits(body, 8);
    if h.Some? then Some(HexValue(h.value)) else None
  }

  /** The hex digits of `groups` groups of four, each but the last optionally followed by a hyphen, and nothing after. */
  function PgDigits(s: string, groups: nat): (r: Option<string>)
    ensures r.Some? ==> |r.value| == 4 * groups && AllHex(r.value)
    decreases groups
  {
    if groups == 0 then (if |s| == 0 then Some("") else None)
    else if |s| < 4 || !AllHex(s[..4]) then None
    else
      var rest := if groups > 1 && |s| > 4 && s[4] == '-' then s[5..] else s[4..];
      var tail := PgDigits(rest, groups - 1);
      if tail.None? then None else Some(s[..4] + tail.value)
  }

  /** Hex digits without hyphens are read as they stand. */
  lemma {:induction false} PgDigitsBare(h: string, groups: nat)
    requires |h| == 4 * groups && AllHex(h)
    ensures PgDigits(h, groups) == Some(h)
    decreases groups
  {
    if groups > 0 {
      PgDigitsBare(h[4..], groups - 1);
      assert h[..4] + h[4..] == h;
    }
  }

  /** One group read at position `i`, then the rest after an optional hyphen. */
  lemma PgDigitsAt(s: string, i: nat, groups: nat, tail: string)
    requires i + 4 <= |s| && AllHex(s[i..i + 4]) && groups >= 1
    requires var dash := groups > 1 && i + 4 < |s| && s[i + 4] == '-';
             PgDigits(if dash then s[i + 5..] else s[i + 4..], groups - 1) == Some(tail)
    ensures PgDigits(s[i..], groups) == Some(s[i..i + 4] + tail)
  {
    assert s[i..][..4] == s[i..i + 4];
    assert s[i..][4..] == s[i + 4..];
    if i + 4 < |s| {
      assert s[i..][5..] == s[i + 5..];
    }
  }

  /** Postgres reads back the canonical text of every UUID. */
  lemma PgParseFormat(u: Uuid)
    requires IsUuid(u)
    ensures PgParse(Format(u)) == Some(u)
  {
    var h := HexDigits(u, 32);
    var s := Format(u);
    UndashedDashed(h);
    assert s[8] == '-' && s[13] == '-' && s[18] == '-' && s[23] == '-';
    assert s[0] == h[0] && IsHex(s[0]);
    CanonicalDigits(s);
    HexValueOfDigits(u, 32);
  }

  /** The 32 digits of a text in canonical form, read group by group. */
  lemma CanonicalDigits(s: string)
    requires |s| == 36 && s[8] == '-' && s[13] == '-' && s[18] == '-' && s[23] == '-'
    requires AllHex(Undashed(s))
    ensures PgDigits(s, 8) == Some(Undashed(s))
  {
    GroupsAreHex(s);
    LastGroups(s);
    PgDigitsAt(s, 4, 7, s[9..13] + (s[14..18] + (s[19..23] + s[24..])));
    PgDigitsAt(s, 0, 8, s[4..8] + (s[9..13] + (s[14..18] + (s[19..23] + s[24..]))));
    assert s[0..] == s;
    GroupsAreDigits(s);
  }

  /** The text after the second hyphen of a canonical text, read group by group. */
  lemma LastGroups(s: string)
    requires |s| == 36 && s[13] == '-' && s[18] == '-' && s[23] == '-'
    requires AllHex(s[24..]) && AllHex(s[19..23]) && AllHex(s[14..18]) && AllHex(s[9..13])
    ensures PgDigits(s[9..], 6) == Some(s[9..13] + (s[14..18] + (s[19..23] + s[24..])))
  {
    PgDigitsBare(s[24..], 3);
    PgDigitsAt(s, 19, 4, s[24..]);
    PgDigitsAt(s, 14, 5, s[19..23] + s[24..]);
    PgDigitsAt(s, 9, 6, s[14..18] + (s[19..23] + s[24..]));
  }

  /** Each group of four digits of a canonical text is hex. */
  lemma GroupsAreHex(s: string)
    requires |s| == 36 && AllHex(Undashed(s))
    ensures AllHex(s[24..]) && AllHex(s[19..23]) && AllHex(s[14..18])
    ensures AllHex(s[9..13]) && AllHex(s[4..8]) && AllHex(s[0..4])
  {
    forall k | 0 <= k < 36 && !IsDashPos(k)
      ensures IsHex(s[k])
    {
      assert TextPos(DigitAt(k)) == k;
      assert Undashed(s)[DigitAt(k)] == s[k];
    }
  }

  /** The five groups of a canonical text, hyphens left out, are its 32 digits. */
  lemma GroupsAreDigits(s: string)
    requires |s| == 36
    ensures s[0..4] + (s[4..8] + (s[9..13] + (s[14..18] + (s[19..23] + s[24..])))) == Undashed(s)
  {
    var t := s[0..4] + (s[4..8] + (s[9..13] + (s[14..18] + (s[19..23] + s[24..]))));
    forall j | 0 <= j < 32
      ensures t[j] == Undashed(s)[j]
    {
      assert t[j] == s[TextPos(j)];
    }
  }

  /** Postgres reads 32 hex digits without hyphens. */
  lemma PgParseBare(u: Uuid)
    requires IsUuid(u)
    ensures PgParse(HexDigits(u, 32)) == Some(u)
  {
    var h := HexDigits(u, 32);
    assert IsHex(h[0]);
    PgDigitsBare(h, 8);
    HexValueOfDigits(u, 32);
  }

  /** Postgres reads the canonical text in braces. */
  lemma PgParseBraced(u: Uuid)
    requires IsUuid(u)
    ensures PgParse("{" + Format(u) + "}") == Some(u)
  {
    var f := Format(u);
    var s := "{" + f + "}";
    assert s[1..|s| - 1] == f;
    PgParseFormat(u);
  }

  /** Postgres refuses the URN form that `uuid.Parse` reads (see `GoParseForms`). */
  lemma PgParseRefusesUrn(u: Uuid)
    requires IsUuid(u)
    ensures PgParse("urn:uuid:" + Format(u)).None?
  {
    var s := "urn:uuid:" + Format(u);
    assert s[0] == 'u' && !IsHex(s[0]);
    NonHexStartRefused(s, 8);
  }

  /** A text that starts with anything but a hex digit has no digits to read. */
  lemma NonHexStartRefused(s: string, groups: nat)
    requires groups >= 1 && |s| >= 1 && !IsHex(s[0])
    ensures PgDigits(s, groups).None?
  {
    if |s| >= 4 {
      assert s[..4][0] == s[0];
    }
  }

  /** Distinct UUIDs print differently. */
  lemma FormatInjective(u: Uuid, v: Uuid)
    requires IsUuid(u) && IsUuid(v) && Format(u) == Format(v)
    ensures u == v
  {
    ParseFormat(u);
    ParseFormat(v);
  }
}
