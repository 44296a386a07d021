/**
 * String helpers the Go code takes from its standard library: `strings.Join`,
 * `strings.Split` on a one-character separator, `strings.TrimPrefix`, ASCII
 * case folding (the `ILIKE '%q%'` matches of the SQL queries), `fmt`'s `%d`
 * and `strconv.ParseInt(s, 10, 64)`.
 *
 * A Dafny `string` stands for a Go string: each `char` is one byte of it.
 */
module Text {
  import opened Wrappers

  // ---------------------------------------------------------------- Join / Split

  /** `strings.Join(parts, sep)`. */
  function Join(parts: seq<string>, sep: string): string
  {
    if |parts| == 0 then ""
    else if |parts| == 1 then parts[0]
    else parts[0] + sep + Join(parts[1..], sep)
  }

  /** `strings.Split(s, [c])`: the fields between occurrences of `c`; "" gives [""]. */
  function Split(s: string, c: char): (r: seq<string>)
    ensures |r| >= 1
    decreases |s|
  {
    if |s| == 0 then [""]
    else
      var rest := Split(s[1..], c);
      if s[0] == c then [""] + rest else [[s[0]] + rest[0]] + rest[1..]
  }

  /** Splitting `p + t` where `p` has no separator glues `p` onto the first field of `t`. */
  lemma {:induction false} SplitPrefix(p: string, t: string, c: char)
    requires c !in p
    ensures Split(p + t, c) == [p + Split(t, c)[0]] + Split(t, c)[1..]
    decreases |p|
  {
    if |p| == 0 {
      assert p + t == t;
      var r := Split(t, c);
      assert p + r[0] == r[0];
      assert [r[0]] + r[1..] == r;
    } else {
      assert (p + t)[1..] == p[1..] + t;
      assert (p + t)[0] == p[0];
      SplitPrefix(p[1..], t, c);
      assert [p[0]] + (p[1..] + Split(t, c)[0]) == p + Split(t, c)[0];
    }
  }

  /** Joining one more part appends the separator and the part. */
  lemma {:induction false} JoinSnoc(parts: seq<string>, x: string, sep: string)
    ensures Join(parts + [x], sep) == if |parts| == 0 then x else Join(parts, sep) + sep + x
    decreases |parts|
  {
    if |parts| == 0 {
      assert parts + [x] == [x];
    } else if |parts| == 1 {
      assert (parts + [x])[1..] == [x];
    } else {
      assert (parts + [x])[1..] == parts[1..] + [x];
      JoinSnoc(parts[1..], x, sep);
    }
  }

  /** Joining two non-empty lists of parts puts one separator between their joins. */
  lemma {:induction false} JoinAppend(p: seq<string>, q: seq<string>, sep: string)
    requires |p| >= 1 && |q| >= 1
    ensures Join(p + q, sep) == Join(p, sep) + sep + Join(q, sep)
    decreases |q|
  {
    var last := q[|q| - 1];
    var init := q[..|q| - 1];
    assert q == init + [last];
    assert p + q == (p + init) + [last];
    JoinSnoc(p + init, last, sep);
    JoinSnoc(init, last, sep);
    if |init| >= 1 {
      JoinAppend(p, init, sep);
    } else {
      assert p + init == p;
    }
  }

  /** Joining a split recovers the string. */
  lemma {:induction false} JoinOfSplit(s: string, c: char)
    ensures Join(Split(s, c), [c]) == s
    decreases |s|
  {
    if |s| > 0 {
      JoinOfSplit(s[1..], c);
      var rest := Split(s[1..], c);
      if s[0] == c {
        calc {
          Join([""] + rest, [c]);
          "" + [c] + Join(rest, [c]);
          [s[0]] + s[1..];
          s;
        }
      } else {
        if |rest| == 1 {
          assert Join(rest, [c]) == rest[0];
          assert Split(s, c) == [[s[0]] + rest[0]];
        } else {
          assert Join(rest, [c]) == rest[0] + [c] + Join(rest[1..], [c]);
          assert Split(s, c)[1..] == rest[1..];
        }
        assert [s[0]] + s[1..] == s;
      }
    }
  }

  /** Splitting the join of fields that do not contain the separator gives the fields back. */
  lemma {:induction false} SplitOfJoin(parts: seq<string>, c: char)
    requires |parts| >= 1
    requires forall i :: 0 <= i < |parts| ==> c !in parts[i]
    ensures Split(Join(parts, [c]), c) == parts
    decreases |parts|
  {
    if |parts| == 1 {
      SplitPrefix(parts[0], "", c);
      assert parts[0] + "" == parts[0];
    } else {
      var tail := Join(parts[1..], [c]);
      SplitOfJoin(parts[1..], c);
      assert Join(parts, [c]) == parts[0] + ([c] + tail);
      SplitPrefix(parts[0], [c] + tail, c);
      assert ([c] + tail)[1..] == tail;
      assert Split([c] + tail, c) == [""] + parts[1..];
      assert parts[0] + "" == parts[0];
      assert [parts[0]] + parts[1..] == parts;
    }
  }

  /** No field of a split contains the separator. */
  lemma {:induction false} SplitFieldsFree(s: string, c: char)
    ensures forall i :: 0 <= i < |Split(s, c)| ==> c !in Split(s, c)[i]
    decreases |s|
  {
    if |s| > 0 {
      SplitFieldsFree(s[1..], c);
    }
  }

  /** `strings.Contains(hay, needle)`: `needle` occurs in `hay`, case-sensitively. */
  predicate Contains(hay: string, needle: string)
    decreases |hay|
  {
    if |needle| > |hay| then false
    else hay[..|needle|] == needle || Contains(hay[1..], needle)
  }

  /** `strings.TrimPrefix(s, prefix)`. */
  function TrimPrefix(s: string, prefix: string): (r: string)
    ensures |prefix| <= |s| && s[..|prefix|] == prefix ==> prefix + r == s
    ensures !(|prefix| <= |s| && s[..|prefix|] == prefix) ==> r == s
  {
    if |prefix| <= |s| && s[..|prefix|] == prefix then s[|prefix|..] else s
  }

  // ---------------------------------------------------------------- case folding

  function LowerChar(ch: char): char
  {
    if 'A' <= ch <= 'Z' then (ch as int + 32) as char else ch
  }

  /** ASCII lower-casing. */
  function Lower(s: string): (r: string)
    ensures |r| == |s|
    ensures forall i :: 0 <= i < |s| ==> r[i] == LowerChar(s[i])
  {
    seq(|s|, i requires 0 <= i < |s| => LowerChar(s[i]))
  }

  /** `needle` matches `hay` at offset `i`, ignoring ASCII case. */
  ghost predicate MatchesFoldAt(hay: string, needle: string, i: int)
  {
    0 <= i && i + |needle| <= |hay| && Lower(hay[i..i + |needle|]) == Lower(needle)
  }

  /**
   * `hay ILIKE '%' || needle || '%'`, for a needle without wildcard characters:
   * some window of `hay` equals `needle` up to ASCII case.
   */
  function ContainsFold(hay: string, needle: string): bool
    decreases |hay|
  {
    if |needle| > |hay| then false
    else Lower(hay[..|needle|]) == Lower(needle) || ContainsFold(hay[1..], needle)
  }

  lemma {:induction false} ContainsFoldMeans(hay: string, needle: string)
    ensures ContainsFold(hay, needle) <==> exists i :: MatchesFoldAt(hay, needle, i)
    decreases |hay|
  {
    if |needle| > |hay| {
      assert forall i :: !MatchesFoldAt(hay, needle, i);
    } else if |hay| == 0 {
      assert hay[0..0 + |needle|] == hay[..|needle|];
      assert MatchesFoldAt(hay, needle, 0);
    } else {
      ContainsFoldMeans(hay[1..], needle);
      if ContainsFold(hay, needle) {
        if Lower(hay[..|needle|]) == Lower(needle) {
          assert hay[0..0 + |needle|] == hay[..|needle|];
          assert MatchesFoldAt(hay, needle, 0);
        } else {
          var j :| MatchesFoldAt(hay[1..], needle, j);
          assert hay[1..][j..j + |needle|] == hay[j + 1..j + 1 + |needle|];
          assert MatchesFoldAt(hay, needle, j + 1);
        }
      }
      forall i | MatchesFoldAt(hay, needle, i)
        ensures ContainsFold(hay, needle)
      {
        if i == 0 {
          assert hay[0..0 + |needle|] == hay[..|needle|];
        } else {
          assert hay[1..][i - 1..i - 1 + |needle|] == hay[i..i + |needle|];
          assert MatchesFoldAt(hay[1..], needle, i - 1);
        }
      }
    }
  }

  /** The empty pattern `'%%'` matches every string. */
  lemma EmptyNeedleMatches(hay: string)
    ensures ContainsFold(hay, "")
  {
    assert Lower(hay[..0]) == Lower("");
  }

  /**
   * Byte-wise lexicographic order, the order of Postgres `ORDER BY` on text
   * under the C collation.
   */
  predicate LexLe(a: string, b: string)
    decreases |a|
  {
    |a| == 0 || (|b| > 0 && (a[0] < b[0] || (a[0] == b[0] && LexLe(a[1..], b[1..]))))
  }

  lemma {:induction false} LexLeTotal(a: string, b: string)
    ensures LexLe(a, b) || LexLe(b, a)
    decreases |a|
  {
    if |a| > 0 && |b| > 0 && a[0] == b[0] {
      LexLeTotal(a[1..], b[1..]);
    }
  }

  lemma {:induction false} LexLeTransitive(a: string, b: string, c: string)
    requires LexLe(a, b) && LexLe(b, c)
    ensures LexLe(a, c)
    decreases |a|
  {
    if |a| > 0 && a[0] == b[0] && b[0] == c[0] {
      LexLeTransitive(a[1..], b[1..], c[1..]);
    }
  }

  // ---------------------------------------------------------------- decimal numbers

  const MinInt64: int := -0x8000_0000_0000_0000
  const MaxInt64: int := 0x7FFF_FFFF_FFFF_FFFF

  predicate IsDigit(ch: char)
  {
    '0' <= ch <= '9'
  }

  predicate AllDigits(s: string)
  {
    forall i :: 0 <= i < |s| ==> IsDigit(s[i])
  }

  function DigitChar(d: nat): char
    requires d < 10
  {
    ('0' as int + d) as char
  }

  /** The decimal digits of `n`, most significant first, without leading zeros. */
  function Digits(n: nat): (r: string)
    ensures |r| >= 1 && AllDigits(r)
  {
    if n < 10 then [DigitChar(n)] else Digits(n / 10) + [DigitChar(n % 10)]
  }

  /** `fmt`'s `%d` of an `int`. */
  function FormatInt(n: int): string
  {
    if n < 0 then "-" + Digits(-n) else Digits(n)
  }

  /** The value of a string of decimal digits (leading zeros allowed). */
  function DigitsValue(s: string): nat
    requires AllDigits(s)
  {
    if |s| == 0 then 0
    else DigitsValue(s[..|s| - 1]) * 10 + (s[|s| - 1] as int - '0' as int)
  }

  lemma {:induction false} DigitsValueOfDigits(n: nat)
    ensures DigitsValue(Digits(n)) == n
  {
    if n >= 10 {
      var s := Digits(n);
      assert s[..|s| - 1] == Digits(n / 10);
      DigitsValueOfDigits(n / 10);
    }
  }

  /**
   * `strconv.ParseInt(s, 10, 64)`: an optional sign, then one or more decimal
   * digits, with a value in the 64-bit range; anything else is an error (None).
   */
  function ParseInt64(s: string): (r: Option<int>)
    ensures r.Some? ==> MinInt64 <= r.value <= MaxInt64
  {
    if |s| == 0 then None
    else
      var neg := s[0] == '-';
      var body := if s[0] == '+' || s[0] == '-' then s[1..] else s;
      if |body| == 0 || !AllDigits(body) then None
      else
        var u := DigitsValue(body);
        if !neg && u > MaxInt64 then None
        else if neg && u > -MinInt64 then None
        else
          var v: int := if neg then -(u as int) else u;
          Some(v)
  }

  /** Every 64-bit integer survives printing with `%d` and parsing back. */
  lemma ParseFormatInt(n: int)
    requires MinInt64 <= n <= MaxInt64
    ensures ParseInt64(FormatInt(n)) == Some(n)
  {
    var s := FormatInt(n);
    if n < 0 {
      assert s[0] == '-';
      assert s[1..] == Digits(-n);
      DigitsValueOfDigits(-n);
    } else {
      assert IsDigit(s[0]);
      DigitsValueOfDigits(n);
    }
  }

  /** A decimal integer outside the 64-bit range is an error, not a wrapped value. */
  lemma ParseRejectsOutOfRange(n: int)
    requires n < MinInt64 || MaxInt64 < n
    ensures ParseInt64(FormatInt(n)) == None
  {
    var s := FormatInt(n);
    if n < 0 {
      assert s[0] == '-';
      assert s[1..] == Digits(-n);
      DigitsValueOfDigits(-n);
    } else {
      assert IsDigit(s[0]);
      DigitsValueOfDigits(n);
    }
  }
}
