/** The Python string builtins the trading bot relies on: `str()` of an
    integer, `str.join`/`str.split` on a one-character separator, `str.strip()`
    and `str.lower()`. */
module PyStr {
  import opened Wrappers

  predicate IsDigit(c: char) { '0' <= c <= '9' }

  predicate AllDigits(s: string) { forall i :: 0 <= i < |s| ==> IsDigit(s[i]) }

  function DigitChar(d: nat): (c: char)
    requires d < 10
    ensures IsDigit(c) && c as int - '0' as int == d
  {
    ('0' as int + d) as char
  }

  /** Decimal rendering of a natural number, most significant digit first,
      without leading zeros. */
  function NatToString(n: nat): (r: string)
    ensures |r| > 0 && AllDigits(r)
    ensures r[0] == '0' ==> n == 0
    ensures |r| > 1 ==> r[0] != '0'
    decreases n
  {
    if n < 10 then [DigitChar(n)] else NatToString(n / 10) + [DigitChar(n % 10)]
  }

  /** Python's `str(n)` for an `int`: a minus sign for negatives, then the digits. */
  function IntToString(n: int): (r: string)
    ensures |r| > 0
    ensures forall i :: 0 <= i < |r| ==> r[i] == '-' || IsDigit(r[i])
  {
    if n < 0 then "-" + NatToString(-n) else NatToString(n)
  }

  /** Value of a string of decimal digits. */
  function ParseNat(s: string): nat
    requires AllDigits(s)
    decreases |s|
  {
    if s == [] then 0 else 10 * ParseNat(s[..|s| - 1]) + (s[|s| - 1] as int - '0' as int)
  }

  /** Reads back an optionally signed decimal integer; `None` for anything else. */
  function ParseInt(s: string): Option<int>
  {
    if |s| > 1 && s[0] == '-' && AllDigits(s[1..]) then Some(-(ParseNat(s[1..]) as int))
    else if |s| > 0 && AllDigits(s) then Some(ParseNat(s))
    else None
  }

  lemma {:induction false} ParseNatToString(n: nat)
    ensures ParseNat(NatToString(n)) == n
    decreases n
  {
    if n >= 10 {
      var s := NatToString(n);
      assert s[..|s| - 1] == NatToString(n / 10);
      ParseNatToString(n / 10);
    }
  }

  /** `str()` of an integer can always be read back as that integer. */
  lemma ParseIntToString(n: int)
    ensures ParseInt(IntToString(n)) == Some(n)
  {
    if n < 0 {
      assert IntToString(n)[1..] == NatToString(-n);
      ParseNatToString(-n);
    } else {
      ParseNatToString(n);
    }
  }

  /** Two integers render alike exactly when they are equal. */
  lemma IntToStringInjective(a: int, b: int)
    ensures IntToString(a) == IntToString(b) <==> a == b
  {
    ParseIntToString(a);
    ParseIntToString(b);
  }

  /** `sep.join(parts)` for a one-character separator. */
  function Join(parts: seq<string>, sep: char): string
    decreases |parts|
  {
    if |parts| == 0 then ""
    else if |parts| == 1 then parts[0]
    else parts[0] + [sep] + Join(parts[1..], sep)
  }

  /** A join starts with the first part and ends with the last one, and with
      two parts or more the first part is followed by the separator. */
  lemma {:induction false} JoinShape(parts: seq<string>, sep: char)
    requires |parts| > 0
    ensures var r := Join(parts, sep);
            && parts[0] <= r
            && |parts[|parts| - 1]| <= |r| && r[|r| - |parts[|parts| - 1]|..] == parts[|parts| - 1]
            && (|parts| > 1 ==> |parts[0]| < |r| && r[|parts[0]|] == sep)
    decreases |parts|
  {
    if |parts| > 1 {
      var rest := Join(parts[1..], sep);
      JoinShape(parts[1..], sep);
      var r := parts[0] + [sep] + rest;
      assert r[|r| - |rest|..] == rest;
      assert r[|r| - |parts[|parts| - 1]|..] == rest[|rest| - |parts[|parts| - 1]|..];
    }
  }

  /** `s.split(sep)` for a one-character separator: every occurrence of `sep`
      separates two fields, so the result is never empty (`"".split(",") == [""]`). */
  function Split(s: string, sep: char): (r: seq<string>)
    ensures |r| > 0
    decreases |s|
  {
    if |s| == 0 then [""]
    else
      var rest := Split(s[1..], sep);
      if s[0] == sep then [""] + rest else [[s[0]] + rest[0]] + rest[1..]
  }

  lemma {:induction false} SplitWithoutSeparator(p: string, sep: char)
    requires sep !in p
    ensures Split(p, sep) == [p]
    decreases |p|
  {
    if |p| > 0 {
      SplitWithoutSeparator(p[1..], sep);
      assert [p[0]] + p[1..] == p;
    }
  }

  lemma {:induction false} SplitAfterField(p: string, t: string, sep: char)
    requires sep !in p
    ensures Split(p + [sep] + t, sep) == [p] + Split(t, sep)
    decreases |p|
  {
    var s := p + [sep] + t;
    if |p| == 0 {
      assert s[1..] == t;
    } else {
      assert s[1..] == p[1..] + [sep] + t;
      SplitAfterField(p[1..], t, sep);
      assert [p[0]] + p[1..] == p;
    }
  }

  /** Splitting a join gives back the parts, when no part holds the separator
      and there is at least one part. */
  lemma {:induction false} SplitJoin(parts: seq<string>, sep: char)
    requires |parts| > 0
    requires forall i :: 0 <= i < |parts| ==> sep !in parts[i]
    ensures Split(Join(parts, sep), sep) == parts
    decreases |parts|
  {
    if |parts| == 1 {
      SplitWithoutSeparator(parts[0], sep);
    } else {
      var rest := Join(parts[1..], sep);
      assert Join(parts, sep) == parts[0] + [sep] + rest;
      SplitAfterField(parts[0], rest, sep);
      SplitJoin(parts[1..], sep);
      assert [parts[0]] + parts[1..] == parts;
    }
  }

  /** Joining after an empty first field puts a separator in front. */
  lemma JoinEmptyFirst(rest: seq<string>, sep: char)
    requires |rest| > 0
    ensures Join([""] + rest, sep) == [sep] + Join(rest, sep)
  {
    assert ([""] + rest)[1..] == rest;
  }

  /** Joining after growing the first field by one character in front puts
      that character in front. */
  lemma JoinGrowFirst(c: char, rest: seq<string>, sep: char)
    requires |rest| > 0
    ensures Join([[c] + rest[0]] + rest[1..], sep) == [c] + Join(rest, sep)
  {
    var r := [[c] + rest[0]] + rest[1..];
    if |rest| > 1 {
      assert r[1..] == rest[1..];
      var tail := Join(rest[1..], sep);
      calc {
        Join(r, sep);
        ([c] + rest[0]) + [sep] + tail;
        [c] + (rest[0] + [sep] + tail);
        [c] + Join(rest, sep);
      }
    }
  }

  /** Joining the fields of a split gives back the string, for every string. */
  lemma {:induction false} JoinSplit(s: string, sep: char)
    ensures Join(Split(s, sep), sep) == s
    decreases |s|
  {
    if |s| > 0 {
      var rest := Split(s[1..], sep);
      JoinSplit(s[1..], sep);
      var t := s[1..];
      assert s == [s[0]] + t;
      if s[0] == sep {
        assert Split(s, sep) == [""] + rest;
        JoinEmptyFirst(rest, sep);
      } else {
        assert Split(s, sep) == [[s[0]] + rest[0]] + rest[1..];
        JoinGrowFirst(s[0], rest, sep);
      }
    }
  }

  /** The characters Python's `str.strip()` removes (`str.isspace`). */
  predicate IsSpace(c: char)
  {
    var k := c as int;
    (9 <= k <= 13) || (28 <= k <= 32) || k == 0x85 || k == 0xA0 || k == 0x1680
    || (0x2000 <= k <= 0x200A) || k == 0x2028 || k == 0x2029 || k == 0x202F
    || k == 0x205F || k == 0x3000
  }

  predicate AllSpace(s: string) { forall i :: 0 <= i < |s| ==> IsSpace(s[i]) }

  /** Removes leading whitespace: the result is a suffix of `s`, what was cut
      is all whitespace, and the result does not start with whitespace. */
  function StripLeft(s: string): (r: string)
    ensures |r| <= |s|
    ensures r == s[|s| - |r|..]
    ensures AllSpace(s[..|s| - |r|])
    ensures r == [] || !IsSpace(r[0])
    decreases |s|
  {
    if |s| == 0 || !IsSpace(s[0]) then s
    else
      var r := StripLeft(s[1..]);
      SpaceThenSuffix(s, s[1..], r);
      r
  }

  /** Whitespace followed by whitespace and then `r` is whitespace and then `r`. */
  lemma SpaceThenSuffix(s: string, t: string, r: string)
    requires |s| > 0 && IsSpace(s[0]) && t == s[1..]
    requires |r| <= |t| && r == t[|t| - |r|..] && AllSpace(t[..|t| - |r|])
    ensures r == s[|s| - |r|..] && AllSpace(s[..|s| - |r|])
  {
    assert s[..|s| - |r|] == [s[0]] + t[..|t| - |r|];
  }

  /** Removes trailing whitespace: the result is a prefix of `s`, what was cut
      is all whitespace, and the result does not end with whitespace. */
  function StripRight(s: string): (r: string)
    ensures |r| <= |s| && r == s[..|r|]
    ensures AllSpace(s[|r|..])
    ensures r == [] || !IsSpace(r[|r| - 1])
    decreases |s|
  {
    if |s| > 0 && IsSpace(s[|s| - 1]) then
      var r := StripRight(s[..|s| - 1]);
      PrefixThenSpace(s, s[..|s| - 1], r);
      r
    else s
  }

  /** `r`, then whitespace, then whitespace is `r` and then whitespace. */
  lemma PrefixThenSpace(s: string, t: string, r: string)
    requires |s| > 0 && IsSpace(s[|s| - 1]) && t == s[..|s| - 1]
    requires |r| <= |t| && r == t[..|r|] && AllSpace(t[|r|..])
    ensures r == s[..|r|] && AllSpace(s[|r|..])
  {
    assert s[|r|..] == t[|r|..] + [s[|s| - 1]];
  }

  /** A prefix `r` of a suffix `l` of `s`, cut off by whitespace on both
      sides, is a slice of `s` with whitespace around it. */
  lemma SliceOfSuffix(s: string, l: string, r: string, k: nat)
    requires k <= |s| && l == s[k..] && AllSpace(s[..k]) && (l == [] || !IsSpace(l[0]))
    requires |r| <= |l| && r == l[..|r|] && AllSpace(l[|r|..]) && (r == [] || !IsSpace(r[|r| - 1]))
    ensures k + |r| <= |s| && r == s[k..k + |r|] && AllSpace(s[..k]) && AllSpace(s[k + |r|..])
    ensures r == [] || (!IsSpace(r[0]) && !IsSpace(r[|r| - 1]))
  {
    assert s[k + |r|..] == l[|r|..];
    if r != [] {
      assert r[0] == l[0];
    }
  }

  /** The leading whitespace of `s` is exactly its first `k` characters. */
  predicate LeadingSpaceEnds(s: string, k: nat)
  {
    k <= |s| && AllSpace(s[..k]) && (k == |s| || !IsSpace(s[k]))
  }

  /** Strips `s` from offset `k`, where its leading whitespace ends. */
  function StripFrom(s: string, k: nat): (r: string)
    requires LeadingSpaceEnds(s, k)
    ensures exists j :: 0 <= j <= |s| - |r| && r == s[j..j + |r|]
                        && AllSpace(s[..j]) && AllSpace(s[j + |r|..])
    ensures r == [] || (!IsSpace(r[0]) && !IsSpace(r[|r| - 1]))
  {
    var r := StripRight(s[k..]);
    SliceOfSuffix(s, s[k..], r, k);
    r
  }

  /** A suffix that does not start with whitespace starts at a non-space. */
  lemma LeftEnd(s: string, l: string)
    requires |l| <= |s| && l == s[|s| - |l|..] && AllSpace(s[..|s| - |l|]) && (l == [] || !IsSpace(l[0]))
    ensures LeadingSpaceEnds(s, |s| - |l|)
  {
    if l != [] { assert s[|s| - |l|] == l[0]; }
  }

  /** The length of the leading whitespace of `s`. */
  function LeadingSpace(s: string): (k: nat)
    ensures LeadingSpaceEnds(s, k)
  {
    var l := StripLeft(s);
    LeftEnd(s, l);
    |s| - |l|
  }

  /** Python's `s.strip()`: the result is a slice of `s` with only whitespace
      before and after it, and it neither starts nor ends with whitespace. */
  function Strip(s: string): (r: string)
    ensures exists k :: 0 <= k <= |s| - |r| && r == s[k..k + |r|]
                        && AllSpace(s[..k]) && AllSpace(s[k + |r|..])
    ensures r == [] || (!IsSpace(r[0]) && !IsSpace(r[|r| - 1]))
  {
    StripFrom(s, LeadingSpace(s))
  }

  /** Leading whitespace up to the first other character is what `StripLeft` removes. */
  lemma StripLeftAt(s: string, i: nat)
    requires i < |s| && AllSpace(s[..i]) && !IsSpace(s[i])
    ensures StripLeft(s) == s[i..]
  {
    var k := |s| - |StripLeft(s)|;
    assert forall j :: 0 <= j < i ==> IsSpace(s[j]) by {
      forall j | 0 <= j < i ensures IsSpace(s[j]) { assert s[..i][j] == s[j]; }
    }
    assert forall j :: 0 <= j < k ==> IsSpace(s[j]) by {
      forall j | 0 <= j < k ensures IsSpace(s[j]) { assert s[..k][j] == s[j]; }
    }
    assert k < |s| ==> StripLeft(s)[0] == s[k];
    if k != i {
      assert false;
    }
  }

  /** A character followed only by whitespace is what `StripRight` keeps. */
  lemma StripRightOne(s: string)
    requires |s| > 0 && !IsSpace(s[0]) && AllSpace(s[1..])
    ensures StripRight(s) == s[..1]
  {
    var t := StripRight(s);
    assert forall j :: 1 <= j < |s| ==> IsSpace(s[j]) by {
      forall j | 1 <= j < |s| ensures IsSpace(s[j]) { assert s[1..][j - 1] == s[j]; }
    }
    assert |t| > 0 ==> t[|t| - 1] == s[|t| - 1];
    if |t| != 1 {
      assert false;
    }
  }

  function LowerChar(c: char): char
  {
    if 'A' <= c <= 'Z' then (c as int + 32) as char else c
  }

  /** Python's `s.lower()` on ASCII letters; other characters are kept. */
  function Lower(s: string): (r: string)
    ensures |r| == |s|
    ensures forall i :: 0 <= i < |s| ==> !('A' <= r[i] <= 'Z')
    ensures forall i :: 0 <= i < |s| ==>
      if 'A' <= s[i] <= 'Z' then r[i] as int == s[i] as int + 32 else r[i] == s[i]
  {
    seq(|s|, i requires 0 <= i < |s| => LowerChar(s[i]))
  }

  /** Only `y` and `Y` lower-case to `y`. */
  lemma LowerIsY(t: string)
    ensures Lower(t) == "y" <==> t == "y" || t == "Y"
  {
    if |t| == 1 {
      assert Lower(t) == [LowerChar(t[0])];
    }
  }
}
