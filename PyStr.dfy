/** The Python `str` operations the loaders use, on strings as sequences of characters. */
module PyStr {
  import opened Wrappers

  /** Number of occurrences of `c` in `s`. */
  function Count(s: string, c: char): nat
  {
    if s == [] then 0 else (if s[0] == c then 1 else 0) + Count(s[1..], c)
  }

  /** `s.split(sep)` for a one-character separator: one field per separator plus one,
      empty fields kept, and no field contains the separator. */
  function Split(s: string, sep: char): (parts: seq<string>)
    ensures |parts| == Count(s, sep) + 1
    ensures forall k :: 0 <= k < |parts| ==> sep !in parts[k]
  {
    if s == [] then [""]
    else
      var rest := Split(s[1..], sep);
      if s[0] == sep then [""] + rest
      else [[s[0]] + rest[0]] + rest[1..]
  }

  /** `sep.join(parts)`. */
  function Join(parts: seq<string>, sep: char): string
    requires |parts| > 0
  {
    if |parts| == 1 then parts[0] else parts[0] + [sep] + Join(parts[1..], sep)
  }

  lemma {:induction false} JoinConsHead(c: char, parts: seq<string>, sep: char)
    requires |parts| > 0
    ensures Join([[c] + parts[0]] + parts[1..], sep) == [c] + Join(parts, sep)
  {
    var ps := [[c] + parts[0]] + parts[1..];
    if |parts| > 1 {
      assert ps[1..] == parts[1..];
    }
  }

  /** Joining the fields of a split with the same separator gives back the string. */
  lemma {:induction false} JoinSplit(s: string, sep: char)
    ensures Join(Split(s, sep), sep) == s
  {
    if s != [] {
      JoinSplit(s[1..], sep);
      var rest := Split(s[1..], sep);
      if s[0] == sep {
        assert ([""] + rest)[1..] == rest;
        assert s == [sep] + s[1..];
      } else {
        JoinConsHead(s[0], rest, sep);
        assert s == [s[0]] + s[1..];
      }
    }
  }

  lemma {:induction false} SplitNoSep(x: string, sep: char)
    requires sep !in x
    ensures Split(x, sep) == [x]
  {
    if x != [] {
      assert sep !in x[1..];
      SplitNoSep(x[1..], sep);
      assert [x[0]] + x[1..] == x;
    }
  }

  lemma {:induction false} SplitAtSep(x: string, y: string, sep: char)
    requires sep !in x
    ensures Split(x + [sep] + y, sep) == [x] + Split(y, sep)
  {
    var s := x + [sep] + y;
    if x == [] {
      assert s[1..] == y;
    } else {
      assert s[1..] == x[1..] + [sep] + y;
      assert sep !in x[1..];
      SplitAtSep(x[1..], y, sep);
      assert [x[0]] + x[1..] == x;
    }
  }

  /** Splitting a join of separator-free fields gives back the fields. */
  lemma {:induction false} SplitJoin(parts: seq<string>, sep: char)
    requires |parts| > 0
    requires forall k :: 0 <= k < |parts| ==> sep !in parts[k]
    ensures Split(Join(parts, sep), sep) == parts
  {
    if |parts| == 1 {
      SplitNoSep(parts[0], sep);
    } else {
      SplitJoin(parts[1..], sep);
      SplitAtSep(parts[0], Join(parts[1..], sep), sep);
      assert [parts[0]] + parts[1..] == parts;
    }
  }

  /** `s.lstrip(c)`: drops the longest prefix made only of `c`. */
  function LStrip(s: string, c: char): (r: string)
    ensures |r| <= |s| && r == s[|s| - |r|..]
    ensures forall i :: 0 <= i < |s| - |r| ==> s[i] == c
    ensures r == [] || r[0] != c
  {
    if s != [] && s[0] == c then LStrip(s[1..], c) else s
  }

  /** `s.rstrip(c)`: drops the longest suffix made only of `c`. */
  function RStrip(s: string, c: char): (r: string)
    ensures |r| <= |s| && r == s[..|r|]
    ensures forall i :: |r| <= i < |s| ==> s[i] == c
    ensures r == [] || r[|r| - 1] != c
  {
    if s != [] && s[|s| - 1] == c then RStrip(s[..|s| - 1], c) else s
  }

  /** `s.strip(c)`: both ends. */
  function Strip(s: string, c: char): string
  {
    RStrip(LStrip(s, c), c)
  }

  /** The strip removes only `c` characters, and only at the two ends. */
  lemma {:induction false} StripSlice(s: string, c: char) returns (i: nat)
    ensures var r := Strip(s, c);
      && (r == [] || (r[0] != c && r[|r| - 1] != c))
      && i + |r| <= |s| && r == s[i..i + |r|]
      && (forall k :: 0 <= k < i ==> s[k] == c)
      && (forall k :: i + |r| <= k < |s| ==> s[k] == c)
  {
    var l := LStrip(s, c);
    i := |s| - |l|;
    var r := RStrip(l, c);
    assert Strip(s, c) == r;
    assert l == s[i..];
    assert r == l[..|r|];
    assert r == s[i..i + |r|];
    forall k | i + |r| <= k < |s| ensures s[k] == c {
      assert s[k] == l[k - i];
    }
  }

  /** The string contains `c` exactly when it counts at least one. */
  lemma {:induction false} CountIn(s: string, c: char)
    ensures Count(s, c) > 0 <==> c in s
  {
    if s != [] {
      CountIn(s[1..], c);
      assert s == [s[0]] + s[1..];
    }
  }

  /** A character other than the separator that no part contains is not in the join. */
  lemma {:induction false} JoinAvoids(parts: seq<string>, sep: char, c: char)
    requires |parts| > 0 && c != sep
    requires forall k :: 0 <= k < |parts| ==> c !in parts[k]
    ensures c !in Join(parts, sep)
  {
    if |parts| > 1 {
      JoinAvoids(parts[1..], sep, c);
    }
  }

  /** A string without `c` is left alone by the strip. */
  lemma {:induction false} StripAbsent(s: string, c: char)
    requires c !in s
    ensures Strip(s, c) == s
  {
  }

  lemma {:induction false} LStripAppend(s: string, x: char, c: char)
    ensures LStrip(s + [x], c) == if LStrip(s, c) == [] then LStrip([x], c) else LStrip(s, c) + [x]
  {
    if s != [] {
      assert (s + [x])[1..] == s[1..] + [x];
      if s[0] == c {
        LStripAppend(s[1..], x, c);
      }
    }
  }

  /** A trailing `c` does not change the strip. */
  lemma {:induction false} StripAppended(s: string, c: char)
    ensures Strip(s + [c], c) == Strip(s, c)
  {
    LStripAppend(s, c, c);
    var l := LStrip(s, c);
    if l == [] {
      assert LStrip([c], c) == LStrip([c][1..], c);
      assert [c][1..] == [];
    } else {
      assert LStrip(s + [c], c) == l + [c];
      assert RStrip(l + [c], c) == RStrip((l + [c])[..|l|], c);
      assert (l + [c])[..|l|] == l;
    }
  }

  /** A leading `c` does not change the strip. */
  lemma {:induction false} StripPrepended(s: string, c: char)
    ensures Strip([c] + s, c) == Strip(s, c)
  {
    assert ([c] + s)[1..] == s;
  }

  predicate IsDigit(ch: char) { '0' <= ch <= '9' }

  /** `s.isdigit()` restricted to ASCII digits: non-empty and digits only. */
  predicate IsDigits(s: string)
  {
    |s| > 0 && forall i :: 0 <= i < |s| ==> IsDigit(s[i])
  }

  function DigitValue(ch: char): nat
    requires IsDigit(ch)
  {
    ch as int - '0' as int
  }

  /** The decimal value of a string of digits. */
  function DigitsValue(s: string): nat
    requires forall i :: 0 <= i < |s| ==> IsDigit(s[i])
  {
    if s == [] then 0 else 10 * DigitsValue(s[..|s| - 1]) + DigitValue(s[|s| - 1])
  }

  /** `int(s)` for an optionally signed run of ASCII digits; anything else is a ValueError. */
  function ParseInt(s: string): Result<int, Error>
  {
    if |s| > 0 && s[0] == '-' && IsDigits(s[1..]) then Success(-(DigitsValue(s[1..]) as int))
    else if |s| > 0 && s[0] == '+' && IsDigits(s[1..]) then Success(DigitsValue(s[1..]))
    else if IsDigits(s) then Success(DigitsValue(s))
    else Failure(ValueError)
  }

  /** `str(n)` for a natural number. */
  function NatToDigits(n: nat): (r: string)
    ensures IsDigits(r)
  {
    if n < 10 then [('0' as int + n) as char]
    else NatToDigits(n / 10) + [('0' as int + n % 10) as char]
  }

  /** `str(n)` for any integer. */
  function FormatInt(n: int): string
  {
    if n < 0 then "-" + NatToDigits(-n) else NatToDigits(n)
  }

  lemma {:induction false} DigitsRoundTrip(n: nat)
    ensures DigitsValue(NatToDigits(n)) == n
  {
    if n >= 10 {
      DigitsRoundTrip(n / 10);
      var s := NatToDigits(n);
      assert s[..|s| - 1] == NatToDigits(n / 10);
    }
  }

  /** `int(str(n)) == n`. */
  lemma {:induction false} ParseFormat(n: int)
    ensures ParseInt(FormatInt(n)) == Success(n)
  {
    if n < 0 {
      DigitsRoundTrip(-n);
      assert FormatInt(n)[1..] == NatToDigits(-n);
    } else {
      DigitsRoundTrip(n);
      assert FormatInt(n)[0] != '-' && FormatInt(n)[0] != '+';
    }
  }
}
