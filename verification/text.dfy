/** String helpers with PHP's meaning: `implode`, `explode` on a one-character
    delimiter, `trim` with a character list, `str_starts_with`/`str_ends_with`,
    and the decimal rendering of integers used when PHP turns an int into a
    string. */
module Text {
  import opened Wrappers

  /** `implode(sep, parts)`: the parts with `sep` between neighbours. */
  function Join(sep: string, parts: seq<string>): string
  {
    if |parts| == 0 then ""
    else if |parts| == 1 then parts[0]
    else parts[0] + sep + Join(sep, parts[1..])
  }

  /** `explode(c, s)`: the maximal runs of `s` between occurrences of `c`.
      Like PHP, the empty string explodes to one empty piece. */
  function Split(s: string, c: char): (r: seq<string>)
    ensures |r| >= 1
    ensures forall i :: 0 <= i < |r| ==> c !in r[i]
    decreases |s|
  {
    if |s| == 0 then [""]
    else
      var rest := Split(s[1..], c);
      if s[0] == c then [""] + rest
      else [[s[0]] + rest[0]] + rest[1..]
  }

  lemma JoinCons(sep: string, p: string, q: seq<string>)
    requires |q| >= 1
    ensures Join(sep, [p] + q) == p + sep + Join(sep, q)
  {
    assert ([p] + q)[1..] == q;
  }

  /** Exploding and imploding again gives back the original text. */
  lemma {:induction false} JoinSplit(s: string, c: char)
    ensures Join([c], Split(s, c)) == s
    decreases |s|
  {
    if |s| == 0 {
    } else {
      var rest := Split(s[1..], c);
      JoinSplit(s[1..], c);
      if s[0] == c {
        JoinCons([c], "", rest);
        assert s == [c] + s[1..];
      } else if |rest| == 1 {
        assert Split(s, c) == [[s[0]] + rest[0]];
        assert s == [s[0]] + s[1..];
      } else {
        JoinCons([c], rest[0], rest[1..]);
        assert rest == [rest[0]] + rest[1..];
        JoinCons([c], [s[0]] + rest[0], rest[1..]);
        assert Split(s, c) == [[s[0]] + rest[0]] + rest[1..];
        assert s == [s[0]] + s[1..];
      }
    }
  }

  /** Exploding a text whose first piece `p` holds no delimiter. */
  lemma {:induction false} SplitAfterPiece(p: string, t: string, c: char)
    requires c !in p
    ensures Split(p + t, c) == [p + Split(t, c)[0]] + Split(t, c)[1..]
    decreases |p|
  {
    if |p| == 0 {
      assert p + t == t;
      assert Split(t, c) == [Split(t, c)[0]] + Split(t, c)[1..];
      assert p + Split(t, c)[0] == Split(t, c)[0];
    } else {
      SplitAfterPiece(p[1..], t, c);
      assert (p + t)[1..] == p[1..] + t;
      assert (p + t)[0] == p[0];
      assert [p[0]] + (p[1..] + Split(t, c)[0]) == p + Split(t, c)[0];
    }
  }

  /** Imploding delimiter-free parts and exploding again gives back the parts. */
  lemma {:induction false} SplitJoin(parts: seq<string>, c: char)
    requires |parts| >= 1
    requires forall i :: 0 <= i < |parts| ==> c !in parts[i]
    ensures Split(Join([c], parts), c) == parts
    decreases |parts|
  {
    if |parts| == 1 {
      SplitAfterPiece(parts[0], "", c);
      assert parts[0] + "" == parts[0];
    } else {
      var tail := parts[1..];
      SplitJoin(tail, c);
      JoinCons([c], parts[0], tail);
      var t := Join([c], tail);
      assert parts[0] + [c] + t == parts[0] + ([c] + t);
      SplitAfterPiece(parts[0], [c] + t, c);
      assert ([c] + t)[1..] == t;
      assert ([c] + t)[0] == c;
      assert Split([c] + t, c) == [""] + Split(t, c);
      assert parts[0] + "" == parts[0];
      assert parts == [parts[0]] + tail;
    }
  }

  /** Length of the run at the front of `s` made only of characters in `cs`. */
  function LeadingRun(s: string, cs: set<char>): (n: nat)
    ensures n <= |s|
    ensures forall i :: 0 <= i < n ==> s[i] in cs
    ensures n < |s| ==> s[n] !in cs
    decreases |s|
  {
    if |s| > 0 && s[0] in cs then 1 + LeadingRun(s[1..], cs) else 0
  }

  /** Length of the run at the back of `s` made only of characters in `cs`. */
  function TrailingRun(s: string, cs: set<char>): (n: nat)
    ensures n <= |s|
    ensures forall i :: |s| - n <= i < |s| ==> s[i] in cs
    ensures n < |s| ==> s[|s| - n - 1] !in cs
    decreases |s|
  {
    if |s| > 0 && s[|s| - 1] in cs then 1 + TrailingRun(s[..|s| - 1], cs) else 0
  }

  /** `trim(s, cs)`: strip every leading and trailing character that is in `cs`. */
  function Trim(s: string, cs: set<char>): (r: string)
    ensures |r| <= |s| - LeadingRun(s, cs)
    ensures r == s[LeadingRun(s, cs)..LeadingRun(s, cs) + |r|]
    ensures forall i :: 0 <= i < LeadingRun(s, cs) ==> s[i] in cs
    ensures forall i :: LeadingRun(s, cs) + |r| <= i < |s| ==> s[i] in cs
    ensures |r| > 0 ==> r[0] !in cs && r[|r| - 1] !in cs
  {
    var lead := LeadingRun(s, cs);
    var t := s[lead..];
    var r := t[..|t| - TrailingRun(t, cs)];
    assert forall i :: lead + |r| <= i < |s| ==> s[i] == t[i - lead];
    r
  }

  /** Text whose ends are not in `cs` is its own trim. */
  lemma TrimUntrimmed(s: string, cs: set<char>)
    requires |s| > 0 ==> s[0] !in cs && s[|s| - 1] !in cs
    ensures Trim(s, cs) == s
  {
    var r := Trim(s, cs);
    assert LeadingRun(s, cs) == 0;
  }

  /** Trimming twice is trimming once. */
  lemma TrimIdempotent(s: string, cs: set<char>)
    ensures Trim(Trim(s, cs), cs) == Trim(s, cs)
  {
    TrimUntrimmed(Trim(s, cs), cs);
  }

  /** Trimming strips one stripped character from each side of a text whose
      own ends are kept. */
  lemma TrimEnclosed(a: char, inner: string, b: char, cs: set<char>)
    requires a in cs && b in cs
    requires |inner| > 0 ==> inner[0] !in cs && inner[|inner| - 1] !in cs
    ensures Trim([a] + inner + [b], cs) == inner
  {
    var s := [a] + inner + [b];
    var n := LeadingRun(s, cs);
    var r := Trim(s, cs);
    if |inner| > 0 {
      assert s[1] == inner[0];
      assert n == 1;
      assert s[|s| - 2] == inner[|inner| - 1];
      assert |r| == |inner|;
      assert r == s[1..1 + |inner|];
    } else {
      assert n == 2;
    }
  }

  /** The characters PHP's `trim` strips when no list is given. */
  const Whitespace: set<char> := {' ', '\t', '\n', '\r', '\0', '\U{000B}'}

  predicate StartsWith(s: string, prefix: string)
  {
    |prefix| <= |s| && s[..|prefix|] == prefix
  }

  predicate EndsWith(s: string, suffix: string)
  {
    |suffix| <= |s| && s[|s| - |suffix|..] == suffix
  }

  predicate IsDigit(ch: char)
  {
    '0' <= ch <= '9'
  }

  predicate IsDigits(s: string)
  {
    forall i :: 0 <= i < |s| ==> IsDigit(s[i])
  }

  function DigitChar(d: nat): (ch: char)
    requires d < 10
    ensures IsDigit(ch)
    ensures (ch as int) - ('0' as int) == d
  {
    (('0' as int) + d) as char
  }

  /** The value of a string of decimal digits, most significant first. */
  function DigitsValue(s: string): nat
    requires IsDigits(s)
  {
    if |s| == 0 then 0
    else DigitsValue(s[..|s| - 1]) * 10 + ((s[|s| - 1] as int) - ('0' as int))
  }

  /** The shortest decimal rendering of `n`, as PHP prints a non-negative int. */
  function Decimal(n: nat): (r: string)
    ensures |r| >= 1
    ensures IsDigits(r)
    decreases n
  {
    if n < 10 then [DigitChar(n)] else Decimal(n / 10) + [DigitChar(n % 10)]
  }

  lemma {:induction false} DecimalValue(n: nat)
    ensures DigitsValue(Decimal(n)) == n
    decreases n
  {
    if n >= 10 {
      DecimalValue(n / 10);
      var r := Decimal(n);
      assert r[..|r| - 1] == Decimal(n / 10);
    }
  }

  /** `s` left-padded with '0' to at least `width` characters. */
  function ZeroPad(s: string, width: nat): (r: string)
    ensures |r| == if |s| < width then width else |s|
    ensures EndsWith(r, s)
    ensures forall i :: 0 <= i < |r| - |s| ==> r[i] == '0'
  {
    if |s| < width then Zeros(width - |s|) + s else s
  }

  lemma {:induction false} LeadingZerosValue(z: nat, s: string)
    requires IsDigits(s)
    ensures IsDigits(Zeros(z) + s)
    ensures DigitsValue(Zeros(z) + s) == DigitsValue(s)
    decreases |s|
  {
    var w := Zeros(z) + s;
    if |s| == 0 {
      ZerosValue(z);
      assert w == Zeros(z);
    } else {
      LeadingZerosValue(z, s[..|s| - 1]);
      assert w[..|w| - 1] == Zeros(z) + s[..|s| - 1];
      assert w[|w| - 1] == s[|s| - 1];
    }
  }

  function Zeros(z: nat): (r: string)
    ensures |r| == z
    ensures forall i :: 0 <= i < z ==> r[i] == '0'
  {
    if z == 0 then "" else Zeros(z - 1) + ['0']
  }

  lemma {:induction false} ZerosValue(z: nat)
    ensures IsDigits(Zeros(z))
    ensures DigitsValue(Zeros(z)) == 0
  {
    if z > 0 {
      ZerosValue(z - 1);
      assert Zeros(z)[..z - 1] == Zeros(z - 1);
    }
  }

  /** Zero-padding a digit string does not change the number it denotes. */
  lemma ZeroPadValue(s: string, width: nat)
    requires IsDigits(s)
    ensures IsDigits(ZeroPad(s, width))
    ensures DigitsValue(ZeroPad(s, width)) == DigitsValue(s)
  {
    var r := ZeroPad(s, width);
    var z := |r| - |s|;
    assert r == Zeros(z) + s;
    LeadingZerosValue(z, s);
  }

  /** PHP's string form of an int: an optional '-' and the decimal digits. */
  function IntToDecimal(n: int): (r: string)
    ensures |r| >= 1
    ensures n >= 0 <==> IsDigit(r[0])
  {
    if n < 0 then "-" + Decimal(-n) else Decimal(n)
  }

  /** Reads back an integer written by `IntToDecimal`. */
  function ParseInt(s: string): Option<int>
  {
    if |s| >= 2 && s[0] == '-' && IsDigits(s[1..]) then Some(0 - DigitsValue(s[1..]) as int)
    else if |s| >= 1 && IsDigits(s) then Some(DigitsValue(s))
    else None
  }

  lemma IntToDecimalRoundTrip(n: int)
    ensures ParseInt(IntToDecimal(n)) == Some(n)
  {
    if n < 0 {
      DecimalValue(-n);
      assert IntToDecimal(n)[1..] == Decimal(-n);
    } else {
      DecimalValue(n);
    }
  }
}
